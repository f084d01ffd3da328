# Elegance, verified

A Dafny model of the stateful parts of Elegance, a C++ network library: the path of an
object from its generated `Serialize` through byte queue, type-name envelope, length-prefixed
frames and arbitrary socket chunks back to an object; the request ids and callbacks of an RPC
session; the connection table of the network manager and its two delivery modes; the memory
pools; the Linux thread pool; and the IOCP send queue.

`dafny verify dfyconfig.toml` checks everything. Code that changes state step by step is
modelled by classes and methods whose `ensures` equate the new state with a function of the
old one; the theorems are about those functions and about all runs made of them.

| file | models |
|---|---|
| `Bytes.dfy` | bytes, base-256 digits, two's complement |
| `QueueByteArray.dfy` | typed reads and writes on a byte queue |
| `Schema.dfy` | the schema compiler: generated statements, their interpreters, their meaning |
| `Wire.dfy` | the bytes of that code, in order and spelled out |
| `Framing.dfy`, `Packer.dfy` | frames as a function on bytes; the in-place, recursive packer |
| `Serialize.dfy`, `SerializeManager.dfy` | the envelope and the end-to-end theorem; the code that sends and receives objects |
| `Pool.dfy`, `PoolManager.dfy` | the slab pool and the size classes over it |
| `RpcSession.dfy`, `RpcRuns.dfy`, `RpcLimits.dfy` | one session; runs of two peers over a lossy network; the exact limits of correlation |
| `NetTable.dfy`, `NetDelivery.dfy`, `NetworkManager.dfy` | connection table, queued delivery, the manager's code |
| `NetTasks.dfy` | queued delivery in finer steps: reserve, fill, push; pop, call, free |
| `NetHistory.dfy` | what a run tells about the past of an id |
| `NetStreams.dfy` | one connection's messages and objects through the table, among all others |
| `ThreadPool.dfy`, `ThreadHistory.dfy` | a step model of the thread pool; what each of its threads saw |
| `SendQueue.dfy` | a step model of the send queue |
| `SendBytes.dfy` | the send queue down to the bytes, with buffers taken in part |
| `SendPath.dfy` | objects through the send queue to the receiver |

## What the proofs found

Properties one would like to have that the code has only under a condition. Each is stated as an
equivalence with a condition on the input or the state before the call, and a lemma gives a
failing input or run.

- `UnPack` is defined on a chunk exactly when the bytes held, followed by the chunk, scan: no
  complete header over INT_MAX-4, no negative header with a byte after it. The five bytes
  255 255 255 255 0 on a new connection make it copy a negative number of bytes.
- A generated class round trips exactly when it has no nested class attribute that carries
  information (such an attribute gets no code) and no vector inside the class of a vector's
  elements (one temporary is reused for all elements, so inner vectors accumulate).
- A value of such a class comes back exactly when its strings and vectors have at most 65535
  bytes and elements; a longer vector is cut to its length modulo 65536, a longer string skipped.
- An object of such a class survives the envelope exactly when its type name has 1 to 255 bytes
  and no NUL and its value fits; an object named `a\0` arrives as one of class `a`. A list of
  objects comes back through envelopes, frames and any chunks exactly when each of them does.
- In single-thread mode a body is copied past the end of its task record exactly when it has more
  than 4096 bytes, which a scan of the bytes received tells; a frame with 4097 is delivered.
- In single-thread mode the callbacks keep the order in which events were queued, in every
  interleaving, exactly when at most one thread drains the queue or there is no handler.
- Through the Windows send queue a list of objects arrives whole exactly when no frame has more
  than 4096 bytes; larger ones are refused by `Write` and the rest still arrives in order. A string
  of 5000 bytes makes such an object.
- The bytes of that queue stay in order in every run exactly when the system never both takes part
  of a buffer and completes a send at once: else a rest can be sent after the next buffer.
- `GetRequestID` returns an id that is not outstanding exactly when fewer than 32767 requests are;
  32767 unanswered calls reach the other case, and the next call overwrites request 0.
- RPC callbacks get the result of their own request in every run exactly when nobody calls, nobody
  answers, or at most one handler answers and at most 32767 requests are outstanding. Two runs show
  the mix-ups: a second response to a recycled id, and a call that takes the id of an unanswered one.
  That no call is called back twice holds without any such limit.
- `Endpoint::operator<` compares the length of the address strings, not the strings. Entering a
  connection keeps the table a bijection exactly when no live endpoint has the same address
  length and ports; `10.0.0.1:5000` and `10.0.0.2:5000` do collide, and the bytes of the first
  client are then reported under the id of the second.
- The packer's buffer is not reset on disconnect. A recycled id reads its new stream like an id
  never used exactly when the old connection ended between two messages; one stray byte before
  hanging up makes the next client's first message vanish.
- `MemoryPool::Free` keeps the pool consistent exactly when the block is live, and
  `MemoryPoolManager::Free` exactly when it is live or was never handed out; a second `Free` is
  accepted and the next two callers get the same block.
- A completion whose next `WSASend` fails hard loses data exactly when a buffer was queued or a rest
  of its own was left, as after two writes of which the first is pending.

Two defects need no more than their guard: `MemoryPoolManager::Free` of an unknown pointer always
returns with a lock still held; and the `OnRecvPackage` that looks for objects reads past the end of
a package with fewer than two bytes, or with a name length of 1 to 255 that does not fit, such as
[1, 0]. Such a package yields no object.

## Boundaries

Environment: what `new` returns, how `WSASend` returns, which socket recognises a peer and what
`HandleCall` answers are parameters. The host is little-endian with 8-byte `long`. Callbacks
and sections under a mutex are atomic; in the thread pool the mutex itself is modelled and the
running flag is read and written outside it. Some steps that the code takes without a lock are
also atomic here: `Alloc` and `Free` of the task pool (network_manager.cpp lines 169, 342, 513), the
push of `MemoryPoolManager::Free` after its last unlock (mempool.cpp line 107), and the return of an
id in `OnDisconnect` (network_manager.cpp line 480). `NetDelivery` takes queueing and handling an event
as one step each; `NetTasks` interleaves their parts. Chunks have at least one byte. `Undefined` results
of the framing functions mark the calls in which the C++ code overflows an `int` or copies a
negative number of bytes; the methods require that the bytes scan, which `FeedDefinedIffAccepts`
proves to be the same. `ReadInt32` reinterprets four bytes through a `long`; its low 32 bits are
modelled. Members a constructor leaves uninitialised are taken to be zero. The classes derived
from the network manager hold it instead, since the model has no inheritance.

## Model

| member | source | states |
|---|---|---|
| Bytes.DecodeOfEncode | elegance/memory/byte_array/queue_byte_array.cpp:45-115 | decoding undoes encoding, for every width and both byte orders |
| Bytes.EncodeOfDecode | elegance/memory/byte_array/queue_byte_array.cpp:180-236 | every byte string is the encoding of the number it decodes to |
| ByteQueue.IntRoundTrip | elegance/memory/byte_array/queue_byte_array.cpp:14-115 | an integer of any of the eight kinds is read back whatever bytes follow, consuming exactly its own |
| ByteQueue.StrRoundTrip | elegance/memory/byte_array/queue_byte_array.cpp:117-142 | a string of at most 65535 bytes is read back and the rest left |
| ByteQueue.ItemsRoundTrip | elegance/memory/byte_array/queue_byte_array.cpp:14-256 | any list of integers and strings, in either byte order, is returned by the matching reads, which leave exactly what followed |
| ByteQueue.ItemsInOrder | elegance/memory/byte_array/queue_byte_array.cpp:159-256 | writing one list of values after another appends the bytes of the one after those of the other |
| ByteQueue.Ranges | elegance/memory/byte_array/queue_byte_array.cpp:14-115 | the ranges of the eight integer kinds, in numbers |
| ByteQueue.WireBytes | elegance/memory/byte_array/queue_byte_array.cpp:159-256 | the bytes themselves: two digits in either order, a negative byte, a string with its length low byte first |
| ByteQueue.TruncatedStringConsumesNothing | elegance/memory/byte_array/queue_byte_array.cpp:117-132 | a string cut anywhere inside its encoding reads as empty and stays in the queue |
| ByteQueue.TruncatedIntReadsWhatArrived | elegance/memory/byte_array/queue_byte_array.cpp:14-115 | a number of any kind of which k bytes arrived reads as those bytes of its bit pattern, the low ones in little and the high ones in big endian, zeros for the rest, and empties the queue |
| ByteQueue.ReadInHalves | elegance/memory/byte_array/queue_byte_array.cpp:45-115 | two reads of half the width, combined by byte order, are one read of the whole, also on a queue that runs dry |
| ByteQueue.WriteInHalves | elegance/memory/byte_array/queue_byte_array.cpp:180-236 | two writes of half the width append the digits of the whole number |
| ByteQueue.QueueByteArray.ReadUint8 | elegance/memory/byte_array/queue_byte_array.cpp:25-34 | pops one byte, or returns 0 from an empty queue |
| ByteQueue.QueueByteArray.ReadInt8 | elegance/memory/byte_array/queue_byte_array.cpp:14-23 | the same as a signed number |
| ByteQueue.QueueByteArray.ReadUint16 | elegance/memory/byte_array/queue_byte_array.cpp:45-58 | value and remaining queue of the two-byte read |
| ByteQueue.QueueByteArray.ReadUint32 | elegance/memory/byte_array/queue_byte_array.cpp:69-82 | value and remaining queue of the four-byte read |
| ByteQueue.QueueByteArray.ReadUint64 | elegance/memory/byte_array/queue_byte_array.cpp:104-115 | value and remaining queue of the eight-byte read |
| ByteQueue.QueueByteArray.ReadInt16 | elegance/memory/byte_array/queue_byte_array.cpp:36-43 | the signed two-byte read |
| ByteQueue.QueueByteArray.ReadInt32 | elegance/memory/byte_array/queue_byte_array.cpp:60-67 | the signed four-byte read |
| ByteQueue.QueueByteArray.ReadInt64 | elegance/memory/byte_array/queue_byte_array.cpp:97-102 | the signed eight-byte read |
| ByteQueue.QueueByteArray.ReadString | elegance/memory/byte_array/queue_byte_array.cpp:117-142 | a string wholly present is popped, any other read consumes nothing |
| ByteQueue.QueueByteArray.ReadObject | elegance/memory/byte_array/queue_byte_array.cpp:144-157 | null without effect when too few bytes, else object and rest make up the old queue; size 0 takes all |
| ByteQueue.QueueByteArray.WriteUint8 | elegance/memory/byte_array/queue_byte_array.cpp:167-170 | appends the byte |
| ByteQueue.QueueByteArray.WriteInt8 | elegance/memory/byte_array/queue_byte_array.cpp:159-165 | appends the two's complement byte |
| ByteQueue.QueueByteArray.WriteUint16 | elegance/memory/byte_array/queue_byte_array.cpp:180-192 | appends the two digits in the queue's byte order |
| ByteQueue.QueueByteArray.WriteUint32 | elegance/memory/byte_array/queue_byte_array.cpp:202-213 | appends the four digits, built from shifts of a 32-bit number |
| ByteQueue.QueueByteArray.WriteUint64 | elegance/memory/byte_array/queue_byte_array.cpp:227-236 | appends the eight digits, built from shifts of a 64-bit number |
| ByteQueue.QueueByteArray.WriteInt16 | elegance/memory/byte_array/queue_byte_array.cpp:172-178 | appends the signed two-byte encoding |
| ByteQueue.QueueByteArray.WriteInt32 | elegance/memory/byte_array/queue_byte_array.cpp:194-200 | appends the signed four-byte encoding |
| ByteQueue.QueueByteArray.WriteInt64 | elegance/memory/byte_array/queue_byte_array.cpp:221-225 | appends the signed eight-byte encoding |
| ByteQueue.QueueByteArray.WriteString | elegance/memory/byte_array/queue_byte_array.cpp:244-256 | appends length and bytes, or nothing beyond 65535 bytes |
| ByteQueue.QueueByteArray.WriteObject | elegance/memory/byte_array/queue_byte_array.cpp:258-269 | appends the first bytesLen bytes, nothing when the length is not positive |
| ByteQueue.QueueByteArray.ReadFromByteArray | elegance/memory/byte_array/queue_byte_array.cpp:287-298 | bytes move and are conserved: the two queues together are unchanged; reading from itself rotates |
| ByteQueue.QueueByteArray.Append | elegance/memory/byte_array/queue_byte_array.cpp:271-275 | operator+ drains the other queue |
| ByteQueue.QueueByteArray.Assign | elegance/memory/byte_array/queue_byte_array.cpp:277-285 | operator= takes the other's bytes and leaves it empty |
| Schema.ClassTransfers | tools/serialize_creator/cpp_creator.py:46-111 | for every class, value, receiving object and following bytes, running the generated pair leaves exactly the overlay of the value on the object and the following bytes |
| Wire.AttributesInOrder | tools/serialize_creator/cpp_creator.py:130-141 | attributes are written one after the other in the order of the class |
| Wire.AttributesReadInOrder | tools/serialize_creator/cpp_creator.py:130-141 | and read in that order, each from where the one before stopped |
| Wire.WireFormat | tools/serialize_creator/cpp_creator.py:46-77 | for every class and value the bytes are those of its scalars and strings in order, with the length before the elements of a vector and nothing for a nested object |
| Wire.ProjectItemBytes | demo/src/serialize_demo/test_serialize.cpp:50-54 | the bytes of the demo's project item, spelled out |
| Wire.ListAckBytes | demo/src/serialize_demo/test_serialize.cpp:76-88 | the bytes of the demo's two lists, spelled out |
| Wire.NestedObjectIsLost | tools/serialize_creator/cpp_creator.py:79-111 | a nested object comes back as a new one, whatever it held |
| Schema.LoopTransfers | tools/serialize_creator/cpp_creator.py:103-110 | the element loop with its one reused temporary yields the accumulated overlays |
| Schema.RoundTripsIffSupported | tools/serialize_creator/cpp_creator.py:46-111 | every value of a class round trips into a fresh object if and only if no nested attribute carries information and no element class has a vector |
| Schema.UnsupportedElementFails | tools/serialize_creator/cpp_creator.py:103-109 | a value of such a vector that does not come back |
| Schema.ValueRoundTripsIffFits | tools/serialize_creator/cpp_creator.py:46-111 | any value at all of a supported class comes back, with exactly the bytes that followed, if and only if its integers are in range and its strings and vectors have at most 65535 bytes and elements |
| Schema.ReadsFit | tools/serialize_creator/cpp_creator.py:79-111 | whatever the bytes, unserializing into a new object of a supported class leaves a value of its class |
| Schema.OversizedVectorIsCut | tools/serialize_creator/cpp_creator.py:70-71 | how the others fail: a vector of any length comes back with its number of elements modulo 65536 |
| Schema.OversizedStringIsSkipped | elegance/memory/byte_array/queue_byte_array.cpp:244-247 | and a string over 65535 bytes is not written, so the read takes what follows |
| Schema.DemoClassesRoundTrip | demo/src/serialize_demo/test_serialize.cpp:76-158 | the demo's classes with vectors of messages and of strings round trip |
| Framing.FeedDefinedIffAccepts | elegance/network/network_packer/network_packer_fixhead.cpp:9-66 | from every reachable state the call stays within its buffers if and only if the bytes held, followed by the chunk, scan: every header is at most INT_MAX-4, and not negative once a byte follows it |
| Framing.NegativeHeaderIsUndefined | elegance/network/network_packer/network_packer_fixhead.cpp:12-18 | five bytes on which it does not |
| Framing.LongestHeader | elegance/network/network_packer/network_packer_fixhead.cpp:49-60 | the largest length that can be announced is 2147483643 |
| Framing.FourBytes | elegance/network/network_packer/network_packer_fixhead.cpp:12-49 | a header is a signed number of four bytes, low byte first |
| Framing.BodiesWithinIff | elegance/network/network_packer/network_packer_fixhead.cpp:9-66 | no delivered body is longer than a bound if and only if a scan of the bytes held and the chunk finds no complete frame that is |
| Framing.FeedSplit | elegance/network/network_packer/network_packer_fixhead.cpp:6-67 | from every reachable state feeding a then b equals feeding a + b, deliveries and state, across empty bodies and undefined calls |
| Framing.ChunkingIrrelevant | elegance/network/network_packer/network_packer_fixhead.cpp:6-67 | any division into non-empty chunks gives the outcome of one call |
| Framing.FeedPrefix | elegance/network/network_packer/network_packer_fixhead.cpp:9-66 | a prefix of a stream delivers exactly the bodies wholly inside it, an empty body only once a later byte has arrived, and keeps exactly the unfinished frame |
| Framing.FramingUnderAnyChunking | elegance/network/network_packer/network_packer_fixhead.cpp:6-81 | the same for every list of bodies, every prefix and every chunking of it |
| Framing.StreamRoundTrip | elegance/network/network_packer/network_packer_fixhead.cpp:6-81 | the whole stream of non-empty bodies comes back and the state is idle |
| Framing.FeedConserves | elegance/network/network_packer/network_packer_fixhead.cpp:9-66 | for any input on which the code is defined, frames delivered plus bytes kept are bytes held plus input |
| Framing.FeedStaysReachable | elegance/network/network_packer/network_packer_fixhead.cpp:9-66 | the states left behind never hold more than an unfinished frame or a bare header |
| Framing.FreshIffIdle | elegance/network/network_packer/network_packer_fixhead.cpp:8-66 | a left-over state delivers like a new one on every stream if and only if it is empty |
| Framing.ConnectionsAreIsolated | elegance/network/network_packer/network_packer_fixhead.cpp:8-9 | under any interleaving a connection's deliveries and state are those of its own chunks |
| Packer.ChangeBufferSize | elegance/memory/flexible_buffer.hpp:29-51 | old bytes are kept up to the new size, new bytes are zero; a size that is not positive frees the block and leaves the pointer dangling |
| Packer.ZeroAllBytes | elegance/memory/flexible_buffer.hpp:53-60 | every byte becomes zero |
| Packer.BodyTurn | elegance/network/network_packer/network_packer_fixhead.cpp:9-27 | the body branch copies inside the buffer, delivers a complete body and leaves the buffer idle |
| Packer.HeaderTurn | elegance/network/network_packer/network_packer_fixhead.cpp:33-61 | the header branch copies inside the buffer and grows it without disturbing the header |
| Packer.NetworkPackagerFixHead.UnPack | elegance/network/network_packer/network_packer_fixhead.cpp:6-67 | on bytes that scan: terminates, stays in bounds, reports exactly the bodies of `Feed`, keeps its part, touches no other connection; absent and idle buffers are alike |
| Packer.NetworkPackagerFixHead.PackAndSend | elegance/network/network_packer/network_packer_fixhead.cpp:69-81 | sends one buffer: length header, then body |
| Serialize.EnvelopeRoundTripsIff | elegance/memory/serialize/serialize_manager.cpp:9-65 | an object of a supported class comes back if and only if its name, of whatever length, has 1..255 bytes and no NUL and its value fits |
| Serialize.EnvelopeBytes | elegance/memory/serialize/serialize_manager.cpp:9-23 | the bytes of an envelope: length of the name, name, object |
| Serialize.ObjectsAreRegistered | elegance/memory/serialize/serialize_manager.cpp:37-65 | whatever bytes arrive, an object that comes out of them is of a registered class and, if supported, a value of it |
| Serialize.NulNameIsMistaken | elegance/memory/serialize/serialize_manager.cpp:46-49 | an object whose name has a NUL arrives as an object of another class |
| Serialize.EndToEndPrefix | elegance/memory/serialize/serialize_manager.cpp:9-65 | for every list of deliverable objects, every prefix of their stream in any chunks rebuilds exactly the objects whose frames are complete |
| Serialize.ReadPastEndYieldsNothing | elegance/memory/serialize/serialize_manager.cpp:42-56 | a package whose name length or name lies past its end yields no object, and [1, 0] is one |
| Serialize.EndToEnd | elegance/memory/serialize/serialize_manager.cpp:9-65 | for every list of objects of supported classes that can be framed, the whole stream in any chunks rebuilds the list if and only if each object is deliverable, and then leaves an idle buffer |
| SerializeManager.SerializeNetworkManager.SendSerialize | elegance/memory/serialize/serialize_manager.cpp:9-23 | for a live id exactly one write on its one socket: the frame of name and serialized object; for any other id none |
| SerializeManager.SerializeNetworkManager.OnRecvPackage | elegance/memory/serialize/serialize_manager.cpp:37-65 | shows the package like its base class; if an object is read, each handler in turn is called once with the connection's id and that object, else none |
| Pools.AllocKeepsInv | elegance/memory/mempool.cpp:20-34 | the block handed out was live with nobody, is a slot of a chunk, and the pool stays consistent |
| Pools.FreeKeepsInvIffLive | elegance/memory/mempool.cpp:36-40 | giving a block back keeps the pool consistent if and only if the block is live |
| Pools.SlotsApart | elegance/memory/mempool.cpp:24-27 | two slots of a pool share no byte |
| Pools.NewChunkFromTheTop | elegance/memory/mempool.cpp:20-34 | a new chunk is handed out from its last block to its first |
| Pools.LastFreedIsNext | elegance/memory/mempool.cpp:20-40 | the block given back last is the next one handed out |
| Pools.PoolRuns | elegance/memory/mempool.cpp:20-40 | the invariant holds over every legal run |
| Pools.ChunksArePeakRoundedUp | elegance/memory/mempool.cpp:20-40 | in every run free plus live equals chunks times increase_num, live blocks are disjoint, and the chunk count is the peak live count divided by increase_num, rounded up |
| Pools.MemoryPool.Alloc | elegance/memory/mempool.cpp:20-34 | carves a chunk when the stack is empty, then pops its top |
| Pools.MemoryPool.Free | elegance/memory/mempool.cpp:36-40 | pushes the block |
| PoolManager.FixSize | elegance/memory/mempool.cpp:64-65 | a multiple of the alignment, larger than asked by 1 to 8; for negative sizes as C++ rounds, positive exactly above -8 |
| PoolManager.FirstOfItsSize | elegance/memory/mempool.cpp:60-89 | the first block of a new class is the last of the ten in its chunk |
| PoolManager.LocksLeftHeld | elegance/memory/mempool.cpp:60-108 | the lock calls of Alloc and of an accepted Free give both locks back, those of a refused Free keep one |
| PoolManager.AllocateKeepsInv | elegance/memory/mempool.cpp:60-89 | allocation in any size class keeps all classes consistent and apart |
| PoolManager.ReleaseKeepsInvIff | elegance/memory/mempool.cpp:91-108 | releasing keeps all classes consistent if and only if the block is live or was never handed out |
| PoolManager.SecondFreeIsAccepted | elegance/memory/mempool.cpp:91-108 | from every consistent state a second release of a block is accepted, breaks consistency, and the next two requests of its size get that block |
| PoolManager.LiveBlocksAreSafe | elegance/memory/mempool.cpp:60-108 | in every run live blocks of all sizes are disjoint, each belongs to the pool of its recorded size and to no other, and the next block is held by nobody |
| PoolManager.MemoryPoolManager.Alloc | elegance/memory/mempool.cpp:60-89 | creates the class when new, allocates there, records the size, and calls the locks in the order of the code |
| PoolManager.MemoryPoolManager.Free | elegance/memory/mempool.cpp:91-108 | releases to the recorded class; refuses exactly unknown pointers, and then has locked once and unlocked never |
| RpcSession.FreshIdIffRoom | elegance/rpc/rpc_manager.cpp:63-83 | the id returned is not outstanding if and only if fewer than SHRT_MAX requests are, also after the counter wrapped |
| RpcSession.IdsRunOut | elegance/rpc/rpc_manager.cpp:63-83 | SHRT_MAX unanswered calls reach a consistent session with all ids outstanding, whose next call takes id 0 and overwrites its request |
| RpcSession.CallKeepsIds | elegance/rpc/rpc_manager.cpp:20-83 | a call keeps free and outstanding ids a partition of those issued |
| RpcSession.ResponseKeepsIds | elegance/rpc/rpc_manager.cpp:91-111 | so does a response |
| RpcSession.AnsweredCallIsCalledBack | elegance/rpc/rpc_manager.cpp:20-111 | the response to a call calls it back with its result and takes it off the outstanding ones |
| RpcSession.StrayResponseIsIgnored | elegance/rpc/rpc_manager.cpp:94-111 | a response under an id that is not outstanding changes nothing |
| RpcSession.LastFreedIdIsNext | elegance/rpc/rpc_manager.cpp:63-111 | the id given back last is the next one used |
| RpcSession.RepliesInOrder | elegance/rpc/rpc_manager.cpp:114-144 | the replies are, handler by handler, those of handlers that return 0 and fill in 1 to 10235 bytes |
| RpcSession.PackedBytes | elegance/rpc/rpc_manager.cpp:44-48 | the bytes of a request and of a response, spelled out |
| RpcSession.PackedEach | elegance/rpc/rpc_manager.cpp:133-139 | one response message for each reply, under the id of the request |
| RpcSession.ParseOfPack | elegance/rpc/rpc_manager.cpp:44-47 | a message is read back from its bytes, whatever the unset byte holds |
| RpcSession.RPCSession.TakeRequestID | elegance/rpc/rpc_manager.cpp:63-83 | pops the stack, or takes the counter and advances it modulo SHRT_MAX |
| RpcSession.RPCSession.AsyncCall | elegance/rpc/rpc_manager.cpp:20-56 | drops payloads of 0 or more than 10235 bytes without effect, else sends them under the new id, byte by byte as stated, and records the request; ids stay within 16 bits |
| RpcSession.RPCSession.OnRecv | elegance/rpc/rpc_manager.cpp:85-146 | a response calls back and frees its id if outstanding and else does nothing; callbacks grow by exactly the requests that leave the list, and go to those; a request is answered once per answering handler; anything else is ignored |
| RpcRuns.OneHandlerCorrelates | elegance/rpc/rpc_manager.cpp:20-146 | over every two-peer run with one answering handler and at most SHRT_MAX requests outstanding, callbacks come at most once and with the result computed for their own payload, and each id has at most one message in flight, only while outstanding |
| RpcRuns.RunKeepsInv | elegance/rpc/rpc_manager.cpp:20-146 | the invariant behind it survives calls, answers, responses and losses in any order |
| RpcRuns.CalledBackAtMostOnce | elegance/rpc/rpc_manager.cpp:20-146 | whatever the number of answering handlers and outstanding requests, in every run no call is called back twice, none that was not made is, and callbacks plus outstanding requests never exceed the calls |
| RpcLimits.SecondCallGetsFirstResult | elegance/rpc/rpc_manager.cpp:114-144 | a run with two answering handlers in which a call is called back with the result of an earlier one |
| RpcLimits.LateCallGetsFirstResult | elegance/rpc/rpc_manager.cpp:20-83 | a run with one answering handler and one request more than ids in which the last call is called back with the result of the first |
| RpcLimits.CorrelatesIffWithinLimits | elegance/rpc/rpc_manager.cpp:20-146 | for every bound on answering handlers and on outstanding requests, all runs correlate if and only if one of the bounds is 0, or they are 1 and at most SHRT_MAX |
| NetTable.OrderIdentifiesByLength | elegance/network/network_manager.cpp:414-418 | the order the lookup relies on, `Endpoint::operator<` of elegance/platform/network/socket_def.hpp lines 60 to 75, is a strict order that identifies endpoints exactly when address length, remote port and local port agree |
| NetTable.FreshNetID | elegance/network/network_manager.cpp:208-226 | the id handed out is held by nobody, and max grows only when no id is free |
| NetTable.OpenKeepsInv | elegance/network/network_manager.cpp:317-409 | accepting or connecting keeps table and event discipline |
| NetTable.RecvKeepsInv | elegance/network/network_manager.cpp:411-426 | receiving keeps them |
| NetTable.CloseKeepsInv | elegance/network/network_manager.cpp:428-481 | disconnecting keeps them |
| NetTable.EveryRunIsDisciplined | elegance/network/network_manager.cpp:208-481 | in every run free ids are distinct and not live, endpoint entries are inverted, accept and connect ids partition the live ids, and each id's events follow (open, receive*, disconnect)* |
| NetTable.NothingBeforeItsOpening | elegance/network/network_manager.cpp:317-481 | a receive or disconnect of an id is preceded by an opening with no disconnect or second opening in between |
| NetTable.BijectiveIffNewKey | elegance/network/network_manager.cpp:328-332 | an entry keeps endpoints and ids in bijection if and only if its key is not live |
| NetTable.CleanRunsAreBijective | elegance/network/network_manager.cpp:317-481 | in runs without such clashes the table is a bijection and 1..max are exactly the free and the live ids |
| NetTable.SameLengthAddressesCollide | elegance/network/network_manager.cpp:411-456 | with clashing endpoints the first client's bytes and hang-up are attributed to the second |
| NetTable.RecycledIdIsFreshIffIdle | elegance/network/network_manager.cpp:428-481 | the freed id is the next one used, and reads like new if and only if the old connection ended between messages |
| NetTable.StaleIdSwallowsMessage | elegance/network/network_manager.cpp:428-481 | a run to such a state: a client sends one byte and hangs up, and the message of the next client, under the same id, is not reported |
| NetHistory.SocketIsOfItsOpening | elegance/network/network_manager.cpp:317-409 | in every run the endpoint and socket of a live id are those given with the opening that handed the id out last, in the map of its role only |
| NetHistory.OpeningIsShown | elegance/network/network_manager.cpp:340-409 | an accept is shown as an accept and a connect as a connect, with endpoint and id |
| NetHistory.PackagesShownHaveBytes | elegance/network/network_manager.cpp:504-532 | in every run no package is shown without bytes or under an id that is not positive |
| NetStreams.StreamIsOwn | elegance/network/network_manager.cpp:317-532 | while a connection lives, whatever the others open, send, close and recycle, the bodies reported for its id are the non-empty ones its own chunks deliver |
| NetStreams.MessagesArrive | elegance/network/network_manager.cpp:317-532 | on an id opened with an idle buffer the bodies reported are exactly the messages the peer has sent completely, in order, in any chunks and any interleaving |
| NetStreams.ObjectsArrive | elegance/memory/serialize/serialize_manager.cpp:37-65 | the same for objects: those whose bytes have all arrived are rebuilt, in order, and no others |
| NetDelivery.ShownOfFill | elegance/network/network_manager.cpp:123-170 | a task record shows exactly the event it was filled from, whatever its slot held |
| NetDelivery.DirectOrder | elegance/network/network_manager.cpp:355-361 | the callbacks of direct mode, one by one: for each event in turn each handler in turn |
| NetDelivery.EnqueueRefines | elegance/network/network_manager.cpp:511-526 | queueing an event keeps called plus waiting equal to direct mode |
| NetDelivery.HandleRefines | elegance/network/network_manager.cpp:123-170 | handling a task keeps it |
| NetDelivery.QueuedRefinesDirect | elegance/network/network_manager.cpp:123-170 | in every order of arrivals and drains the callbacks are a prefix of direct mode's, all of them once the queue is empty, and no queued slot is on the free stack |
| NetTasks.RecordsStayIntact | elegance/network/network_manager.cpp:123-170 | with any number of network and draining threads, each block of the pool is with one writer, in the queue once or with one reader, and a queued or shown record holds the event pushed in its place |
| NetTasks.OneReaderKeepsOrder | elegance/network/network_manager.cpp:123-170 | with one draining thread, in every interleaving of reserving, filling, pushing, popping, calling and freeing, the callbacks are a prefix of direct mode's in the order of the pushes, and all of them once nothing is queued or being shown |
| NetTasks.SecondReaderOvertakes | elegance/network/network_manager.cpp:123-170 | a run of two draining threads that calls back in the wrong order |
| NetTasks.InPushOrderIff | elegance/network/network_manager.cpp:123-170 | the order holds in every run if and only if at most one thread drains or there is no handler |
| NetworkManager.LongBodyArrives | elegance/network/network_manager.cpp:511-526 | a body of 4097 bytes is delivered, and does not fit a task record |
| NetworkManager.Dispatcher.Show | elegance/network/network_manager.cpp:340-361 | queues a task or calls each handler in turn with the event; called plus waiting stays equal to direct mode |
| NetworkManager.Dispatcher.HandleNetTask | elegance/network/network_manager.cpp:123-170 | shows the front task to every handler and frees its slot, nothing on an empty queue |
| NetworkManager.Dispatcher.DrainAll | elegance/network/network_manager.cpp:185-193 | calling it until the queue is empty yields the callbacks of direct mode, each in its place |
| NetworkManager.NetworkManager.TakeNetID | elegance/network/network_manager.cpp:208-226 | pops the free stack or raises max |
| NetworkManager.NetworkManager.OnAccept | elegance/network/network_manager.cpp:317-362 | the accept is shown; the last listener that knows the peer, if any, is entered under the new id, and whatever is sent under it is written to that listener's socket |
| NetworkManager.NetworkManager.OnConnect | elegance/network/network_manager.cpp:364-409 | the connect is shown; the last connector that dialled the peer, if any, is entered under the new id, and whatever is sent under it is written to that connector's socket |
| NetworkManager.NetworkManager.OnRecv | elegance/network/network_manager.cpp:411-426 | over the in-place packer: unknown endpoints are ignored, else every non-empty body is shown under the id |
| NetworkManager.NetworkManager.OnRecvPackage | elegance/network/network_manager.cpp:504-532 | shows a package unless it is empty or the id is not positive |
| NetworkManager.NetworkManager.OnDisconnect | elegance/network/network_manager.cpp:428-481 | removes the id from all four maps, shows the event, frees the id |
| NetworkManager.NetworkManager.Send | elegance/network/network_manager.cpp:84-99 | a live id gets exactly one write, the frame of the data, any other id none |
| NetworkManager.NetworkManager.SendRaw | elegance/network/network_manager.cpp:483-502 | a live id is written to exactly one socket, any other to none |
| ThreadPool.AfterKeepsInv | elegance/platform/thread/thread_pool.cpp:26-200 | mutex ownership, queue order, task places and flag history survive every step |
| ThreadPool.EveryInterleavingIsSafe | elegance/platform/thread/thread_pool.cpp:26-200 | in every interleaving pushes equal removals plus list, each accepted task is in exactly one of list, one hand, finished, discarded, the front of an empty list is never taken, and a worker has left only after the flag was cleared since its start |
| ThreadHistory.AcceptedWhileRunning | elegance/platform/thread/thread_pool.cpp:125-148 | in every run a task is on its way into the list, or was ever there, only if its AddTask found the pool running |
| ThreadHistory.TakenWhileRunning | elegance/platform/thread/thread_pool.cpp:150-200 | in every run the test before each taking of a task saw the flag set and the list not empty |
| ThreadHistory.EveryWorkerSaw | elegance/platform/thread/thread_pool.cpp:150-200 | wherever a worker is, its last step brought it there with the flag, the list and the mutex as that place requires |
| ThreadHistory.FlagIsHistory | elegance/platform/thread/thread_pool.cpp:60-123 | the flag is set exactly when some Run is not followed by the end of a Stop |
| ThreadHistory.StoppersSawRunning | elegance/platform/thread/thread_pool.cpp:87-98 | a thread is inside Stop only if it found the pool running |
| ThreadHistory.ClearingDiscardsAll | elegance/platform/thread/thread_pool.cpp:92-96 | clearing leaves no waiting task and discards each |
| ThreadHistory.StoppedPoolWindsDown | elegance/platform/thread/thread_pool.cpp:125-200 | once the flag is clear and until a new Run, at most one more task is taken, and none is accepted whose AddTask had not begun |
| ThreadHistory.TaskIsAdded | elegance/platform/thread/thread_pool.cpp:125-148 | on a running pool an undisturbed AddTask puts its task last |
| ThreadHistory.TaskIsRun | elegance/platform/thread/thread_pool.cpp:150-200 | an undisturbed worker takes the first task and finishes it |
| ThreadHistory.StartAndStop | elegance/platform/thread/thread_pool.cpp:60-123 | Run starts only a pool that is not running, and Stop ends what it began |
| SendQueue.WriteKeepsInv | elegance/platform/network/socket_accept.cpp:484-534 | accepted writes are issued or queued in order, and exactly which are accepted; a non-empty queue has an operation outstanding |
| SendQueue.CompleteKeepsInv | elegance/platform/network/socket_accept.cpp:258-289 | a completion keeps that and lowers the completions still needed by exactly one |
| SendQueue.NothingIsStranded | elegance/platform/network/socket_accept.cpp:258-289 | over every interleaving of writes and completions |
| SendQueue.CompletionsDrain | elegance/platform/network/socket_accept.cpp:258-289 | exactly that many completions empty the queue with everything accepted issued in order, and until then one is always due |
| SendQueue.HardFailureLosesData | elegance/platform/network/socket_accept.cpp:273-279 | a hard failure keeps the promise if and only if nothing was queued |
| SendQueue.QueuedBufferIsLost | elegance/platform/network/socket_accept.cpp:258-289 | a run to such a loss: two writes, the first pending, then a completion that fails hard |
| SendBytes.BytesKeepOrder | elegance/platform/network/socket_accept.cpp:258-305 | whatever part of which buffer the system takes, the bytes on the wire are the first of those accepted and, with nothing in flight, all of them, for systems that do not both take parts and complete at once |
| SendBytes.RestComesLate | elegance/platform/network/socket_accept.cpp:290-305 | a run of a system that does both: the next buffer goes out before the rest of the first |
| SendBytes.InOrderIff | elegance/platform/network/socket_accept.cpp:258-305 | the order holds in every run if and only if the system never does both |
| SendBytes.CompletionsRunOut | elegance/platform/network/socket_accept.cpp:258-305 | without new writes completions run out after a bounded number, one is possible as long as an operation is in flight, and at the end everything accepted is on the wire |
| SendBytes.FailureKeepsOrderIff | elegance/platform/network/socket_accept.cpp:273-301 | a completion whose send fails hard keeps the promise if and only if it had neither a rest nor a queued buffer to send |
| SendBytes.WriteMatches | elegance/platform/network/socket_accept.cpp:484-534 | with buffers taken whole, a write is the write of the model that counts operations |
| SendBytes.CompleteMatches | elegance/platform/network/socket_accept.cpp:258-289 | and a completion is its completion |
| SendBytes.SocketSendQueue.Write | elegance/platform/network/socket_accept.cpp:484-534 | refuses empty and oversized data, unknown sockets and failed allocations, queues behind a pending send, else sends |
| SendBytes.SocketSendQueue.OnSendComplete | elegance/platform/network/socket_accept.cpp:258-305 | sends the rest of its buffer again, or drops null entries and sends the first queued buffer; the worker thread ends exactly when a send fails |
| SendPath.SentObjectsArrive | elegance/platform/network/socket_accept.cpp:484-534 | at any moment of any interleaving of writes and completions, whole or partial, however much has arrived in whatever chunks, the receiver has rebuilt exactly the written objects whose frame has at most 4096 bytes and is complete |
| SendPath.SmallObjectsArrive | elegance/platform/network/socket_accept.cpp:258-305 | once nothing is in flight, exactly the objects with such frames are rebuilt in order, and all of the list if and only if every frame is such |
| SendPath.LargeObjectIsRefused | elegance/platform/network/socket_accept.cpp:492-496 | a deliverable object that is never sent |

## Left out

- `RPCManager`: key handshake and session maps; string lookups with little to prove.
- Socket set-up, epoll, IOCP plumbing, `SocketConnect`.
- Thread creation and joining, the Windows branch of `GetNextTask`, and liveness of the thread pool; its flag is cleared and its broadcast sent outside the mutex, so only safety is stated.
- Float and double codecs, `StaticByteArray`, random numbers, formatting, debug output, the MySQL headers, XML reading and file writing.
- Schemas: recursive class definitions, and an array without subtype or of arrays, for which the tool exits.
- Packer.NetworkPackagerFixHead.UnPack: what memory holds after a call on bytes that do not scan; that it is exactly those calls is `Framing.FeedDefinedIffAccepts`.
- Packer.NetworkPackagerFixHead.PackAndSend: bodies over INT_MAX-4 bytes, whose frame length overflows an `int`.
- Packer.ChangeBufferSize: a second change after the pointer was left dangling, which deletes the block twice.
- RpcSession.RPCSession.OnRecv: null requests, which are taken off the list without a callback.
- Pools.MemoryPool.Alloc: an empty stack with an increase_num that is not positive, where the code pops an empty stack; and exceptions of `new`.
- PoolManager.MemoryPoolManager.Alloc: sizes of -16 and below, for which `new` throws, sizes whose chunk length overflows an `int`, and out-of-memory exceptions.
- PoolManager.AllocateKeepsInv: sizes of -8 and below, whose blocks have no bytes.
- NetworkManager.Dispatcher.Show: in single-thread mode bodies over 4096 bytes (`NetworkManager.LongBodyArrives`), which the code copies past the end of a task record; handlers are fixed, and what they do inside a callback is not modelled.
- NetworkManager.NetworkManager.OnRecv: bytes that do not scan, and in single-thread mode bytes with a complete body over 4096 bytes.
- NetworkManager.NetworkManager.OnRecvPackage: in single-thread mode bodies over 4096 bytes.
- SerializeManager.SerializeNetworkManager.OnRecvPackage: the same; and for packages outside `Serialize.ReadsInside`, the bytes the code reads past their end before it drops them.
- NetworkManager.NetworkManager.Send: data over INT_MAX-4 bytes.
- SerializeManager.SerializeNetworkManager.SendSerialize: envelopes over INT_MAX-4 bytes.
- SendBytes.SocketSendQueue.OnSendComplete: completions of no bytes, which the code treats as a disconnect; the bytes taken are put on the wire in the order of the calls of `WSASend`.
- SendPath.SentObjectsArrive: systems that both take buffers in part and complete sends at once, for which it is false (`SendBytes.RestComesLate`).
- The manager's class is split in two objects, tables and dispatcher.
- `Disconnect`, and `SyncCall`, which is a stub.
