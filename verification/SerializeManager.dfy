/** Sending and receiving objects over the network manager
    (elegance/memory/serialize/serialize_manager.cpp). */
module SerializeManager {
  import opened Bytes
  import opened ByteQueue
  import opened Schema
  import opened Serialize
  import Framing
  import NetTable
  import NetDelivery
  import NetworkManager

  datatype Handed = Handed(handler: int, netId: int, obj: Obj)

  /** The source's class derives from the network manager; here it has one. */
  class SerializeNetworkManager {
    const network: NetworkManager.NetworkManager
    const registry: Registry
    /** `serialize_handler_list_` in the order of the set. */
    var handlers: seq<int>
    /** The calls of the handlers' `OnRecv`. */
    var handed: seq<Handed>

    constructor (manager: NetworkManager.NetworkManager, reg: Registry, hs: seq<int>)
      ensures network == manager && registry == reg && handlers == hs && handed == []
    {
      network, registry, handlers, handed := manager, reg, hs, [];
    }

    /** The virtual `Serialize` is the code generated for the class of the object. */
    method EnvelopeOf(o: Obj) returns (charData: seq<byte>)
      requires o.name in registry
      ensures charData == Envelope(registry, o)
    {
      var queue := new QueueByteArray();
      queue.WriteString(o.name);
      var body := RunSerialize(queue.endian, registry[o.name], o.fields);
      queue.WriteObject(body, |body|);
      assert body[..|body|] == body;
      var len := |queue.bytes|;
      ghost var all := queue.bytes;
      var read := queue.ReadObject(len);
      assert read.value + queue.bytes == all;
      assert all[..len] == all;
      charData := read.value;
    }

    /** One frame with the envelope goes to the socket of a live id. The length of a frame
        has to fit an `int`. */
    method SendSerialize(netId: int, o: Obj) returns (writes: seq<NetworkManager.Write>)
      requires NetTable.TableInv(network.Table()) && o.name in registry
      requires netId in network.netIdToEndpoint ==> |Envelope(registry, o)| <= Framing.MAX_BODY
      modifies network.packager`sent
      ensures network.WrittenTo(netId,
                if netId in network.netIdToEndpoint then Framing.Frame(Envelope(registry, o)) else [], writes)
    {
      var charData := EnvelopeOf(o);
      writes := network.Send(netId, charData);
    }

    /** The package itself is shown first, then the object read from it. */
    method OnRecvPackage(netId: int, data: seq<byte>)
      requires network.dispatcher.Valid()
      requires network.dispatcher.singleThreadHandleMode ==> |data| <= NetDelivery.TASK_CAPACITY
      modifies this`handed, network.dispatcher
      ensures network.dispatcher.Valid()
      ensures network.dispatcher.events == old(network.dispatcher.events) + NetTable.Packages(netId, [data])
      ensures old(handed) <= handed
      ensures ReadEnvelope(registry, data) == None ==> handed == old(handed)
      ensures var r := ReadEnvelope(registry, data);
              r.Some? ==>
                && |handed| == |old(handed)| + |handlers|
                && forall k :: |old(handed)| <= k < |handed| ==>
                     && handed[k].handler == handlers[k - |old(handed)|]
                     && handed[k].netId == netId && handed[k].obj == r.value
    {
      network.OnRecvPackage(netId, data);
      var o := ObjectIn(data);
      if o.Some? { CallHandlers(netId, o.value); }
    }

    /** The object a package carries, unserialized into a new one of its class. */
    method ObjectIn(data: seq<byte>) returns (o: Option<Obj>)
      ensures o == ReadEnvelope(registry, data)
    {
      var nameLen := ReadInt(LittleEndian, Int16, data).0;
      if nameLen <= 0 || nameLen >= SERIALIZE_CLASS_NAME_MAX_LEN { return None; }
      var serializeLen := |data| - 2 - nameLen;
      if serializeLen < 0 { return None; }
      var name := CString(data[2..2 + nameLen]);
      if name !in registry { return None; }
      var queue := new QueueByteArray();
      var tail := data[|data| - serializeLen..];
      queue.WriteObject(tail, serializeLen);
      assert queue.bytes == data[2 + nameLen..];
      var (fields, _) := RunUnserialize(queue.endian, registry[name], Fresh(registry[name]), queue.bytes);
      o := Some(Obj(name, fields));
    }

    method CallHandlers(netId: int, o: Obj)
      modifies this`handed
      ensures |handed| == |old(handed)| + |handlers| && old(handed) <= handed
      ensures forall k :: |old(handed)| <= k < |handed| ==>
                && handed[k].handler == handlers[k - |old(handed)|]
                && handed[k].netId == netId && handed[k].obj == o
    {
      var i := 0;
      while i < |handlers|
        invariant 0 <= i <= |handlers| && |handed| == |old(handed)| + i && old(handed) <= handed
        invariant forall k :: |old(handed)| <= k < |handed| ==>
                    && handed[k].handler == handlers[k - |old(handed)|]
                    && handed[k].netId == netId && handed[k].obj == o
      {
        handed := handed + [Handed(handlers[i], netId, o)];
        i := i + 1;
      }
    }
  }
}
