/** Length-prefixed framing (elegance/network/network_packer/network_packer_fixhead.cpp)
    as a function on bytes. The state of one connection is the part of a frame that
    has arrived so far; an absent buffer and an idle one are both the empty part. */
module Framing {
  import opened Bytes

  const HEADER := 4
  const MAX_BODY := INT_MAX - HEADER

  type Body = seq<byte>

  predicate Sendable(m: Body) {
    |m| <= MAX_BODY
  }

  function Header(n: nat): (h: seq<byte>)
    requires n <= INT_MAX
    ensures |h| == HEADER
  {
    LittleDigits(n, HEADER)
  }

  /** `package_length` as the signed 32-bit field the code reads. */
  function PackageLength(p: seq<byte>): int
    requires |p| >= HEADER
  {
    ToSigned(LittleValue(p[..HEADER]), HEADER)
  }

  function Frame(m: Body): (f: seq<byte>)
    requires Sendable(m)
    ensures |f| == HEADER + |m|
  {
    Header(|m|) + m
  }

  function Stream(ms: seq<Body>): seq<byte>
    requires forall m :: m in ms ==> Sendable(m)
  {
    if ms == [] then [] else Frame(ms[0]) + Stream(ms[1..])
  }

  lemma HeaderRoundTrip(n: nat, rest: seq<byte>)
    requires n <= INT_MAX
    ensures PackageLength(Header(n) + rest) == n
  {
    Widths();
    LittleValueOfDigits(n, HEADER);
    assert (Header(n) + rest)[..HEADER] == Header(n);
  }

  lemma HeaderUnique(p: seq<byte>)
    requires |p| >= HEADER && 0 <= PackageLength(p) <= INT_MAX
    ensures p[..HEADER] == Header(PackageLength(p))
  {
    Widths();
    LittleDigitsOfValue(p[..HEADER]);
  }

  // ----- one turn of UnPack -----

  datatype Turn = Turn(part: seq<byte>, out: seq<Body>, rest: seq<byte>)

  /** A header that the code can work with: the sum with the header length does not
      overflow, and the number of bytes still to copy is not negative. */
  predicate Readable(p: seq<byte>) {
    |p| >= HEADER ==> 0 <= PackageLength(p) <= MAX_BODY && |p| <= HEADER + PackageLength(p)
  }

  predicate InBody(p: seq<byte>) {
    |p| >= HEADER
  }

  function Wanted(p: seq<byte>): (n: nat)
    requires Readable(p)
  {
    if InBody(p) then HEADER + PackageLength(p) - |p| else HEADER - |p|
  }

  function Copied(p: seq<byte>, data: seq<byte>): (n: nat)
    requires Readable(p)
    ensures n <= |data| && n <= Wanted(p)
  {
    if |data| >= Wanted(p) then Wanted(p) else |data|
  }

  function OneTurn(p: seq<byte>, data: seq<byte>): (t: Turn)
    requires Readable(p)
    ensures t.rest == [] || |t.rest| < |data| || (t.rest == data && InBody(p) && !InBody(t.part))
  {
    var n := Copied(p, data);
    var p' := p + data[..n];
    if InBody(p) && |p'| == HEADER + PackageLength(p)
    then Turn([], [p'[HEADER..]], data[n..])
    else Turn(p', [], data[n..])
  }

  // ----- a whole call -----

  /** `Undefined` is a call in which the code overflows an `int` or copies a negative
      number of bytes. `FeedDefinedIffAccepts` says exactly when. */
  datatype Fed = Fed(part: seq<byte>, out: seq<Body>) | Undefined

  /** `UnPack`. The measure is lexicographic because a body of length zero is
      delivered without taking any input. */
  function Feed(p: seq<byte>, data: seq<byte>): (r: Fed)
    decreases |data|, if InBody(p) then 1 else 0
  {
    if !Readable(p) then Undefined
    else
      var t := OneTurn(p, data);
      if Overflows(t.part) then Undefined
      else if t.rest == [] then Fed(t.part, t.out)
      else Prepend(t.out, Feed(t.part, t.rest))
  }

  /** The sum computed when a header completes. */
  predicate Overflows(p: seq<byte>) {
    InBody(p) && PackageLength(p) > MAX_BODY
  }

  function Prepend(out: seq<Body>, r: Fed): Fed {
    match r
    case Undefined => Undefined
    case Fed(p, o) => Fed(p, out + o)
  }

  /** The states that calls can leave behind. */
  predicate Reachable(p: seq<byte>) {
    InBody(p) ==>
      && PackageLength(p) <= MAX_BODY
      && (|p| == HEADER || |p| < HEADER + PackageLength(p))
  }

  lemma {:induction false} FeedStaysReachable(p: seq<byte>, data: seq<byte>)
    requires Reachable(p)
    ensures Feed(p, data).Fed? ==> Reachable(Feed(p, data).part)
    decreases |data|, if InBody(p) then 1 else 0
  {
    if Readable(p) {
      var t := OneTurn(p, data);
      SameHeader(p, data[..Copied(p, data)]);
      if !Overflows(t.part) && t.rest != [] { FeedStaysReachable(t.part, t.rest); }
    }
  }

  lemma SameHeader(p: seq<byte>, d: seq<byte>)
    ensures InBody(p) ==> PackageLength(p + d) == PackageLength(p)
  {
    if InBody(p) { assert (p + d)[..HEADER] == p[..HEADER]; }
  }

  // ----- which bytes the code can take -----

  /** A scan of raw bytes from the start of a frame: every header is at most INT_MAX-4
      when it completes, and not negative when a byte follows it. */
  predicate Scans(d: seq<byte>)
    decreases |d|
  {
    if |d| < HEADER then true
    else
      var n := PackageLength(d);
      if n > MAX_BODY then false
      else if |d| == HEADER then true
      else if n < 0 then false
      else if |d| <= HEADER + n then true
      else Scans(d[HEADER + n..])
  }

  /** The bytes held and the chunk; an empty chunk only must not meet a negative header. */
  predicate Accepts(p: seq<byte>, data: seq<byte>) {
    if data == [] then InBody(p) ==> 0 <= PackageLength(p) else Scans(p + data)
  }

  lemma {:induction false} ScansPastBody(p: seq<byte>, data: seq<byte>)
    requires InBody(p) && Readable(p) && |data| > Wanted(p)
    ensures Scans(p + data) <==> Scans(data[Wanted(p)..])
  {
    var n := PackageLength(p);
    SameHeader(p, data);
    ScansNext(p + data, n);
    assert (p + data)[HEADER + n..] == data[Wanted(p)..];
  }

  lemma {:induction false} ScansNext(d: seq<byte>, n: nat)
    requires |d| > HEADER + n && PackageLength(d) == n <= MAX_BODY
    ensures Scans(d) <==> Scans(d[HEADER + n..])
  {
  }

  lemma {:induction false} ScansInFrame(p: seq<byte>, data: seq<byte>)
    requires Reachable(p) && Readable(p) && |data| <= Wanted(p)
    ensures Scans(p + data) <==> !Overflows(p + data)
  {
    SameHeader(p, data);
  }

  /** From every reachable state the code is defined on a chunk if and only if the bytes
      held, followed by the chunk, scan. */
  lemma {:induction false} FeedDefinedIffAccepts(p: seq<byte>, data: seq<byte>)
    requires Reachable(p)
    ensures Feed(p, data).Fed? <==> Accepts(p, data)
    decreases |data|, if InBody(p) then 1 else 0
  {
    if !Readable(p) {
      SameHeader(p, data);
    } else if OneTurn(p, data).rest == [] {
      TurnWithoutRest(p, data);
    } else {
      TurnWithRest(p, data);
    }
  }

  lemma {:induction false} TurnWithoutRest(p: seq<byte>, data: seq<byte>)
    requires Reachable(p) && Readable(p) && OneTurn(p, data).rest == []
    ensures Feed(p, data).Fed? <==> Accepts(p, data)
  {
    assert Copied(p, data) == |data| && data[..|data|] == data;
    ScansInFrame(p, data);
    SameHeader(p, data);
    assert data == [] ==> p + data == p;
  }

  lemma {:induction false} TurnWithRest(p: seq<byte>, data: seq<byte>)
    requires Reachable(p) && Readable(p) && OneTurn(p, data).rest != []
    ensures Feed(p, data).Fed? <==> Scans(p + data)
    decreases |data|, if InBody(p) then 1 else 0, 0
  {
    var n := Wanted(p);
    var t := OneTurn(p, data);
    if InBody(p) {
      ScansPastBody(p, data);
      FeedDefinedIffAccepts([], t.rest);
      assert [] + t.rest == t.rest;
    } else {
      assert p + data == t.part + t.rest;
      SameHeader(t.part, t.rest);
      if !Overflows(t.part) { FeedDefinedIffAccepts(t.part, t.rest); }
    }
  }

  /** The longest body the code can announce has 2147483643 bytes. */
  lemma LongestHeader()
    ensures Feed([], [252, 255, 255, 127]) == Undefined
    ensures Feed([], [251, 255, 255, 127]) == Fed([251, 255, 255, 127], [])
  {
    FourBytes(252, 255, 255, 127);
    FourBytes(251, 255, 255, 127);
    TurnOnHeader([252, 255, 255, 127]);
    FeedPartOfHeader([251, 255, 255, 127]);
  }

  /** A header is a number of four bytes, low byte first, and the highest bit is its sign. */
  lemma FourBytes(a: byte, b: byte, c: byte, d: byte)
    ensures var v := a + 256 * (b + 256 * (c + 256 * d));
            PackageLength([a, b, c, d]) == if d < 128 then v else v - 0x1_0000_0000
  {
    var h: seq<byte> := [a, b, c, d];
    assert h[..HEADER] == h;
    Widths();
    assert h[1..] == [b, c, d] && [b, c, d][1..] == [c, d] && [c, d][1..] == [d] && [d][1..] == [];
    assert LittleValue([d]) == d + 256 * LittleValue([]);
    assert LittleValue([c, d]) == c + 256 * LittleValue([d]);
    assert LittleValue([b, c, d]) == b + 256 * LittleValue([c, d]);
    assert LittleValue(h) == a + 256 * LittleValue([b, c, d]);
  }

  /** A negative header and one byte more are enough. */
  lemma NegativeHeaderIsUndefined()
    ensures Feed([], [255, 255, 255, 255, 0]) == Undefined
  {
    var d: seq<byte> := [255, 255, 255, 255, 0];
    var h: seq<byte> := [255, 255, 255, 255];
    assert d[..HEADER] == h;
    Widths();
    assert LittleValue(h[3..]) == 255 + 256 * LittleValue(h[3..][1..]) == 255;
    assert LittleValue(h[2..]) == 255 + 256 * LittleValue(h[3..]) by { assert h[2..][1..] == h[3..]; }
    assert LittleValue(h[1..]) == 255 + 256 * LittleValue(h[2..]) by { assert h[1..][1..] == h[2..]; }
    assert LittleValue(h) == 255 + 256 * LittleValue(h[1..]);
    assert PackageLength(d) == -1;
    assert [] + d == d;
    FeedDefinedIffAccepts([], d);
  }

  // ----- splitting a chunk does not matter -----

  /** From every reachable state, feeding `a` and then `b` delivers the same bodies and
      leaves the same part as feeding `a + b`, also across bodies of length zero. */
  lemma {:induction false} FeedSplit(p: seq<byte>, a: seq<byte>, b: seq<byte>)
    requires Reachable(p) && a != [] && b != []
    ensures Feed(p, a + b) ==
            match Feed(p, a)
            case Undefined => Undefined
            case Fed(q, out) => Prepend(out, Feed(q, b))
    decreases |a|, if InBody(p) then 1 else 0
  {
    if Readable(p) {
      if |a| >= Wanted(p) {
        SplitAfterTurn(p, a, b);
      } else {
        SplitInsideTurn(p, a, b);
      }
    }
  }

  lemma {:induction false} SplitAfterTurn(p: seq<byte>, a: seq<byte>, b: seq<byte>)
    requires Reachable(p) && a != [] && b != [] && Readable(p) && |a| >= Wanted(p)
    ensures Feed(p, a + b) ==
            match Feed(p, a)
            case Undefined => Undefined
            case Fed(q, out) => Prepend(out, Feed(q, b))
    decreases |a|, if InBody(p) then 1 else 0, 0
  {
    var n := Wanted(p);
    assert (a + b)[..n] == a[..n];
    assert (a + b)[n..] == a[n..] + b;
    var t := OneTurn(p, a);
    SameHeader(p, a[..n]);
    assert OneTurn(p, a + b) == Turn(t.part, t.out, t.rest + b);
    if !Overflows(t.part) {
      if t.rest == [] {
        assert t.rest + b == b;
      } else {
        FeedSplit(t.part, t.rest, b);
        PrependTwice(t.out, Feed(t.part, t.rest), b);
      }
    }
  }

  lemma PrependTwice(o: seq<Body>, r: Fed, b: seq<byte>)
    ensures r.Fed? ==> Prepend(o, Prepend(r.out, Feed(r.part, b))) == Prepend(o + r.out, Feed(r.part, b))
  {
    if r.Fed? && Feed(r.part, b).Fed? {
      assert o + (r.out + Feed(r.part, b).out) == (o + r.out) + Feed(r.part, b).out;
    }
  }

  /** A turn that the first piece does not finish is finished by the second. */
  lemma TurnResumed(p: seq<byte>, a: seq<byte>, b: seq<byte>)
    requires Readable(p) && |a| < Wanted(p)
    requires Readable(p + a) && Wanted(p + a) == Wanted(p) - |a|
    requires InBody(p) ==> InBody(p + a) && PackageLength(p + a) == PackageLength(p)
    requires !InBody(p) ==> !InBody(p + a)
    ensures OneTurn(p, a + b) == OneTurn(p + a, b)
  {
    var q := p + a;
    var n, m := Copied(p, a + b), Copied(q, b);
    assert n == |a| + m;
    assert (a + b)[..n] == a + b[..m];
    assert p + (a + b[..m]) == q + b[..m];
    assert (a + b)[n..] == b[m..];
  }

  lemma SplitInsideTurn(p: seq<byte>, a: seq<byte>, b: seq<byte>)
    requires Reachable(p) && a != [] && b != [] && Readable(p) && |a| < Wanted(p)
    ensures Feed(p, a).Fed? && Feed(p, a + b) == Prepend(Feed(p, a).out, Feed(Feed(p, a).part, b))
  {
    var q := p + a;
    SameHeader(p, a);
    assert a[..|a|] == a && a[|a|..] == [];
    assert OneTurn(p, a) == Turn(q, [], []);
    assert Feed(p, a) == Fed(q, []);
    TurnResumed(p, a, b);
    assert Feed(p, a + b) == Feed(q, b);
    PrependEmpty(Feed(q, b));
  }

  lemma PrependEmpty(r: Fed)
    ensures Prepend([], r) == r
  {
    if r.Fed? { assert [] + r.out == r.out; }
  }

  function FeedAll(p: seq<byte>, chunks: seq<seq<byte>>): Fed
    decreases |chunks|
  {
    if chunks == [] then Fed(p, [])
    else
      match Feed(p, chunks[0])
      case Undefined => Undefined
      case Fed(q, out) => Prepend(out, FeedAll(q, chunks[1..]))
  }

  function Join(chunks: seq<seq<byte>>): seq<byte> {
    if chunks == [] then [] else chunks[0] + Join(chunks[1..])
  }

  predicate NonEmpty(chunks: seq<seq<byte>>) {
    forall i :: 0 <= i < |chunks| ==> chunks[i] != []
  }

  /** However a stream is cut into non-empty chunks, the outcome is that of one call. */
  lemma {:induction false} ChunkingIrrelevant(p: seq<byte>, chunks: seq<seq<byte>>)
    requires Reachable(p) && NonEmpty(chunks) && chunks != []
    ensures FeedAll(p, chunks) == Feed(p, Join(chunks))
    decreases |chunks|
  {
    var a, rest := chunks[0], chunks[1..];
    if rest == [] {
      assert a + Join(rest) == a;
      PrependNothing(Feed(p, a));
    } else {
      JoinNonEmpty(rest);
      FeedSplit(p, a, Join(rest));
      FeedStaysReachable(p, a);
      if Feed(p, a).Fed? {
        ChunkingIrrelevant(Feed(p, a).part, rest);
      }
    }
  }

  lemma PrependNothing(r: Fed)
    ensures r.Fed? ==> Prepend(r.out, Fed(r.part, [])) == r
  {
  }

  lemma JoinNonEmpty(chunks: seq<seq<byte>>)
    requires NonEmpty(chunks) && chunks != []
    ensures Join(chunks) != []
  {
    assert Join(chunks)[..|chunks[0]|] == chunks[0];
  }

  // ----- what comes out of a stream of frames -----

  datatype Cut = Cut(count: nat, part: seq<byte>)

  /** The first `k` bytes of a stream of frames: how many bodies lie wholly inside, and
      the bytes of the frame that is not finished. A frame with an empty body counts
      only once a byte after it has arrived. */
  function CutAt(ms: seq<Body>, k: nat): (c: Cut)
    requires forall m :: m in ms ==> Sendable(m)
    requires k <= |Stream(ms)|
    ensures c.count <= |ms|
  {
    if ms == [] then Cut(0, [])
    else
      var n := HEADER + |ms[0]|;
      if k > n || (k == n && ms[0] != []) then
        var c := CutAt(ms[1..], k - n);
        Cut(c.count + 1, c.part)
      else Cut(0, Frame(ms[0])[..k])
  }

  /** One frame, then more: the body comes out and the state is idle again. */
  lemma FeedWholeFrame(m: Body, b: seq<byte>)
    requires Sendable(m) && (m != [] || b != [])
    ensures Feed([], Frame(m) + b) == if b == [] then Fed([], [m]) else Prepend([m], Feed([], b))
  {
    var h, d := Header(|m|), Frame(m) + b;
    HeaderRoundTrip(|m|, []);
    HeaderRoundTrip(|m|, m);
    assert h + [] == h && d == h + (m + b);
    assert d[..HEADER] == h && d[HEADER..] == m + b && [] + h == h;
    assert OneTurn([], d) == Turn(h, [], m + b);
    var n := Copied(h, m + b);
    assert n == |m| && (m + b)[..n] == m && (m + b)[n..] == b;
    assert (h + m)[HEADER..] == m;
    assert OneTurn(h, m + b) == Turn([], [m], b);
    var r := if b == [] then Fed([], [m]) else Prepend([m], Feed([], b));
    assert Feed(h, m + b) == r;
    if r.Fed? { assert [] + r.out == r.out; }
  }

  lemma TurnOnHeader(d: seq<byte>)
    requires |d| <= HEADER
    ensures OneTurn([], d) == Turn(d, [], [])
  {
    var n := Copied([], d);
    assert n == |d|;
    assert d[..n] == d;
    assert [] + d == d;
  }

  lemma FeedInOneTurn(p: seq<byte>, data: seq<byte>, t: Turn)
    requires Readable(p) && t == OneTurn(p, data) && t.rest == [] && !Overflows(t.part)
    ensures Feed(p, data) == Fed(t.part, t.out)
  {
  }

  /** Bytes that do not complete a header are only stored. */
  lemma FeedPartOfHeader(d: seq<byte>)
    requires |d| <= HEADER && !Overflows(d)
    ensures Feed([], d) == Fed(d, [])
  {
    TurnOnHeader(d);
    FeedInOneTurn([], d, Turn(d, [], []));
  }

  /** So are a header and bytes that do not complete its body. */
  lemma FeedPartOfBody(h: seq<byte>, b: seq<byte>)
    requires |h| == HEADER && 0 < |b| < PackageLength(h) <= MAX_BODY
    ensures Feed([], h + b) == Fed(h + b, [])
  {
    var d := h + b;
    assert d[..HEADER] == h && d[HEADER..] == b && [] + h == h;
    assert OneTurn([], d) == Turn(h, [], b);
    SameHeader(h, b);
    assert b[..|b|] == b && b[|b|..] == [];
    assert OneTurn(h, b) == Turn(d, [], []);
    PrependEmpty(Feed(h, b));
  }

  /** A proper prefix of a frame, or a whole frame with an empty body, is only stored. */
  lemma FeedPartOfFrame(m: Body, k: nat)
    requires Sendable(m) && k > 0
    requires k < HEADER + |m| || (k == HEADER && m == [])
    ensures Feed([], Frame(m)[..k]) == Fed(Frame(m)[..k], [])
  {
    var d, h := Frame(m)[..k], Header(|m|);
    HeaderRoundTrip(|m|, []);
    assert h + [] == h;
    if k <= HEADER {
      assert k == HEADER ==> d == h;
      FeedPartOfHeader(d);
    } else {
      assert d == h + m[..k - HEADER];
      FeedPartOfBody(h, m[..k - HEADER]);
    }
  }

  /** Feeding any non-empty prefix of a stream of frames in one call delivers exactly the
      bodies wholly inside it, in order, and keeps exactly the unfinished frame. */
  lemma {:induction false} FeedPrefix(ms: seq<Body>, k: nat)
    requires forall m :: m in ms ==> Sendable(m)
    requires 0 < k <= |Stream(ms)|
    ensures var c := CutAt(ms, k); Feed([], Stream(ms)[..k]) == Fed(c.part, ms[..c.count])
  {
    var n := HEADER + |ms[0]|;
    if k > n || (k == n && ms[0] != []) {
      var b := Stream(ms[1..])[..k - n];
      assert Stream(ms)[..k] == Frame(ms[0]) + b;
      FeedWholeFrame(ms[0], b);
      if k > n { FeedPrefix(ms[1..], k - n); } else { IdleCut(ms[1..]); }
      CutPastFrame(ms, k, if k > n then Feed([], b) else Fed([], []));
    } else {
      assert Stream(ms)[..k] == Frame(ms[0])[..k];
      FeedPartOfFrame(ms[0], k);
    }
  }

  lemma CutPastFrame(ms: seq<Body>, k: nat, r: Fed)
    requires forall m :: m in ms ==> Sendable(m)
    requires ms != [] && k <= |Stream(ms)|
    requires k > HEADER + |ms[0]| || (k == HEADER + |ms[0]| && ms[0] != [])
    requires var c := CutAt(ms[1..], k - HEADER - |ms[0]|); r == Fed(c.part, ms[1..][..c.count])
    ensures var c := CutAt(ms, k); Prepend([ms[0]], r) == Fed(c.part, ms[..c.count])
  {
    var c := CutAt(ms[1..], k - HEADER - |ms[0]|);
    assert ms[..c.count + 1] == [ms[0]] + ms[1..][..c.count];
  }

  lemma IdleCut(ms: seq<Body>)
    requires forall m :: m in ms ==> Sendable(m)
    ensures CutAt(ms, 0) == Cut(0, [])
  {
  }

  /** Framing under any chunking: for every list of bodies, every prefix of their stream
      and every division of the prefix into non-empty chunks. */
  lemma FramingUnderAnyChunking(ms: seq<Body>, k: nat, chunks: seq<seq<byte>>)
    requires forall m :: m in ms ==> Sendable(m)
    requires k <= |Stream(ms)| && NonEmpty(chunks) && Join(chunks) == Stream(ms)[..k]
    ensures var c := CutAt(ms, k); FeedAll([], chunks) == Fed(c.part, ms[..c.count])
  {
    if chunks == [] {
      assert k == |Join(chunks)| == 0;
      IdleCut(ms);
    } else {
      JoinNonEmpty(chunks);
      ChunkingIrrelevant([], chunks);
      FeedPrefix(ms, k);
    }
  }

  lemma {:induction false} CutAtEnd(ms: seq<Body>)
    requires forall m :: m in ms ==> Sendable(m) && m != []
    ensures CutAt(ms, |Stream(ms)|) == Cut(|ms|, [])
  {
    if ms != [] {
      assert ms[0] in ms;
      CutAtEnd(ms[1..]);
      assert |Stream(ms)| - (HEADER + |ms[0]|) == |Stream(ms[1..])|;
      IdleCut(ms[1..]);
    }
  }

  /** The whole stream of non-empty bodies, in any chunks, gives back the bodies. */
  lemma StreamRoundTrip(ms: seq<Body>, chunks: seq<seq<byte>>)
    requires forall m :: m in ms ==> Sendable(m) && m != []
    requires NonEmpty(chunks) && Join(chunks) == Stream(ms)
    ensures FeedAll([], chunks) == Fed([], ms)
  {
    assert Stream(ms)[..|Stream(ms)|] == Stream(ms);
    FramingUnderAnyChunking(ms, |Stream(ms)|, chunks);
    CutAtEnd(ms);
    assert ms[..|ms|] == ms;
  }

  // ----- no byte is lost or invented -----

  lemma {:induction false} StreamConcat(a: seq<Body>, b: seq<Body>)
    requires forall m :: m in a + b ==> Sendable(m)
    ensures Stream(a + b) == Stream(a) + Stream(b)
  {
    assert forall m :: m in a || m in b ==> m in a + b;
    if a == [] {
      assert a + b == b;
    } else {
      assert (a + b)[1..] == a[1..] + b;
      StreamConcat(a[1..], b);
    }
  }

  lemma StreamOfOne(m: Body)
    requires Sendable(m)
    ensures Stream([m]) == Frame(m)
  {
    assert [m][1..] == [];
    assert Frame(m) + [] == Frame(m);
  }

  lemma TurnConserves(p: seq<byte>, data: seq<byte>)
    requires Readable(p)
    ensures var t := OneTurn(p, data);
            (forall m :: m in t.out ==> Sendable(m)) && Stream(t.out) + t.part + t.rest == p + data
  {
    var n := Copied(p, data);
    var p' := p + data[..n];
    assert p' + data[n..] == p + data;
    if InBody(p) && |p'| == HEADER + PackageLength(p) {
      SameHeader(p, data[..n]);
      HeaderUnique(p');
      var m := p'[HEADER..];
      assert p' == Frame(m);
      StreamOfOne(m);
      assert p' + [] == p';
    } else {
      assert [] + p' == p';
    }
  }

  /** For every state and every input on which the code is defined, the frames of the
      bodies delivered, followed by the part kept, are the part held and the input. */
  lemma {:induction false} FeedConserves(p: seq<byte>, data: seq<byte>)
    requires Feed(p, data).Fed?
    ensures var r := Feed(p, data);
            (forall m :: m in r.out ==> Sendable(m)) && Stream(r.out) + r.part == p + data
    decreases |data|, if InBody(p) then 1 else 0
  {
    var t := OneTurn(p, data);
    TurnConserves(p, data);
    if t.rest != [] {
      FeedConserves(t.part, t.rest);
      var r := Feed(t.part, t.rest);
      StreamConcat(t.out, r.out);
      Assoc(Stream(t.out), Stream(r.out), r.part);
      Assoc(Stream(t.out), t.part, t.rest);
    } else {
      assert Stream(t.out) + t.part + [] == Stream(t.out) + t.part;
    }
  }

  // ----- how long the bodies are -----

  /** A scan of raw bytes: no frame that is complete has a body of more than `cap` bytes. */
  predicate Within(d: seq<byte>, cap: nat)
    decreases |d|
  {
    if |d| < HEADER then true
    else
      var n := PackageLength(d);
      n < 0 || |d| < HEADER + n || (n <= cap && Within(d[HEADER + n..], cap))
  }

  predicate AllWithin(out: seq<Body>, cap: nat) {
    forall i :: 0 <= i < |out| ==> |out[i]| <= cap
  }

  lemma {:induction false} WithinFrame(m: Body, rest: seq<byte>, cap: nat)
    requires Sendable(m)
    ensures Within(Frame(m) + rest, cap) <==> |m| <= cap && Within(rest, cap)
  {
    var d := Frame(m) + rest;
    assert d == Header(|m|) + (m + rest);
    HeaderRoundTrip(|m|, m + rest);
    assert d[HEADER + |m|..] == rest;
  }

  lemma {:induction false} WithinStream(ms: seq<Body>, rest: seq<byte>, cap: nat)
    requires forall m :: m in ms ==> Sendable(m)
    ensures Within(Stream(ms) + rest, cap) <==> AllWithin(ms, cap) && Within(rest, cap)
  {
    if ms == [] {
      assert Stream(ms) + rest == rest;
    } else {
      WithinStream(ms[1..], rest, cap);
      Assoc(Frame(ms[0]), Stream(ms[1..]), rest);
      WithinFrame(ms[0], Stream(ms[1..]) + rest, cap);
      assert forall i :: 0 < i < |ms| ==> ms[i] == ms[1..][i - 1];
    }
  }

  /** From every reachable state, no body delivered is longer than `cap` if and only if
      the bytes held and the input say so. */
  lemma BodiesWithinIff(p: seq<byte>, data: seq<byte>, cap: nat)
    requires Reachable(p) && Feed(p, data).Fed?
    ensures AllWithin(Feed(p, data).out, cap) <==> Within(p + data, cap)
  {
    var r := Feed(p, data);
    FeedConserves(p, data);
    FeedStaysReachable(p, data);
    WithinStream(r.out, r.part, cap);
    assert |r.part| == HEADER ==> r.part[HEADER..] == [];
  }

  // ----- a recycled connection id -----

  /** An id whose buffer is idle behaves for every stream like an id never used, and no
      other state a connection can be left in does. */
  lemma FreshIffIdle(p: seq<byte>)
    requires Reachable(p)
    ensures (forall s :: s != [] ==> SameBodies(Feed(p, s), Feed([], s))) <==> p == []
  {
    if p != [] {
      StaleStateShows(p);
    }
  }

  predicate SameBodies(a: Fed, b: Fed) {
    match (a, b)
    case (Fed(_, x), Fed(_, y)) => x == y
    case _ => a == b
  }

  lemma FrameOfTwo()
    ensures Frame([2]) == [1, 0, 0, 0, 2]
  {
    assert LittleDigits(0, 1) == [0] + LittleDigits(0, 0) == [0];
    assert LittleDigits(0, 2) == [0] + LittleDigits(0, 1) == [0, 0];
    assert LittleDigits(0, 3) == [0] + LittleDigits(0, 2) == [0, 0, 0];
    assert LittleDigits(1, 4) == [1] + LittleDigits(0, 3) == [1, 0, 0, 0];
  }

  /** The frame of the one-byte body 2 tells every left-over state from an idle one. */
  lemma StaleStateShows(p: seq<byte>)
    requires Reachable(p) && p != []
    ensures !SameBodies(Feed(p, Frame([2])), Feed([], Frame([2])))
  {
    var s := Frame([2]);
    FeedWholeFrame([2], []);
    assert s + [] == s;
    FrameOfTwo();
    if InBody(p) {
      StaleBodyShows(p, s);
    } else {
      StaleHeaderShows(p, s);
    }
  }

  lemma StaleBodyShows(p: seq<byte>, s: seq<byte>)
    requires Reachable(p) && InBody(p) && s == [1, 0, 0, 0, 2]
    ensures Feed(p, s).Fed? ==> Feed(p, s).out != [[2]]
  {
    if Readable(p) {
      var t := OneTurn(p, s);
      if t.out != [] {
        var m := t.out[0];
        assert |m| == PackageLength(p);
        if |m| == 1 {
          assert Copied(p, s) == 1 && m[0] == s[0] == 1;
        }
        assert t.out == [m] && m != [2];
        if t.rest != [] && Feed(t.part, t.rest).Fed? {
          assert Feed(p, s).out[0] == m;
        }
      }
    }
  }

  lemma StaleHeaderShows(p: seq<byte>, s: seq<byte>)
    requires 0 < |p| < HEADER && s == [1, 0, 0, 0, 2]
    ensures Feed(p, s).Fed? ==> Feed(p, s).out == []
  {
    var n := HEADER - |p|;
    var h := p + s[..n];
    var b := s[n..];
    assert OneTurn(p, s) == Turn(h, [], b);
    ShiftedHeader(p, h);
    SameHeader(h, b);
    if !Overflows(h) {
      assert Copied(h, b) == |b| && b[|b|..] == [];
      assert OneTurn(h, b) == Turn(h + b[..|b|], [], []);
    }
  }

  /** One to three stray bytes push the length 1 up to at least 256. */
  lemma ShiftedHeader(p: seq<byte>, h: seq<byte>)
    requires 0 < |p| < HEADER && h == p + [1, 0, 0, 0, 2][..HEADER - |p|]
    ensures |h| == HEADER && PackageLength(h) >= 256
  {
    Widths();
    var s := [1, 0, 0, 0, 2][..HEADER - |p|];
    LittleValueConcat(p, s);
    assert s[0] == 1;
    assert LittleValue(s) == 1 + 256 * LittleValue(s[1..]);
    ZerosAreZero(s[1..]);
    assert h[..HEADER] == h;
    assert Pow256(1) == 256 && Pow256(2) == 256 * Pow256(1) && Pow256(3) == 256 * Pow256(2);
  }

  /** One stray byte and then a frame: the frame is lost in a body of 256 bytes. */
  lemma StrayByteSwallowsFrame()
    ensures Feed([], [0]) == Fed([0], [])
    ensures Scans([0] + Frame([2])) && Feed([0], Frame([2])).Fed? && Feed([0], Frame([2])).out == []
  {
    var s, d := Frame([2]), [0] + Frame([2]);
    FrameOfTwo();
    assert d[..HEADER] == [0, 1, 0, 0];
    ShortLength(d);
    FeedDefinedIffAccepts([0], s);
    StaleHeaderShows([0], s);
    assert [] + [0] == [0];
    assert OneTurn([], [0]) == Turn([0], [], []);
  }

  lemma ShortLength(d: seq<byte>)
    requires |d| >= HEADER && d[..HEADER] == [0, 1, 0, 0]
    ensures PackageLength(d) == 256
  {
    Widths();
    var h: seq<byte> := [0, 1, 0, 0];
    ZerosAreZero(h[2..]);
    assert h[1..][1..] == h[2..];
    assert LittleValue(h[1..]) == 1 + 256 * LittleValue(h[2..]);
    assert LittleValue(h) == 0 + 256 * LittleValue(h[1..]);
  }

  // ----- many connections -----

  datatype Arrival = Arrival(id: int, chunk: seq<byte>)
  datatype Received = Received(id: int, body: Body)
  type Parts = map<int, seq<byte>>

  function PartOf(parts: Parts, id: int): seq<byte> {
    if id in parts then parts[id] else []
  }

  function Tagged(id: int, out: seq<Body>): (r: seq<Received>)
    ensures |r| == |out|
  {
    if out == [] then [] else [Received(id, out[0])] + Tagged(id, out[1..])
  }

  datatype Outcome = Ran(parts: Parts, log: seq<Received>) | Crashed

  function RunArrivals(parts: Parts, arrivals: seq<Arrival>): (r: Outcome)
    decreases |arrivals|
  {
    if arrivals == [] then Ran(parts, [])
    else
      var id := arrivals[0].id;
      match Feed(PartOf(parts, id), arrivals[0].chunk)
      case Undefined => Crashed
      case Fed(p, out) =>
        match RunArrivals(parts[id := p], arrivals[1..])
        case Crashed => Crashed
        case Ran(parts', log) => Ran(parts', Tagged(id, out) + log)
  }

  function ChunksOf(arrivals: seq<Arrival>, id: int): seq<seq<byte>> {
    if arrivals == [] then []
    else (if arrivals[0].id == id then [arrivals[0].chunk] else []) + ChunksOf(arrivals[1..], id)
  }

  function BodiesOf(log: seq<Received>, id: int): seq<Body> {
    if log == [] then []
    else (if log[0].id == id then [log[0].body] else []) + BodiesOf(log[1..], id)
  }

  lemma BodiesOfCons(r: Received, log: seq<Received>, id: int)
    ensures BodiesOf([r] + log, id) == if r.id == id then [r.body] + BodiesOf(log, id) else BodiesOf(log, id)
  {
    assert ([r] + log)[1..] == log;
    assert [] + BodiesOf(log, id) == BodiesOf(log, id);
  }

  lemma HeadTail(out: seq<Body>, x: seq<Body>)
    requires out != []
    ensures [out[0]] + (out[1..] + x) == out + x
  {
  }

  lemma TaggedCons(tag: int, out: seq<Body>, log: seq<Received>)
    requires out != []
    ensures Tagged(tag, out) + log == [Received(tag, out[0])] + (Tagged(tag, out[1..]) + log)
  {
  }

  lemma {:induction false} BodiesOfTagged(tag: int, out: seq<Body>, log: seq<Received>, id: int)
    ensures BodiesOf(Tagged(tag, out) + log, id) == if tag == id then out + BodiesOf(log, id) else BodiesOf(log, id)
  {
    if out == [] {
      assert Tagged(tag, out) + log == log;
      assert out + BodiesOf(log, id) == BodiesOf(log, id);
    } else {
      BodiesOfTagged(tag, out[1..], log, id);
      TaggedCons(tag, out, log);
      BodiesOfCons(Received(tag, out[0]), Tagged(tag, out[1..]) + log, id);
      HeadTail(out, BodiesOf(log, id));
    }
  }

  lemma {:induction false} FeedAllFirst(p: seq<byte>, chunk: seq<byte>, rest: seq<seq<byte>>)
    requires Feed(p, chunk).Fed?
    ensures FeedAll(p, [chunk] + rest) == Prepend(Feed(p, chunk).out, FeedAll(Feed(p, chunk).part, rest))
  {
    assert ([chunk] + rest)[1..] == rest;
  }

  /** Under any interleaving of chunks for many connections, what a connection delivers
      and keeps is what its own chunks alone would give. */
  lemma {:induction false} ConnectionsAreIsolated(parts: Parts, arrivals: seq<Arrival>, id: int)
    requires RunArrivals(parts, arrivals).Ran?
    ensures var r := RunArrivals(parts, arrivals);
            FeedAll(PartOf(parts, id), ChunksOf(arrivals, id)) == Fed(PartOf(r.parts, id), BodiesOf(r.log, id))
    decreases |arrivals|
  {
    if arrivals != [] {
      var tag := arrivals[0].id;
      var f := Feed(PartOf(parts, tag), arrivals[0].chunk);
      var parts' := parts[tag := f.part];
      var r := RunArrivals(parts', arrivals[1..]);
      ConnectionsAreIsolated(parts', arrivals[1..], id);
      BodiesOfTagged(tag, f.out, r.log, id);
      var rest := ChunksOf(arrivals[1..], id);
      if tag == id {
        FeedAllFirst(PartOf(parts, id), arrivals[0].chunk, rest);
        assert PartOf(parts', id) == f.part;
      } else {
        assert ChunksOf(arrivals, id) == rest;
        assert PartOf(parts', id) == PartOf(parts, id);
      }
    }
  }
}
