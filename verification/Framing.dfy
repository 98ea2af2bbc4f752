/** The reader loop: three header bytes, then the body, over one reused buffer. */
module Framing {
  import opened Bytes
  import opened SoupPacket

  const BUFFER_SIZE := 65535

  /** incoming_message::decode_header: the ten packet types the loop knows. */
  predicate Known(t: byte) {
    || t == DEBUG || t == LOGIN_ACCEPTED || t == LOGIN_REJECTED || t == SEQUENCED || t == SERVER_HEARTBEAT
    || t == END_OF_SESSION || t == LOGIN_REQUEST || t == UNSEQUENCED || t == CLIENT_HEARTBEAT || t == LOGOUT_REQUEST
  }

  /** Exactly these ten bytes: + A J S H Z L U R O. */
  lemma KnownIff(t: byte)
    ensures Known(t) <==> t in {43, 65, 74, 83, 72, 90, 76, 85, 82, 79}
  {}

  /** The lengths for which header and body stay inside the buffer. (For length 0 the source asks
      for 2^64 - 1 body bytes.) */
  predicate BodyFits(length: nat) {
    1 <= length && length + 2 <= BUFFER_SIZE
  }

  /** A packet the loop can deliver. */
  predicate Framed(p: bytes) {
    |p| >= 3 && |p| == LengthOf(p) + 2 && BodyFits(LengthOf(p)) && Known(p[2])
  }

  /** What has been read of the current packet. Overrun: the source writes past its buffer, and the
      model stops. */
  datatype RawReader = InHeader(got: bytes) | InBody(got: bytes) | Overrun

  predicate Consistent(r: RawReader) {
    match r
    case InHeader(got) => |got| < 3
    case InBody(got) => 3 <= |got| && BodyFits(LengthOf(got)) && |got| < LengthOf(got) + 2 && Known(got[2])
    case Overrun => true
  }

  type Reader = r: RawReader | Consistent(r) witness InHeader([])

  const IDLE: Reader := InHeader([])

  datatype Reading = Reading(reader: Reader, packets: seq<bytes>)

  /** One more byte arrives; at most one packet is handed on. */
  function Feed(r: Reader, b: byte): (result: Reading) {
    match r
    case InHeader(got) =>
      var h := got + [b];
      if |h| < 3 then Reading(InHeader(h), [])
      else if !Known(h[2]) then Reading(IDLE, [])
      else if !BodyFits(LengthOf(h)) then Reading(Overrun, [])
      else if LengthOf(h) == 1 then Reading(IDLE, [h])
      else Reading(InBody(h), [])
    case InBody(got) =>
      var p := got + [b];
      assert p[..3] == got[..3];
      if |p| == LengthOf(p) + 2 then Reading(IDLE, [p]) else Reading(InBody(p), [])
    case Overrun => Reading(Overrun, [])
  }

  type ByteStep = (Reader, byte) -> Reading

  function Fold(step: ByteStep, r: Reader, s: bytes): (result: Reading) {
    if s == [] then Reading(r, [])
    else
      var before := Fold(step, r, s[..|s| - 1]);
      var last := step(before.reader, s[|s| - 1]);
      Reading(last.reader, before.packets + last.packets)
  }

  /** A whole stream arrives. */
  function FeedAll(r: Reader, s: bytes): (result: Reading) {
    Fold(Feed, r, s)
  }

  lemma FoldSnoc(step: ByteStep, r: Reader, s: bytes, b: byte)
    ensures var before := Fold(step, r, s);
            var last := step(before.reader, b);
            Fold(step, r, s + [b]) == Reading(last.reader, before.packets + last.packets)
  {
    assert (s + [b])[..|s|] == s;
  }

  lemma {:induction false} FoldSplits(step: ByteStep, r: Reader, a: bytes, b: bytes)
    ensures var first := Fold(step, r, a);
            var second := Fold(step, first.reader, b);
            Fold(step, r, a + b) == Reading(second.reader, first.packets + second.packets)
    decreases |b|
  {
    if b == [] {
      assert a + b == a;
    } else {
      var b', x := b[..|b| - 1], b[|b| - 1];
      FoldSplits(step, r, a, b');
      FoldSnoc(step, r, a + b', x);
      assert a + b' + [x] == a + b;
    }
  }

  /** The outcome does not depend on how the stream was cut into chunks. */
  lemma ChunkingInvisible(r: Reader, a: bytes, b: bytes)
    ensures var first := FeedAll(r, a);
            var second := FeedAll(first.reader, b);
            FeedAll(r, a + b) == Reading(second.reader, first.packets + second.packets)
  {
    FoldSplits(Feed, r, a, b);
  }

  /** A packet of an unknown type loses only its three header bytes: its body is read as headers. */
  lemma UnknownDropsHeader(h: bytes, s: bytes)
    requires |h| == 3 && !Known(h[2])
    ensures FeedAll(IDLE, h + s) == FeedAll(IDLE, s)
  {
    assert [] + [h[0]] == [h[0]] && [h[0]] + [h[1]] == [h[0], h[1]] && [h[0], h[1]] + [h[2]] == h;
    FoldSnoc(Feed, IDLE, [], h[0]);
    FoldSnoc(Feed, IDLE, [h[0]], h[1]);
    FoldSnoc(Feed, IDLE, [h[0], h[1]], h[2]);
    assert FeedAll(IDLE, h) == Reading(IDLE, []);
    ChunkingInvisible(IDLE, h, s);
    assert [] + FeedAll(IDLE, s).packets == FeedAll(IDLE, s).packets;
  }

  /** Whatever the stream, only framed packets are handed on. */
  lemma {:induction false} OnlyFramedPackets(r: Reader, s: bytes, k: nat)
    requires k < |FeedAll(r, s).packets|
    ensures Framed(FeedAll(r, s).packets[k])
    decreases |s|
  {
    var before := FeedAll(r, s[..|s| - 1]);
    if k < |before.packets| {
      OnlyFramedPackets(r, s[..|s| - 1], k);
    }
  }

  function Concat(ps: seq<bytes>): (r: bytes) {
    if ps == [] then [] else ps[0] + Concat(ps[1..])
  }

  lemma Regroup(x: bytes, y: bytes, z: bytes)
    ensures x + (y + z) == x + y + z
  {}

  lemma {:induction false} ConcatAppend(a: seq<bytes>, b: seq<bytes>)
    ensures Concat(a + b) == Concat(a) + Concat(b)
  {
    if a == [] {
      assert a + b == b;
    } else {
      ConcatAppend(a[1..], b);
      assert (a + b)[0] == a[0] && (a + b)[1..] == a[1..] + b;
      Regroup(a[0], Concat(a[1..]), Concat(b));
    }
  }

  predicate AllFramed(ps: seq<bytes>) {
    forall k :: 0 <= k < |ps| ==> Framed(ps[k])
  }

  /** How many packets lie wholly inside the first k bytes of their concatenation. */
  function Whole(ps: seq<bytes>, k: nat): (m: nat)
    ensures m <= |ps|
  {
    if ps == [] || k < |ps[0]| then 0 else 1 + Whole(ps[1..], k - |ps[0]|)
  }

  /** The reader that holds exactly these bytes of an unfinished packet. */
  function Holding(got: bytes): (r: RawReader) {
    if |got| < 3 then InHeader(got) else InBody(got)
  }

  lemma HoldingPrefix(p: bytes, k: nat)
    requires Framed(p) && k < |p|
    ensures Consistent(Holding(p[..k]))
  {
    if k >= 3 {
      assert p[..k][0] == p[0] && p[..k][1] == p[1] && p[..k][2] == p[2];
    }
  }

  /** The next byte of a framed packet. */
  lemma FeedNext(p: bytes, k: nat)
    requires Framed(p) && k < |p| && Consistent(Holding(p[..k]))
    ensures k + 1 < |p| ==> Consistent(Holding(p[..k + 1]))
    ensures Feed(Holding(p[..k]), p[k]) ==
            if k + 1 < |p| then Reading(Holding(p[..k + 1]), []) else Reading(IDLE, [p])
  {
    var q := p[..k + 1];
    assert q == p[..k] + [p[k]];
    assert k + 1 == |p| ==> q == p;
    if k + 1 < |p| {
      HoldingPrefix(p, k + 1);
    }
    if k >= 2 {
      assert q[0] == p[0] && q[1] == p[1] && q[2] == p[2];
    }
  }

  /** Before its last byte, nothing of a packet is handed on. */
  lemma {:induction false} FeedPart(p: bytes, k: nat)
    requires Framed(p) && k < |p|
    ensures Consistent(Holding(p[..k])) && FeedAll(IDLE, p[..k]) == Reading(Holding(p[..k]), [])
    decreases k
  {
    if k == 0 {
      assert p[..0] == [];
    } else {
      FeedPart(p, k - 1);
      FeedOneMore(p, k - 1);
    }
  }

  lemma FeedOneMore(p: bytes, k: nat)
    requires Framed(p) && k < |p| && Consistent(Holding(p[..k]))
    requires FeedAll(IDLE, p[..k]) == Reading(Holding(p[..k]), [])
    ensures k + 1 < |p| ==> Consistent(Holding(p[..k + 1]))
    ensures FeedAll(IDLE, p[..k + 1]) == if k + 1 < |p| then Reading(Holding(p[..k + 1]), []) else Reading(IDLE, [p])
  {
    FeedNext(p, k);
    assert p[..k] + [p[k]] == p[..k + 1];
    FeedMore(p[..k], p[k], Holding(p[..k]));
  }

  lemma FeedMore(s: bytes, b: byte, r: Reader)
    requires FeedAll(IDLE, s) == Reading(r, [])
    ensures FeedAll(IDLE, s + [b]) == Feed(r, b)
  {
    FoldSnoc(Feed, IDLE, s, b);
    assert [] + Feed(r, b).packets == Feed(r, b).packets;
  }

  /** With its last byte, the packet itself is. */
  lemma FeedPacket(p: bytes)
    requires Framed(p)
    ensures FeedAll(IDLE, p) == Reading(IDLE, [p])
  {
    FeedPart(p, |p| - 1);
    FeedOneMore(p, |p| - 1);
    assert p[..|p|] == p;
  }

  /** Delivery by whole packets: what a reader of the first k bytes of a concatenation should do. */
  function Expected(ps: seq<bytes>, k: nat): (r: Reading)
    requires AllFramed(ps)
  {
    if ps == [] then Reading(IDLE, [])
    else if k < |ps[0]| then
      HoldingPrefix(ps[0], k);
      Reading(Holding(ps[0][..k]), [])
    else
      var later := Expected(ps[1..], k - |ps[0]|);
      Reading(later.reader, [ps[0]] + later.packets)
  }

  lemma {:induction false} FeedConcat(ps: seq<bytes>, k: nat)
    requires AllFramed(ps) && k <= |Concat(ps)|
    ensures FeedAll(IDLE, Concat(ps)[..k]) == Expected(ps, k)
    decreases |ps|
  {
    if ps == [] {
      assert Concat(ps)[..k] == [];
    } else {
      var p, rest := ps[0], Concat(ps[1..]);
      if k < |p| {
        assert (p + rest)[..k] == p[..k];
        FeedPart(p, k);
      } else {
        assert (p + rest)[..k] == p + rest[..k - |p|];
        TakeBehind(p, rest, k);
        FeedPacket(p);
        ChunkingInvisible(IDLE, p, rest[..k - |p|]);
        FeedConcat(ps[1..], k - |p|);
      }
    }
  }

  /** The first k bytes are the whole packets and `got`, the beginning of the next one. */
  ghost predicate Cuts(ps: seq<bytes>, k: nat, got: bytes)
    requires k <= |Concat(ps)|
  {
    var m := Whole(ps, k);
    && Concat(ps)[..k] == Concat(ps[..m]) + got
    && (if m < |ps| then |got| < |ps[m]| else got == [])
  }

  lemma CutsHere(ps: seq<bytes>, k: nat)
    requires ps != [] && k < |ps[0]|
    ensures k <= |Concat(ps)| && Cuts(ps, k, ps[0][..k])
  {
    assert (ps[0] + Concat(ps[1..]))[..k] == ps[0][..k];
    assert ps[..0] == [];
  }

  lemma Join(p: bytes, s: bytes, k: nat, x: bytes, got: bytes)
    requires |p| <= k <= |p| + |s| && s[..k - |p|] == x + got
    ensures (p + s)[..k] == p + x + got
  {
    TakeBehind(p, s, k);
    Regroup(p, x, got);
  }

  lemma CutsBehind(ps: seq<bytes>, k: nat, got: bytes)
    requires ps != [] && |ps[0]| <= k <= |Concat(ps)| && Cuts(ps[1..], k - |ps[0]|, got)
    ensures Cuts(ps, k, got)
  {
    var m := Whole(ps[1..], k - |ps[0]|);
    TakeCons(ps, m);
    Join(ps[0], Concat(ps[1..]), k, Concat(ps[1..][..m]), got);
    assert Whole(ps, k) == m + 1;
    assert m < |ps| - 1 ==> ps[1..][m] == ps[m + 1];
  }

  /** Expected hands on the whole packets and holds the beginning of the next one. */
  lemma {:induction false} ExpectedShape(ps: seq<bytes>, k: nat) returns (got: bytes)
    requires AllFramed(ps) && k <= |Concat(ps)|
    ensures Cuts(ps, k, got) && Consistent(Holding(got))
    ensures Expected(ps, k) == Reading(Holding(got), ps[..Whole(ps, k)])
    decreases |ps|
  {
    if ps == [] {
      got := [];
    } else if k < |ps[0]| {
      got := ps[0][..k];
      HoldingPrefix(ps[0], k);
      CutsHere(ps, k);
    } else {
      got := ExpectedShape(ps[1..], k - |ps[0]|);
      CutsBehind(ps, k, got);
      TakeCons(ps, Whole(ps[1..], k - |ps[0]|));
    }
  }

  lemma TakeCons(ps: seq<bytes>, m: nat)
    requires ps != [] && m < |ps|
    ensures Concat(ps[..m + 1]) == ps[0] + Concat(ps[1..][..m])
    ensures ps[..m + 1] == [ps[0]] + ps[1..][..m]
  {
    assert ps[..m + 1][1..] == ps[1..][..m];
  }

  lemma TakeBehind(p: bytes, s: bytes, k: nat)
    requires |p| <= k <= |p| + |s|
    ensures (p + s)[..k] == p + s[..k - |p|]
  {}

  /** Framing round trip: on any prefix of a concatenation of framed packets, the loop hands on
      exactly the packets wholly inside it, in order, and holds the bytes of the next one. */
  lemma FramingRoundTrip(ps: seq<bytes>, k: nat) returns (got: bytes)
    requires AllFramed(ps) && k <= |Concat(ps)|
    ensures var m := Whole(ps, k);
            && Concat(ps)[..k] == Concat(ps[..m]) + got
            && (if m < |ps| then |got| < |ps[m]| else got == [])
            && Consistent(Holding(got)) && FeedAll(IDLE, Concat(ps)[..k]) == Reading(Holding(got), ps[..m])
  {
    FeedConcat(ps, k);
    got := ExpectedShape(ps, k);
  }

  lemma ConcatOne(ps: seq<bytes>, p: bytes)
    ensures Concat(ps + [p]) == Concat(ps) + p
  {
    ConcatAppend(ps, [p]);
    assert Concat([p]) == p + Concat([]);
  }

  function GotOf(r: Reader): (result: bytes) {
    match r
    case InHeader(got) => got
    case InBody(got) => got
    case Overrun => []
  }

  /** The bytes are exactly these packets, and the reader has not finished the first one. */
  ghost predicate Midway(r: Reader, s: bytes, es: seq<bytes>) {
    && !r.Overrun? && AllFramed(es)
    && (if es == [] then GotOf(r) == [] else |GotOf(r)| < |es[0]|)
    && s == Concat(es)
  }

  lemma MidwaySnoc(r: Reader, s: bytes, es: seq<bytes>, p: bytes)
    requires Midway(r, s, es) && Framed(p)
    ensures Midway(r, s + p, es + [p])
  {
    ConcatOne(es, p);
    assert es != [] ==> (es + [p])[0] == es[0];
  }

  /** A reader is where it would be after reading its own bytes from the start. */
  lemma ReaderReplays(r: Reader, s: bytes, es: seq<bytes>)
    requires Midway(r, s, es) && GotOf(r) <= s
    ensures FeedAll(IDLE, GotOf(r)) == Reading(r, [])
  {
    var got := GotOf(r);
    assert Holding(got) == r;
    if es == [] {
      assert got == [];
    } else {
      assert got == s[..|got|] == es[0][..|got|];
      FeedPart(es[0], |got|);
    }
  }

  lemma CancelPrefix(x: bytes, y: bytes, done: bytes, got': bytes, rest: bytes)
    requires x + y == done + rest && x == done + got'
    ensures rest == got' + y
  {
    assert done + (got' + y) == x + y;
    assert rest == (x + y)[|done|..];
  }

  lemma ConcatSplit(es: seq<bytes>, m: nat)
    requires m <= |es|
    ensures Concat(es) == Concat(es[..m]) + Concat(es[m..])
  {
    assert es == es[..m] + es[m..];
    ConcatAppend(es[..m], es[m..]);
  }

  lemma ReaderGoesOn(r: Reader, got: bytes, x: bytes)
    requires FeedAll(IDLE, got) == Reading(r, [])
    ensures FeedAll(IDLE, got + x) == FeedAll(r, x)
  {
    ChunkingInvisible(IDLE, got, x);
    assert [] + FeedAll(r, x).packets == FeedAll(r, x).packets;
  }

  lemma RestMidway(es: seq<bytes>, m: nat, got: bytes, y: bytes)
    requires AllFramed(es) && m <= |es| && Consistent(Holding(got)) && Concat(es[m..]) == got + y
    requires if m < |es| then |got| < |es[m]| else got == []
    ensures GotOf(Holding(got)) == got && Midway(Holding(got), got + y, es[m..])
  {}

  lemma TakeFront(s: bytes, y: bytes)
    ensures (s + y)[..|s|] == s
  {}

  /** x arrives and y is still to come: the finished packets are handed on, the others remain. */
  lemma ReadOn(r: Reader, x: bytes, y: bytes, es: seq<bytes>) returns (m: nat)
    requires Midway(r, GotOf(r) + x + y, es)
    ensures m <= |es|
    ensures var next := FeedAll(r, x);
            next.packets == es[..m] && Midway(next.reader, GotOf(next.reader) + y, es[m..])
  {
    var got, s := GotOf(r), GotOf(r) + x;
    ReaderReplays(r, s + y, es);
    ReaderGoesOn(r, got, x);
    TakeFront(s, y);
    var got' := FramingRoundTrip(es, |s|);
    m := Whole(es, |s|);
    ConcatSplit(es, m);
    CancelPrefix(s, y, Concat(es[..m]), got', Concat(es[m..]));
    RestMidway(es, m, got', y);
  }

  /** Delivery, for a packet of any type and body: it reaches the other side's handler, as one packet
      and leaving the reader waiting for a header, exactly when its type is one of the ten and its body
      has at most 65532 bytes. */
  lemma DeliveredIff(t: byte, body: bytes)
    ensures FeedAll(IDLE, Packet(t, body)) == Reading(IDLE, [Packet(t, body)]) <==>
            t in {43, 65, 74, 83, 72, 90, 76, 85, 82, 79} && |body| <= 65532
  {
    var p := Packet(t, body);
    KnownIff(t);
    if Known(t) && |body| <= 65532 {
      PacketFramed(t, body);
      FeedPacket(p);
    } else if FeedAll(IDLE, p).packets == [p] {
      OnlyFramedPackets(IDLE, p, 0);
    }
  }

  /** A header of a known type stops the loop exactly when its length is 0 or above 65533; from then on
      nothing is handed on. */
  lemma OverrunIff(h: bytes)
    requires |h| == 3 && Known(h[2])
    ensures FeedAll(IDLE, h).reader.Overrun? <==> LengthOf(h) == 0 || LengthOf(h) > 65533
  {
    FoldSnoc(Feed, IDLE, [], h[0]);
    FoldSnoc(Feed, IDLE, [h[0]], h[1]);
    FoldSnoc(Feed, IDLE, [h[0], h[1]], h[2]);
    assert [] + [h[0]] == [h[0]] && [h[0]] + [h[1]] == [h[0], h[1]] && [h[0], h[1]] + [h[2]] == h;
  }

  lemma {:induction false} OverrunStays(s: bytes)
    ensures FeedAll(Overrun, s) == Reading(Overrun, [])
  {
    if s != [] {
      OverrunStays(s[..|s| - 1]);
    }
  }

  predicate Sendable(m: Msg) {
    m.Sequenced? ==> |m.payload| <= 65532
  }

  lemma EncodedAreFramed(m: Msg)
    requires Sendable(m)
    ensures Framed(Encode(m))
  {
    PacketFramed(TypeOf(m), BodyOf(m));
  }

  lemma PacketFramed(packetType: byte, body: bytes)
    requires Known(packetType) && |body| <= 65532
    ensures Framed(Packet(packetType, body))
  {}

  // ------------------------------------------------------------ the class

  /** incoming_message together with the state of the two async_read calls. */
  class PacketReader {
    const buffer: array<byte>
    var filled: nat
    var inBody: bool
    var overrun: bool

    ghost predicate Ok()
      reads this, buffer
    {
      && buffer.Length == BUFFER_SIZE && filled <= BUFFER_SIZE
      && Consistent(Raw())
    }

    ghost function Raw(): (r: RawReader)
      requires filled <= buffer.Length
      reads this, buffer
    {
      if overrun then Overrun else if inBody then InBody(buffer[..filled]) else InHeader(buffer[..filled])
    }

    ghost function View(): (r: Reader)
      requires Ok()
      reads this, buffer
    {
      Raw()
    }

    constructor ()
      ensures Ok() && View() == IDLE && fresh(buffer)
    {
      buffer := new byte[BUFFER_SIZE](_ => 0);
      filled, inBody, overrun := 0, false, false;
      new;
      assert buffer[..0] == [];
    }

    method DecodeHeader() returns (known: bool)
      requires buffer.Length == BUFFER_SIZE
      ensures known == Known(buffer[2])
      ensures known <==> buffer[2] in {43, 65, 74, 83, 72, 90, 76, 85, 82, 79}
    {
      var t := buffer[2];
      known := t in {DEBUG, LOGIN_ACCEPTED, LOGIN_REJECTED, SEQUENCED, SERVER_HEARTBEAT,
                     END_OF_SESSION, LOGIN_REQUEST, UNSEQUENCED, CLIENT_HEARTBEAT, LOGOUT_REQUEST};
    }

    /** One byte of an async_read. A finished packet is copied out of the buffer, which is then
        reused without being cleared. */
    method ReceiveByte(b: byte) returns (packets: seq<bytes>)
      requires Ok()
      modifies this, buffer
      ensures Ok() && Reading(View(), packets) == Feed(old(View()), b)
    {
      packets := [];
      if overrun {
        return;
      }
      ghost var got := buffer[..filled];
      buffer[filled] := b;
      filled := filled + 1;
      assert buffer[..filled] == got + [b];
      if !inBody && filled == 3 {
        var known := DecodeHeader();
        if !known {
          filled := 0;
        } else if !BodyFits(LengthOf(buffer[..2])) {
          overrun := true;
        } else {
          inBody := true;
        }
      }
      if inBody && !overrun && filled == LengthOf(buffer[..2]) + 2 {
        var known := DecodeHeader();
        assert known;
        packets := [Duplicate(buffer[..])];
        assert Duplicate(buffer[..]) == got + [b];
        filled, inBody := 0, false;
      }
      assert buffer[..0] == [];
    }

    /** A chunk of any size arrives. */
    method Receive(chunk: bytes) returns (packets: seq<bytes>)
      requires Ok()
      modifies this, buffer
      ensures Ok() && Reading(View(), packets) == FeedAll(old(View()), chunk)
    {
      packets := [];
      var k := 0;
      assert chunk[..0] == [];
      while k < |chunk|
        invariant 0 <= k <= |chunk|
        invariant Ok() && Reading(View(), packets) == FeedAll(old(View()), chunk[..k])
      {
        var more := ReceiveByte(chunk[k]);
        assert chunk[..k + 1][..k] == chunk[..k];
        packets := packets + more;
        k := k + 1;
      }
      assert chunk[..k] == chunk;
    }
  }
}
