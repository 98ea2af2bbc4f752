/** One direction of a connection carries a queue of messages: whatever pieces are under way, the
    bytes between the sender's queue and the receiver's handlers are the encoded messages. */
module Carriage {
  import opened Bytes
  import opened SoupPacket
  import opened Framing
  import opened Protocol
  import opened Wire

  function EncodeAll(ms: seq<Msg>): (ps: seq<bytes>)
    ensures |ps| == |ms| && forall k :: 0 <= k < |ms| ==> ps[k] == Encode(ms[k])
  {
    seq(|ms|, k requires 0 <= k < |ms| => Encode(ms[k]))
  }

  predicate AllSendable(ms: seq<Msg>) {
    forall k :: 0 <= k < |ms| ==> Sendable(ms[k])
  }

  /** The bytes still in the sender's hands. */
  function Remaining(c: Conn, l: Link): (r: bytes)
    requires SentInFront(c, l)
  {
    if c.queue == [] then [] else c.queue[0][l.sent..] + Concat(c.queue[1..])
  }

  predicate SentInFront(c: Conn, l: Link) {
    if c.queue == [] then l.sent == 0 else l.sent <= |c.queue[0]|
  }

  /** Everything between the sender's queue and the receiver's handlers. */
  function InTransit(c: Conn, l: Link, r: Reader): (result: bytes)
    requires SentInFront(c, l)
  {
    GotOf(r) + l.wire + Remaining(c, l)
  }

  /** The bytes are exactly the encoded messages, and the reader has not finished the first one. */
  ghost predicate Encodes(r: Reader, s: bytes, ms: seq<Msg>) {
    AllSendable(ms) && Midway(r, s, EncodeAll(ms))
  }

  ghost predicate Carries(c: Conn, l: Link, r: Reader, ms: seq<Msg>) {
    SentInFront(c, l) && Encodes(r, InTransit(c, l, r), ms)
  }

  lemma EncodeAllConcat(a: seq<Msg>, b: seq<Msg>)
    ensures EncodeAll(a + b) == EncodeAll(a) + EncodeAll(b)
  {}

  lemma EncodesSnoc(r: Reader, s: bytes, ms: seq<Msg>, m: Msg)
    requires Encodes(r, s, ms) && Sendable(m)
    ensures Encodes(r, s + Encode(m), ms + [m])
  {
    EncodedAreFramed(m);
    EncodeAllConcat(ms, [m]);
    assert EncodeAll([m]) == [Encode(m)];
    MidwaySnoc(r, s, EncodeAll(ms), Encode(m));
  }

  lemma RemainingAfterSend(c: Conn, l: Link, p: bytes)
    requires SentInFront(c, l)
    ensures SentInFront(Protocol.Send(c, p), l) && Remaining(Protocol.Send(c, p), l) == Remaining(c, l) + p
  {
    var q := Protocol.Send(c, p).queue;
    if c.queue == [] {
      assert q[1..] == [] && q[0][0..] == p;
    } else {
      assert q[0] == c.queue[0] && q[1..] == c.queue[1..] + [p];
      ConcatOne(c.queue[1..], p);
    }
  }

  lemma TransitAfterSend(c: Conn, l: Link, r: Reader, p: bytes)
    requires SentInFront(c, l)
    ensures SentInFront(Protocol.Send(c, p), l) && InTransit(Protocol.Send(c, p), l, r) == InTransit(c, l, r) + p
  {
    RemainingAfterSend(c, l, p);
    Associate(GotOf(r), l.wire, Remaining(c, l), p);
  }

  lemma Associate(a: bytes, b: bytes, c: bytes, d: bytes)
    ensures a + b + (c + d) == a + b + c + d
  {}

  lemma SendCarries(c: Conn, l: Link, r: Reader, ms: seq<Msg>, m: Msg)
    requires Carries(c, l, r, ms) && Sendable(m)
    ensures Carries(Protocol.Send(c, Encode(m)), l, r, ms + [m])
  {
    TransitAfterSend(c, l, r, Encode(m));
    EncodesSnoc(r, InTransit(c, l, r), ms, m);
  }

  lemma MovePiece(got: bytes, wire: bytes, front: bytes, rest: bytes, sent: nat, n: nat)
    requires sent + n <= |front|
    ensures got + wire + (front[sent..] + rest) == got + (wire + front[sent..sent + n]) + (front[sent + n..] + rest)
  {
    assert front[sent..] == front[sent..sent + n] + front[sent + n..];
  }

  lemma TransmitCarries(c: Conn, l: Link, r: Reader, ms: seq<Msg>, n: nat)
    requires Carries(c, l, r, ms)
    ensures Carries(c, TransmitOn(c, l, n), r, ms)
  {
    TransitAfterTransmit(c, l, r, n);
  }

  lemma TransitAfterTransmit(c: Conn, l: Link, r: Reader, n: nat)
    requires SentInFront(c, l)
    ensures SentInFront(c, TransmitOn(c, l, n)) && InTransit(c, TransmitOn(c, l, n), r) == InTransit(c, l, r)
  {
    if c.queue != [] && l.sent + n <= |c.queue[0]| {
      var front, rest, l' := c.queue[0], Concat(c.queue[1..]), TransmitOn(c, l, n);
      assert Remaining(c, l) == front[l.sent..] + rest && Remaining(c, l') == front[l.sent + n..] + rest;
      MovePiece(GotOf(r), l.wire, front, rest, l.sent, n);
    }
  }

  lemma CompleteCarries(c: Conn, l: Link, r: Reader, ms: seq<Msg>)
    requires Carries(c, l, r, ms) && CanComplete(c, l)
    ensures Carries(WriteDone(c), l.(sent := 0), r, ms)
  {
    var rest := c.queue[1..];
    assert Remaining(c, l) == Concat(rest);
    if rest != [] {
      assert rest[0][0..] == rest[0];
    }
  }

  /** Only the queue matters to a direction. */
  lemma SameQueueCarries(c: Conn, c': Conn, l: Link, r: Reader, ms: seq<Msg>)
    requires Carries(c, l, r, ms) && c'.queue == c.queue
    ensures Carries(c', l, r, ms)
  {}

  // ------------------------------------------------------------ delivery

  lemma EncodeAllTake(ms: seq<Msg>, m: nat)
    requires m <= |ms|
    ensures EncodeAll(ms)[..m] == EncodeAll(ms[..m]) && EncodeAll(ms)[m..] == EncodeAll(ms[m..])
  {}

  /** n bytes of the wire are read: exactly the finished messages come out, in order. */
  lemma DeliverCarries(c: Conn, l: Link, r: Reader, ms: seq<Msg>, n: nat) returns (m: nat)
    requires Carries(c, l, r, ms) && n <= |l.wire|
    ensures m <= |ms|
    ensures var next := FeedAll(r, l.wire[..n]);
            next.packets == EncodeAll(ms[..m]) && Carries(c, l.(wire := l.wire[n..]), next.reader, ms[m..])
  {
    var x, y := l.wire[..n], l.wire[n..] + Remaining(c, l);
    assert l.wire == x + l.wire[n..];
    Associate3(GotOf(r), x, l.wire[n..], Remaining(c, l));
    m := ReadOn(r, x, y, EncodeAll(ms));
    EncodeAllTake(ms, m);
    var g := GotOf(FeedAll(r, x).reader);
    assert g + l.wire[n..] + Remaining(c, l) == g + y;
  }

  lemma Associate3(a: bytes, b: bytes, c: bytes, d: bytes)
    ensures a + (b + c) + d == a + b + (c + d)
  {}
}
