/** SoupBinTCP packets: a two-byte length (not counting itself), a type byte, fields, and for some
    types a payload that makes the buffer grow. */
module SoupPacket {
  import opened Bytes
  import opened Numeric
  import opened Records

  const DEBUG: byte := 43            // '+'
  const LOGIN_ACCEPTED: byte := 65   // 'A'
  const LOGIN_REJECTED: byte := 74   // 'J'
  const SEQUENCED: byte := 83        // 'S'
  const SERVER_HEARTBEAT: byte := 72 // 'H'
  const END_OF_SESSION: byte := 90   // 'Z'
  const LOGIN_REQUEST: byte := 76    // 'L'
  const UNSEQUENCED: byte := 85      // 'U'
  const CLIENT_HEARTBEAT: byte := 82 // 'R'
  const LOGOUT_REQUEST: byte := 79   // 'O'

  // ------------------------------------------------------------ the growing buffer

  /** The two bytes of a packet length, in network order. */
  function LengthBytes(n: nat): (s: bytes)
    ensures |s| == 2 && LengthOf(s) == n % TWO16
  {
    ModStep(n, 256);
    [n / 256 % 256, n % 256]
  }

  /** They are what memcpy leaves of the swapped uint16_t. */
  lemma LengthBytesAreSwapped(n: nat)
    ensures LengthBytes(n) == Store(Swap(n, 2), 2)
  {
    TwoBytes(n, 0, 0);
    SwapThenStore(n, 2);
  }

  /** What the length field of a packet says. */
  function LengthOf(p: bytes): (n: nat)
    requires |p| >= 2
    ensures n < TWO16
  {
    256 * (p[0] as int) + p[1]
  }

  function BlankPacket(size: nat, packetType: byte): (p: bytes)
    requires size >= 3
    ensures |p| == size && p[..3] == [(size - 2) / 256 % 256, (size - 2) % 256, packetType]
    ensures forall k :: 3 <= k < size ==> p[k] == 0
  {
    LengthBytes(size - 2) + [packetType] + Zeros(size - 3)
  }

  /** set_message: the buffer grows, and its length field follows, only when the payload needs it. */
  function Grow(size: nat, p: bytes, data: bytes): (r: bytes)
    requires 3 <= size <= |p|
    ensures |r| == if |p| <= size + |data| then size + |data| else |p|
  {
    var needed := size + |data|;
    if |p| <= needed then LengthBytes(needed - 2) + p[2..size] + data
    else p[..size] + data + p[needed..]
  }

  function Grown(size: nat, packetType: byte, calls: seq<bytes>): (p: bytes)
    requires size >= 3
    ensures |p| == size + Longest(calls)
    ensures LengthOf(p) == (|p| - 2) % TWO16 && p[2] == packetType
  {
    if calls == [] then BlankPacket(size, packetType)
    else Grow(size, Grown(size, packetType, calls[..|calls| - 1]), calls[|calls| - 1])
  }

  function Longest(calls: seq<bytes>): (r: nat) {
    if calls == [] then 0
    else
      var n, last := Longest(calls[..|calls| - 1]), |calls[|calls| - 1]|;
      if n < last then last else n
  }

  /** get_message */
  function Payload(size: nat, p: bytes): (r: bytes)
    requires size <= |p|
  {
    p[size..]
  }

  /** The last call whose payload covers position i. */
  function LastCovering(calls: seq<bytes>, i: nat): (k: nat)
    requires i < Longest(calls)
    ensures k < |calls| && i < |calls[k]| && forall j :: k < j < |calls| ==> |calls[j]| <= i
  {
    var last := |calls| - 1;
    if i < |calls[last]| then last else LastCovering(calls[..last], i)
  }

  /** Every payload byte comes from the last call long enough to cover it. */
  lemma {:induction false} PayloadBytes(size: nat, packetType: byte, calls: seq<bytes>, i: nat)
    requires size >= 3 && i < Longest(calls)
    ensures Payload(size, Grown(size, packetType, calls))[i] == calls[LastCovering(calls, i)][i]
  {
    var last := |calls| - 1;
    var p, data := Grown(size, packetType, calls[..last]), calls[last];
    var r := Grow(size, p, data);
    if i < |data| {
      assert r[size + i] == data[i];
    } else {
      PayloadBytes(size, packetType, calls[..last], i);
      assert r[size + i] == p[size + i];
    }
  }

  /** Exactly when get_message returns the last argument: no earlier payload was longer. */
  lemma LastCallReadsBackIff(size: nat, packetType: byte, calls: seq<bytes>, data: bytes)
    requires size >= 3
    ensures Payload(size, Grown(size, packetType, calls + [data])) == data <==> Longest(calls) <= |data|
  {
    assert (calls + [data])[..|calls|] == calls;
  }

  /** The byte constructor: as many bytes as the length field announces. */
  function Duplicate(source: bytes): (r: bytes)
    requires |source| >= 2 && LengthOf(source) + 2 <= |source|
  {
    source[..LengthOf(source) + 2]
  }

  /** Exactly when a packet survives the byte constructor: its length fits the two-byte field. */
  lemma DuplicateIff(size: nat, packetType: byte, calls: seq<bytes>, more: bytes)
    requires size >= 3
    ensures var p := Grown(size, packetType, calls);
            && LengthOf(p + more) + 2 <= |p + more|
            && (Duplicate(p + more) == p <==> |p| - 2 < TWO16)
  {
    DuplicateOf(Grown(size, packetType, calls), more);
  }

  lemma DuplicateOf(p: bytes, more: bytes)
    requires |p| >= 2 && LengthOf(p) == (|p| - 2) % TWO16
    ensures LengthOf(p + more) + 2 <= |p + more|
    ensures Duplicate(p + more) == p <==> |p| - 2 < TWO16
  {
    assert (p + more)[0] == p[0] && (p + more)[1] == p[1];
    assert (p + more)[..|p|] == p;
  }

  // ------------------------------------------------------------ the packets of a session

  datatype Msg =
    | LoginRequest(username: bytes, password: bytes, session: bytes, number: uint64)
    | LoginAccepted(session: bytes, number: uint64)
    | Sequenced(payload: bytes)
    | ServerHeartbeat
    | ClientHeartbeat

  const USERNAME := Field(3, 6)
  const PASSWORD := Field(9, 10)
  const REQUESTED_SESSION := Field(19, 10)
  const REQUESTED_SEQUENCE_NUMBER := Field(29, 20)
  const SESSION := Field(3, 10)
  const SEQUENCE_NUMBER := Field(13, 20)
  const LOGIN_REQUEST_LEN := 49
  const LOGIN_ACCEPTED_LEN := 33

  function NumberBytes(n: uint64): (s: bytes)
    ensures |s| == 20
  {
    NumericField(ToSigned(n), 20)
  }

  /** Length, type, body. */
  function Packet(packetType: byte, body: bytes): (p: bytes)
    ensures |p| == 3 + |body| && p[2] == packetType && p[3..] == body
    ensures LengthOf(p) == (1 + |body|) % TWO16
  {
    var length := LengthBytes(1 + |body|);
    var p := length + [packetType] + body;
    assert p[0] == length[0] && p[1] == length[1];
    p
  }

  function TypeOf(m: Msg): (r: byte) {
    match m
    case LoginRequest(_, _, _, _) => LOGIN_REQUEST
    case LoginAccepted(_, _) => LOGIN_ACCEPTED
    case Sequenced(_) => SEQUENCED
    case ServerHeartbeat => SERVER_HEARTBEAT
    case ClientHeartbeat => CLIENT_HEARTBEAT
  }

  function BodyOf(m: Msg): (body: bytes)
    ensures m.LoginRequest? ==> |body| == LOGIN_REQUEST_LEN - 3
    ensures m.LoginAccepted? ==> |body| == LOGIN_ACCEPTED_LEN - 3
  {
    match m
    case LoginRequest(u, w, s, n) => StrnCpy(u, 6) + StrnCpy(w, 10) + StrnCpy(s, 10) + NumberBytes(n)
    case LoginAccepted(s, n) => StrnCpy(s, 10) + NumberBytes(n)
    case Sequenced(payload) => payload
    case ServerHeartbeat => []
    case ClientHeartbeat => []
  }

  /** The bytes each side hands to send(). */
  function Encode(m: Msg): (r: bytes) {
    Packet(TypeOf(m), BodyOf(m))
  }

  /** get_string and get_int on the two kinds of login packet. */
  function RequestedSession(p: bytes): (r: bytes)
    requires |p| >= LOGIN_REQUEST_LEN
  {
    CString(Slot(p, REQUESTED_SESSION))
  }

  function RequestedNumber(p: bytes): (r: uint64)
    requires |p| >= LOGIN_REQUEST_LEN
  {
    ToUnsigned(ParseField(Slot(p, REQUESTED_SEQUENCE_NUMBER)))
  }

  function AcceptedSession(p: bytes): (r: bytes)
    requires |p| >= LOGIN_ACCEPTED_LEN
  {
    CString(Slot(p, SESSION))
  }

  function AcceptedNumber(p: bytes): (r: uint64)
    requires |p| >= LOGIN_ACCEPTED_LEN
  {
    ToUnsigned(ParseField(Slot(p, SEQUENCE_NUMBER)))
  }

  lemma RequestSlots(p: bytes, u: bytes, w: bytes, s: bytes, n: bytes)
    requires |u| == 6 && |w| == 10 && |s| == 10 && |n| == 20 && |p| == 49 && p[3..] == u + w + s + n
    ensures Slot(p, REQUESTED_SESSION) == s && Slot(p, REQUESTED_SEQUENCE_NUMBER) == n
  {
    assert Slot(p, REQUESTED_SESSION) == p[3..][16..26];
    assert Slot(p, REQUESTED_SEQUENCE_NUMBER) == p[3..][26..];
  }

  lemma AcceptedSlots(p: bytes, s: bytes, n: bytes)
    requires |s| == 10 && |n| == 20 && |p| == 33 && p[3..] == s + n
    ensures Slot(p, SESSION) == s && Slot(p, SEQUENCE_NUMBER) == n
  {
    assert Slot(p, SESSION) == p[3..][..10];
    assert Slot(p, SEQUENCE_NUMBER) == p[3..][10..];
  }

  lemma ReadSession(slot: bytes, s: bytes, width: nat)
    requires slot == StrnCpy(s, width)
    ensures CString(slot) == Cut(s, width)
  {
    StringFieldRoundTrip(s, width);
  }

  lemma ReadNumber(slot: bytes, n: uint64)
    requires slot == NumberBytes(n)
    ensures ToUnsigned(ParseField(slot)) == n
  {
    SequenceNumberRoundTrip(n);
  }

  /** What the server reads in the packet the client sent. */
  lemma LoginRequestReadsBack(u: bytes, w: bytes, s: bytes, n: uint64)
    ensures var p := Encode(LoginRequest(u, w, s, n));
            && |p| == LOGIN_REQUEST_LEN && p[2] == LOGIN_REQUEST
            && RequestedSession(p) == Cut(s, 10) && RequestedNumber(p) == n
  {
    var p := Encode(LoginRequest(u, w, s, n));
    RequestSlots(p, StrnCpy(u, 6), StrnCpy(w, 10), StrnCpy(s, 10), NumberBytes(n));
    ReadSession(Slot(p, REQUESTED_SESSION), s, 10);
    ReadNumber(Slot(p, REQUESTED_SEQUENCE_NUMBER), n);
  }

  /** What the client reads in the server's answer. */
  lemma LoginAcceptedReadsBack(s: bytes, n: uint64)
    ensures var p := Encode(LoginAccepted(s, n));
            && |p| == LOGIN_ACCEPTED_LEN && p[2] == LOGIN_ACCEPTED
            && AcceptedSession(p) == Cut(s, 10) && AcceptedNumber(p) == n
  {
    var p := Encode(LoginAccepted(s, n));
    AcceptedSlots(p, StrnCpy(s, 10), NumberBytes(n));
    ReadSession(Slot(p, SESSION), s, 10);
    ReadNumber(Slot(p, SEQUENCE_NUMBER), n);
  }

  // ------------------------------------------------------------ the bytes of a packet

  /** The length in network order, counting the type and the body, then both. */
  lemma PacketIs(packetType: byte, body: bytes)
    requires |body| <= 65534
    ensures Packet(packetType, body) == [(1 + |body|) / 256, (1 + |body|) % 256, packetType] + body
  {}

  /** A login request on the wire: user name, password, session and number, each at its place. */
  lemma LoginRequestIs(u: bytes, w: bytes, s: bytes, n: uint64)
    ensures var p := Encode(LoginRequest(u, w, s, n));
            && |p| == 49 && p[..3] == [0, 47, 76]
            && CString(p[3..9]) == Cut(u, 6) && CString(p[9..19]) == Cut(w, 10) && CString(p[19..29]) == Cut(s, 10)
            && p[29..49] == NumericField(ToSigned(n), 20)
  {
    var p := Encode(LoginRequest(u, w, s, n));
    RequestParts(p, StrnCpy(u, 6), StrnCpy(w, 10), StrnCpy(s, 10), NumberBytes(n));
    ReadSession(p[3..9], u, 6);
    ReadSession(p[9..19], w, 10);
    ReadSession(p[19..29], s, 10);
    RequestHead(u, w, s, n);
  }

  lemma RequestHead(u: bytes, w: bytes, s: bytes, n: uint64)
    ensures Encode(LoginRequest(u, w, s, n))[..3] == [0, 47, 76]
  {
    PacketIs(LOGIN_REQUEST, BodyOf(LoginRequest(u, w, s, n)));
  }

  lemma RequestParts(p: bytes, u: bytes, w: bytes, s: bytes, n: bytes)
    requires |u| == 6 && |w| == 10 && |s| == 10 && |n| == 20 && |p| == 49 && p[3..] == u + w + s + n
    ensures p[3..9] == u && p[9..19] == w && p[19..29] == s && p[29..49] == n
  {
    assert p[3..9] == p[3..][..6] && p[9..19] == p[3..][6..16];
    assert p[19..29] == p[3..][16..26] && p[29..49] == p[3..][26..46];
  }

  /** A login answer on the wire: session and number, each at its place. */
  lemma LoginAcceptedIs(s: bytes, n: uint64)
    ensures var p := Encode(LoginAccepted(s, n));
            && |p| == 33 && p[..3] == [0, 31, 65]
            && CString(p[3..13]) == Cut(s, 10) && p[13..33] == NumericField(ToSigned(n), 20)
  {
    var p := Encode(LoginAccepted(s, n));
    AcceptedParts(p, StrnCpy(s, 10), NumberBytes(n));
    ReadSession(p[3..13], s, 10);
    AcceptedHead(s, n);
  }

  lemma AcceptedHead(s: bytes, n: uint64)
    ensures Encode(LoginAccepted(s, n))[..3] == [0, 31, 65]
  {
    PacketIs(LOGIN_ACCEPTED, BodyOf(LoginAccepted(s, n)));
  }

  lemma AcceptedParts(p: bytes, s: bytes, n: bytes)
    requires |s| == 10 && |n| == 20 && |p| == 33 && p[3..] == s + n
    ensures p[3..13] == s && p[13..33] == n
  {
    assert p[3..13] == p[3..][..10] && p[13..33] == p[3..][10..30];
  }

  /** The other packets: a payload behind its length and 'S', and the two heartbeats, which differ. */
  lemma OthersAre(payload: bytes)
    requires |payload| <= 65534
    ensures Encode(Sequenced(payload)) == [(1 + |payload|) / 256, (1 + |payload|) % 256, 83] + payload
    ensures Encode(ServerHeartbeat) == [0, 1, 72] && Encode(ClientHeartbeat) == [0, 1, 82]
  {
    PacketIs(SEQUENCED, payload);
    PacketIs(SERVER_HEARTBEAT, []);
    PacketIs(CLIENT_HEARTBEAT, []);
  }

  /** realloc, then the two copies of set_message. */
  lemma GrowSteps(size: nat, before: bytes, grown: bytes, data: bytes)
    requires 3 <= size <= |before| <= |grown| == size + |data| && grown[..|before|] == before
    ensures Put(Put(grown, Field(0, 2), LengthBytes(size + |data| - 2)), Field(size, |data|), data) ==
            Grow(size, before, data)
  {
    var length := LengthBytes(size + |data| - 2);
    assert forall k :: 0 <= k < |before| ==> grown[k] == grown[..|before|][k];
    assert grown[2..size] == before[2..size];
    assert Put(grown, Field(0, 2), length)[..size] == length + before[2..size];
  }

  // ------------------------------------------------------------ the class

  /** `message<SIZE>` of SoupBinTCP. allocated_space is record.Length. */
  class SoupMessage {
    const size: nat
    var record: array<byte>

    constructor Blank(size: nat, packetType: byte)
      requires 3 <= size
      ensures this.size == size && fresh(record) && record[..] == BlankPacket(size, packetType)
    {
      this.size := size;
      var length := LengthBytes(size - 2);
      record := new byte[size](i requires 0 <= i < size =>
        if i < 2 then length[i] else if i == 2 then packetType else 0);
      new;
      assert record[..] == BlankPacket(size, packetType);
    }

    constructor FromBytes(size: nat, source: bytes)
      requires |source| >= 2 && LengthOf(source) + 2 <= |source|
      ensures this.size == size && fresh(record) && record[..] == Duplicate(source)
    {
      this.size := size;
      record := new byte[LengthOf(source) + 2](i requires 0 <= i < |source| => source[i]);
    }

    /** std::copy or memcpy into the record. */
    method CopyIn(from: nat, s: bytes)
      requires from + |s| <= record.Length
      modifies record
      ensures record[..] == Put(old(record[..]), Field(from, |s|), s)
    {
      var k := 0;
      while k < |s|
        invariant 0 <= k <= |s|
        invariant forall i :: 0 <= i < k ==> record[from + i] == s[i]
        invariant forall p :: 0 <= p < record.Length && !(from <= p < from + k) ==> record[p] == old(record[p])
      {
        record[from + k] := s[k];
        k := k + 1;
      }
      PutIs(record[..], old(record[..]), Field(from, |s|), s);
    }

    method SetString(f: Field, text: bytes)
      requires Fits(f, record.Length)
      modifies record
      ensures record[..] == Put(old(record[..]), f, StrnCpy(text, f.length))
    {
      CopyIn(f.offset, StrnCpy(text, f.length));
    }

    /** set_int on a NUMERIC field. */
    method SetNumeric(f: Field, v: int64)
      requires Fits(f, record.Length)
      modifies record
      ensures record[..] == Put(old(record[..]), f, NumericField(v, f.length))
    {
      CopyIn(f.offset, NumericField(v, f.length));
    }

    /** realloc: the old bytes are kept, the new ones are not determined (here 0). */
    method Reallocate(space: nat)
      requires record.Length <= space
      modifies this
      ensures fresh(record) && record.Length == space && record[..old(record.Length)] == old(record[..])
    {
      var kept := record;
      record := new byte[space](i reads kept => if 0 <= i < kept.Length then kept[i] else 0);
    }

    method SetMessage(data: bytes)
      requires 3 <= size <= record.Length
      modifies this, record
      ensures record[..] == Grow(size, old(record[..]), data)
      ensures if old(record).Length <= size + |data| then fresh(record) else record == old(record)
    {
      if record.Length <= size + |data| {
        Enlarge(data, size + |data|);
      }
      CopyIn(size, data);
    }

    /** The branch that reallocates and rewrites the length field. */
    method Enlarge(ghost data: bytes, needed: nat)
      requires 3 <= size <= record.Length <= needed == size + |data|
      modifies this
      ensures fresh(record) && record.Length == needed
      ensures Put(record[..], Field(size, |data|), data) == Grow(size, old(record[..]), data)
    {
      ghost var before := record[..];
      Reallocate(needed);
      ghost var grown := record[..];
      assert grown[..|before|] == before;
      CopyIn(0, LengthBytes(needed - 2));
      GrowSteps(size, before, grown, data);
    }

    method GetMessage() returns (data: bytes)
      requires size <= record.Length
      ensures data == Payload(size, record[..])
    {
      data := record[size..];
    }
  }
}
