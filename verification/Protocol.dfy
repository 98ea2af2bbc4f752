/** What one endpoint does: the state of a connection as a value, and the effect on it of sending,
    of a finished write, and of each incoming packet. */
module Protocol {
  import opened Bytes
  import opened Numeric
  import opened SoupPacket

  /** std::unordered_map::emplace: an existing entry stays. */
  function Emplace(m: map<uint64, bytes>, k: uint64, v: bytes): (r: map<uint64, bytes>) {
    if k in m then m else m[k := v]
  }

  /** Numbering starts at 1, so number 0 is never stored. */
  type ServerLog = m: map<uint64, bytes> | 0 !in m witness map[]

  datatype Status = Connecting | Connected | Disconnected

  /** A connection, on either side. `stored` is the map of the base class, filled by send_sequenced;
      `received` the map of the derived class, filled by on_sequenced_data, and the two counters those
      of its heartbeat handlers. */
  datatype Conn = Conn(
    isServer: bool,
    status: Status,
    nextSeq: uint64,
    session: bytes,
    stored: map<uint64, bytes>,
    received: map<uint64, bytes>,
    queue: seq<bytes>,
    writing: bool,
    serverBeats: uint32,
    clientBeats: uint32)

  const ACCEPTED_CONN := Conn(true, Connected, 0, [], map[], map[], [], false, 0, 0)

  function DialingConn(session: bytes, nextSeq: uint64): (r: Conn) {
    Conn(false, Connecting, nextSeq, session, map[], map[], [], false, 0, 0)
  }

  // ------------------------------------------------------------ sending

  /** send(): queue the bytes; start writing only if nothing was queued. */
  function Send(c: Conn, p: bytes): (r: Conn) {
    c.(queue := c.queue + [p], writing := c.writing || c.queue == [])
  }

  /** The completion handler of async_write, on success. */
  function WriteDone(c: Conn): (r: Conn)
    requires c.queue != []
  {
    c.(queue := c.queue[1..], writing := c.queue[1..] != [])
  }

  /** close_socket(), also reached from any failed read or write. */
  function Closed(c: Conn): (r: Conn) {
    c.(status := Disconnected, writing := false)
  }

  function SendSequenced(c: Conn, number: uint64, payload: bytes): (r: Conn) {
    Send(c.(stored := Emplace(c.stored, number, payload)), Encode(Sequenced(payload)))
  }

  /** What startPos++ leaves to visit: every number up to 2^64 - 1. */
  function NumbersAhead(k: uint64): (r: nat) {
    if k == 0 then 0 else TWO64 - k
  }

  type Sending = (Conn, uint64, bytes) -> Conn

  /** The stored messages from number k on, up to the first gap. */
  function Repeat(send: Sending, c: Conn, log: ServerLog, k: uint64): (r: Conn)
    decreases NumbersAhead(k)
  {
    if k in log then Repeat(send, send(c, k, log[k]), log, Succ(k)) else c
  }

  function RepeatFrom(c: Conn, log: ServerLog, k: uint64): (r: Conn) {
    Repeat(SendSequenced, c, log, k)
  }

  // ------------------------------------------------------------ receiving

  const DEFAULT_SESSION: bytes := Spaces(7) + [65, 66, 67]

  /** The number and session the server answers a login with. */
  function AnnouncedNumber(requested: uint64): (r: uint64) {
    if requested == 0 then 1 else requested
  }

  function AnnouncedSession(requested: bytes): (r: bytes) {
    if requested == [] then DEFAULT_SESSION else requested
  }

  function OnLoginRequest(c: Conn, log: ServerLog, session: bytes, number: uint64): (r: Conn) {
    var c' := Send(c, Encode(LoginAccepted(AnnouncedSession(session), AnnouncedNumber(number))));
    if number != 0 then RepeatFrom(c', log, number) else c'
  }

  function OnLoginAccepted(c: Conn, session: bytes, number: uint64): (r: Conn) {
    c.(nextSeq := number, session := session)
  }

  function OnSequencedData(c: Conn, payload: bytes): (r: Conn) {
    c.(nextSeq := Succ(c.nextSeq), received := Emplace(c.received, c.nextSeq, payload))
  }

  /** `++` on a uint32_t. */
  function Counted(n: uint32): (r: uint32) {
    (n + 1) % TWO32
  }

  /** The dispatch on the packet type. A login packet shorter than its layout is ignored here; the
      source reads past its end. A client answers a login request too, but has nothing to replay (for
      a number other than 0 the source then follows an unset pointer). The reader never hands on fewer
      than three bytes. */
  function OnPacket(c: Conn, log: ServerLog, p: bytes): (r: Conn) {
    if |p| < 3 then c
    else if p[2] == LOGIN_ACCEPTED && |p| >= LOGIN_ACCEPTED_LEN then
      OnLoginAccepted(c, AcceptedSession(p), AcceptedNumber(p))
    else if p[2] == SEQUENCED then
      OnSequencedData(c, p[3..])
    else if p[2] == LOGIN_REQUEST && |p| >= LOGIN_REQUEST_LEN then
      OnLoginRequest(c, if c.isServer then log else map[], RequestedSession(p), RequestedNumber(p))
    else if p[2] == SERVER_HEARTBEAT then c.(serverBeats := Counted(c.serverBeats))
    else if p[2] == CLIENT_HEARTBEAT then c.(clientBeats := Counted(c.clientBeats))
    else c
  }

  /** Debug packets, rejections, ends of session, unsequenced data, logouts and unknown types change
      nothing, and so does a login packet that is too short. */
  lemma IgnoredPackets(c: Conn, log: ServerLog, p: bytes)
    requires |p| >= 3 && p[2] !in {83, 72, 82}
    requires (p[2] == 65 ==> |p| < 33) && (p[2] == 76 ==> |p| < 49)
    ensures OnPacket(c, log, p) == c
  {}

  function OnPackets(c: Conn, log: ServerLog, ps: seq<bytes>): (r: Conn) {
    if ps == [] then c else OnPacket(OnPackets(c, log, ps[..|ps| - 1]), log, ps[|ps| - 1])
  }

  /** The server's dispatch of the packet a client logs in with. */
  lemma LoginPacket(c: Conn, log: ServerLog, u: bytes, w: bytes, s: bytes, n: uint64)
    requires c.isServer
    ensures OnPacket(c, log, Encode(LoginRequest(u, w, s, n))) == OnLoginRequest(c, log, Cut(s, 10), n)
  {
    LoginRequestReadsBack(u, w, s, n);
  }

  /** A heartbeat is counted, each kind on its own, and changes nothing else. */
  lemma BeatPacket(c: Conn, log: ServerLog)
    ensures OnPacket(c, log, Encode(ServerHeartbeat)) == c.(serverBeats := (c.serverBeats + 1) % TWO32)
    ensures OnPacket(c, log, Encode(ClientHeartbeat)) == c.(clientBeats := (c.clientBeats + 1) % TWO32)
  {}

  lemma OnPacketsSnoc(c: Conn, log: ServerLog, ps: seq<bytes>, p: bytes)
    ensures OnPackets(c, log, ps + [p]) == OnPacket(OnPackets(c, log, ps), log, p)
  {
    assert (ps + [p])[..|ps|] == ps;
  }

  // ------------------------------------------------------------ the write queue

  /** do_write is outstanding exactly while something is queued. */
  predicate WriteInFlight(c: Conn) {
    c.writing <==> c.queue != []
  }

  /** What happens to a queue: packets are sent, writes complete. */
  datatype QueueStep = Sends(packet: bytes) | Completes

  /** With what was sent and written so far, and how many writes were started: by send() on an empty
      queue, and by a completion that leaves the queue non-empty. */
  datatype QueueRun = QueueRun(conn: Conn, sent: seq<bytes>, written: seq<bytes>, started: nat)

  function QueueApply(r: QueueRun, s: QueueStep): (result: QueueRun) {
    match s
    case Sends(p) =>
      r.(conn := Send(r.conn, p), sent := r.sent + [p], started := r.started + if r.conn.queue == [] then 1 else 0)
    case Completes =>
      if r.conn.queue == [] then r
      else r.(conn := WriteDone(r.conn), written := r.written + [r.conn.queue[0]],
              started := r.started + if |r.conn.queue| > 1 then 1 else 0)
  }

  function QueueAll(c: Conn, steps: seq<QueueStep>): (r: QueueRun) {
    if steps == [] then QueueRun(c, [], [], 0) else QueueApply(QueueAll(c, steps[..|steps| - 1]), steps[|steps| - 1])
  }

  /** Over every run without a failed write: a write is in flight exactly when the queue is
      non-empty, never two at once, and what was written followed by what is queued is what was sent,
      in order. */
  lemma {:induction false} QueueKeepsOrder(c: Conn, steps: seq<QueueStep>)
    requires c.queue == [] && !c.writing
    ensures var r := QueueAll(c, steps);
            && WriteInFlight(r.conn) && r.written + r.conn.queue == r.sent
            && r.started == |r.written| + if r.conn.writing then 1 else 0
  {
    if steps != [] {
      QueueKeepsOrder(c, steps[..|steps| - 1]);
      var r, s := QueueAll(c, steps[..|steps| - 1]), steps[|steps| - 1];
      if s.Completes? && r.conn.queue != [] {
        assert r.conn.queue == [r.conn.queue[0]] + r.conn.queue[1..];
      }
    }
  }

  /** With every completion arriving, everything queued is written. */
  lemma {:induction false} CompletionsDrain(c: Conn, steps: seq<QueueStep>) returns (more: seq<QueueStep>)
    requires c.queue == [] && !c.writing
    ensures (forall s :: s in more ==> s == Completes) && |more| == |QueueAll(c, steps).conn.queue|
    ensures var r := QueueAll(c, steps + more);
            r.written == r.sent == QueueAll(c, steps).sent && r.conn.queue == [] && !r.conn.writing
    decreases |QueueAll(c, steps).conn.queue|
  {
    var r := QueueAll(c, steps);
    if r.conn.queue == [] {
      more := [];
      assert steps + [] == steps;
    } else {
      assert (steps + [Completes])[..|steps|] == steps;
      more := CompletionsDrain(c, steps + [Completes]);
      assert steps + [Completes] + more == steps + ([Completes] + more);
      more := [Completes] + more;
    }
    QueueKeepsOrder(c, steps + more);
  }
}
