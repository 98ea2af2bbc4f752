/** The system as bytes: one server, its connections, and the transport between the two ends of
    each. Packets wait in write queues, move in pieces of any size, and are put together again by the
    reader loops. */
module Wire {
  import opened Bytes
  import opened SoupPacket
  import opened Framing
  import opened Protocol
  import opened Session

  /** One direction of a socket: how much of the packet being written has left, and what has left
      but was not read. */
  datatype Link = Link(sent: nat, wire: bytes)

  /** What is recorded of a connection, and read by no step: what the client asked for, the numbers
      of broadcasts made when it was accepted and when its login was handled, and how many packets,
      heartbeats apart, the client has handled. */
  datatype Past = Past(terms: Terms, taken: nat)

  datatype Ends = Ends(server: Conn, client: Conn, serverReader: Reader, clientReader: Reader, down: Link, up: Link,
                       past: Past)

  datatype System = System(nextSeq: uint64, log: ServerLog, ends: seq<Ends>)

  datatype WireStep =
    | Dial(username: bytes, password: bytes, session: bytes, number: uint64)
    | Publish(payload: bytes)
    | ServerTimer(i: nat)
    | ClientTimer(i: nat)
    | Transmit(i: nat, downward: bool, n: nat)
    | Complete(i: nat, downward: bool)
    | Deliver(i: nat, downward: bool, n: nat)
    | Shut(i: nat, server: bool)

  const BOOT := System(1, map[], [])
  const IDLE_LINK := Link(0, [])

  // ------------------------------------------------------------ the steps

  /** async_write moves n more bytes of the packet at the front. */
  function TransmitOn(c: Conn, l: Link, n: nat): (r: Link) {
    if c.queue != [] && l.sent + n <= |c.queue[0]|
    then Link(l.sent + n, l.wire + c.queue[0][l.sent..l.sent + n]) else l
  }

  predicate CanComplete(c: Conn, l: Link) {
    c.queue != [] && l.sent == |c.queue[0]|
  }

  function Dialed(u: bytes, w: bytes, session: bytes, number: uint64): (r: Conn) {
    Protocol.Send(DialingConn(session, number).(status := Connected), Encode(LoginRequest(u, w, session, number)))
  }

  /** How many broadcasts the server's counter says were made. */
  function Broadcasts(number: uint64): (r: nat) {
    if number == 0 then TWO64 - 1 else number - 1
  }

  /** Accepted on one side, connected and its login queued on the other. */
  function DialedEnds(number: uint64, step: WireStep): (r: Ends)
    requires step.Dial?
  {
    Ends(ACCEPTED_CONN, Dialed(step.username, step.password, step.session, step.number),
         IDLE, IDLE, IDLE_LINK, IDLE_LINK,
         Past(Terms(step.number, step.session, Broadcasts(number), None), 0))
  }

  predicate IsBeatPacket(p: bytes) {
    |p| >= 3 && (p[2] == SERVER_HEARTBEAT || p[2] == CLIENT_HEARTBEAT)
  }

  function CountOthers(ps: seq<bytes>): (r: nat) {
    if ps == [] then 0
    else CountOthers(ps[..|ps| - 1]) + (if IsBeatPacket(ps[|ps| - 1]) then 0 else 1)
  }

  predicate IsLoginPacket(p: bytes) {
    |p| >= LOGIN_REQUEST_LEN && p[2] == LOGIN_REQUEST
  }

  function TermsAfter(number: uint64, t: Terms, ps: seq<bytes>): (r: Terms) {
    if ps == [] then t
    else
      var t' := TermsAfter(number, t, ps[..|ps| - 1]);
      if IsLoginPacket(ps[|ps| - 1]) then t'.(loginAt := Some(Broadcasts(number))) else t'
  }

  /** n more bytes reach a reader; the packets they finish are dispatched. */
  function DeliverDown(log: ServerLog, e: Ends, n: nat): (e': Ends)
    requires n <= |e.down.wire|
  {
    var r := FeedAll(e.clientReader, e.down.wire[..n]);
    e.(down := e.down.(wire := e.down.wire[n..]), clientReader := r.reader,
       client := OnPackets(e.client, log, r.packets),
       past := e.past.(taken := e.past.taken + CountOthers(r.packets)))
  }

  function DeliverUp(number: uint64, log: ServerLog, e: Ends, n: nat): (e': Ends)
    requires n <= |e.up.wire|
  {
    var r := FeedAll(e.serverReader, e.up.wire[..n]);
    e.(up := e.up.(wire := e.up.wire[n..]), serverReader := r.reader, server := OnPackets(e.server, log, r.packets),
       past := e.past.(terms := TermsAfter(number, e.past.terms, r.packets)))
  }

  predicate IsOpen(e: Ends) {
    e.server.status == Connected && e.client.status == Connected
  }

  function CompleteDown(e: Ends): (r: Ends) {
    if CanComplete(e.server, e.down) then e.(server := WriteDone(e.server), down := e.down.(sent := 0)) else e
  }

  function CompleteUp(e: Ends): (r: Ends) {
    if CanComplete(e.client, e.up) then e.(client := WriteDone(e.client), up := e.up.(sent := 0)) else e
  }

  /** An open end sends and reads, whatever the other end is. */
  predicate Enabled(e: Ends, step: WireStep) {
    match step
    case Deliver(_, downward, _) => (if downward then e.client else e.server).status == Connected
    case Transmit(_, downward, _) => (if downward then e.server else e.client).status == Connected
    case Complete(_, downward) => (if downward then e.server else e.client).status == Connected
    case _ => true
  }

  /** What the transport does to a connection. */
  function Move(number: uint64, log: ServerLog, e: Ends, step: WireStep): (r: Ends) {
    match step
    case Transmit(_, downward, n) =>
      if downward then e.(down := TransmitOn(e.server, e.down, n)) else e.(up := TransmitOn(e.client, e.up, n))
    case Complete(_, downward) => if downward then CompleteDown(e) else CompleteUp(e)
    case Deliver(_, downward, n) =>
      if downward then if n <= |e.down.wire| then DeliverDown(log, e, n) else e
      else if n <= |e.up.wire| then DeliverUp(number, log, e, n) else e
    case _ => e
  }

  /** What the program does to a connection. */
  function Act(number: uint64, e: Ends, step: WireStep): (r: Ends) {
    match step
    case Publish(b) => e.(server := SendSequenced(e.server, number, b))
    case ServerTimer(_) => e.(server := Protocol.Send(e.server, Encode(ServerHeartbeat)))
    case ClientTimer(_) => e.(client := Protocol.Send(e.client, Encode(ClientHeartbeat)))
    case Shut(_, server) => if server then e.(server := Closed(e.server)) else e.(client := Closed(e.client))
    case _ => e
  }

  predicate Moves(step: WireStep) {
    step.Transmit? || step.Complete? || step.Deliver?
  }

  predicate Concerns(step: WireStep, j: nat) {
    !step.Dial? && (step.Publish? || step.i == j)
  }

  /** What one step does to connection j. */
  function NextEnds(number: uint64, log: ServerLog, e: Ends, step: WireStep, j: nat): (r: Ends) {
    if !Concerns(step, j) then e
    else if !Moves(step) then Act(number, e, step)
    else if Enabled(e, step) then Move(number, log, e, step)
    else e
  }

  /** SoupBinServer::send_sequenced stores the payload under nextSeq++. The case nextSeq == 0, after
      2^64 - 1 broadcasts, is not modelled. */
  function NextSystem(sys: System, step: WireStep): (r: System) {
    var ends := seq(|sys.ends|, j requires 0 <= j < |sys.ends| => NextEnds(sys.nextSeq, sys.log, sys.ends[j], step, j));
    match step
    case Dial(_, _, _, _) => sys.(ends := ends + [DialedEnds(sys.nextSeq, step)])
    case Publish(b) =>
      if sys.nextSeq == 0 then sys else System(Succ(sys.nextSeq), sys.log[sys.nextSeq := b], ends)
    case _ => sys.(ends := ends)
  }

  /** The broadcasts of a run, in order. */
  function Published(steps: seq<WireStep>): (r: seq<bytes>) {
    if steps == [] then [] else LogAfter(Published(steps[..|steps| - 1]), steps[|steps| - 1])
  }

  function LogAfter(log: seq<bytes>, step: WireStep): (r: seq<bytes>) {
    if step.Publish? then log + [step.payload] else log
  }

  function RunSystem(steps: seq<WireStep>): (r: System) {
    if steps == [] then BOOT else NextSystem(RunSystem(steps[..|steps| - 1]), steps[|steps| - 1])
  }
}
