/** Heartbeats are neither lost nor taken for one another: what each side has counted, and what is
    still on its way, are the firings of the other side's timer. */
module Heartbeats {
  import opened Bytes
  import opened SoupPacket
  import opened Framing
  import opened Protocol
  import opened Session
  import opened Wire
  import opened Carriage
  import opened Refinement
  import opened EndToEnd
  import opened Draining

  const H: byte := 72
  const R: byte := 82

  predicate IsOf(p: bytes, t: byte) {
    |p| >= 3 && p[2] == t
  }

  function Ticks(fires: bool): (n: nat) {
    if fires then 1 else 0
  }

  /** The packets of one type. */
  function Beats(ps: seq<bytes>, t: byte): (n: nat) {
    if ps == [] then 0 else Beats(ps[..|ps| - 1], t) + Ticks(IsOf(ps[|ps| - 1], t))
  }

  lemma {:induction false} BeatsConcat(a: seq<bytes>, b: seq<bytes>, t: byte)
    ensures Beats(a + b, t) == Beats(a, t) + Beats(b, t)
    decreases |b|
  {
    if b == [] {
      assert a + b == a;
    } else {
      var b', last := b[..|b| - 1], b[|b| - 1];
      BeatsConcat(a, b', t);
      assert (a + b)[..|a + b| - 1] == a + b';
    }
  }

  lemma {:induction false} BeatsNone(ms: seq<Msg>, t: byte)
    requires forall k :: 0 <= k < |ms| ==> TypeOf(ms[k]) != t
    ensures Beats(EncodeAll(ms), t) == 0
  {
    if ms != [] {
      BeatsNone(ms[..|ms| - 1], t);
      EncodeAllTake(ms, |ms| - 1);
    }
  }

  lemma BeatsAll(a: seq<Msg>, b: seq<Msg>, t: byte)
    ensures Beats(EncodeAll(a + b), t) == Beats(EncodeAll(a), t) + Beats(EncodeAll(b), t)
  {
    EncodeAllConcat(a, b);
    BeatsConcat(EncodeAll(a), EncodeAll(b), t);
  }

  // ------------------------------------------------------------ what the handlers count

  lemma {:induction false} RepeatCountsNothing(c: Conn, log: ServerLog, k: uint64)
    ensures var c' := Protocol.Repeat(Protocol.SendSequenced, c, log, k);
            c'.serverBeats == c.serverBeats && c'.clientBeats == c.clientBeats
    decreases NumbersAhead(k)
  {
    if k in log {
      RepeatCountsNothing(Protocol.SendSequenced(c, k, log[k]), log, Succ(k));
    }
  }

  lemma LoginCountsNothing(c: Conn, log: ServerLog, session: bytes, number: uint64)
    ensures var c' := OnLoginRequest(c, log, session, number);
            c'.serverBeats == c.serverBeats && c'.clientBeats == c.clientBeats
  {
    var answer := LoginAccepted(AnnouncedSession(session), AnnouncedNumber(number));
    RepeatCountsNothing(Protocol.Send(c, Encode(answer)), log, number);
  }

  /** A counter after k more. */
  function After(n: uint32, k: nat): (r: uint32) {
    if k == 0 then n else Counted(After(n, k - 1))
  }

  lemma NextRemainder(k: nat)
    ensures (k % TWO32 + 1) % TWO32 == (k + 1) % TWO32
  {
    var q, r := k / TWO32, k % TWO32;
    if r + 1 < TWO32 {
      RemainderIs(k + 1, q, r + 1);
    } else {
      RemainderIs(k + 1, q + 1, 0);
    }
  }

  lemma RemainderIs(x: nat, q: nat, r: nat)
    requires x == q * TWO32 + r && r < TWO32
    ensures x % TWO32 == r
  {}

  /** The counters wrap at 2^32. */
  lemma {:induction false} AfterIs(k: nat)
    ensures After(0, k) == k % TWO32
    decreases k
  {
    if k > 0 {
      AfterIs(k - 1);
      NextRemainder(k - 1);
    }
  }

  lemma {:induction false} AfterAfter(n: uint32, j: nat, k: nat)
    ensures After(After(n, j), k) == After(n, j + k)
    decreases k
  {
    if k > 0 {
      AfterAfter(n, j, k - 1);
    }
  }

  lemma PacketCounts(c: Conn, log: ServerLog, p: bytes)
    ensures OnPacket(c, log, p).serverBeats == After(c.serverBeats, Ticks(IsOf(p, H)))
    ensures OnPacket(c, log, p).clientBeats == After(c.clientBeats, Ticks(IsOf(p, R)))
  {
    if IsLoginPacket(p) {
      LoginCountsNothing(c, if c.isServer then log else map[], RequestedSession(p), RequestedNumber(p));
    }
  }

  lemma {:induction false} PacketsCount(c: Conn, log: ServerLog, ps: seq<bytes>)
    ensures OnPackets(c, log, ps).serverBeats == After(c.serverBeats, Beats(ps, H))
    ensures OnPackets(c, log, ps).clientBeats == After(c.clientBeats, Beats(ps, R))
  {
    if ps != [] {
      var init, last := ps[..|ps| - 1], ps[|ps| - 1];
      PacketsCount(c, log, init);
      PacketCounts(OnPackets(c, log, init), log, last);
      AfterAfter(c.serverBeats, Beats(init, H), Ticks(IsOf(last, H)));
      AfterAfter(c.clientBeats, Beats(init, R), Ticks(IsOf(last, R)));
    }
  }

  // ------------------------------------------------------------ what is on its way

  /** The packets in the sender's queue, on the wire, and in the reader's hands. */
  function InFlight(c: Conn, l: Link, r: Reader): (ps: seq<bytes>) {
    if SentInFront(c, l) then FeedAll(IDLE, InTransit(c, l, r)).packets else []
  }

  lemma CarriedInFlight(c: Conn, l: Link, r: Reader, ms: seq<Msg>)
    requires Carries(c, l, r, ms)
    ensures InFlight(c, l, r) == EncodeAll(ms)
  {
    AllArrive(EncodeAll(ms));
  }

  lemma {:induction false} AllArrive(es: seq<bytes>)
    requires AllFramed(es)
    ensures FeedAll(IDLE, Concat(es)) == Reading(IDLE, es)
  {
    if es != [] {
      FeedPacket(es[0]);
      AllArrive(es[1..]);
      ChunkingInvisible(IDLE, es[0], Concat(es[1..]));
      assert [es[0]] + es[1..] == es;
    }
  }

  /** How often a connection's timer has fired, on one of its sides. */
  function Timers(wire: seq<WireStep>, i: nat, server: bool): (n: nat) {
    if wire == [] then 0
    else
      var init, last := wire[..|wire| - 1], wire[|wire| - 1];
      var fires := i < |RunSystem(init).ends| && last == if server then ServerTimer(i) else ClientTimer(i);
      Timers(init, i, server) + Ticks(fires)
  }

  // ------------------------------------------------------------ one connection

  /** Fired n times: so many are counted, so many waiting, and none of the other kind is counted. */
  ghost predicate Tally(counted: uint32, other: uint32, waiting: nat, n: nat) {
    waiting <= n && counted == After(0, n - waiting) && other == 0
  }

  /** Server heartbeats: those the client has counted and those on their way to it. */
  ghost predicate DownBeats(e: Ends, n: nat) {
    Tally(e.client.serverBeats, e.client.clientBeats, Beats(InFlight(e.server, e.down, e.clientReader), H), n)
  }

  /** Client heartbeats: those the server has counted and those on their way to it. */
  ghost predicate UpBeats(e: Ends, n: nat) {
    Tally(e.server.clientBeats, e.server.serverBeats, Beats(InFlight(e.client, e.up, e.serverReader), R), n)
  }

  lemma DownIs(e: Ends, down: seq<Msg>, n: nat)
    requires Carries(e.server, e.down, e.clientReader, down)
    ensures DownBeats(e, n) <==> Tally(e.client.serverBeats, e.client.clientBeats, Beats(EncodeAll(down), H), n)
  {
    CarriedInFlight(e.server, e.down, e.clientReader, down);
  }

  lemma UpIs(e: Ends, up: seq<Msg>, n: nat)
    requires Carries(e.client, e.up, e.serverReader, up)
    ensures UpBeats(e, n) <==> Tally(e.server.clientBeats, e.server.serverBeats, Beats(EncodeAll(up), R), n)
  {
    CarriedInFlight(e.client, e.up, e.serverReader, up);
  }

  predicate SameCounts(c: Conn, c': Conn) {
    c'.serverBeats == c.serverBeats && c'.clientBeats == c.clientBeats
  }

  /** So many heartbeats are on their way down, and so many up. */
  ghost predicate Waiting(e: Ends, d: nat, u: nat) {
    && Beats(InFlight(e.server, e.down, e.clientReader), H) == d
    && Beats(InFlight(e.client, e.up, e.serverReader), R) == u
  }

  lemma WaitingIs(e: Ends, p: Peer, log: seq<bytes>)
    requires EndsRefine(e, p, log)
    ensures Waiting(e, Beats(EncodeAll(p.down), H), Beats(EncodeAll(p.up), R))
  {
    CarriedInFlight(e.server, e.down, e.clientReader, p.down);
    CarriedInFlight(e.client, e.up, e.serverReader, p.up);
  }

  lemma OneBeat(m: Msg, t: byte)
    requires TypeOf(m) == t
    ensures Beats(EncodeAll([m]), t) == 1
  {
    assert EncodeAll([m]) == [Encode(m)];
    assert [Encode(m)][..0] == [];
  }

  /** What a step of the program adds to the messages on their way. */
  function AddedDown(step: WireStep): (ms: seq<Msg>) {
    if step.Publish? then [Sequenced(step.payload)] else if step.ServerTimer? then [ServerHeartbeat] else []
  }

  function AddedUp(step: WireStep): (ms: seq<Msg>) {
    if step.ClientTimer? then [ClientHeartbeat] else []
  }

  lemma QuietAdds(p: Peer, step: WireStep, j: nat)
    requires Concerns(step, j) && !Moves(step)
    ensures QuietPeer(p, step, j).down == p.down + AddedDown(step)
    ensures QuietPeer(p, step, j).up == p.up + AddedUp(step)
  {}

  lemma AddedBeats(step: WireStep)
    ensures Beats(EncodeAll(AddedDown(step)), H) == Ticks(step.ServerTimer?)
    ensures Beats(EncodeAll(AddedUp(step)), R) == Ticks(step.ClientTimer?)
  {
    if step.ServerTimer? {
      OneBeat(ServerHeartbeat, H);
    } else {
      BeatsNone(AddedDown(step), H);
    }
    if step.ClientTimer? {
      OneBeat(ClientHeartbeat, R);
    } else {
      BeatsNone(AddedUp(step), R);
    }
  }

  /** It is a heartbeat exactly if it is that side's timer. */
  lemma ActAdds(p: Peer, step: WireStep, j: nat)
    requires Concerns(step, j) && !Moves(step)
    ensures Beats(EncodeAll(QuietPeer(p, step, j).down), H) ==
            Beats(EncodeAll(p.down), H) + Ticks(step.ServerTimer?)
    ensures Beats(EncodeAll(QuietPeer(p, step, j).up), R) ==
            Beats(EncodeAll(p.up), R) + Ticks(step.ClientTimer?)
  {
    QuietAdds(p, step, j);
    AddedBeats(step);
    BeatsAll(p.down, AddedDown(step), H);
    BeatsAll(p.up, AddedUp(step), R);
  }

  lemma ActCountsNothing(number: uint64, e: Ends, step: WireStep)
    ensures SameCounts(e.server, Act(number, e, step).server) && SameCounts(e.client, Act(number, e, step).client)
  {}

  ghost predicate BothBeats(e: Ends, n: nat, o: nat) {
    DownBeats(e, n) && UpBeats(e, o)
  }

  /** Neither side counts anything, and m and k more heartbeats are on their way. */
  lemma MoreBoth(e: Ends, e': Ends, d: nat, u: nat, n: nat, m: nat, o: nat, k: nat)
    requires Waiting(e, d, u) && Waiting(e', d + m, u + k) && BothBeats(e, n, o)
    requires SameCounts(e.client, e'.client) && SameCounts(e.server, e'.server)
    ensures BothBeats(e', n + m, o + k)
  {}

  lemma ActWaiting(e: Ends, p: Peer, log: seq<bytes>, number: uint64, step: WireStep, j: nat, d: nat, u: nat)
    requires EndsRefine(e, p, log) && Concerns(step, j) && !Moves(step) && Waiting(e, d, u)
    requires step.Publish? ==> |step.payload| <= 65532 && number == |log| + 1
    ensures Waiting(Act(number, e, step), d + Ticks(step.ServerTimer?), u + Ticks(step.ClientTimer?))
  {
    WaitingIs(e, p, log);
    ActRefines(e, p, log, number, step, j);
    ActAdds(p, step, j);
    WaitingIs(Act(number, e, step), QuietPeer(p, step, j), LogAfter(log, step));
  }

  lemma ActTallies(number: uint64, e: Ends, step: WireStep, d: nat, u: nat, n: nat, o: nat)
    requires Waiting(e, d, u) && BothBeats(e, n, o)
    requires Waiting(Act(number, e, step), d + Ticks(step.ServerTimer?), u + Ticks(step.ClientTimer?))
    ensures BothBeats(Act(number, e, step), n + Ticks(step.ServerTimer?), o + Ticks(step.ClientTimer?))
  {
    ActCountsNothing(number, e, step);
    MoreBoth(e, Act(number, e, step), d, u, n, Ticks(step.ServerTimer?), o, Ticks(step.ClientTimer?));
  }

  lemma ActBeats(e: Ends, p: Peer, log: seq<bytes>, number: uint64, step: WireStep, j: nat,
                 d: nat, u: nat, n: nat, o: nat)
    requires EndsRefine(e, p, log) && Concerns(step, j) && !Moves(step) && Waiting(e, d, u) && BothBeats(e, n, o)
    requires step.Publish? ==> |step.payload| <= 65532 && number == |log| + 1
    ensures BothBeats(Act(number, e, step), n + Ticks(step.ServerTimer?), o + Ticks(step.ClientTimer?))
  {
    ActWaiting(e, p, log, number, step, j, d, u);
    ActTallies(number, e, step, d, u, n, o);
  }

  lemma MoveCountsNothing(number: uint64, m: ServerLog, e: Ends, step: WireStep)
    requires step.Transmit? || step.Complete?
    ensures SameCounts(e.server, Move(number, m, e, step).server)
    ensures SameCounts(e.client, Move(number, m, e, step).client)
  {}

  lemma QuietMoveBeats(number: uint64, m: ServerLog, e: Ends, p: Peer, log: seq<bytes>, step: WireStep, n: nat, o: nat)
    requires EndsRefine(e, p, log) && (step.Transmit? || step.Complete?) && BothBeats(e, n, o)
    ensures BothBeats(Move(number, m, e, step), n, o)
  {
    MoveRefines(number, m, e, p, log, step);
    MoveCountsNothing(number, m, e, step);
    WaitingIs(e, p, log);
    WaitingIs(Move(number, m, e, step), p, log);
    MoreBoth(e, Move(number, m, e, step), Beats(EncodeAll(p.down), H), Beats(EncodeAll(p.up), R), n, 0, o, 0);
  }

  // ------------------------------------------------------------ deliveries

  lemma TakenBeats(ms: seq<Msg>, taken: nat, t: byte)
    requires taken <= |ms|
    ensures Beats(EncodeAll(ms), t) == Beats(EncodeAll(ms[..taken]), t) + Beats(EncodeAll(ms[taken..]), t)
  {
    BeatsAll(ms[..taken], ms[taken..], t);
    assert ms[..taken] + ms[taken..] == ms;
  }

  /** A reader counts what comes out; the rest is still on its way. */
  lemma ReadBeats(counted: uint32, counted': uint32, before: nat, read: nat, after: nat, n: nat)
    requires Tally(counted, 0, before, n) && before == read + after && counted' == After(counted, read)
    ensures Tally(counted', 0, after, n)
  {
    AfterAfter(0, n - before, read);
  }

  lemma ClientTally(c: Conn, m: ServerLog, ps: seq<bytes>, before: nat, after: nat, n: nat)
    requires Beats(ps, R) == 0 && before == Beats(ps, H) + after && Tally(c.serverBeats, c.clientBeats, before, n)
    ensures Tally(OnPackets(c, m, ps).serverBeats, OnPackets(c, m, ps).clientBeats, after, n)
  {
    PacketsCount(c, m, ps);
    ReadBeats(c.serverBeats, OnPackets(c, m, ps).serverBeats, before, Beats(ps, H), after, n);
  }

  lemma ClientCounts(c: Conn, m: ServerLog, ms: seq<Msg>, taken: nat, n: nat)
    requires AllFromServer(ms) && taken <= |ms| && Tally(c.serverBeats, c.clientBeats, Beats(EncodeAll(ms), H), n)
    ensures var c' := OnPackets(c, m, EncodeAll(ms[..taken]));
            Tally(c'.serverBeats, c'.clientBeats, Beats(EncodeAll(ms[taken..]), H), n)
  {
    BeatsNone(ms[..taken], R);
    TakenBeats(ms, taken, H);
    ClientTally(c, m, EncodeAll(ms[..taken]), Beats(EncodeAll(ms), H), Beats(EncodeAll(ms[taken..]), H), n);
  }

  lemma ServerTally(c: Conn, m: ServerLog, ps: seq<bytes>, before: nat, after: nat, n: nat)
    requires Beats(ps, H) == 0 && before == Beats(ps, R) + after && Tally(c.clientBeats, c.serverBeats, before, n)
    ensures Tally(OnPackets(c, m, ps).clientBeats, OnPackets(c, m, ps).serverBeats, after, n)
  {
    PacketsCount(c, m, ps);
    ReadBeats(c.clientBeats, OnPackets(c, m, ps).clientBeats, before, Beats(ps, R), after, n);
  }

  lemma ClientsSendNone(ms: seq<Msg>, taken: nat)
    requires (forall k :: 0 <= k < |ms| ==> FromClient(ms[k])) && taken <= |ms|
    ensures Beats(EncodeAll(ms[..taken]), H) == 0
  {
    BeatsNone(ms[..taken], H);
  }

  lemma ServerCounts(c: Conn, m: ServerLog, ms: seq<Msg>, taken: nat, n: nat)
    requires (forall k :: 0 <= k < |ms| ==> FromClient(ms[k])) && taken <= |ms|
    requires Tally(c.clientBeats, c.serverBeats, Beats(EncodeAll(ms), R), n)
    ensures var c' := OnPackets(c, m, EncodeAll(ms[..taken]));
            Tally(c'.clientBeats, c'.serverBeats, Beats(EncodeAll(ms[taken..]), R), n)
  {
    ClientsSendNone(ms, taken);
    TakenBeats(ms, taken, R);
    ServerTally(c, m, EncodeAll(ms[..taken]), Beats(EncodeAll(ms), R), Beats(EncodeAll(ms[taken..]), R), n);
  }

  lemma SameQueueInFlight(c: Conn, c': Conn, l: Link, r: Reader)
    requires c'.queue == c.queue
    ensures InFlight(c', l, r) == InFlight(c, l, r)
  {}

  lemma DeliverDownBeats(e: Ends, p: Peer, m: ServerLog, log: seq<bytes>, w: nat, n: nat, o: nat)
    requires EndsRefine(e, p, log) && w <= |e.down.wire| && DownBeats(e, n) && UpBeats(e, o)
    ensures DownBeats(DeliverDown(m, e, w), n) && UpBeats(DeliverDown(m, e, w), o)
  {
    var taken := DeliverCarries(e.server, e.down, e.clientReader, p.down, w);
    DownIs(e, p.down, n);
    ClientCounts(e.client, m, p.down, taken, n);
    DownIs(DeliverDown(m, e, w), p.down[taken..], n);
    ReadingSendsNothing(e, p, m, log, w);
    SameQueueInFlight(e.client, DeliverDown(m, e, w).client, e.up, e.serverReader);
  }

  /** What the server answers has no heartbeat in it. */
  lemma AnswerHasNone(log: seq<bytes>, session: bytes, number: uint64)
    ensures Beats(EncodeAll(Answer(log, session, number)), H) == 0
  {
    BeatsNone(Answer(log, session, number), H);
  }

  lemma AnswerBeats(log: seq<bytes>, p: Peer)
    requires p.up != []
    ensures Beats(EncodeAll(OnUp(log, p).down), H) == Beats(EncodeAll(p.down), H)
  {
    var msg := p.up[0];
    if msg.LoginRequest? {
      AnswerHasNone(log, msg.session, msg.number);
      BeatsAll(p.down, Answer(log, msg.session, msg.number), H);
    }
  }

  lemma {:induction false} AnswersBeats(log: seq<bytes>, p: Peer, n: nat)
    requires n <= |p.up|
    ensures Beats(EncodeAll(TakeUp(log, p, n).down), H) == Beats(EncodeAll(p.down), H)
  {
    if n > 0 {
      AnswersBeats(log, p, n - 1);
      TakeUpNext(log, p, n);
      AnswerBeats(log, TakeUp(log, p, n - 1));
    }
  }

  lemma DeliverUpBeats(number: uint64, m: ServerLog, e: Ends, p: Peer, log: seq<bytes>, w: nat, n: nat, o: nat)
    requires EndsRefine(e, p, log) && w <= |e.up.wire| && Payloads(log) && Mirrors(m, log)
    requires DownBeats(e, n) && UpBeats(e, o)
    ensures DownBeats(DeliverUp(number, m, e, w), n) && UpBeats(DeliverUp(number, m, e, w), o)
  {
    var taken := DeliverCarries(e.client, e.up, e.serverReader, p.up, w);
    UpIs(e, p.up, o);
    ServerCounts(e.server, m, p.up, taken, o);
    UpIs(DeliverUp(number, m, e, w), p.up[taken..], o);
    AnswersOnTheirWay(number, m, e, p, log, w, taken, n);
  }

  lemma AnswersOnTheirWay(number: uint64, m: ServerLog, e: Ends, p: Peer, log: seq<bytes>, w: nat, taken: nat, n: nat)
    requires EndsRefine(e, p, log) && w <= |e.up.wire| && Payloads(log) && Mirrors(m, log) && taken <= |p.up|
    requires FeedAll(e.serverReader, e.up.wire[..w]).packets == EncodeAll(p.up[..taken]) && DownBeats(e, n)
    ensures DownBeats(DeliverUp(number, m, e, w), n)
  {
    ServerPackets(e.server, e.down, e.clientReader, p, m, log, taken);
    AnswersBeats(log, p, taken);
    DownIs(e, p.down, n);
    DownIs(DeliverUp(number, m, e, w), TakeUp(log, p, taken).down, n);
  }

  lemma MoveBeats(number: uint64, m: ServerLog, e: Ends, p: Peer, log: seq<bytes>, step: WireStep, n: nat, o: nat)
    requires EndsRefine(e, p, log) && Moves(step) && Payloads(log) && Mirrors(m, log) && BothBeats(e, n, o)
    ensures BothBeats(Move(number, m, e, step), n, o)
  {
    if step.Deliver? {
      MoveDelivers(number, m, e, step);
      if step.downward && step.n <= |e.down.wire| {
        DeliverDownBeats(e, p, m, log, step.n, n, o);
      } else if !step.downward && step.n <= |e.up.wire| {
        DeliverUpBeats(number, m, e, p, log, step.n, n, o);
      }
    } else {
      QuietMoveBeats(number, m, e, p, log, step, n, o);
    }
  }

  // ------------------------------------------------------------ over every run

  lemma ActEnds(number: uint64, m: ServerLog, e: Ends, p: Peer, log: seq<bytes>, step: WireStep, j: nat,
                n: nat, o: nat, n': nat, o': nat)
    requires EndsRefine(e, p, log) && BothBeats(e, n, o) && Concerns(step, j) && !Moves(step)
    requires step.Publish? ==> |step.payload| <= 65532 && number == |log| + 1
    requires n' == n + Ticks(step.ServerTimer?) && o' == o + Ticks(step.ClientTimer?)
    ensures BothBeats(NextEnds(number, m, e, step, j), n', o')
  {
    WaitingIs(e, p, log);
    ActBeats(e, p, log, number, step, j, Beats(EncodeAll(p.down), H), Beats(EncodeAll(p.up), R), n, o);
  }

  lemma TicksHere(step: WireStep, j: nat)
    ensures Ticks(step == ServerTimer(j)) == if Concerns(step, j) && !Moves(step) then Ticks(step.ServerTimer?) else 0
    ensures Ticks(step == ClientTimer(j)) == if Concerns(step, j) && !Moves(step) then Ticks(step.ClientTimer?) else 0
  {}

  lemma StillBeats(number: uint64, m: ServerLog, e: Ends, p: Peer, log: seq<bytes>, step: WireStep, j: nat,
                   n: nat, o: nat, n': nat, o': nat)
    requires EndsRefine(e, p, log) && Payloads(log) && Mirrors(m, log) && BothBeats(e, n, o)
    requires !(Concerns(step, j) && !Moves(step)) && n' == n && o' == o
    ensures BothBeats(NextEnds(number, m, e, step, j), n', o')
  {
    if Concerns(step, j) && Enabled(e, step) {
      MoveBeats(number, m, e, p, log, step, n, o);
    }
  }

  lemma EndsBeats(number: uint64, m: ServerLog, e: Ends, p: Peer, log: seq<bytes>, step: WireStep, j: nat,
                  n: nat, o: nat, n': nat, o': nat)
    requires EndsRefine(e, p, log) && Payloads(log) && Mirrors(m, log) && number == |log| + 1
    requires step.Publish? ==> |step.payload| <= 65532
    requires BothBeats(e, n, o) && n' == n + Ticks(step == ServerTimer(j)) && o' == o + Ticks(step == ClientTimer(j))
    ensures BothBeats(NextEnds(number, m, e, step, j), n', o')
  {
    TicksHere(step, j);
    if Concerns(step, j) && !Moves(step) {
      ActEnds(number, m, e, p, log, step, j, n, o, n', o');
      assert BothBeats(NextEnds(number, m, e, step, j), n', o');
    } else {
      StillBeats(number, m, e, p, log, step, j, n, o, n', o');
      assert BothBeats(NextEnds(number, m, e, step, j), n', o');
    }
  }

  lemma DialedBeats(number: uint64, step: WireStep)
    requires step.Dial?
    ensures DownBeats(DialedEnds(number, step), 0) && UpBeats(DialedEnds(number, step), 0)
  {
    var login := LoginRequest(step.username, step.password, step.session, step.number);
    var e := DialedEnds(number, step);
    EmptyCarries(ACCEPTED_CONN);
    DialedAsks(step.username, step.password, step.session, step.number);
    DownIs(e, [], 0);
    UpIs(e, [login], 0);
    BeatsNone([login], R);
    BeatsNone([], H);
  }

  lemma NextBeats(wire: seq<WireStep>, last: WireStep, i: nat, n: nat, o: nat, n': nat, o': nat)
    requires AllCovered(wire + [last]) && i < |RunSystem(wire).ends| && BothBeats(RunSystem(wire).ends[i], n, o)
    requires n' == n + Ticks(last == ServerTimer(i)) && o' == o + Ticks(last == ClientTimer(i))
    ensures i < |NextSystem(RunSystem(wire), last).ends|
    ensures BothBeats(NextSystem(RunSystem(wire), last).ends[i], n', o')
  {
    var sys := RunSystem(wire);
    CoveredPrefix(wire + [last]);
    TakeInit(wire, last);
    var steps, p := PeerBehind(wire, i, sys.ends[i]);
    ServerLogOfRun(wire);
    CoveredPayloads(wire);
    EndsBeats(sys.nextSeq, sys.log, sys.ends[i], p, Published(wire), last, i, n, o, n', o');
    OwnEnds(sys, last, i);
  }

  lemma NewEnds(sys: System, step: WireStep, i: nat)
    requires |sys.ends| <= i < |NextSystem(sys, step).ends|
    ensures step.Dial? && NextSystem(sys, step).ends[i] == DialedEnds(sys.nextSeq, step)
  {}

  lemma {:induction false} NoTimersBefore(wire: seq<WireStep>, i: nat, server: bool)
    requires i >= |RunSystem(wire).ends|
    ensures Timers(wire, i, server) == 0
  {
    if wire != [] {
      NoTimersBefore(wire[..|wire| - 1], i, server);
    }
  }

  lemma TimersSnoc(wire: seq<WireStep>, last: WireStep, i: nat)
    ensures Timers(wire + [last], i, true) == Timers(wire, i, true) +
            Ticks(i < |RunSystem(wire).ends| && last == ServerTimer(i))
    ensures Timers(wire + [last], i, false) == Timers(wire, i, false) +
            Ticks(i < |RunSystem(wire).ends| && last == ClientTimer(i))
  {
    assert (wire + [last])[..|wire|] == wire;
  }

  lemma BeginBeats(sys: System, last: WireStep, i: nat)
    requires |sys.ends| <= i < |NextSystem(sys, last).ends|
    ensures BothBeats(NextSystem(sys, last).ends[i], 0, 0)
  {
    NewEnds(sys, last, i);
    DialedBeats(sys.nextSeq, last);
  }

  lemma TimersBegin(wire: seq<WireStep>, last: WireStep, i: nat)
    requires i >= |RunSystem(wire).ends|
    ensures Timers(wire + [last], i, true) == 0 && Timers(wire + [last], i, false) == 0
  {
    NoTimersBefore(wire, i, true);
    NoTimersBefore(wire, i, false);
    TimersSnoc(wire, last, i);
  }

  /** Conservation of heartbeats, over every run. A client never counts a client heartbeat, and a
      server never a server heartbeat. The server heartbeats a client has counted and those on their
      way to it are the firings of the server's timer for this connection; and the other way round. */
  lemma {:induction false} HeartbeatsOfRun(wire: seq<WireStep>, i: nat, e: Ends)
    requires Connection(wire, i, e)
    ensures BothBeats(e, Timers(wire, i, true), Timers(wire, i, false))
    decreases |wire|
  {
    assert wire == [] ==> RunSystem(wire).ends == [];
    if wire != [] {
      var init, last := wire[..|wire| - 1], wire[|wire| - 1];
      assert init + [last] == wire;
      CoveredPrefix(wire);
      if i < |RunSystem(init).ends| {
        HeartbeatsOfRun(init, i, RunSystem(init).ends[i]);
        TimersSnoc(init, last, i);
        NextBeats(init, last, i, Timers(init, i, true), Timers(init, i, false),
                  Timers(wire, i, true), Timers(wire, i, false));
      } else {
        TimersBegin(init, last, i);
        BeginBeats(RunSystem(init), last, i);
      }
    }
  }

  lemma QuietInFlight(c: Conn, l: Link, r: Reader, ms: seq<Msg>)
    requires Carries(c, l, r, ms) && Quiet(c, l)
    ensures InFlight(c, l, r) == []
  {
    QuietCarriesNothing(c, l, r, ms);
    CarriedInFlight(c, l, r, ms);
  }

  lemma BothQuiet(wire: seq<WireStep>, i: nat, e: Ends)
    requires Connection(wire, i, e) && !Busy(e)
    ensures InFlight(e.server, e.down, e.clientReader) == [] && InFlight(e.client, e.up, e.serverReader) == []
  {
    var steps, p := PeerBehind(wire, i, e);
    QuietInFlight(e.server, e.down, e.clientReader, p.down);
    QuietInFlight(e.client, e.up, e.serverReader, p.up);
  }

  lemma TallyNone(counted: uint32, other: uint32, ps: seq<bytes>, t: byte, n: nat)
    requires ps == [] && Tally(counted, other, Beats(ps, t), n)
    ensures counted == After(0, n) && other == 0
  {}

  /** With nothing in transit, every firing was counted. */
  lemma AllBeatsCounted(wire: seq<WireStep>, i: nat, e: Ends)
    requires Connection(wire, i, e) && !Busy(e)
    ensures e.client.serverBeats == After(0, Timers(wire, i, true)) && e.client.clientBeats == 0
    ensures e.server.clientBeats == After(0, Timers(wire, i, false)) && e.server.serverBeats == 0
  {
    HeartbeatsOfRun(wire, i, e);
    BothQuiet(wire, i, e);
    var down, up := InFlight(e.server, e.down, e.clientReader), InFlight(e.client, e.up, e.serverReader);
    TallyNone(e.client.serverBeats, e.client.clientBeats, down, H, Timers(wire, i, true));
    TallyNone(e.server.clientBeats, e.server.serverBeats, up, R, Timers(wire, i, false));
  }
}
