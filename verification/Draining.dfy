/** However the transport moves a connection's bytes, as long as it moves them, everything arrives. */
module Draining {
  import opened Bytes
  import opened Framing
  import opened Protocol
  import opened Session
  import opened Agreement
  import opened Wire
  import opened Carriage
  import opened Refinement
  import opened EndToEnd

  // ------------------------------------------------------------ what is left to do

  /** One direction: every byte still in the queue has to be sent and read, every byte on the wire to
      be read, and every write to be completed. */
  function Work(c: Conn, l: Link): (n: nat) {
    2 * Unsent(c, l) + |l.wire| + |c.queue|
  }

  function Unsent(c: Conn, l: Link): (n: nat) {
    if SentInFront(c, l) then |Remaining(c, l)| else 0
  }

  lemma TransmitWorks(c: Conn, l: Link, n: nat)
    requires SentInFront(c, l) && TransmitOn(c, l, n) != l
    ensures SentInFront(c, TransmitOn(c, l, n)) && Work(c, TransmitOn(c, l, n)) < Work(c, l)
  {
    var front, l' := c.queue[0], TransmitOn(c, l, n);
    assert n == 0 ==> l' == l by {
      assert l.wire + front[l.sent..l.sent] == l.wire;
    }
    assert |Remaining(c, l)| == |front| - l.sent + |Concat(c.queue[1..])|;
    assert |Remaining(c, l')| == |front| - l.sent - n + |Concat(c.queue[1..])|;
  }

  lemma CompleteWorks(c: Conn, l: Link)
    requires CanComplete(c, l)
    ensures SentInFront(WriteDone(c), l.(sent := 0)) && Work(WriteDone(c), l.(sent := 0)) < Work(c, l)
  {
    var rest := c.queue[1..];
    assert Remaining(c, l) == Concat(rest);
    if rest != [] {
      assert rest[0][0..] == rest[0];
    }
  }

  // ------------------------------------------------------------ every step that moves leaves less

  /** Less to do upwards, or the same upwards and less downwards. */
  predicate LessWork(e': Ends, e: Ends) {
    || Work(e'.client, e'.up) < Work(e.client, e.up)
    || (Work(e'.client, e'.up) == Work(e.client, e.up) && Work(e'.server, e'.down) < Work(e.server, e.down))
  }

  lemma QuietMoveWorks(number: uint64, m: ServerLog, e: Ends, step: WireStep)
    requires SentInFront(e.server, e.down) && SentInFront(e.client, e.up) && (step.Transmit? || step.Complete?)
    ensures Move(number, m, e, step) == e || LessWork(Move(number, m, e, step), e)
    ensures IsOpen(Move(number, m, e, step)) == IsOpen(e)
  {
    var c, l := if step.downward then e.server else e.client, if step.downward then e.down else e.up;
    if step.Transmit? && TransmitOn(c, l, step.n) != l {
      TransmitWorks(c, l, step.n);
    } else if step.Complete? && CanComplete(c, l) {
      CompleteWorks(c, l);
    }
  }

  /** Reading what the server sent queues nothing on the client's side. */
  lemma ReadingSendsNothing(e: Ends, p: Peer, m: ServerLog, log: seq<bytes>, n: nat)
    requires EndsRefine(e, p, log) && n <= |e.down.wire|
    ensures SameSending(e.client, DeliverDown(m, e, n).client)
  {
    var taken := DeliverCarries(e.server, e.down, e.clientReader, p.down, n);
    ClientPackets(e.client, m, p.down[..taken]);
  }

  lemma NothingRead(number: uint64, m: ServerLog, e: Ends)
    ensures DeliverDown(m, e, 0) == e && DeliverUp(number, m, e, 0) == e
  {
    assert e.down.wire[0..] == e.down.wire && e.up.wire[0..] == e.up.wire;
    assert e.down.wire[..0] == [] && e.up.wire[..0] == [];
  }

  lemma DeliveryWorks(number: uint64, m: ServerLog, e: Ends, p: Peer, log: seq<bytes>, step: WireStep)
    requires EndsRefine(e, p, log) && step.Deliver?
    ensures Move(number, m, e, step) == e || LessWork(Move(number, m, e, step), e)
  {
    MoveDelivers(number, m, e, step);
    NothingRead(number, m, e);
    if step.n > 0 && step.downward && step.n <= |e.down.wire| {
      ReadingSendsNothing(e, p, m, log, step.n);
    }
  }

  lemma DeliveryKeepsOpen(number: uint64, m: ServerLog, e: Ends, p: Peer, log: seq<bytes>, step: WireStep)
    requires EndsRefine(e, p, log) && Payloads(log) && Mirrors(m, log) && number == |log| + 1 && step.Deliver?
    ensures IsOpen(Move(number, m, e, step)) == IsOpen(e)
  {
    var taken := DeliverEnds(number, m, e, p, log, step);
    var p' := Take(log, p, step.downward, taken);
    assert SameOpen(p, p');
  }

  /** Any step of the transport, anywhere in a run: it changes nothing, or leaves less to do. */
  lemma EveryMoveWorks(wire: seq<WireStep>, i: nat, e: Ends, step: WireStep)
    requires Connection(wire, i, e) && IsOpen(e) && Moves(step) && step.i == i
    ensures var e' := NextSystem(RunSystem(wire), step).ends[i];
            (e' == e || LessWork(e', e)) && IsOpen(e')
  {
    var sys, log := RunSystem(wire), Published(wire);
    var session, p := PeerBehind(wire, i, e);
    ServerLogOfRun(wire);
    OneMove(sys, step, i);
    if step.Deliver? {
      DeliveryWorks(sys.nextSeq, sys.log, e, p, log, step);
      CoveredPayloads(wire);
      DeliveryKeepsOpen(sys.nextSeq, sys.log, e, p, log, step);
    } else {
      QuietMoveWorks(sys.nextSeq, sys.log, e, step);
    }
  }

  lemma CoveredPayloads(wire: seq<WireStep>)
    requires AllCovered(wire)
    ensures Payloads(Published(wire))
  {}

  // ------------------------------------------------------------ schedules

  predicate OnlyMoves(steps: seq<WireStep>, i: nat) {
    forall k :: 0 <= k < |steps| ==> Moves(steps[k]) && steps[k].i == i
  }

  predicate Busy(e: Ends) {
    !Quiet(e.client, e.up) || !Quiet(e.server, e.down)
  }

  /** What the transport does next, given all it has done. */
  type Schedule = seq<WireStep> -> WireStep

  /** The next step of a schedule belongs to connection i, and changes it while it is busy. */
  ghost predicate MovesOn(wire: seq<WireStep>, i: nat, step: WireStep) {
    && Moves(step) && step.i == i && i < |RunSystem(wire).ends|
    && (Busy(RunSystem(wire).ends[i]) ==> NextSystem(RunSystem(wire), step).ends[i] != RunSystem(wire).ends[i])
  }

  ghost predicate KeepsMoving(wire: seq<WireStep>, i: nat, sched: Schedule) {
    forall done :: OnlyMoves(done, i) ==> MovesOn(wire + done, i, sched(done))
  }

  predicate Follows(steps: seq<WireStep>, sched: Schedule) {
    forall k :: 0 <= k < |steps| ==> steps[k] == sched(steps[..k])
  }

  lemma OneMove(sys: System, step: WireStep, i: nat)
    requires i < |sys.ends| && Moves(step) && step.i == i
    ensures var sys' := NextSystem(sys, step);
            && sys'.nextSeq == sys.nextSeq && sys'.log == sys.log && |sys'.ends| == |sys.ends|
            && sys'.ends[i] == (if Enabled(sys.ends[i], step) then Move(sys.nextSeq, sys.log, sys.ends[i], step)
                                else sys.ends[i])
            && forall j :: 0 <= j < |sys.ends| && j != i ==> sys'.ends[j] == sys.ends[j]
  {}

  /** The transport of one connection leaves the server and the other connections alone. */
  lemma {:induction false} MovesStayHome(wire: seq<WireStep>, steps: seq<WireStep>, i: nat)
    requires i < |RunSystem(wire).ends| && OnlyMoves(steps, i)
    ensures var sys, sys' := RunSystem(wire), RunSystem(wire + steps);
            && sys'.nextSeq == sys.nextSeq && sys'.log == sys.log && |sys'.ends| == |sys.ends|
            && (forall j :: 0 <= j < |sys.ends| && j != i ==> sys'.ends[j] == sys.ends[j])
    ensures Published(wire + steps) == Published(wire)
    decreases |steps|
  {
    if steps == [] {
      assert wire + steps == wire;
    } else {
      var init, last := steps[..|steps| - 1], steps[|steps| - 1];
      MovesStayHome(wire, init, i);
      LastStep(wire, steps);
      RunLastStep(wire + init, last);
      OneMove(RunSystem(wire + init), last, i);
    }
  }

  lemma OnlyMovesMore(done: seq<WireStep>, i: nat, step: WireStep)
    requires OnlyMoves(done, i) && Moves(step) && step.i == i
    ensures OnlyMoves(done + [step], i)
  {}

  lemma MoreMoves(wire: seq<WireStep>, done: seq<WireStep>, i: nat, step: WireStep)
    requires AllCovered(wire + done) && i < |RunSystem(wire + done).ends| && Moves(step) && step.i == i
    ensures RunSystem(wire + (done + [step])) == NextSystem(RunSystem(wire + done), step)
    ensures AllCovered(wire + (done + [step])) && i < |RunSystem(wire + (done + [step])).ends|
  {
    assert wire + (done + [step]) == wire + done + [step];
    RunLastStep(wire + done, step);
    OneMove(RunSystem(wire + done), step, i);
  }

  lemma FollowsMore(done: seq<WireStep>, sched: Schedule)
    requires Follows(done, sched)
    ensures Follows(done + [sched(done)], sched)
  {
    var more := done + [sched(done)];
    forall k | 0 <= k < |more|
      ensures more[k] == sched(more[..k])
    {
      assert more[..k] == done[..k];
      assert done[..|done|] == done;
    }
  }

  lemma {:induction false} FollowUntilQuiet(wire: seq<WireStep>, i: nat, sched: Schedule, done: seq<WireStep>, e: Ends)
    returns (steps: seq<WireStep>, e': Ends)
    requires i < |RunSystem(wire).ends| && KeepsMoving(wire, i, sched)
    requires OnlyMoves(done, i) && Follows(done, sched) && Connection(wire + done, i, e) && IsOpen(e)
    ensures OnlyMoves(steps, i) && Follows(steps, sched) && Connection(wire + steps, i, e') && IsOpen(e') && !Busy(e')
    decreases Work(e.client, e.up), Work(e.server, e.down)
  {
    if Busy(e) {
      var step := sched(done);
      assert MovesOn(wire + done, i, step);
      EveryMoveWorks(wire + done, i, e, step);
      MoreMoves(wire, done, i, step);
      OnlyMovesMore(done, i, step);
      FollowsMore(done, sched);
      steps, e' := FollowUntilQuiet(wire, i, sched, done + [step], NextSystem(RunSystem(wire + done), step).ends[i]);
    } else {
      steps, e' := done, e;
    }
  }

  // ------------------------------------------------------------ what has arrived then

  lemma HoldsEverything(t: Terms, log: seq<bytes>, taken: nat)
    requires t.acceptedAt <= LoginPoint(t, log) <= |log| < TWO64 - 1 && taken == |Script(t, log)|
    requires t.loginAt.Some? && InStep(t, LoginPoint(t, log))
    ensures var c := ClientAfter(t, log, taken);
            c.nextSeq == |log| + 1 && forall k: uint64 :: AnnouncedNumber(t.request) <= k <= |log| ==> k in c.log
  {
    CounterAtEnd(t, log, taken);
    forall k: uint64 | AnnouncedNumber(t.request) <= k <= |log|
      ensures k in ClientAfter(t, log, taken).log
    {
      HoldsUpToCounter(t, log, taken, k);
    }
  }

  /** The client's login was answered and it has handled all there is; if in step, it holds every
      message from the announced number to the last broadcast under the server's number. */
  ghost predicate HasEverything(e: Ends, log: seq<bytes>) {
    var t := e.past.terms;
    && t.loginAt.Some? && t.acceptedAt <= t.loginAt.value <= |log|
    && e.past.taken == |Script(t, log)|
    && (InStep(t, t.loginAt.value) ==>
          && RightNumbers(e.client.received, log) && e.client.nextSeq == |log| + 1
          && forall k: uint64 :: AnnouncedNumber(t.request) <= k <= |log| ==> k in e.client.received)
  }

  lemma QuietHasEverything(wire: seq<WireStep>, i: nat, e: Ends)
    requires Connection(wire, i, e) && !Busy(e)
    ensures HasEverything(e, Published(wire))
  {
    var t, log := e.past.terms, Published(wire);
    ClientOfRun(wire, i, e);
    QuietIsComplete(wire, i, e);
    if InStep(t, LoginPoint(t, log)) {
      HoldsEverything(t, log, e.past.taken);
    }
  }

  /** Completeness. Wherever a run has got to: every schedule of an open connection's transport that
      keeps moving comes, after finitely many steps, to where everything has arrived. */
  lemma EveryScheduleArrives(wire: seq<WireStep>, i: nat, e: Ends, sched: Schedule)
    returns (steps: seq<WireStep>, e': Ends)
    requires Connection(wire, i, e) && IsOpen(e) && KeepsMoving(wire, i, sched)
    ensures OnlyMoves(steps, i) && Follows(steps, sched) && Connection(wire + steps, i, e') && IsOpen(e') && !Busy(e')
    ensures Published(wire + steps) == Published(wire) && HasEverything(e', Published(wire))
  {
    assert wire + [] == wire;
    steps, e' := FollowUntilQuiet(wire, i, sched, [], e);
    MovesStayHome(wire, steps, i);
    QuietHasEverything(wire + steps, i, e');
  }

  // ------------------------------------------------------------ there are such schedules

  /** A step that changes a direction with something in transit. */
  function Push(c: Conn, l: Link, i: nat, downward: bool): (step: WireStep) {
    if c.queue == [] then Deliver(i, downward, |l.wire|)
    else if l.sent < |c.queue[0]| then Transmit(i, downward, |c.queue[0]| - l.sent)
    else Complete(i, downward)
  }

  function Eager(e: Ends, i: nat): (step: WireStep) {
    if !Quiet(e.client, e.up) then Push(e.client, e.up, i, false) else Push(e.server, e.down, i, true)
  }

  lemma PushMoves(number: uint64, m: ServerLog, e: Ends, i: nat)
    requires SentInFront(e.server, e.down) && SentInFront(e.client, e.up)
    ensures !Quiet(e.client, e.up) ==> Move(number, m, e, Push(e.client, e.up, i, false)) != e
    ensures !Quiet(e.server, e.down) ==> Move(number, m, e, Push(e.server, e.down, i, true)) != e
  {}

  lemma EagerMovesOn(wire: seq<WireStep>, i: nat, e: Ends)
    requires Connection(wire, i, e) && IsOpen(e)
    ensures MovesOn(wire, i, Eager(e, i))
  {
    var sys := RunSystem(wire);
    TransitInFront(wire, i, e);
    OneMove(sys, Eager(e, i), i);
    PushMoves(sys.nextSeq, sys.log, e, i);
  }

  lemma TransitInFront(wire: seq<WireStep>, i: nat, e: Ends)
    requires Connection(wire, i, e)
    ensures SentInFront(e.server, e.down) && SentInFront(e.client, e.up)
  {
    var session, p := PeerBehind(wire, i, e);
  }

  predicate OpenAt(wire: seq<WireStep>, i: nat) {
    AllCovered(wire) && i < |RunSystem(wire).ends| && IsOpen(RunSystem(wire).ends[i])
  }

  lemma StaysOpenNext(wire: seq<WireStep>, done: seq<WireStep>, i: nat, step: WireStep, more: seq<WireStep>)
    requires OpenAt(wire + done, i) && Moves(step) && step.i == i && more == wire + (done + [step])
    ensures OpenAt(more, i)
  {
    MoreMoves(wire, done, i, step);
    EveryMoveWorks(wire + done, i, RunSystem(wire + done).ends[i], step);
  }

  lemma {:induction false} StaysOpen(wire: seq<WireStep>, steps: seq<WireStep>, i: nat)
    requires OpenAt(wire, i) && OnlyMoves(steps, i)
    ensures OpenAt(wire + steps, i)
    decreases |steps|
  {
    if steps == [] {
      assert wire + steps == wire;
    } else {
      var init, last := steps[..|steps| - 1], steps[|steps| - 1];
      assert steps == init + [last];
      StaysOpen(wire, init, i);
      StaysOpenNext(wire, init, i, last, wire + steps);
    }
  }

  /** So there is a run in which everything arrives. */
  lemma EverythingArrives(wire: seq<WireStep>, i: nat, e: Ends) returns (steps: seq<WireStep>, e': Ends)
    requires Connection(wire, i, e) && IsOpen(e)
    ensures OnlyMoves(steps, i) && Connection(wire + steps, i, e') && IsOpen(e') && !Busy(e')
    ensures Published(wire + steps) == Published(wire) && HasEverything(e', Published(wire))
  {
    var sched: Schedule := done =>
      if i < |RunSystem(wire + done).ends| then Eager(RunSystem(wire + done).ends[i], i) else Complete(i, true);
    forall done | OnlyMoves(done, i)
      ensures MovesOn(wire + done, i, sched(done))
    {
      StaysOpen(wire, done, i);
      EagerMovesOn(wire + done, i, RunSystem(wire + done).ends[i]);
    }
    steps, e' := EveryScheduleArrives(wire, i, e, sched);
  }
}
