/** The reconnect scenario of the repository's own test, for any payloads and any number to resume
    from: a client logs in, receives everything broadcast, drops, and returns. */
module Scenario {
  import opened Bytes
  import opened Framing
  import opened Protocol
  import opened Session
  import opened Agreement
  import opened Wire
  import opened Refinement
  import opened EndToEnd
  import opened Draining

  function PublishAll(ps: seq<bytes>): (r: seq<WireStep>) {
    seq(|ps|, k requires 0 <= k < |ps| => Publish(ps[k]))
  }

  /** Broadcasts change neither who is connected nor what is recorded. */
  ghost predicate SameConnections(sys: System, sys': System) {
    && |sys'.ends| == |sys.ends|
    && forall j :: 0 <= j < |sys.ends| ==>
         sys'.ends[j].past == sys.ends[j].past && IsOpen(sys'.ends[j]) == IsOpen(sys.ends[j])
  }

  lemma OnePublish(wire: seq<WireStep>, b: bytes)
    requires AllCovered(wire) && |Published(wire)| + 1 < TWO64 - 1 && |b| <= 65532
    ensures AllCovered(wire + [Publish(b)]) && Published(wire + [Publish(b)]) == Published(wire) + [b]
    ensures SameConnections(RunSystem(wire), RunSystem(wire + [Publish(b)]))
  {
    RunLastStep(wire, Publish(b));
    ServerLogOfRun(wire);
  }

  lemma SameThrough(a: System, b: System, c: System)
    requires SameConnections(a, b) && SameConnections(b, c)
    ensures SameConnections(a, c)
  {}

  lemma PublishLast(wire: seq<WireStep>, log: seq<bytes>, ps: seq<bytes>)
    requires ps != []
    ensures wire + PublishAll(ps) == wire + PublishAll(ps[..|ps| - 1]) + [Publish(ps[|ps| - 1])]
    ensures log + ps == log + ps[..|ps| - 1] + [ps[|ps| - 1]]
  {}

  lemma {:induction false} AfterPublishing(wire: seq<WireStep>, ps: seq<bytes>)
    requires AllCovered(wire) && |Published(wire)| + |ps| < TWO64 - 1 && Payloads(ps)
    ensures AllCovered(wire + PublishAll(ps)) && Published(wire + PublishAll(ps)) == Published(wire) + ps
    ensures SameConnections(RunSystem(wire), RunSystem(wire + PublishAll(ps)))
    decreases |ps|
  {
    if ps == [] {
      assert wire + PublishAll(ps) == wire && Published(wire) + ps == Published(wire);
    } else {
      var init, b := ps[..|ps| - 1], ps[|ps| - 1];
      var before := wire + PublishAll(init);
      AfterPublishing(wire, init);
      OnePublish(before, b);
      PublishLast(wire, Published(wire), ps);
      SameThrough(RunSystem(wire), RunSystem(before), RunSystem(before + [Publish(b)]));
    }
  }

  /** Broadcasts go out and are delivered to one connection that is logged in. */
  lemma BroadcastAndDrain(wire: seq<WireStep>, i: nat, e: Ends, log: seq<bytes>, ps: seq<bytes>)
    returns (steps: seq<WireStep>, e': Ends)
    requires Connection(wire, i, e) && Published(wire) == log && IsOpen(e) && e.past.terms.loginAt.Some?
    requires |log| + |ps| < TWO64 - 1 && Payloads(ps)
    ensures Connection(wire + PublishAll(ps) + steps, i, e') && IsOpen(e') && !Busy(e') && OnlyMoves(steps, i)
    ensures Published(wire + PublishAll(ps) + steps) == log + ps
    ensures |RunSystem(wire + PublishAll(ps) + steps).ends| == |RunSystem(wire).ends|
    ensures e'.past.terms == e.past.terms
    ensures e'.past.terms.acceptedAt <= LoginPoint(e'.past.terms, log + ps) <= |log + ps|
    ensures e'.past.taken == |Script(e'.past.terms, log + ps)|
  {
    var sent := wire + PublishAll(ps);
    AfterPublishing(wire, ps);
    var e1 := RunSystem(sent).ends[i];
    steps, e' := EverythingArrives(sent, i, e1);
    MovesStayHome(sent, steps, i);
    LoginHandledOnce(sent, steps, i);
  }

  lemma AfterDial(wire: seq<WireStep>, dial: WireStep, log: seq<bytes>)
    requires AllCovered(wire) && dial.Dial? && log == Published(wire)
    ensures var i := |RunSystem(wire).ends|;
            var e := DialedEnds(|log| + 1, dial);
            Connection(wire + [dial], i, e) && Published(wire + [dial]) == log && IsOpen(e)
  {
    RunLastStep(wire, dial);
    ServerLogOfRun(wire);
  }

  lemma QuietTerms(t: Terms, dial: WireStep, n: nat)
    requires dial.Dial? && Asked(t) == Terms(dial.number, dial.session, n, None)
    requires t.loginAt.Some? && t.acceptedAt <= t.loginAt.value <= n
    ensures t == Terms(dial.number, dial.session, n, Some(n))
  {}

  /** A client dials, and everything is delivered with no broadcast in between: its login is handled
      at the point where it was accepted. */
  lemma DialAndDrain(wire: seq<WireStep>, dial: WireStep, log: seq<bytes>) returns (steps: seq<WireStep>, e: Ends)
    requires AllCovered(wire) && dial.Dial? && log == Published(wire)
    ensures Connection(wire + [dial] + steps, |RunSystem(wire).ends|, e) && IsOpen(e)
    ensures Published(wire + [dial] + steps) == log
    ensures OnlyMoves(steps, |RunSystem(wire).ends|)
    ensures e.past.terms == Terms(dial.number, dial.session, |log|, Some(|log|))
    ensures e.past.taken == |Script(e.past.terms, log)|
  {
    var i, e0 := |RunSystem(wire).ends|, DialedEnds(|log| + 1, dial);
    AfterDial(wire, dial, log);
    steps, e := EverythingArrives(wire + [dial], i, e0);
    AskedStays(wire + [dial], steps, i);
    QuietTerms(e.past.terms, dial, |log|);
  }

  /** What a client that logged in quietly holds once drained. */
  lemma HoldsFrom(wire: seq<WireStep>, i: nat, e: Ends, log: seq<bytes>, r: uint64)
    requires Connection(wire, i, e) && Published(wire) == log && e.past.terms.loginAt == Some(e.past.terms.acceptedAt)
    requires e.past.terms.acceptedAt <= |log| && e.past.taken == |Script(e.past.terms, log)|
    requires InStep(e.past.terms, e.past.terms.acceptedAt) && r == AnnouncedNumber(e.past.terms.request)
    ensures 1 <= r <= |log| + 1 && Holds(e.client.received, r, |log| + 1 - r, log, r - 1)
    ensures e.client.nextSeq == |log| + 1
  {
    QuietLoginOfRun(wire, i, e);
    InStepMeans(e.past.terms, e.past.terms.acceptedAt);
  }

  /** The first half: the client gets every message, under the numbers 1 to |ps|. */
  lemma FirstVisit(u: bytes, w: bytes, ps: seq<bytes>) returns (run: seq<WireStep>, e: Ends)
    requires |ps| < TWO64 - 1 && Payloads(ps)
    ensures Connection(run, 0, e) && Published(run) == ps && IsOpen(e) && |RunSystem(run).ends| == 1
    ensures Holds(e.client.received, 1, |ps|, ps, 0)
    ensures e.client.nextSeq == |ps| + 1 && e.client.session == DEFAULT_SESSION
  {
    var dial := Dial(u, w, [], 0);
    assert RunSystem([]) == BOOT && Published([]) == [];
    var steps, e1 := DialAndDrain([], dial, []);
    var logged := [] + [dial] + steps;
    OneConnection(dial, steps);
    var more;
    more, e := BroadcastAndDrain(logged, 0, e1, [], ps);
    assert [] + ps == ps;
    run := logged + PublishAll(ps) + more;
    HoldsFrom(run, 0, e, ps, 1);
    SessionOfRun(run, 0, e);
  }

  lemma OneConnection(dial: WireStep, steps: seq<WireStep>)
    requires dial.Dial? && OnlyMoves(steps, 0)
    ensures |RunSystem([] + [dial] + steps).ends| == 1
  {
    RunLastStep([], dial);
    MovesStayHome([] + [dial], steps, 0);
  }

  lemma ShutOnly(sys: System)
    requires |sys.ends| == 1
    ensures |NextSystem(sys, Shut(0, false)).ends| == 1
    ensures ClientOf(NextSystem(sys, Shut(0, false)).ends[0].client) == ClientOf(sys.ends[0].client)
  {}

  lemma Dropped(run: seq<WireStep>, old': Ends, log: seq<bytes>)
    requires Connection(run, 0, old') && Published(run) == log && |RunSystem(run).ends| == 1
    ensures AllCovered(run + [Shut(0, false)]) && Published(run + [Shut(0, false)]) == log
    ensures |RunSystem(run + [Shut(0, false)]).ends| == 1
    ensures ClientOf(RunSystem(run + [Shut(0, false)]).ends[0].client) == ClientOf(old'.client)
  {
    RunLastStep(run, Shut(0, false));
    ShutOnly(RunSystem(run));
  }

  /** A new connection leaves the old one alone. */
  lemma OldOneStays(closed: seq<WireStep>, dial: WireStep, steps: seq<WireStep>)
    requires |RunSystem(closed).ends| == 1 && dial.Dial? && OnlyMoves(steps, 1)
    ensures |RunSystem(closed + [dial] + steps).ends| == 2
    ensures RunSystem(closed + [dial] + steps).ends[0] == RunSystem(closed).ends[0]
  {
    RunLastStep(closed, dial);
    MovesStayHome(closed + [dial], steps, 1);
  }

  lemma TwoThen(run: seq<WireStep>, a: WireStep, b: WireStep, steps: seq<WireStep>)
    ensures run + ([a, b] + steps) == run + [a] + [b] + steps
  {}

  /** The second half: the client drops and returns asking for number r with the session it was
      given; it gets exactly the messages from r on, and the old client keeps what it had. */
  lemma SecondVisit(u: bytes, w: bytes, ps: seq<bytes>, r: uint64, run: seq<WireStep>, old': Ends)
    returns (later: seq<WireStep>, e: Ends)
    requires Connection(run, 0, old') && Published(run) == ps && |RunSystem(run).ends| == 1 && 1 <= r <= |ps| + 1
    ensures Connection(run + later, 1, e) && Published(run + later) == ps
    ensures Holds(e.client.received, r, |ps| + 1 - r, ps, r - 1) && e.client.nextSeq == |ps| + 1
    ensures ClientOf(RunSystem(run + later).ends[0].client) == ClientOf(old'.client)
  {
    var closed, dial := run + [Shut(0, false)], Dial(u, w, old'.client.session, r);
    Dropped(run, old', ps);
    var steps;
    steps, e := DialAndDrain(closed, dial, ps);
    OldOneStays(closed, dial, steps);
    HoldsFrom(closed + [dial] + steps, 1, e, ps, r);
    later := [Shut(0, false), dial] + steps;
    TwoThen(run, Shut(0, false), dial, steps);
  }

  /** The whole scenario. */
  lemma ReconnectScenario(u: bytes, w: bytes, ps: seq<bytes>, r: uint64)
    returns (first: seq<WireStep>, later: seq<WireStep>, e0: Ends, e1: Ends)
    requires |ps| < TWO64 - 1 && Payloads(ps) && 1 <= r <= |ps| + 1
    ensures Connection(first, 0, e0) && Published(first) == ps
    ensures Connection(first + later, 1, e1) && Published(first + later) == ps
    ensures Holds(e0.client.received, 1, |ps|, ps, 0) && e0.client.nextSeq == |ps| + 1
    ensures Holds(e1.client.received, r, |ps| + 1 - r, ps, r - 1) && e1.client.nextSeq == |ps| + 1
    ensures ClientOf(RunSystem(first + later).ends[0].client) == ClientOf(e0.client)
  {
    first, e0 := FirstVisit(u, w, ps);
    later, e1 := SecondVisit(u, w, ps, r, first, e0);
  }

  // ------------------------------------------------------------ out of step

  /** A first login with number 0 when something was broadcast before: the client files what comes
      next from number 1 on, where the server has other messages. */
  lemma LateLogin(u: bytes, w: bytes, ps: seq<bytes>, qs: seq<bytes>) returns (run: seq<WireStep>, e: Ends)
    requires |ps| + |qs| < TWO64 - 1 && Payloads(ps) && Payloads(qs) && ps != [] && qs != [] && NoRepeats(ps + qs)
    ensures Connection(run, 0, e) && Published(run) == ps + qs && !Busy(e)
    ensures Holds(e.client.received, 1, |qs|, ps + qs, |ps|) && !RightNumbers(e.client.received, ps + qs)
  {
    var sent := BroadcastsFirst(ps);
    var dial := Dial(u, w, [], 0);
    var steps, e1 := DialAndDrain(sent, dial, ps);
    var logged := sent + [dial] + steps;
    var more;
    more, e := BroadcastAndDrain(logged, 0, e1, ps, qs);
    run := logged + PublishAll(qs) + more;
    LateLog(run, e, ps, qs);
  }

  lemma LateLog(run: seq<WireStep>, e: Ends, ps: seq<bytes>, qs: seq<bytes>)
    requires Connection(run, 0, e) && Published(run) == ps + qs && ps != [] && qs != [] && NoRepeats(ps + qs)
    requires e.past.terms == Terms(0, [], |ps|, Some(|ps|)) && e.past.taken == |Script(e.past.terms, ps + qs)|
    ensures Holds(e.client.received, 1, |qs|, ps + qs, |ps|) && !RightNumbers(e.client.received, ps + qs)
  {
    QuietLoginOfRun(run, 0, e);
    ClientOfRun(run, 0, e);
    assert Distance(1, 1) == 0;
  }

  lemma {:induction false} TermsLogin(number: uint64, t: Terms, ps: seq<bytes>)
    ensures TermsAfter(number, t, ps).loginAt in {t.loginAt, Some(Broadcasts(number))}
  {
    if ps != [] {
      TermsLogin(number, t, ps[..|ps| - 1]);
    }
  }

  lemma StepLogin(sys: System, step: WireStep, i: nat)
    requires i < |sys.ends| && Moves(step) && step.i == i
    ensures |NextSystem(sys, step).ends| == |sys.ends|
    ensures NextSystem(sys, step).ends[i].past.terms.loginAt in
            {sys.ends[i].past.terms.loginAt, Some(Broadcasts(sys.nextSeq))}
  {
    var e := sys.ends[i];
    if step.Deliver? && !step.downward && step.n <= |e.up.wire| {
      TermsLogin(sys.nextSeq, e.past.terms, FeedAll(e.serverReader, e.up.wire[..step.n]).packets);
    }
  }

  /** A login handled between two broadcasts is recorded with the broadcasts made so far. */
  lemma {:induction false} LoginBetween(wire: seq<WireStep>, steps: seq<WireStep>, i: nat)
    requires i < |RunSystem(wire).ends| && OnlyMoves(steps, i)
    ensures i < |RunSystem(wire + steps).ends|
    ensures RunSystem(wire + steps).ends[i].past.terms.loginAt in
            {RunSystem(wire).ends[i].past.terms.loginAt, Some(Broadcasts(RunSystem(wire).nextSeq))}
    decreases |steps|
  {
    if steps == [] {
      assert wire + steps == wire;
    } else {
      var init, last := steps[..|steps| - 1], steps[|steps| - 1];
      MovesStayHome(wire, init, i);
      LoginBetween(wire, init, i);
      LastStep(wire, steps);
      RunLastStep(wire + init, last);
      StepLogin(RunSystem(wire + init), last, i);
    }
  }

  /** A client dials, and one more broadcast is made before its login is handled. */
  lemma DialThenPublish(sent: seq<WireStep>, dial: WireStep, ps: seq<bytes>, b: bytes) returns (e: Ends)
    requires AllCovered(sent) && Published(sent) == ps && dial.Dial? && |ps| + 1 < TWO64 - 1 && |b| <= 65532
    ensures Connection(sent + [dial] + [Publish(b)], |RunSystem(sent).ends|, e) && IsOpen(e)
    ensures Published(sent + [dial] + [Publish(b)]) == ps + [b]
    ensures e.past.terms == Terms(dial.number, dial.session, |ps|, None)
  {
    AfterDial(sent, dial, ps);
    OnePublish(sent + [dial], b);
    e := RunSystem(sent + [dial] + [Publish(b)]).ends[|RunSystem(sent).ends|];
  }

  /** Everything is delivered to a client whose login was not handled yet: it is handled now. */
  lemma DrainLogin(wire: seq<WireStep>, i: nat, e: Ends, log: seq<bytes>) returns (steps: seq<WireStep>, e': Ends)
    requires Connection(wire, i, e) && Published(wire) == log && IsOpen(e) && e.past.terms.loginAt.None?
    ensures Connection(wire + steps, i, e') && Published(wire + steps) == log && !Busy(e') && HasEverything(e', log)
    ensures e'.past.terms == e.past.terms.(loginAt := Some(|log|))
  {
    steps, e' := EverythingArrives(wire, i, e);
    ServerLogOfRun(wire);
    AskedStays(wire, steps, i);
    LoginBetween(wire, steps, i);
  }

  /** A broadcast that overtakes a login with number 0: the client holds it under number 0, and under
      that number only. */
  lemma OvertakenLogin(u: bytes, w: bytes, ps: seq<bytes>, b: bytes) returns (run: seq<WireStep>, e: Ends)
    requires |ps| + 1 < TWO64 - 1 && Payloads(ps) && |b| <= 65532
    ensures Connection(run, 0, e) && Published(run) == ps + [b] && !Busy(e)
    ensures e.client.received == map[0 := b] && !RightNumbers(e.client.received, ps + [b])
  {
    var sent := BroadcastsFirst(ps);
    run, e := OvertakenRun(sent, Dial(u, w, [], 0), ps, b);
    OvertakenLog(run, e, ps, b);
  }

  lemma OvertakenRun(sent: seq<WireStep>, dial: WireStep, ps: seq<bytes>, b: bytes)
    returns (run: seq<WireStep>, e: Ends)
    requires AllCovered(sent) && Published(sent) == ps && dial.Dial? && |ps| + 1 < TWO64 - 1 && |b| <= 65532
    ensures Connection(run, |RunSystem(sent).ends|, e) && Published(run) == ps + [b] && !Busy(e)
    ensures HasEverything(e, ps + [b]) && e.past.terms == Terms(dial.number, dial.session, |ps|, Some(|ps| + 1))
  {
    var i, overtaken := |RunSystem(sent).ends|, sent + [dial] + [Publish(b)];
    var e1 := DialThenPublish(sent, dial, ps, b);
    var steps;
    steps, e := DrainLogin(overtaken, i, e1, ps + [b]);
    run := overtaken + steps;
  }

  /** Broadcasts made before anyone is connected. */
  lemma BroadcastsFirst(ps: seq<bytes>) returns (sent: seq<WireStep>)
    requires |ps| < TWO64 - 1 && Payloads(ps)
    ensures AllCovered(sent) && Published(sent) == ps && |RunSystem(sent).ends| == 0
  {
    assert RunSystem([]) == BOOT && Published([]) == [] && [] + ps == ps;
    sent := [] + PublishAll(ps);
    AfterPublishing([], ps);
  }

  lemma OvertakenLog(run: seq<WireStep>, e: Ends, ps: seq<bytes>, b: bytes)
    requires Connection(run, 0, e) && Published(run) == ps + [b]
    requires e.past.terms == Terms(0, [], |ps|, Some(|ps| + 1)) && HasEverything(e, ps + [b])
    ensures e.client.received == map[0 := b] && !RightNumbers(e.client.received, ps + [b])
  {
    var t, log := e.past.terms, ps + [b];
    ClientOfRun(run, 0, e);
    AfterLogin(t, log, 0);
    assert log[|ps|..|ps| + 1] == [b];
    assert File(map[], 0, [b]) == map[0 := b];
  }
}
