/** What the refinement gives: properties of every run of the byte system, stated on its own state. */
module EndToEnd {
  import opened Bytes
  import opened Numeric
  import opened SoupPacket
  import opened Framing
  import opened Protocol
  import opened Session
  import opened Agreement
  import opened Wire
  import opened Carriage
  import opened Refinement

  // ------------------------------------------------------------ the server's log

  /** The keys are exactly 1..nextSeq-1, holding the broadcasts in order. */
  ghost predicate LogInv(sys: System, log: seq<bytes>) {
    Mirrors(sys.log, log) && sys.nextSeq == |log| + 1
  }

  /** Every server-side connection's map is part of the server's. */
  ghost predicate StoredInside(sys: System) {
    forall j, k :: 0 <= j < |sys.ends| && k in sys.ends[j].server.stored ==>
      k in sys.log && sys.ends[j].server.stored[k] == sys.log[k]
  }

  /** Over all runs: the log's keys have no gap, its entries are the broadcasts, and what broadcast
      and replay emplace in the connections' maps never differs from it. */
  lemma ServerLogOfRun(wire: seq<WireStep>)
    requires AllCovered(wire)
    ensures LogInv(RunSystem(wire), Published(wire)) && StoredInside(RunSystem(wire))
  {
    var steps := BytesRefineMessages(wire);
    var sys, s := RunSystem(wire), Run(START, steps);
    forall j, k | 0 <= j < |sys.ends| && k in sys.ends[j].server.stored
      ensures k in sys.log && sys.ends[j].server.stored[k] == sys.log[k]
    {
      assert EndsRefine(sys.ends[j], s.peers[j], s.log);
    }
  }

  lemma {:induction false} PublishedGrows(a: seq<WireStep>, b: seq<WireStep>)
    ensures Published(a) <= Published(a + b)
    decreases |b|
  {
    if b == [] {
      assert a + b == a;
    } else {
      PublishedGrows(a, b[..|b| - 1]);
      assert (a + b)[..|a + b| - 1] == a + b[..|b| - 1];
    }
  }

  lemma CoveredStart(a: seq<WireStep>, b: seq<WireStep>)
    requires AllCovered(a + b)
    ensures AllCovered(a) && Published(a) <= Published(a + b)
  {
    PublishedGrows(a, b);
    assert forall k :: 0 <= k < |Published(a)| ==> Published(a)[k] == Published(a + b)[k];
  }

  /** Once written, an entry stays as it is. */
  lemma EntriesStay(a: seq<WireStep>, b: seq<WireStep>, k: uint64)
    requires AllCovered(a + b) && k in RunSystem(a).log
    ensures k in RunSystem(a + b).log && RunSystem(a + b).log[k] == RunSystem(a).log[k]
  {
    CoveredStart(a, b);
    ServerLogOfRun(a);
    ServerLogOfRun(a + b);
  }

  // ------------------------------------------------------------ the client's log

  /** e is the state of connection i after a run. */
  ghost predicate Connection(wire: seq<WireStep>, i: nat, e: Ends) {
    AllCovered(wire) && i < |RunSystem(wire).ends| && e == RunSystem(wire).ends[i]
  }

  /** The session run behind a connection. */
  lemma PeerBehind(wire: seq<WireStep>, i: nat, e: Ends) returns (steps: seq<Step>, p: Peer)
    requires Connection(wire, i, e)
    ensures Reached(steps, i, p, Published(wire)) && EndsRefine(e, p, Published(wire)) && PeerInv(p, Published(wire))
  {
    steps := BytesRefineMessages(wire);
    p := Run(START, steps).peers[i];
    RunKeepsInv(steps);
  }

  /** Log agreement on bytes. However the bytes were cut and interleaved, a client's counter, session
      and log are this function of what it asked for, of the broadcasts before its accept and its
      login, and of the packets it has handled; and its numbers are the server's if, and for distinct
      payloads only if, its request was in step. */
  lemma ClientOfRun(wire: seq<WireStep>, i: nat, e: Ends)
    requires Connection(wire, i, e)
    ensures var t, log := e.past.terms, Published(wire);
            && t.acceptedAt <= LoginPoint(t, log) <= |log| < TWO64 - 1
            && e.past.taken <= |Script(t, log)|
            && ClientOf(e.client) == ClientAfter(t, log, e.past.taken)
            && (InStep(t, LoginPoint(t, log)) ==> RightNumbers(e.client.received, log))
            && (NoRepeats(log) && e.client.received != map[] ==>
                  (RightNumbers(e.client.received, log) <==> InStep(t, LoginPoint(t, log))))
  {
    var steps, p := PeerBehind(wire, i, e);
    ClientLogOfRun(steps, i, p, Published(wire));
    LogsAgreeIff(steps, i, p, Published(wire));
  }

  /** With no broadcast between accept and login: the keys are exactly announced..nextSeq-1, and
      each message is the server's at one fixed distance, which is 0 exactly when in step. */
  lemma QuietLoginOfRun(wire: seq<WireStep>, i: nat, e: Ends)
    requires Connection(wire, i, e) && e.past.terms.loginAt == Some(e.past.terms.acceptedAt) && e.past.taken > 0
    ensures var t := e.past.terms;
            var n, first := AnnouncedNumber(t.request), FirstSent(t.request, t.acceptedAt);
            && Holds(e.client.received, n, e.past.taken - 1, Published(wire), first - 1)
            && Distance(n, e.client.nextSeq) == e.past.taken - 1
            && (n == first <==> InStep(t, t.acceptedAt))
  {
    ClientOfRun(wire, i, e);
    QuietHolds(e.past.terms, Published(wire), e.past.taken);
    InStepMeans(e.past.terms, e.past.terms.acceptedAt);
  }

  lemma SessionOfRun(wire: seq<WireStep>, i: nat, e: Ends)
    requires Connection(wire, i, e) && e.past.terms.loginAt.Some?
    requires e.past.taken > e.past.terms.loginAt.value - e.past.terms.acceptedAt
    ensures e.client.session == AnnouncedSession(Cut(e.past.terms.wanted, 10))
    ensures AnnouncedSession(Cut(e.client.session, 10)) == e.client.session
  {
    ClientOfRun(wire, i, e);
    AnnouncedSessionFits(e.past.terms.wanted);
  }

  lemma CounterOfRun(wire: seq<WireStep>, i: nat, e: Ends)
    requires Connection(wire, i, e) && e.past.terms.loginAt.Some?
    requires e.past.taken > e.past.terms.loginAt.value - e.past.terms.acceptedAt
    ensures var t := e.past.terms;
            var later := e.past.taken - (t.loginAt.value - t.acceptedAt) - 1;
            && Distance(AnnouncedNumber(t.request), e.client.nextSeq) == later
            && (later == 0 ==> e.client.nextSeq == AnnouncedNumber(t.request))
  {
    var t := e.past.terms;
    ClientOfRun(wire, i, e);
    AfterLogin(t, Published(wire), e.past.taken - (t.loginAt.value - t.acceptedAt) - 1);
  }

  lemma AnnouncedIs(session: bytes, number: uint64)
    ensures AnnouncedSession(session) == if session == [] then [32, 32, 32, 32, 32, 32, 32, 65, 66, 67] else session
    ensures AnnouncedNumber(number) == if number == 0 then 1 else number
  {
    assert DEFAULT_SESSION == [32, 32, 32, 32, 32, 32, 32, 65, 66, 67];
  }

  /** The login handshake through bytes: Login Accepted sets the client's counter to the number it
      asked for, or to 1 if that was 0, and each later message counts on from there; from then on the
      client has the session it asked for, cut at ten characters, or seven spaces and "ABC", and asking
      for that one again would change nothing. */
  lemma HandshakeOfRun(wire: seq<WireStep>, i: nat, e: Ends)
    requires Connection(wire, i, e) && e.past.terms.loginAt.Some?
    requires e.past.taken > e.past.terms.loginAt.value - e.past.terms.acceptedAt
    ensures var t := e.past.terms;
            var later := e.past.taken - (t.loginAt.value - t.acceptedAt) - 1;
            var first := if t.request == 0 then 1 else t.request;
            Distance(first, e.client.nextSeq) == later && (later == 0 ==> e.client.nextSeq == first)
    ensures var wanted := Cut(e.past.terms.wanted, 10);
            e.client.session == if wanted == [] then [32, 32, 32, 32, 32, 32, 32, 65, 66, 67] else wanted
    ensures AnnouncedSession(Cut(e.client.session, 10)) == e.client.session
  {
    CounterOfRun(wire, i, e);
    SessionOfRun(wire, i, e);
    AnnouncedIs(Cut(e.past.terms.wanted, 10), e.past.terms.request);
  }

  // ------------------------------------------------------------ nothing left in transit

  predicate Quiet(c: Conn, l: Link) {
    c.queue == [] && l.wire == []
  }

  lemma ConcatHoldsFirst(es: seq<bytes>)
    ensures es != [] ==> |es[0]| <= |Concat(es)|
  {}

  /** An empty queue and an empty wire carry no message, not even half of one. */
  lemma QuietCarriesNothing(c: Conn, l: Link, r: Reader, ms: seq<Msg>)
    requires Carries(c, l, r, ms) && Quiet(c, l)
    ensures ms == []
  {
    assert InTransit(c, l, r) == GotOf(r);
    ConcatHoldsFirst(EncodeAll(ms));
  }

  /** With both directions quiet, the login was handled and the client has the whole script. */
  lemma QuietIsComplete(wire: seq<WireStep>, i: nat, e: Ends)
    requires Connection(wire, i, e) && Quiet(e.server, e.down)
    ensures e.past.terms.acceptedAt <= LoginPoint(e.past.terms, Published(wire)) <= |Published(wire)|
    ensures e.past.taken == |Script(e.past.terms, Published(wire))|
    ensures Quiet(e.client, e.up) ==> e.past.terms.loginAt.Some?
  {
    var steps, p := PeerBehind(wire, i, e);
    QuietCarriesNothing(e.server, e.down, e.clientReader, p.down);
    if Quiet(e.client, e.up) {
      QuietCarriesNothing(e.client, e.up, e.serverReader, p.up);
    }
  }

  // ------------------------------------------------------------ reconnecting

  /** What is recorded at the dial, without the login. */
  function Asked(t: Terms): (r: Terms) {
    t.(loginAt := None)
  }

  lemma {:induction false} TermsKeepAsked(number: uint64, t: Terms, ps: seq<bytes>)
    ensures Asked(TermsAfter(number, t, ps)) == Asked(t)
  {
    if ps != [] {
      TermsKeepAsked(number, t, ps[..|ps| - 1]);
    }
  }

  lemma EndsKeepAsked(number: uint64, log: ServerLog, e: Ends, step: WireStep, j: nat)
    ensures Asked(NextEnds(number, log, e, step, j).past.terms) == Asked(e.past.terms)
  {
    if step.Deliver? && !step.downward && step.n <= |e.up.wire| {
      TermsKeepAsked(number, e.past.terms, FeedAll(e.serverReader, e.up.wire[..step.n]).packets);
    }
  }

  lemma StepKeepsAsked(sys: System, step: WireStep, j: nat)
    requires j < |NextSystem(sys, step).ends|
    ensures j >= |sys.ends| ==> step.Dial?
    ensures Asked(NextSystem(sys, step).ends[j].past.terms) ==
            if j < |sys.ends| then Asked(sys.ends[j].past.terms)
            else Terms(step.number, step.session, Broadcasts(sys.nextSeq), None)
  {
    if j < |sys.ends| {
      EndsKeepAsked(sys.nextSeq, sys.log, sys.ends[j], step, j);
    }
  }

  lemma RunLastStep(wire: seq<WireStep>, last: WireStep)
    ensures RunSystem(wire + [last]) == NextSystem(RunSystem(wire), last)
    ensures Published(wire + [last]) == LogAfter(Published(wire), last)
  {
    assert (wire + [last])[..|wire|] == wire;
  }

  lemma LastStep(a: seq<WireStep>, b: seq<WireStep>)
    requires b != []
    ensures a + b == a + b[..|b| - 1] + [b[|b| - 1]]
  {}

  lemma {:induction false} AskedStays(a: seq<WireStep>, b: seq<WireStep>, i: nat)
    requires i < |RunSystem(a).ends|
    ensures i < |RunSystem(a + b).ends|
    ensures Asked(RunSystem(a + b).ends[i].past.terms) == Asked(RunSystem(a).ends[i].past.terms)
    decreases |b|
  {
    if b == [] {
      assert a + b == a;
    } else {
      var ab, last := a + b[..|b| - 1], b[|b| - 1];
      LastStep(a, b);
      RunLastStep(ab, last);
      AskedStays(a, b[..|b| - 1], i);
      StepKeepsAsked(RunSystem(ab), last, i);
    }
  }

  lemma DialedNext(sys: System, step: WireStep, j: nat, floor: nat)
    requires j < |NextSystem(sys, step).ends| && floor <= Broadcasts(sys.nextSeq)
    requires j < |sys.ends| ==> floor <= sys.ends[j].past.terms.acceptedAt
    ensures floor <= NextSystem(sys, step).ends[j].past.terms.acceptedAt
  {
    StepKeepsAsked(sys, step, j);
  }

  lemma {:induction false} DialedLater(a: seq<WireStep>, b: seq<WireStep>, j: nat)
    requires AllCovered(a + b) && |RunSystem(a).ends| <= j < |RunSystem(a + b).ends|
    ensures |Published(a)| <= RunSystem(a + b).ends[j].past.terms.acceptedAt
    decreases |b|
  {
    assert b == [] ==> a + b == a;
    if b != [] {
      var ab, last := a + b[..|b| - 1], b[|b| - 1];
      LastStep(a, b);
      RunLastStep(ab, last);
      CoveredStart(ab, [last]);
      CoveredStart(a, b[..|b| - 1]);
      ServerLogOfRun(ab);
      if j < |RunSystem(ab).ends| {
        DialedLater(a, b[..|b| - 1], j);
      }
      DialedNext(RunSystem(ab), last, j, |Published(a)|);
    }
  }

  /** A login is handled once: from then on the two recorded points and the request stay as they are. */
  lemma {:induction false} LoginHandledOnce(a: seq<WireStep>, b: seq<WireStep>, i: nat)
    requires AllCovered(a + b) && i < |RunSystem(a).ends| && RunSystem(a).ends[i].past.terms.loginAt.Some?
    ensures i < |RunSystem(a + b).ends| && RunSystem(a + b).ends[i].past.terms == RunSystem(a).ends[i].past.terms
    decreases |b|
  {
    if b == [] {
      assert a + b == a;
    } else {
      var ab, last := a + b[..|b| - 1], b[|b| - 1];
      LastStep(a, b);
      RunLastStep(ab, last);
      CoveredStart(ab, [last]);
      LoginHandledOnce(a, b[..|b| - 1], i);
      SettledNext(ab, last, i);
    }
  }

  lemma SettledNext(wire: seq<WireStep>, last: WireStep, i: nat)
    requires AllCovered(wire + [last]) && i < |RunSystem(wire).ends|
    requires RunSystem(wire).ends[i].past.terms.loginAt.Some?
    ensures i < |NextSystem(RunSystem(wire), last).ends|
    ensures NextSystem(RunSystem(wire), last).ends[i].past.terms == RunSystem(wire).ends[i].past.terms
  {
    CoveredPrefix(wire + [last]);
    TakeInit(wire, last);
    var before := BytesRefineMessages(wire);
    RunKeepsInv(before);
    var s := Run(START, before);
    var steps := StepRefines(RunSystem(wire), s, last);
    TermsSettled(s, steps, i);
    SamePast(RunSystem(wire), s, i);
    SamePast(NextSystem(RunSystem(wire), last), Run(s, steps), i);
  }

  lemma TakeInit(wire: seq<WireStep>, last: WireStep)
    ensures (wire + [last])[..|wire + [last]| - 1] == wire
  {}

  lemma SamePast(sys: System, s: Session, i: nat)
    requires Refines(sys, s) && i < |s.peers|
    ensures i < |sys.ends| && sys.ends[i].past.terms == s.peers[i].terms
  {
    assert EndsRefine(sys.ends[i], s.peers[i], s.log);
  }

  /** Reconnect recovery on bytes. A client in step that has been let in stops after any prefix
      (`before`), and a later connection asks for a number from 1 to its counter. If no broadcast
      overtakes the new login, or it asks for the very next one, then once nothing is in transit to
      it, both logs carry the server's numbers, and together they hold every message from the old
      start to the last broadcast. */
  lemma ReconnectOfRun(before: seq<WireStep>, i: nat, old': Ends, after: seq<WireStep>, j: nat, e: Ends)
    requires Connection(before, i, old') && Connection(before + after, j, e)
    requires InStep(old'.past.terms, LoginPoint(old'.past.terms, Published(before)))
    requires old'.past.taken > LoginPoint(old'.past.terms, Published(before)) - old'.past.terms.acceptedAt
    requires |RunSystem(before).ends| <= j && 1 <= e.past.terms.request <= old'.client.nextSeq
    requires e.past.terms.loginAt.Some? && Quiet(e.server, e.down)
    requires || e.past.terms.loginAt.value == e.past.terms.acceptedAt
             || e.past.terms.request == e.past.terms.acceptedAt + 1
    ensures RightNumbers(old'.client.received, Published(before + after))
    ensures RightNumbers(e.client.received, Published(before + after))
    ensures forall k :: AnnouncedNumber(old'.past.terms.request) <= k <= |Published(before + after)| ==>
              k in old'.client.received || k in e.client.received
  {
    var log1, log, t, t' := Published(before), Published(before + after), old'.past.terms, e.past.terms;
    CoveredStart(before, after);
    ClientOfRun(before, i, old');
    ClientOfRun(before + after, j, e);
    DialedLater(before, after, j);
    QuietIsComplete(before + after, j, e);
    CounterInStep(t, log1, old'.past.taken);
    assert InStep(t', LoginPoint(t', log));
    TogetherComplete(t, log1, old'.past.taken, t', log, e.past.taken);
  }

  // ------------------------------------------------------------ closed ends

  lemma OwnEnds(sys: System, step: WireStep, i: nat)
    requires i < |sys.ends| && sys.nextSeq != 0
    ensures i < |NextSystem(sys, step).ends|
    ensures NextSystem(sys, step).ends[i] == NextEnds(sys.nextSeq, sys.log, sys.ends[i], step, i)
  {}

  /** A client that has closed reads nothing more, and a server-side connection handles no login. */
  ghost predicate StaysClosed(e: Ends, e': Ends) {
    && (e.client.status == Disconnected ==>
          && e'.client.status == Disconnected && e'.past.taken == e.past.taken
          && ClientOf(e'.client) == ClientOf(e.client))
    && (e.server.status == Disconnected ==> e'.server.status == Disconnected && e'.past.terms == e.past.terms)
  }

  lemma ClosedStep(number: uint64, log: ServerLog, e: Ends, step: WireStep, j: nat)
    ensures StaysClosed(e, NextEnds(number, log, e, step, j))
  {}

  lemma ClosedNext(wire: seq<WireStep>, last: WireStep, i: nat)
    requires AllCovered(wire + [last]) && i < |RunSystem(wire).ends|
    ensures i < |NextSystem(RunSystem(wire), last).ends|
    ensures StaysClosed(RunSystem(wire).ends[i], NextSystem(RunSystem(wire), last).ends[i])
  {
    CoveredStart(wire, [last]);
    ServerLogOfRun(wire);
    OwnEnds(RunSystem(wire), last, i);
    ClosedStep(RunSystem(wire).nextSeq, RunSystem(wire).log, RunSystem(wire).ends[i], last, i);
  }

  /** What close_socket means for the rest of every run: the client's log, counter and session stay as
      they are, whatever was still in flight to it, and the server never answers. */
  lemma {:induction false} ClosedStays(a: seq<WireStep>, b: seq<WireStep>, i: nat)
    requires AllCovered(a + b) && i < |RunSystem(a).ends|
    ensures i < |RunSystem(a + b).ends| && StaysClosed(RunSystem(a).ends[i], RunSystem(a + b).ends[i])
    decreases |b|
  {
    if b == [] {
      assert a + b == a;
    } else {
      var ab, last := a + b[..|b| - 1], b[|b| - 1];
      LastStep(a, b);
      RunLastStep(ab, last);
      CoveredStart(ab, [last]);
      ClosedStays(a, b[..|b| - 1], i);
      ClosedNext(ab, last, i);
    }
  }
}
