/** The heartbeat timer, over readings of an abstract millisecond clock. */
module Timer {
  import opened Bytes

  /** What check() computes: the difference as int64_t, compared and passed on as uint64_t. */
  function Since(now: uint64, last: uint64): (ms: uint64)
    ensures last <= now ==> ms == now - last
    ensures now < last ==> ms == TWO64 - (last - now)
  {
    ToUnsigned(ToSigned(if last <= now then now - last else TWO64 - (last - now)))
  }

  /** A reading by check() or by reset(), both of them public, from the timer's own thread or another. */
  datatype Event = Check(now: uint64) | Reset(now: uint64)

  /** One call of the listener: the reading, and the elapsed time it is told. */
  datatype Fire = Fire(at: uint64, since: uint64)

  datatype State = State(last: uint64, fires: seq<Fire>)

  predicate Fires(ms: uint64, last: uint64, e: Event) {
    e.Check? && Since(e.now, last) >= ms
  }

  /** check() calls the listener and leaves the reset to its caller. */
  function Next(ms: uint64, s: State, e: Event): (s': State) {
    match e
    case Check(now) => if Fires(ms, s.last, e) then s.(fires := s.fires + [Fire(now, Since(now, s.last))]) else s
    case Reset(now) => s.(last := now)
  }

  function Run(ms: uint64, start: uint64, events: seq<Event>): (s: State) {
    if events == [] then State(start, [])
    else Next(ms, Run(ms, start, events[..|events| - 1]), events[|events| - 1])
  }

  lemma RunSnoc(ms: uint64, start: uint64, events: seq<Event>, e: Event)
    ensures Run(ms, start, events + [e]) == Next(ms, Run(ms, start, events), e)
  {
    assert (events + [e])[..|events|] == events;
  }

  // ------------------------------------------------------------ histories

  /** The latest reading. */
  function Latest(start: uint64, events: seq<Event>): (now: uint64) {
    if events == [] then start else events[|events| - 1].now
  }

  /** The clock never steps back. */
  ghost predicate NonDecreasing(start: uint64, events: seq<Event>) {
    events != [] ==>
      var init, last := events[..|events| - 1], events[|events| - 1];
      NonDecreasing(start, init) && Latest(start, init) <= last.now
  }

  /** The last check called the listener, and no reset followed. */
  ghost predicate Pending(ms: uint64, start: uint64, events: seq<Event>) {
    && events != []
    && var init, last := events[..|events| - 1], events[|events| - 1];
       last.Check? && (Fires(ms, Run(ms, start, init).last, last) || Pending(ms, start, init))
  }

  /** Each check that calls the listener is followed by a reset before the next check. */
  ghost predicate ResetAfterFire(ms: uint64, start: uint64, events: seq<Event>) {
    events != [] ==>
      var init, last := events[..|events| - 1], events[|events| - 1];
      ResetAfterFire(ms, start, init) && (last.Check? ==> !Pending(ms, start, init))
  }

  // ------------------------------------------------------------ what a reset does

  /** When the wait last began: at the latest reset, or at the start. */
  function LastReset(start: uint64, events: seq<Event>): (at: uint64) {
    if events == [] then start
    else if events[|events| - 1].Reset? then events[|events| - 1].now
    else LastReset(start, events[..|events| - 1])
  }

  lemma {:induction false} LastIsReset(ms: uint64, start: uint64, events: seq<Event>)
    ensures Run(ms, start, events).last == LastReset(start, events)
  {
    if events != [] {
      LastIsReset(ms, start, events[..|events| - 1]);
    }
  }

  /** What one more reading does after any history. A check calls the listener exactly if the period
      has passed since the latest reset, and tells it how long ago that was; a reset calls nobody, and
      the wait begins again at its time. Only the elapsed time is reduced modulo 2^64. */
  lemma NextReading(ms: uint64, start: uint64, events: seq<Event>, now: uint64)
    ensures var elapsed := (now - LastReset(start, events)) % TWO64;
            Run(ms, start, events + [Check(now)]).fires ==
            Run(ms, start, events).fires + if elapsed >= ms then [Fire(now, elapsed)] else []
    ensures Run(ms, start, events + [Reset(now)]).fires == Run(ms, start, events).fires
    ensures LastReset(start, events + [Reset(now)]) == now
    ensures LastReset(start, events + [Check(now)]) == LastReset(start, events)
  {
    RunSnoc(ms, start, events, Check(now));
    RunSnoc(ms, start, events, Reset(now));
    LastIsReset(ms, start, events);
    assert (events + [Check(now)])[..|events|] == events;
  }

  /** After a reset there is no call for one period, whatever came before. */
  lemma ResetRestarts(ms: uint64, start: uint64, events: seq<Event>, at: uint64, now: uint64)
    requires at <= now
    ensures var more := Run(ms, start, events + [Reset(at)] + [Check(now)]).fires;
            more == Run(ms, start, events).fires + if now - at >= ms then [Fire(now, now - at)] else []
  {
    NextReading(ms, start, events, at);
    NextReading(ms, start, events + [Reset(at)], now);
  }

  /** The calls of a history, by the real time since the latest reset. */
  function Calls(ms: uint64, start: uint64, events: seq<Event>): (fires: seq<Fire>)
    requires NonDecreasing(start, events)
  {
    if events == [] then []
    else
      var init, e := events[..|events| - 1], events[|events| - 1];
      ResetBefore(start, init);
      var elapsed := e.now - LastReset(start, init);
      Calls(ms, start, init) + if e.Check? && elapsed >= ms then [Fire(e.now, elapsed)] else []
  }

  lemma {:induction false} ResetBefore(start: uint64, events: seq<Event>)
    requires NonDecreasing(start, events)
    ensures start <= LastReset(start, events) <= Latest(start, events)
  {
    if events != [] {
      ResetBefore(start, events[..|events| - 1]);
    }
  }

  /** With a clock that never steps back, the listener is called exactly so, in every history. */
  lemma {:induction false} RunIsCalls(ms: uint64, start: uint64, events: seq<Event>)
    requires NonDecreasing(start, events)
    ensures Run(ms, start, events).fires == Calls(ms, start, events)
  {
    if events != [] {
      var init := events[..|events| - 1];
      RunIsCalls(ms, start, init);
      LastIsReset(ms, start, init);
      ResetBefore(start, init);
    }
  }

  /** No reset lies less than a period before a call. */
  lemma {:induction false} NoCallNearReset(ms: uint64, start: uint64, events: seq<Event>, j: nat, k: nat)
    requires NonDecreasing(start, events) && j < k < |events| && events[j].Reset?
    requires Fires(ms, Run(ms, start, events[..k]).last, events[k])
    ensures events[k].now - events[j].now >= ms
    decreases |events|
  {
    var init := events[..|events| - 1];
    if k < |events| - 1 {
      assert events[..k] == init[..k];
      NoCallNearReset(ms, start, init, j, k);
    } else {
      LastIsReset(ms, start, init);
      ResetsAscend(start, init, j);
      ResetBefore(start, init);
    }
  }

  lemma {:induction false} ResetsAscend(start: uint64, events: seq<Event>, j: nat)
    requires NonDecreasing(start, events) && j < |events| && events[j].Reset?
    ensures events[j].now <= LastReset(start, events)
    decreases |events|
  {
    var init := events[..|events| - 1];
    if j < |init| {
      ResetsAscend(start, init, j);
      ResetBefore(start, init);
    }
  }

  /** The repository's test, for all times: a timer reset at a is silent at b, less than a period later,
      and calls at c, a period or more later, however long before a it was started. */
  lemma ResetAtHalfTime(ms: uint64, start: uint64, a: uint64, b: uint64, c: uint64)
    requires a <= b <= c && b - a < ms <= c - a
    ensures Run(ms, start, [Reset(a), Check(b)]).fires == []
    ensures Run(ms, start, [Reset(a), Check(b), Check(c)]).fires == [Fire(c, c - a)]
  {
    assert [] + [Reset(a)] == [Reset(a)] && [Reset(a)] + [Check(b)] == [Reset(a), Check(b)];
    assert [Reset(a), Check(b)] + [Check(c)] == [Reset(a), Check(b), Check(c)];
    NextReading(ms, start, [], a);
    NextReading(ms, start, [Reset(a)], b);
    NextReading(ms, start, [Reset(a), Check(b)], c);
  }

  // ------------------------------------------------------------ the bound

  /** When the latest of these callbacks was. */
  function LastAt(start: uint64, fires: seq<Fire>): (at: uint64) {
    if fires == [] then start else fires[|fires| - 1].at
  }

  /** Each callback comes at least ms after the start and after the one before it, and is told so. */
  ghost predicate Spaced(ms: uint64, start: uint64, fires: seq<Fire>) {
    fires != [] ==>
      var init, last := fires[..|fires| - 1], fires[|fires| - 1];
      Spaced(ms, start, init) && last.since >= ms && LastAt(start, init) + ms <= last.at
  }

  lemma SpacedSnoc(ms: uint64, start: uint64, fires: seq<Fire>, f: Fire)
    ensures Spaced(ms, start, fires + [f]) <==>
            Spaced(ms, start, fires) && f.since >= ms && LastAt(start, fires) + ms <= f.at
  {
    assert (fires + [f])[..|fires|] == fires;
  }

  lemma {:induction false} SpacedRun(ms: uint64, start: uint64, events: seq<Event>)
    requires NonDecreasing(start, events) && ResetAfterFire(ms, start, events)
    ensures var s, now := Run(ms, start, events), Latest(start, events);
            && start <= s.last <= now && LastAt(start, s.fires) <= now && Spaced(ms, start, s.fires)
            && (if Pending(ms, start, events) then LastAt(start, s.fires) == now else LastAt(start, s.fires) <= s.last)
  {
    if events != [] {
      var init, last := events[..|events| - 1], events[|events| - 1];
      SpacedRun(ms, start, init);
      var s := Run(ms, start, init);
      if last.Check? {
        SpacedSnoc(ms, start, s.fires, Fire(last.now, Since(last.now, s.last)));
      }
    }
  }

  lemma {:induction false} SpacedFires(ms: uint64, start: uint64, fires: seq<Fire>)
    requires Spaced(ms, start, fires)
    ensures |fires| * ms <= LastAt(start, fires) - start
    ensures forall k :: 0 <= k < |fires| ==> fires[k].since >= ms
    decreases |fires|
  {
    if fires != [] {
      var init := fires[..|fires| - 1];
      assert |fires| * ms == |init| * ms + ms;
      SpacedFires(ms, start, init);
    }
  }

  /** With a clock that never steps back, in every history that resets after each callback, whatever
      other resets and checks it has: k callbacks by time t mean t - start >= k * ms, and each is told
      at least ms. */
  lemma TimerBound(ms: uint64, start: uint64, events: seq<Event>)
    requires NonDecreasing(start, events) && ResetAfterFire(ms, start, events)
    ensures |Run(ms, start, events).fires| * ms <= Latest(start, events) - start
    ensures forall k :: 0 <= k < |Run(ms, start, events).fires| ==> Run(ms, start, events).fires[k].since >= ms
  {
    SpacedRun(ms, start, events);
    SpacedFires(ms, start, Run(ms, start, events).fires);
  }

  /** Exactly when one more check, at whatever time, keeps the callbacks apart: none is pending. */
  lemma NextCheckIff(ms: uint64, start: uint64, events: seq<Event>)
    requires NonDecreasing(start, events) && ResetAfterFire(ms, start, events) && ms > 0
    ensures (forall now: uint64 :: Latest(start, events) <= now ==> CheckKeepsSpacing(ms, start, events, now)) <==>
            !Pending(ms, start, events)
  {
    SpacedRun(ms, start, events);
    var s, t := Run(ms, start, events), Latest(start, events);
    forall now: uint64
      ensures CheckKeepsSpacing(ms, start, events, now) <==>
              !Fires(ms, s.last, Check(now)) || LastAt(start, s.fires) + ms <= now
    {
      RunSnoc(ms, start, events, Check(now));
      SpacedSnoc(ms, start, s.fires, Fire(now, Since(now, s.last)));
    }
    if Pending(ms, start, events) {
      PendingFiresAgain(ms, start, events);
      assert !CheckKeepsSpacing(ms, start, events, t);
    }
  }

  ghost predicate CheckKeepsSpacing(ms: uint64, start: uint64, events: seq<Event>, now: uint64) {
    Spaced(ms, start, Run(ms, start, events + [Check(now)]).fires)
  }

  /** A check right after an unreset callback calls the listener again. */
  lemma PendingFiresAgain(ms: uint64, start: uint64, events: seq<Event>)
    requires ResetAfterFire(ms, start, events) && Pending(ms, start, events)
    ensures Fires(ms, Run(ms, start, events).last, Check(Latest(start, events)))
  {}

  /** Two checks with no reset between them break the bound: two callbacks in 1001 milliseconds. */
  lemma UnresetChecksFireTwice()
    ensures Run(1000, 0, [Check(1000), Check(1001)]).fires == [Fire(1000, 1000), Fire(1001, 1001)]
    ensures !ResetAfterFire(1000, 0, [Check(1000), Check(1001)])
  {
    RunSnoc(1000, 0, [], Check(1000));
    RunSnoc(1000, 0, [Check(1000)], Check(1001));
    assert [] + [Check(1000)] == [Check(1000)] && [Check(1000)] + [Check(1001)] == [Check(1000), Check(1001)];
    assert [Check(1000), Check(1001)][..1] == [Check(1000)] && [Check(1000)][..0] == [];
  }

  /** Exactly when a check is right about whether ms have passed since the reset: the clock did not
      step back, or it did by more than 2^64 - ms. */
  lemma CheckRightIff(ms: uint64, last: uint64, now: uint64)
    ensures (Since(now, last) >= ms <==> now - last >= ms) <==> (last <= now || last - now > TWO64 - ms)
  {}

  /** A clock that steps back by one fires a timer at once. */
  lemma BackwardClockFires()
    ensures Run(1000, 10, [Check(9)]).fires == [Fire(9, TWO64 - 1)]
  {
    assert [Check(9)][..0] == [];
  }

  // ------------------------------------------------------------ the class

  /** What the readings of the timer's thread are: a reset right after each check that calls the
      listener, a check everywhere else. */
  ghost predicate IsLoop(ms: uint64, start: uint64, readings: seq<uint64>, events: seq<Event>) {
    && |events| == |readings|
    && forall k :: 0 <= k < |events| ==>
         events[k] == if AfterFire(ms, start, events, k) then Reset(readings[k]) else Check(readings[k])
  }

  ghost predicate AfterFire(ms: uint64, start: uint64, events: seq<Event>, k: nat)
    requires k <= |events|
  {
    k > 0 && Fires(ms, Run(ms, start, events[..k - 1]).last, events[k - 1])
  }

  lemma AfterFireOfPrefix(ms: uint64, start: uint64, events: seq<Event>, n: nat, k: nat)
    requires k <= n <= |events|
    ensures AfterFire(ms, start, events[..n], k) == AfterFire(ms, start, events, k)
  {
    if k > 0 {
      assert events[..n][..k - 1] == events[..k - 1];
    }
  }

  lemma LoopSnoc(ms: uint64, start: uint64, readings: seq<uint64>, events: seq<Event>, now: uint64)
    requires IsLoop(ms, start, readings, events)
    ensures var e := if AfterFire(ms, start, events, |events|) then Reset(now) else Check(now);
            IsLoop(ms, start, readings + [now], events + [e])
  {
    var e := if AfterFire(ms, start, events, |events|) then Reset(now) else Check(now);
    var events' := events + [e];
    assert events'[..|events|] == events;
    forall k | 0 <= k < |events'|
      ensures events'[k] == if AfterFire(ms, start, events', k) then Reset((readings + [now])[k])
                            else Check((readings + [now])[k])
    {
      AfterFireOfPrefix(ms, start, events', |events|, k);
    }
  }

  /** So its own checks are always reset in time. */
  lemma {:induction false} LoopResets(ms: uint64, start: uint64, readings: seq<uint64>, events: seq<Event>)
    requires IsLoop(ms, start, readings, events)
    ensures ResetAfterFire(ms, start, events)
    ensures Pending(ms, start, events) <==> AfterFire(ms, start, events, |events|)
    decreases |events|
  {
    if events != [] {
      var n := |events| - 1;
      forall k | 0 <= k <= n
        ensures AfterFire(ms, start, events[..n], k) == AfterFire(ms, start, events, k)
      {
        AfterFireOfPrefix(ms, start, events, n, k);
      }
      LoopResets(ms, start, readings[..n], events[..n]);
    }
  }

  class Timer {
    const msBeforeFire: uint64
    var lastTimeMs: uint64
    var fires: seq<Fire>

    ghost function View(): (s: State)
      reads this
    {
      State(lastTimeMs, fires)
    }

    constructor (msBeforeFire: uint64, currentTimeMs: uint64)
      ensures this.msBeforeFire == msBeforeFire && View() == Run(msBeforeFire, currentTimeMs, [])
    {
      this.msBeforeFire, lastTimeMs, fires := msBeforeFire, currentTimeMs, [];
    }

    /** `fires` records the listener's calls. */
    method CheckNow(now: uint64) returns (fired: bool)
      modifies this
      ensures View() == Next(msBeforeFire, old(View()), Check(now))
      ensures fired == Fires(msBeforeFire, old(lastTimeMs), Check(now))
      ensures fired <==> (now - old(lastTimeMs)) % TWO64 >= msBeforeFire
    {
      var diff := Since(now, lastTimeMs);
      fired := diff >= msBeforeFire;
      if fired {
        fires := fires + [Fire(now, diff)];
      }
    }

    method ResetNow(now: uint64)
      modifies this
      ensures View() == Next(msBeforeFire, old(View()), Reset(now))
      ensures lastTimeMs == now && fires == old(fires)
    {
      lastTimeMs := now;
    }

    /** The loop of the timer's thread over successive readings of check() and reset(), until they
        end. The readings that wait_until takes do not matter to what is fired. */
    method RunLoop(readings: seq<uint64>) returns (ghost events: seq<Event>)
      requires View() == Run(msBeforeFire, lastTimeMs, [])
      modifies this
      ensures View() == Run(msBeforeFire, old(lastTimeMs), events)
      ensures IsLoop(msBeforeFire, old(lastTimeMs), readings, events)
      ensures ResetAfterFire(msBeforeFire, old(lastTimeMs), events)
    {
      ghost var start := lastTimeMs;
      events := [];
      var k := 0;
      while k < |readings|
        invariant 0 <= k <= |readings|
        invariant View() == Run(msBeforeFire, start, events) && IsLoop(msBeforeFire, start, readings[..k], events)
        invariant k < |readings| ==> !AfterFire(msBeforeFire, start, events, |events|)
      {
        var fired := CheckNow(readings[k]);
        events := Grow(msBeforeFire, start, readings, k, events);
        k := k + 1;
        if fired && k < |readings| {
          ResetNow(readings[k]);
          events := Grow(msBeforeFire, start, readings, k, events);
          k := k + 1;
        }
      }
      assert readings[..k] == readings;
      LoopResets(msBeforeFire, start, readings, events);
    }
  }

  /** The loop's next event. */
  ghost function Grow(ms: uint64, start: uint64, readings: seq<uint64>, k: nat, events: seq<Event>): (more: seq<Event>)
    requires k < |readings| && IsLoop(ms, start, readings[..k], events)
    ensures var e := if AfterFire(ms, start, events, |events|) then Reset(readings[k]) else Check(readings[k]);
            && more == events + [e]
            && IsLoop(ms, start, readings[..k + 1], more) && Run(ms, start, more) == Next(ms, Run(ms, start, events), e)
            && (AfterFire(ms, start, more, |more|) <==> Fires(ms, Run(ms, start, events).last, e))
  {
    var e := if AfterFire(ms, start, events, |events|) then Reset(readings[k]) else Check(readings[k]);
    LoopSnoc(ms, start, readings[..k], events, readings[k]);
    RunSnoc(ms, start, events, e);
    assert readings[..k] + [readings[k]] == readings[..k + 1];
    assert (events + [e])[..|events|] == events;
    events + [e]
  }
}
