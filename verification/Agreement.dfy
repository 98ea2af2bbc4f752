/** When the number a client gives a message is the number the server gave it. */
module Agreement {
  import opened Bytes
  import opened Numeric
  import opened SoupPacket
  import opened Protocol
  import opened Session

  /** n + k on a uint64_t. */
  function Plus(n: uint64, k: nat): (r: uint64)
    requires k < TWO64
  {
    if n + k < TWO64 then n + k else n + k - TWO64
  }

  /** File messages under successive numbers from n on; a number already taken keeps its message. */
  function File(m: map<uint64, bytes>, n: uint64, ps: seq<bytes>): (r: map<uint64, bytes>)
    requires |ps| < TWO64
  {
    if ps == [] then m else Emplace(File(m, n, ps[..|ps| - 1]), Plus(n, |ps| - 1), ps[|ps| - 1])
  }

  lemma {:induction false} FileFacts(m: map<uint64, bytes>, n: uint64, ps: seq<bytes>)
    requires |ps| < TWO64
    ensures forall k :: k in m ==> k in File(m, n, ps) && File(m, n, ps)[k] == m[k]
    ensures forall i :: 0 <= i < |ps| ==>
              Plus(n, i) in File(m, n, ps) && (Plus(n, i) !in m ==> File(m, n, ps)[Plus(n, i)] == ps[i])
    ensures forall k :: k in File(m, n, ps) && k !in m ==> exists i :: 0 <= i < |ps| && k == Plus(n, i)
    decreases |ps|
  {
    if ps != [] {
      var ps' := ps[..|ps| - 1];
      FileFacts(m, n, ps');
      var latest := Plus(n, |ps| - 1);
      forall k | k in File(m, n, ps) && k !in m
        ensures exists i :: 0 <= i < |ps| && k == Plus(n, i)
      {
        if k in File(m, n, ps') {
          var i :| 0 <= i < |ps'| && k == Plus(n, i);
        } else {
          assert k == latest;
        }
      }
    }
  }

  // ------------------------------------------------------------ the client's log, in closed form

  /** What the client holds after `taken` messages of the script: first the broadcasts that overtook
      its login, filed under the numbers it asked for; then, renumbered from the announced number,
      the replay and everything later. */
  function ClientAfter(t: Terms, log: seq<bytes>, taken: nat): (r: Client)
    requires t.acceptedAt <= LoginPoint(t, log) <= |log| < TWO64 - 1
    requires taken <= |Script(t, log)|
  {
    var point := LoginPoint(t, log);
    var overtaking := point - t.acceptedAt;
    if taken <= overtaking then
      Client(Plus(t.request, taken), t.wanted,
             File(map[], t.request, log[t.acceptedAt..t.acceptedAt + taken]))
    else
      var d, first := taken - overtaking - 1, FirstSent(t.request, point) - 1;
      Client(Plus(AnnouncedNumber(t.request), d), AnnouncedSession(Cut(t.wanted, 10)),
             File(File(map[], t.request, log[t.acceptedAt..point]),
                  AnnouncedNumber(t.request), log[first..first + d]))
  }

  lemma SuccPlus(n: uint64, k: nat)
    requires k + 1 < TWO64
    ensures Succ(Plus(n, k)) == Plus(n, k + 1)
  {}

  lemma SequencedLast(ps: seq<bytes>)
    requires ps != []
    ensures SequencedAll(ps) == SequencedAll(ps[..|ps| - 1]) + [Sequenced(ps[|ps| - 1])]
  {}

  lemma {:induction false} HandleSequenced(c: Client, ps: seq<bytes>)
    requires |ps| < TWO64
    ensures HandleAll(c, SequencedAll(ps)) == Client(Plus(c.nextSeq, |ps|), c.session, File(c.log, c.nextSeq, ps))
    decreases |ps|
  {
    if ps == [] {
      assert Plus(c.nextSeq, 0) == c.nextSeq;
    } else {
      var ps', b := ps[..|ps| - 1], ps[|ps| - 1];
      HandleSequenced(c, ps');
      SequencedLast(ps);
      HandleSnoc(c, SequencedAll(ps'), Sequenced(b));
      SuccPlus(c.nextSeq, |ps'|);
    }
  }

  lemma {:induction false} HandleConcat(c: Client, a: seq<Msg>, b: seq<Msg>)
    ensures HandleAll(c, a + b) == HandleAll(HandleAll(c, a), b)
    decreases |b|
  {
    if b == [] {
      assert a + b == a;
    } else {
      var b', m := b[..|b| - 1], b[|b| - 1];
      HandleConcat(c, a, b');
      assert a + b == a + b' + [m];
      HandleSnoc(c, a + b', m);
    }
  }

  lemma AnnouncedSessionFits(wanted: bytes)
    ensures Cut(AnnouncedSession(Cut(wanted, 10)), 10) == AnnouncedSession(Cut(wanted, 10))
  {
    CutIsIdempotent(wanted, 10);
    CStringOfPadded(DEFAULT_SESSION, []);
    assert DEFAULT_SESSION + [] == DEFAULT_SESSION;
  }

  lemma SequencedTake(ps: seq<bytes>, k: nat)
    requires k <= |ps|
    ensures SequencedAll(ps)[..k] == SequencedAll(ps[..k])
  {}

  lemma TakeMiddle<T>(a: seq<T>, x: T, b: seq<T>, d: nat)
    requires d <= |b|
    ensures (a + ([x] + b))[..|a| + 1 + d] == a + [x] + b[..d]
  {}

  lemma HandleParts(c: Client, early: seq<bytes>, session: bytes, number: uint64, late: seq<bytes>)
    requires |early| < TWO64 && |late| < TWO64
    ensures HandleAll(c, SequencedAll(early) + [LoginAccepted(session, number)] + SequencedAll(late)) ==
            Client(Plus(number, |late|), Cut(session, 10), File(File(c.log, c.nextSeq, early), number, late))
  {
    HandleConcat(c, SequencedAll(early) + [LoginAccepted(session, number)], SequencedAll(late));
    HandleSnoc(c, SequencedAll(early), LoginAccepted(session, number));
    HandleSequenced(c, early);
    HandleSequenced(Client(number, Cut(session, 10), File(c.log, c.nextSeq, early)), late);
  }

  lemma ScriptTakeEarly(t: Terms, log: seq<bytes>, taken: nat)
    requires t.acceptedAt <= LoginPoint(t, log) <= |log| && taken <= LoginPoint(t, log) - t.acceptedAt
    ensures taken <= |Script(t, log)|
    ensures Script(t, log)[..taken] == SequencedAll(log[t.acceptedAt..t.acceptedAt + taken])
  {
    var early := log[t.acceptedAt..LoginPoint(t, log)];
    SequencedTake(early, taken);
    assert early[..taken] == log[t.acceptedAt..t.acceptedAt + taken];
  }

  lemma ScriptTakeLate(t: Terms, log: seq<bytes>, d: nat)
    requires t.acceptedAt <= LoginPoint(t, log) <= |log|
    requires LoginPoint(t, log) - t.acceptedAt + 1 + d <= |Script(t, log)|
    ensures var point, first := LoginPoint(t, log), FirstSent(t.request, LoginPoint(t, log)) - 1;
            && first + d <= |log|
            && Script(t, log)[..point - t.acceptedAt + 1 + d] ==
               SequencedAll(log[t.acceptedAt..point]) +
               [LoginAccepted(AnnouncedSession(Cut(t.wanted, 10)), AnnouncedNumber(t.request))] +
               SequencedAll(log[first..first + d])
  {
    var point, first := LoginPoint(t, log), FirstSent(t.request, LoginPoint(t, log)) - 1;
    var rest := log[first..];
    TakeMiddle(SequencedAll(log[t.acceptedAt..point]),
               LoginAccepted(AnnouncedSession(Cut(t.wanted, 10)), AnnouncedNumber(t.request)), SequencedAll(rest), d);
    SequencedTake(rest, d);
    assert rest[..d] == log[first..first + d];
  }

  lemma HandleEarly(t: Terms, log: seq<bytes>, taken: nat)
    requires t.acceptedAt <= LoginPoint(t, log) <= |log| < TWO64 - 1
    requires taken <= LoginPoint(t, log) - t.acceptedAt && taken <= |Script(t, log)|
    ensures HandleAll(FreshClient(t), Script(t, log)[..taken]) == ClientAfter(t, log, taken)
  {
    ScriptTakeEarly(t, log, taken);
    HandleSequenced(FreshClient(t), log[t.acceptedAt..t.acceptedAt + taken]);
  }

  lemma AfterLogin(t: Terms, log: seq<bytes>, d: nat)
    requires t.acceptedAt <= LoginPoint(t, log) <= |log| < TWO64 - 1
    requires LoginPoint(t, log) - t.acceptedAt + 1 + d <= |Script(t, log)|
    ensures var point, first := LoginPoint(t, log), FirstSent(t.request, LoginPoint(t, log)) - 1;
            && first + d <= |log|
            && ClientAfter(t, log, point - t.acceptedAt + 1 + d) ==
               Client(Plus(AnnouncedNumber(t.request), d), AnnouncedSession(Cut(t.wanted, 10)),
                      File(File(map[], t.request, log[t.acceptedAt..point]),
                           AnnouncedNumber(t.request), log[first..first + d]))
  {}

  lemma HandleTaken(t: Terms, script: seq<Msg>, early: seq<bytes>, late: seq<bytes>, c: Client)
    requires |early| < TWO64 && |late| < TWO64
    requires script == SequencedAll(early) +
                       [LoginAccepted(AnnouncedSession(Cut(t.wanted, 10)), AnnouncedNumber(t.request))] +
                       SequencedAll(late)
    requires c == Client(Plus(AnnouncedNumber(t.request), |late|), AnnouncedSession(Cut(t.wanted, 10)),
                         File(File(map[], t.request, early), AnnouncedNumber(t.request), late))
    ensures HandleAll(FreshClient(t), script) == c
  {
    HandleParts(FreshClient(t), early, AnnouncedSession(Cut(t.wanted, 10)), AnnouncedNumber(t.request), late);
    AnnouncedSessionFits(t.wanted);
  }

  lemma HandleLate(t: Terms, log: seq<bytes>, d: nat)
    requires t.acceptedAt <= LoginPoint(t, log) <= |log| < TWO64 - 1
    requires LoginPoint(t, log) - t.acceptedAt + 1 + d <= |Script(t, log)|
    ensures var taken := LoginPoint(t, log) - t.acceptedAt + 1 + d;
            HandleAll(FreshClient(t), Script(t, log)[..taken]) == ClientAfter(t, log, taken)
  {
    var point, first := LoginPoint(t, log), FirstSent(t.request, LoginPoint(t, log)) - 1;
    var taken := point - t.acceptedAt + 1 + d;
    ScriptTakeLate(t, log, d);
    AfterLogin(t, log, d);
    HandleTaken(t, Script(t, log)[..taken], log[t.acceptedAt..point], log[first..first + d],
                ClientAfter(t, log, taken));
  }

  /** A reachable session, and one of its connections. The bound keeps the server's 64-bit counter
      from wrapping: fewer than 2^64 - 1 broadcasts. */
  ghost predicate Reached(steps: seq<Step>, i: nat, p: Peer, log: seq<bytes>) {
    var s := Run(START, steps);
    i < |s.peers| && p == s.peers[i] && log == s.log && |log| < TWO64 - 1
  }

  /** In every run, whatever the interleaving, a client's state is this function of what it asked
      for, of the two recorded points, and of how many messages it has handled. */
  lemma ClientLogOfRun(steps: seq<Step>, i: nat, p: Peer, log: seq<bytes>)
    requires Reached(steps, i, p, log)
    ensures p.terms.acceptedAt <= LoginPoint(p.terms, log) <= |log| < TWO64 - 1
    ensures p.taken <= |Script(p.terms, log)|
    ensures p.client == ClientAfter(p.terms, log, p.taken)
  {
    RunKeepsInv(steps);
    assert PeerInv(Run(START, steps).peers[i], log);
    HandleScript(p.terms, log, p.taken);
  }

  lemma HandleScript(t: Terms, log: seq<bytes>, taken: nat)
    requires t.acceptedAt <= LoginPoint(t, log) <= |log| < TWO64 - 1 && taken <= |Script(t, log)|
    ensures HandleAll(FreshClient(t), Script(t, log)[..taken]) == ClientAfter(t, log, taken)
  {
    var overtaking := LoginPoint(t, log) - t.acceptedAt;
    if taken <= overtaking {
      HandleEarly(t, log, taken);
    } else {
      HandleLate(t, log, taken - overtaking - 1);
    }
  }

  // ------------------------------------------------------------ agreement

  /** Every message is filed under the server's number for it. */
  ghost predicate RightNumbers(m: map<uint64, bytes>, log: seq<bytes>) {
    forall k :: k in m ==> 1 <= k <= |log| && m[k] == log[k - 1]
  }

  /** The request was in step with the server: exactly the next number if broadcasts overtook the
      login; else any number up to the next one, 0 only on an empty log. */
  predicate InStep(t: Terms, point: nat) {
    if t.acceptedAt < point then t.request == t.acceptedAt + 1
    else if t.request == 0 then point == 0
    else t.request <= point + 1
  }

  lemma FileRight(m: map<uint64, bytes>, n: uint64, ps: seq<bytes>, log: seq<bytes>)
    requires RightNumbers(m, log) && |log| < TWO64 - 1
    requires 1 <= n && n - 1 + |ps| <= |log| && ps == log[n - 1..n - 1 + |ps|]
    ensures RightNumbers(File(m, n, ps), log)
  {
    FileFacts(m, n, ps);
    forall k | k in File(m, n, ps) && k !in m
      ensures 1 <= k <= |log| && File(m, n, ps)[k] == log[k - 1]
    {
      var i :| 0 <= i < |ps| && k == Plus(n, i);
      assert ps[i] == log[n - 1 + i];
    }
  }

  /** The two phases of ClientAfter: what was filed early, and what was filed after the login. */
  function EarlyPart(t: Terms, log: seq<bytes>, taken: nat): (r: seq<bytes>)
    requires t.acceptedAt <= LoginPoint(t, log) <= |log|
  {
    var overtaking := LoginPoint(t, log) - t.acceptedAt;
    log[t.acceptedAt..t.acceptedAt + if taken <= overtaking then taken else overtaking]
  }

  function LatePart(t: Terms, log: seq<bytes>, taken: nat): (r: seq<bytes>)
    requires t.acceptedAt <= LoginPoint(t, log) <= |log| && taken <= |Script(t, log)|
  {
    var overtaking, first := LoginPoint(t, log) - t.acceptedAt, FirstSent(t.request, LoginPoint(t, log)) - 1;
    if taken <= overtaking then [] else log[first..first + (taken - overtaking - 1)]
  }

  lemma LogPartsEarly(t: Terms, log: seq<bytes>, taken: nat)
    requires t.acceptedAt <= LoginPoint(t, log) <= |log| < TWO64 - 1 && taken <= |Script(t, log)|
    requires taken <= LoginPoint(t, log) - t.acceptedAt
    ensures ClientAfter(t, log, taken).log == File(map[], t.request, EarlyPart(t, log, taken))
    ensures LatePart(t, log, taken) == []
  {}

  lemma LogPartsLate(t: Terms, log: seq<bytes>, taken: nat)
    requires t.acceptedAt <= LoginPoint(t, log) <= |log| < TWO64 - 1 && taken <= |Script(t, log)|
    requires taken > LoginPoint(t, log) - t.acceptedAt
    ensures ClientAfter(t, log, taken).log ==
            File(File(map[], t.request, EarlyPart(t, log, taken)),
                 AnnouncedNumber(t.request), LatePart(t, log, taken))
  {
    AfterLogin(t, log, taken - (LoginPoint(t, log) - t.acceptedAt) - 1);
  }

  lemma LogParts(t: Terms, log: seq<bytes>, taken: nat)
    requires t.acceptedAt <= LoginPoint(t, log) <= |log| < TWO64 - 1 && taken <= |Script(t, log)|
    ensures ClientAfter(t, log, taken).log ==
            File(File(map[], t.request, EarlyPart(t, log, taken)),
                 AnnouncedNumber(t.request), LatePart(t, log, taken))
  {
    if taken > LoginPoint(t, log) - t.acceptedAt {
      LogPartsLate(t, log, taken);
    } else {
      LogPartsEarly(t, log, taken);
    }
  }

  /** In step means that the announced number is the number of the first message sent after it,
      and that broadcasts which overtook the login were asked for under their own numbers. */
  lemma InStepMeans(t: Terms, point: nat)
    requires t.acceptedAt <= point < TWO64 - 1
    ensures InStep(t, point) ==> AnnouncedNumber(t.request) == FirstSent(t.request, point)
    ensures InStep(t, point) && t.acceptedAt < point ==> t.request == t.acceptedAt + 1
    ensures t.acceptedAt == point && AnnouncedNumber(t.request) == FirstSent(t.request, point) ==> InStep(t, point)
  {}

  lemma InStepAgrees(t: Terms, log: seq<bytes>, taken: nat)
    requires t.acceptedAt <= LoginPoint(t, log) <= |log| < TWO64 - 1 && taken <= |Script(t, log)|
    requires InStep(t, LoginPoint(t, log))
    ensures RightNumbers(ClientAfter(t, log, taken).log, log)
  {
    var early, late := EarlyPart(t, log, taken), LatePart(t, log, taken);
    var n, m := AnnouncedNumber(t.request), File(map[], t.request, early);
    LogParts(t, log, taken);
    InStepMeans(t, LoginPoint(t, log));
    assert RightNumbers(m, log) by {
      if early != [] {
        FileRight(map[], t.request, early, log);
      }
    }
    if late != [] {
      FileRight(m, n, late, log);
    }
  }

  ghost predicate NoRepeats(log: seq<bytes>) {
    forall i, j :: 0 <= i < j < |log| ==> log[i] != log[j]
  }

  /** A message filed under a number other than its own is a disagreement. */
  lemma MisfiledDisagrees(m: map<uint64, bytes>, log: seq<bytes>, k: uint64, x: nat)
    requires NoRepeats(log) && k in m && x < |log| && m[k] == log[x] && k != x + 1
    ensures !RightNumbers(m, log)
  {
    if 1 <= k <= |log| {
      var lo, hi := if k - 1 < x then k - 1 else x, if k - 1 < x then x else k - 1;
      assert log[lo] != log[hi];
    }
  }

  /** The first message ever filed keeps its number. */
  lemma FirstFiled(m: map<uint64, bytes>, n: uint64, ps: seq<bytes>, n': uint64, ps': seq<bytes>)
    requires |ps| < TWO64 && |ps'| < TWO64 && n !in m && ps != []
    ensures n in File(File(m, n, ps), n', ps') && File(File(m, n, ps), n', ps')[n] == ps[0]
  {
    FileFacts(m, n, ps);
    FileFacts(File(m, n, ps), n', ps');
    assert Plus(n, 0) == n;
  }

  lemma OutOfStepDisagrees(t: Terms, log: seq<bytes>, taken: nat)
    requires t.acceptedAt <= LoginPoint(t, log) <= |log| < TWO64 - 1 && taken <= |Script(t, log)|
    requires !InStep(t, LoginPoint(t, log)) && NoRepeats(log)
    requires ClientAfter(t, log, taken).log != map[]
    ensures !RightNumbers(ClientAfter(t, log, taken).log, log)
  {
    var early, late, n := EarlyPart(t, log, taken), LatePart(t, log, taken), AnnouncedNumber(t.request);
    var m := ClientAfter(t, log, taken).log;
    LogParts(t, log, taken);
    if early != [] {
      FirstFiled(map[], t.request, early, n, late);
      MisfiledDisagrees(m, log, t.request, t.acceptedAt);
    } else {
      assert late != [];
      FirstFiled(map[], n, late, n, []);
      MisfiledDisagrees(m, log, n, FirstSent(t.request, LoginPoint(t, log)) - 1);
    }
  }

  /** Log agreement, exactly. In every run, a client that has filed anything agrees with the server
      on every number if its request was in step; and, the payloads being distinct, only then. */
  lemma LogsAgreeIff(steps: seq<Step>, i: nat, p: Peer, log: seq<bytes>)
    requires Reached(steps, i, p, log)
    ensures InStep(p.terms, LoginPoint(p.terms, log)) ==> RightNumbers(p.client.log, log)
    ensures NoRepeats(log) && p.client.log != map[] ==>
              (RightNumbers(p.client.log, log) <==> InStep(p.terms, LoginPoint(p.terms, log)))
  {
    ClientLogOfRun(steps, i, p, log);
    if InStep(p.terms, LoginPoint(p.terms, log)) {
      InStepAgrees(p.terms, log, p.taken);
    } else if NoRepeats(log) && p.client.log != map[] {
      OutOfStepDisagrees(p.terms, log, p.taken);
    }
  }

  lemma QuietAfter(t: Terms, log: seq<bytes>, taken: nat)
    requires t.loginAt == Some(t.acceptedAt) && t.acceptedAt <= |log| < TWO64 - 1 && 0 < taken <= |Script(t, log)|
    ensures var n, d, first := AnnouncedNumber(t.request), taken - 1, FirstSent(t.request, t.acceptedAt) - 1;
            && first + d <= |log|
            && ClientAfter(t, log, taken).nextSeq == Plus(n, d)
            && ClientAfter(t, log, taken).log == File(map[], n, log[first..first + d])
  {
    AfterLogin(t, log, taken - 1);
    assert log[t.acceptedAt..t.acceptedAt] == [];
  }

  /** How far k is above n, on a uint64_t. */
  function Distance(n: uint64, k: uint64): (j: uint64)
    ensures Plus(n, j) == k
  {
    if n <= k then k - n else k + TWO64 - n
  }

  /** The keys are exactly the d numbers from n on, and they hold log[first..first + d] in order. */
  ghost predicate Holds(m: map<uint64, bytes>, n: uint64, d: nat, log: seq<bytes>, first: nat) {
    && first + d <= |log| < TWO64
    && (forall k :: k in m <==> Distance(n, k) < d)
    && (forall k :: k in m ==> m[k] == log[first + Distance(n, k)])
  }

  lemma FileHolds(m: map<uint64, bytes>, n: uint64, d: nat, log: seq<bytes>, first: nat)
    requires first + d <= |log| < TWO64 && m == File(map[], n, log[first..first + d])
    ensures Holds(m, n, d, log, first)
  {
    var late := log[first..first + d];
    FileFacts(map[], n, late);
    forall k | Distance(n, k) < d
      ensures k in m && m[k] == log[first + Distance(n, k)]
    {
      assert late[Distance(n, k)] == log[first + Distance(n, k)];
    }
    forall k | k in m
      ensures Distance(n, k) < d
    {
      var j :| 0 <= j < d && k == Plus(n, j);
      assert Distance(n, k) == j;
    }
  }

  lemma QuietHolds(t: Terms, log: seq<bytes>, taken: nat)
    requires t.loginAt == Some(t.acceptedAt) && t.acceptedAt <= |log| < TWO64 - 1 && 0 < taken <= |Script(t, log)|
    ensures Holds(ClientAfter(t, log, taken).log, AnnouncedNumber(t.request), taken - 1,
                  log, FirstSent(t.request, t.acceptedAt) - 1)
    ensures Distance(AnnouncedNumber(t.request), ClientAfter(t, log, taken).nextSeq) == taken - 1
  {
    QuietAfter(t, log, taken);
    FileHolds(ClientAfter(t, log, taken).log, AnnouncedNumber(t.request), taken - 1,
              log, FirstSent(t.request, t.acceptedAt) - 1);
  }

  // ------------------------------------------------------------ how far a client in step has got

  lemma CounterInStep(t: Terms, log: seq<bytes>, taken: nat)
    requires t.acceptedAt <= LoginPoint(t, log) <= |log| < TWO64 - 1 && taken <= |Script(t, log)|
    requires InStep(t, LoginPoint(t, log)) && taken > LoginPoint(t, log) - t.acceptedAt
    ensures ClientAfter(t, log, taken).nextSeq == AnnouncedNumber(t.request) + |LatePart(t, log, taken)| <= |log| + 1
    ensures AnnouncedNumber(t.request) == FirstSent(t.request, LoginPoint(t, log))
    ensures |LatePart(t, log, taken)| == taken - (LoginPoint(t, log) - t.acceptedAt) - 1
  {
    InStepMeans(t, LoginPoint(t, log));
    AfterLogin(t, log, taken - (LoginPoint(t, log) - t.acceptedAt) - 1);
  }

  lemma Filed(m: map<uint64, bytes>, n: uint64, ps: seq<bytes>, k: nat)
    requires n <= k < n + |ps| < TWO64
    ensures k in File(m, n, ps)
  {
    FileFacts(m, n, ps);
    assert Plus(n, k - n) == k;
  }

  /** A client in step whose login was accepted holds every number from the announced one up to its
      own counter. */
  lemma HoldsUpToCounter(t: Terms, log: seq<bytes>, taken: nat, k: nat)
    requires t.acceptedAt <= LoginPoint(t, log) <= |log| < TWO64 - 1 && taken <= |Script(t, log)|
    requires InStep(t, LoginPoint(t, log)) && taken > LoginPoint(t, log) - t.acceptedAt
    requires AnnouncedNumber(t.request) <= k < ClientAfter(t, log, taken).nextSeq
    ensures k in ClientAfter(t, log, taken).log
  {
    CounterInStep(t, log, taken);
    LogParts(t, log, taken);
    Filed(File(map[], t.request, EarlyPart(t, log, taken)), AnnouncedNumber(t.request), LatePart(t, log, taken), k);
  }

  /** With the whole script handled, the counter is one past the last broadcast. */
  lemma CounterAtEnd(t: Terms, log: seq<bytes>, taken: nat)
    requires t.acceptedAt <= LoginPoint(t, log) <= |log| < TWO64 - 1 && taken == |Script(t, log)|
    requires t.loginAt.Some? && InStep(t, LoginPoint(t, log))
    ensures taken > LoginPoint(t, log) - t.acceptedAt && ClientAfter(t, log, taken).nextSeq == |log| + 1
  {
    CounterInStep(t, log, taken);
  }

  /** Two clients in step, the second with its whole script and starting no later than the first
      one's counter. */
  lemma TogetherComplete(t: Terms, log: seq<bytes>, taken: nat, t': Terms, log': seq<bytes>, taken': nat)
    requires t.acceptedAt <= LoginPoint(t, log) <= |log| < TWO64 - 1 && taken <= |Script(t, log)|
    requires t'.acceptedAt <= LoginPoint(t', log') <= |log'| < TWO64 - 1 && taken' == |Script(t', log')|
    requires InStep(t, LoginPoint(t, log)) && taken > LoginPoint(t, log) - t.acceptedAt
    requires InStep(t', LoginPoint(t', log')) && t'.loginAt.Some?
    requires AnnouncedNumber(t'.request) <= ClientAfter(t, log, taken).nextSeq
    ensures forall k :: AnnouncedNumber(t.request) <= k <= |log'| ==>
              k in ClientAfter(t, log, taken).log || k in ClientAfter(t', log', taken').log
  {
    CounterAtEnd(t', log', taken');
    forall k | AnnouncedNumber(t.request) <= k <= |log'|
      ensures k in ClientAfter(t, log, taken).log || k in ClientAfter(t', log', taken').log
    {
      if k < ClientAfter(t, log, taken).nextSeq {
        HoldsUpToCounter(t, log, taken, k);
      } else {
        HoldsUpToCounter(t', log', taken', k);
      }
    }
  }
}
