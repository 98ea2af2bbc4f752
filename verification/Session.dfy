/** The session as messages: one server log, and for each connection two queues of messages in
    flight. Sequenced messages carry no number; the client counts. */
module Session {
  import opened Bytes
  import opened Numeric
  import opened SoupPacket
  import opened Protocol

  datatype Option<T> = None | Some(value: T)

  datatype Client = Client(nextSeq: uint64, session: bytes, log: map<uint64, bytes>)

  /** What a client asked for, and how many broadcasts had been made when its connection was
      accepted and when its login was handled. The two counts are only recorded: no step reads them. */
  datatype Terms = Terms(request: uint64, wanted: bytes, acceptedAt: nat, loginAt: Option<nat>)

  /** `taken` counts the messages the client has handled, heartbeats apart; no step reads it. */
  datatype Peer = Peer(terms: Terms, taken: nat, up: seq<Msg>, down: seq<Msg>, client: Client,
                       serverOpen: bool, clientOpen: bool)

  datatype Session = Session(log: seq<bytes>, peers: seq<Peer>)

  datatype Step =
    | Accept(username: bytes, password: bytes, session: bytes, number: uint64)
    | Broadcast(payload: bytes)
    | ServerBeat(i: nat)
    | ClientBeat(i: nat)
    | ServerTakes(i: nat)
    | ClientTakes(i: nat)
    | Close(i: nat, server: bool)

  const START := Session([], [])

  function SequencedAll(ps: seq<bytes>): (ms: seq<Msg>)
    ensures |ms| == |ps|
    ensures forall k :: 0 <= k < |ps| ==> ms[k] == Sequenced(ps[k])
  {
    seq(|ps|, k requires 0 <= k < |ps| => Sequenced(ps[k]))
  }

  /** The stored messages from number k on; message number k is log[k - 1]. */
  function From(log: seq<bytes>, k: uint64): (r: seq<bytes>) {
    if 1 <= k <= |log| then log[k - 1..] else []
  }

  /** The server's reaction to a login request. */
  function Answer(log: seq<bytes>, wanted: bytes, number: uint64): (r: seq<Msg>) {
    [LoginAccepted(AnnouncedSession(Cut(wanted, 10)), AnnouncedNumber(number))] + SequencedAll(From(log, number))
  }

  /** The client's handlers. */
  function Handle(c: Client, m: Msg): (r: Client) {
    match m
    case LoginAccepted(s, n) => c.(nextSeq := n, session := Cut(s, 10))
    case Sequenced(p) => c.(nextSeq := Succ(c.nextSeq), log := Emplace(c.log, c.nextSeq, p))
    case _ => c
  }

  function HandleAll(c: Client, ms: seq<Msg>): (r: Client) {
    if ms == [] then c else Handle(HandleAll(c, ms[..|ms| - 1]), ms[|ms| - 1])
  }

  predicate IsBeat(m: Msg) {
    m.ServerHeartbeat? || m.ClientHeartbeat?
  }

  function NewPeer(log: seq<bytes>, u: bytes, w: bytes, s: bytes, n: uint64): (r: Peer) {
    Peer(Terms(n, s, |log|, None), 0, [LoginRequest(u, w, s, n)], [], Client(n, s, map[]), true, true)
  }

  function OnUp(log: seq<bytes>, p: Peer): (r: Peer)
    requires p.up != []
  {
    var m, p' := p.up[0], p.(up := p.up[1..]);
    if m.LoginRequest?
    then p'.(down := p.down + Answer(log, m.session, m.number), terms := p.terms.(loginAt := Some(|log|)))
    else p'
  }

  function OnDown(p: Peer): (r: Peer)
    requires p.down != []
  {
    p.(down := p.down[1..], client := Handle(p.client, p.down[0]),
       taken := if IsBeat(p.down[0]) then p.taken else p.taken + 1)
  }

  function PushDown(p: Peer, m: Msg): (r: Peer) {
    p.(down := p.down + [m])
  }

  /** An end that has closed handles nothing more; the other end is told nothing. */
  function CloseEnd(p: Peer, server: bool): (r: Peer) {
    if server then p.(serverOpen := false) else p.(clientOpen := false)
  }

  /** A step that is not enabled leaves the session as it is. */
  function Next(s: Session, step: Step): (s': Session)
    ensures |s'.peers| >= |s.peers| && |s.log| <= |s'.log| <= |s.log| + 1
  {
    match step
    case Accept(u, w, t, n) => s.(peers := s.peers + [NewPeer(s.log, u, w, t, n)])
    case Broadcast(b) =>
      Session(s.log + [b], seq(|s.peers|, i requires 0 <= i < |s.peers| => PushDown(s.peers[i], Sequenced(b))))
    case ServerBeat(i) =>
      if i < |s.peers| then s.(peers := s.peers[i := PushDown(s.peers[i], ServerHeartbeat)]) else s
    case ClientBeat(i) =>
      if i < |s.peers| then s.(peers := s.peers[i := s.peers[i].(up := s.peers[i].up + [ClientHeartbeat])]) else s
    case ServerTakes(i) =>
      if i < |s.peers| && s.peers[i].serverOpen && s.peers[i].up != []
      then s.(peers := s.peers[i := OnUp(s.log, s.peers[i])]) else s
    case ClientTakes(i) =>
      if i < |s.peers| && s.peers[i].clientOpen && s.peers[i].down != []
      then s.(peers := s.peers[i := OnDown(s.peers[i])]) else s
    case Close(i, server) =>
      if i < |s.peers| then s.(peers := s.peers[i := CloseEnd(s.peers[i], server)]) else s
  }

  function Run(s: Session, steps: seq<Step>): (s': Session)
    ensures |s'.peers| >= |s.peers| && |s.log| <= |s'.log| <= |s.log| + |steps|
  {
    if steps == [] then s else Next(Run(s, steps[..|steps| - 1]), steps[|steps| - 1])
  }

  lemma RunLast(s: Session, steps: seq<Step>, last: Step)
    ensures Run(s, steps + [last]) == Next(Run(s, steps), last)
  {
    assert (steps + [last])[..|steps|] == steps;
  }

  lemma {:induction false} RunSplit(s: Session, a: seq<Step>, b: seq<Step>)
    ensures Run(s, a + b) == Run(Run(s, a), b)
    decreases |b|
  {
    if b == [] {
      assert a + b == a;
    } else {
      RunSplit(s, a, b[..|b| - 1]);
      assert (a + b)[..|a + b| - 1] == a + b[..|b| - 1];
    }
  }

  // ------------------------------------------------------------ the invariant

  function NoBeats(ms: seq<Msg>): (r: seq<Msg>) {
    if ms == [] then []
    else NoBeats(ms[..|ms| - 1]) + (if IsBeat(ms[|ms| - 1]) then [] else [ms[|ms| - 1]])
  }

  /** The broadcasts made when the login was handled, or so far. */
  function LoginPoint(t: Terms, log: seq<bytes>): (r: nat) {
    if t.loginAt.Some? then t.loginAt.value else |log|
  }

  /** The first message number sent after Login Accepted: the requested one if it is stored, else
      the next broadcast. */
  function FirstSent(request: uint64, loginPoint: nat): (r: nat) {
    if 1 <= request <= loginPoint then request else loginPoint + 1
  }

  /** Everything the server has sent to a client, heartbeats apart, as a function of the log. */
  function Script(t: Terms, log: seq<bytes>): (r: seq<Msg>)
    requires t.acceptedAt <= LoginPoint(t, log) <= |log|
  {
    var b := LoginPoint(t, log);
    SequencedAll(log[t.acceptedAt..b]) +
    if t.loginAt.None? then []
    else [LoginAccepted(AnnouncedSession(Cut(t.wanted, 10)), AnnouncedNumber(t.request))] +
         SequencedAll(log[FirstSent(t.request, b) - 1..])
  }

  function FreshClient(t: Terms): (r: Client) {
    Client(t.request, t.wanted, map[])
  }

  /** The client has handled a prefix of the script, and the rest is on its way. */
  ghost predicate Follows(p: Peer, script: seq<Msg>) {
    && p.taken <= |script|
    && NoBeats(p.down) == script[p.taken..]
    && p.client == HandleAll(FreshClient(p.terms), script[..p.taken])
  }

  ghost predicate PeerInv(p: Peer, log: seq<bytes>) {
    && p.terms.acceptedAt <= LoginPoint(p.terms, log) <= |log|
    && Follows(p, Script(p.terms, log))
    && (if p.terms.loginAt.Some? then NoBeats(p.up) == [] else IsLoginOf(p.terms, NoBeats(p.up)))
  }

  predicate IsLoginOf(t: Terms, ms: seq<Msg>) {
    |ms| == 1 && ms[0].LoginRequest? && ms[0].session == t.wanted && ms[0].number == t.request
  }

  ghost predicate Inv(s: Session) {
    forall i :: 0 <= i < |s.peers| ==> PeerInv(s.peers[i], s.log)
  }

  lemma NoBeatsSnoc(ms: seq<Msg>, m: Msg)
    ensures NoBeats(ms + [m]) == NoBeats(ms) + (if IsBeat(m) then [] else [m])
  {
    assert (ms + [m])[..|ms|] == ms;
  }

  lemma {:induction false} NoBeatsConcat(a: seq<Msg>, b: seq<Msg>)
    ensures NoBeats(a + b) == NoBeats(a) + NoBeats(b)
    decreases |b|
  {
    if b == [] {
      assert a + b == a;
    } else {
      var b', m := b[..|b| - 1], b[|b| - 1];
      NoBeatsConcat(a, b');
      assert a + b == a + b' + [m];
      NoBeatsSnoc(a + b', m);
    }
  }

  lemma NoBeatsHead(ms: seq<Msg>)
    requires ms != []
    ensures NoBeats(ms) == (if IsBeat(ms[0]) then [] else [ms[0]]) + NoBeats(ms[1..])
  {
    NoBeatsConcat([ms[0]], ms[1..]);
    assert ms == [ms[0]] + ms[1..];
    NoBeatsSnoc([], ms[0]);
    assert [] + [ms[0]] == [ms[0]];
  }

  lemma {:induction false} NoBeatsIdentity(ms: seq<Msg>)
    requires forall k :: 0 <= k < |ms| ==> !IsBeat(ms[k])
    ensures NoBeats(ms) == ms
  {
    if ms != [] {
      NoBeatsIdentity(ms[..|ms| - 1]);
    }
  }

  lemma SplitGrown(script: seq<Msg>, more: seq<Msg>, n: nat)
    requires n <= |script|
    ensures (script + more)[n..] == script[n..] + more && (script + more)[..n] == script[..n]
  {}

  lemma AppendFollows(p: Peer, p': Peer, script: seq<Msg>, more: seq<Msg>)
    requires Follows(p, script) && NoBeats(more) == more
    requires p'.down == p.down + more && p'.taken == p.taken && p'.client == p.client
    requires FreshClient(p'.terms) == FreshClient(p.terms)
    ensures Follows(p', script + more)
  {
    NoBeatsConcat(p.down, more);
    SplitGrown(script, more, p.taken);
  }

  lemma TakeFollows(p: Peer, script: seq<Msg>)
    requires Follows(p, script) && p.down != []
    ensures Follows(OnDown(p), script)
  {
    NoBeatsHead(p.down);
    var t := p.taken;
    if IsBeat(p.down[0]) {
      assert [] + NoBeats(p.down[1..]) == NoBeats(p.down[1..]);
    } else {
      assert script[t..][0] == p.down[0] && script[t..][1..] == NoBeats(p.down[1..]);
      assert script[t..][1..] == script[t + 1..];
      assert script[..t + 1] == script[..t] + [p.down[0]];
      HandleSnoc(FreshClient(p.terms), script[..t], p.down[0]);
    }
  }

  lemma HandleSnoc(c: Client, ms: seq<Msg>, m: Msg)
    ensures HandleAll(c, ms + [m]) == Handle(HandleAll(c, ms), m)
  {
    assert (ms + [m])[..|ms|] == ms;
  }

  lemma BroadcastKeeps(p: Peer, log: seq<bytes>, b: bytes)
    requires PeerInv(p, log)
    ensures PeerInv(PushDown(p, Sequenced(b)), log + [b])
  {
    NoBeatsIdentity([Sequenced(b)]);
    ScriptGrows(p.terms, log, b);
    AppendFollows(p, PushDown(p, Sequenced(b)), Script(p.terms, log), [Sequenced(b)]);
  }

  /** A broadcast extends every script by one message, whatever was requested. */
  lemma ScriptGrows(t: Terms, log: seq<bytes>, b: bytes)
    requires t.acceptedAt <= LoginPoint(t, log) <= |log|
    ensures Script(t, log + [b]) == Script(t, log) + [Sequenced(b)]
  {
    var log' := log + [b];
    if t.loginAt.None? {
      assert log'[t.acceptedAt..|log'|] == log[t.acceptedAt..|log|] + [b];
    } else {
      var f := FirstSent(t.request, t.loginAt.value);
      assert log'[f - 1..] == log[f - 1..] + [b];
      assert log'[t.acceptedAt..t.loginAt.value] == log[t.acceptedAt..t.loginAt.value];
    }
  }

  lemma BeatKeeps(p: Peer, log: seq<bytes>)
    requires PeerInv(p, log)
    ensures PeerInv(PushDown(p, ServerHeartbeat), log)
    ensures PeerInv(p.(up := p.up + [ClientHeartbeat]), log)
  {
    NoBeatsSnoc(p.down, ServerHeartbeat);
    NoBeatsSnoc(p.up, ClientHeartbeat);
    assert NoBeats(p.down) + [] == NoBeats(p.down) && NoBeats(p.up) + [] == NoBeats(p.up);
  }

  /** Handling the login adds exactly what the script says, replay included. */
  lemma LoginScript(t: Terms, log: seq<bytes>)
    requires t.loginAt.None? && t.acceptedAt <= |log|
    ensures Script(t.(loginAt := Some(|log|)), log) == Script(t, log) + Answer(log, t.wanted, t.request)
  {
    assert From(log, t.request) == log[FirstSent(t.request, |log|) - 1..];
  }

  lemma LoginKeeps(p: Peer, log: seq<bytes>, up: seq<Msg>)
    requires PeerInv(p, log) && p.terms.loginAt.None? && NoBeats(up) == []
    ensures PeerInv(p.(up := up, down := p.down + Answer(log, p.terms.wanted, p.terms.request),
                       terms := p.terms.(loginAt := Some(|log|))), log)
  {
    var answer := Answer(log, p.terms.wanted, p.terms.request);
    var p' := p.(up := up, down := p.down + answer, terms := p.terms.(loginAt := Some(|log|)));
    LoginScript(p.terms, log);
    NoBeatsIdentity(answer);
    AppendFollows(p, p', Script(p.terms, log), answer);
  }

  lemma ServerTakesKeeps(p: Peer, log: seq<bytes>)
    requires PeerInv(p, log) && p.up != []
    ensures PeerInv(OnUp(log, p), log)
  {
    NoBeatsHead(p.up);
    if p.up[0].LoginRequest? {
      assert NoBeats(p.up)[0] == p.up[0] && NoBeats(p.up)[1..] == NoBeats(p.up[1..]);
      LoginKeeps(p, log, p.up[1..]);
    } else {
      assert IsBeat(p.up[0]);
      assert [] + NoBeats(p.up[1..]) == NoBeats(p.up[1..]);
    }
  }

  lemma ClientTakesKeeps(p: Peer, log: seq<bytes>)
    requires PeerInv(p, log) && p.down != []
    ensures PeerInv(OnDown(p), log)
  {
    TakeFollows(p, Script(p.terms, log));
  }

  lemma AcceptHolds(log: seq<bytes>, u: bytes, w: bytes, s: bytes, n: uint64)
    ensures PeerInv(NewPeer(log, u, w, s, n), log)
  {
    NoBeatsIdentity([LoginRequest(u, w, s, n)]);
  }

  /** What one step does to one existing peer. */
  function NextPeer(s: Session, step: Step, j: nat): (r: Peer)
    requires j < |s.peers|
  {
    var p := s.peers[j];
    match step
    case Accept(_, _, _, _) => p
    case Broadcast(b) => PushDown(p, Sequenced(b))
    case ServerBeat(i) => if i == j then PushDown(p, ServerHeartbeat) else p
    case ClientBeat(i) => if i == j then p.(up := p.up + [ClientHeartbeat]) else p
    case ServerTakes(i) => if i == j && p.serverOpen && p.up != [] then OnUp(s.log, p) else p
    case ClientTakes(i) => if i == j && p.clientOpen && p.down != [] then OnDown(p) else p
    case Close(i, server) => if i == j then CloseEnd(p, server) else p
  }

  lemma NextPeerIs(s: Session, step: Step, j: nat)
    requires j < |s.peers|
    ensures Next(s, step).peers[j] == NextPeer(s, step, j)
  {}

  lemma NextLogIs(s: Session, step: Step)
    ensures Next(s, step).log == if step.Broadcast? then s.log + [step.payload] else s.log
  {}

  lemma PeerStep(s: Session, step: Step, j: nat)
    requires j < |s.peers| && PeerInv(s.peers[j], s.log)
    ensures PeerInv(NextPeer(s, step, j), if step.Broadcast? then s.log + [step.payload] else s.log)
  {
    var p := s.peers[j];
    match step
    case Broadcast(b) => BroadcastKeeps(p, s.log, b);
    case ServerBeat(_) => BeatKeeps(p, s.log);
    case ClientBeat(_) => BeatKeeps(p, s.log);
    case ServerTakes(_) => if p.up != [] { ServerTakesKeeps(p, s.log); }
    case ClientTakes(_) => if p.down != [] { ClientTakesKeeps(p, s.log); }
    case _ =>
  }

  /** Once its login was handled, nothing changes what is recorded of a peer: no second login comes. */
  lemma TermsSettle(s: Session, step: Step, j: nat)
    requires Inv(s) && j < |s.peers| && s.peers[j].terms.loginAt.Some?
    ensures Next(s, step).peers[j].terms == s.peers[j].terms
  {
    var p := s.peers[j];
    NextPeerIs(s, step, j);
    assert PeerInv(p, s.log);
    if p.up != [] {
      NoBeatsHead(p.up);
    }
  }

  lemma {:induction false} TermsSettled(s: Session, steps: seq<Step>, j: nat)
    requires Inv(s) && j < |s.peers| && s.peers[j].terms.loginAt.Some?
    ensures Inv(Run(s, steps)) && Run(s, steps).peers[j].terms == s.peers[j].terms
  {
    if steps != [] {
      TermsSettled(s, steps[..|steps| - 1], j);
      TermsSettle(Run(s, steps[..|steps| - 1]), steps[|steps| - 1], j);
      StepKeepsInv(Run(s, steps[..|steps| - 1]), steps[|steps| - 1]);
    }
  }

  lemma StepKeepsInv(s: Session, step: Step)
    requires Inv(s)
    ensures Inv(Next(s, step))
  {
    var s' := Next(s, step);
    NextLogIs(s, step);
    forall j | 0 <= j < |s'.peers|
      ensures PeerInv(s'.peers[j], s'.log)
    {
      if j < |s.peers| {
        NextPeerIs(s, step, j);
        PeerStep(s, step, j);
      } else {
        AcceptHolds(s.log, step.username, step.password, step.session, step.number);
      }
    }
  }

  lemma {:induction false} RunKeepsInv(steps: seq<Step>)
    ensures Inv(Run(START, steps))
  {
    if steps != [] {
      RunKeepsInv(steps[..|steps| - 1]);
      StepKeepsInv(Run(START, steps[..|steps| - 1]), steps[|steps| - 1]);
    }
  }
}
