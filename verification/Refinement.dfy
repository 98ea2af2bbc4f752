/** The byte system refines the message session. */
module Refinement {
  import opened Bytes
  import opened Numeric
  import opened SoupPacket
  import opened Framing
  import opened Protocol
  import opened Session
  import opened Agreement
  import opened Wire
  import opened Carriage

  // ------------------------------------------------------------ the handlers refine the message handlers

  function ClientOf(c: Conn): (r: Client) {
    Client(c.nextSeq, c.session, c.received)
  }

  predicate SameSending(c: Conn, c': Conn) {
    c'.isServer == c.isServer && c'.status == c.status && c'.queue == c.queue && c'.writing == c.writing
  }

  predicate FromServer(m: Msg) {
    m.LoginAccepted? || m.Sequenced? || m.ServerHeartbeat?
  }

  predicate AllFromServer(ms: seq<Msg>) {
    forall k :: 0 <= k < |ms| ==> FromServer(ms[k])
  }

  lemma ClientPacket(c: Conn, log: ServerLog, m: Msg)
    requires !c.isServer && FromServer(m)
    ensures var c' := OnPacket(c, log, Encode(m));
            ClientOf(c') == Handle(ClientOf(c), m) && SameSending(c, c')
  {
    match m
    case LoginAccepted(s, n) => LoginAcceptedReadsBack(s, n);
    case _ =>
  }

  lemma {:induction false} ClientPackets(c: Conn, log: ServerLog, ms: seq<Msg>)
    requires !c.isServer && AllFromServer(ms)
    ensures var c' := OnPackets(c, log, EncodeAll(ms));
            ClientOf(c') == HandleAll(ClientOf(c), ms) && SameSending(c, c')
    decreases |ms|
  {
    if ms != [] {
      var init, m := ms[..|ms| - 1], ms[|ms| - 1];
      ClientPackets(c, log, init);
      EncodeAllTake(ms, |ms| - 1);
      ClientPacket(OnPackets(c, log, EncodeAll(init)), log, m);
    }
  }

  /** The server's map holds exactly the messages of a log, under their numbers. */
  ghost predicate Mirrors(m: ServerLog, log: seq<bytes>) {
    && |log| < TWO64 - 1
    && (forall k: uint64 :: k in m <==> 1 <= k <= |log|)
    && (forall k: uint64 :: k in m ==> m[k] == log[k - 1])
  }

  predicate Payloads(log: seq<bytes>) {
    forall k :: 0 <= k < |log| ==> |log[k]| <= 65532
  }

  /** A server-side connection whose downlink carries these messages. */
  ghost predicate Serving(c: Conn, l: Link, r: Reader, ms: seq<Msg>, log: seq<bytes>) {
    && Carries(c, l, r, ms) && RightNumbers(c.stored, log) && c.isServer
    && (c.status == Connected ==> WriteInFlight(c)) && AllFromServer(ms)
  }

  lemma SendServing(c: Conn, l: Link, r: Reader, ms: seq<Msg>, log: seq<bytes>, m: Msg)
    requires Serving(c, l, r, ms, log) && Sendable(m) && FromServer(m)
    ensures Serving(Protocol.Send(c, Encode(m)), l, r, ms + [m], log)
  {
    SendCarries(c, l, r, ms, m);
  }

  lemma EmplaceRight(stored: map<uint64, bytes>, log: seq<bytes>, k: uint64)
    requires RightNumbers(stored, log) && 1 <= k <= |log|
    ensures RightNumbers(Emplace(stored, k, log[k - 1]), log)
  {}

  lemma StoredServing(c: Conn, l: Link, r: Reader, ms: seq<Msg>, log: seq<bytes>, k: uint64)
    requires Serving(c, l, r, ms, log) && 1 <= k <= |log|
    ensures Serving(c.(stored := Emplace(c.stored, k, log[k - 1])), l, r, ms, log)
  {
    var c' := c.(stored := Emplace(c.stored, k, log[k - 1]));
    EmplaceRight(c.stored, log, k);
    SameQueueCarries(c, c', l, r, ms);
    assert WriteInFlight(c') == WriteInFlight(c);
  }

  lemma SequencedServing(c: Conn, l: Link, r: Reader, ms: seq<Msg>, log: seq<bytes>, k: uint64)
    requires Serving(c, l, r, ms, log) && 1 <= k <= |log| && |log[k - 1]| <= 65532
    ensures Serving(SendSequenced(c, k, log[k - 1]), l, r, ms + [Sequenced(log[k - 1])], log)
  {
    StoredServing(c, l, r, ms, log, k);
    SendServing(c.(stored := Emplace(c.stored, k, log[k - 1])), l, r, ms, log, Sequenced(log[k - 1]));
  }

  lemma AppendAssociates<T>(a: seq<T>, x: T, b: seq<T>)
    ensures a + ([x] + b) == a + [x] + b && a + [] == a
  {}

  type Carrier = (Conn, seq<Msg>, uint64) -> bool

  /** Sending number j adds its message to what a connection carries, and moves on to the next. */
  ghost predicate AddsSequenced(send: Sending, carries: Carrier, m: ServerLog) {
    forall c, ms, j :: carries(c, ms, j) && j in m ==> carries(send(c, j, m[j]), ms + [Sequenced(m[j])], Succ(j))
  }

  lemma FromHead(ms: seq<Msg>, log: seq<bytes>, k: nat)
    requires 1 <= k <= |log| < TWO64 - 1
    ensures ms + SequencedAll(From(log, k)) == ms + [Sequenced(log[k - 1])] + SequencedAll(From(log, k + 1))
  {}

  /** So repeat_from adds the broadcasts from k on, in order; none if k is not stored. */
  lemma {:induction false} RepeatAdds(send: Sending, carries: Carrier, c: Conn, ms: seq<Msg>, m: ServerLog,
                                      log: seq<bytes>, k: uint64)
    requires AddsSequenced(send, carries, m) && carries(c, ms, k) && Mirrors(m, log)
    ensures carries(Protocol.Repeat(send, c, m, k), ms + SequencedAll(From(log, k)),
                    if 1 <= k <= |log| then |log| + 1 else k)
    decreases NumbersAhead(k)
  {
    if k in m {
      assert Succ(k) == k + 1;
      RepeatAdds(send, carries, send(c, k, m[k]), ms + [Sequenced(m[k])], m, log, k + 1);
      FromHead(ms, log, k);
    } else {
      assert ms + SequencedAll(From(log, k)) == ms;
    }
  }

  lemma RepeatServing(c: Conn, l: Link, r: Reader, ms: seq<Msg>, m: ServerLog, log: seq<bytes>, k: uint64)
    requires Serving(c, l, r, ms, log) && Payloads(log) && Mirrors(m, log)
    ensures Serving(RepeatFrom(c, m, k), l, r, ms + SequencedAll(From(log, k)), log)
    ensures RepeatFrom(c, m, k).status == c.status
  {
    var carries: Carrier := (c', ms', _) => Serving(c', l, r, ms', log) && c'.status == c.status;
    forall c', ms', j | carries(c', ms', j) && j in m
      ensures carries(SendSequenced(c', j, m[j]), ms' + [Sequenced(m[j])], Succ(j))
    {
      SequencedServing(c', l, r, ms', log, j);
    }
    RepeatAdds(SendSequenced, carries, c, ms, m, log, k);
  }

  /** c' is c after the messages ms went out under the numbers from k up to pos. */
  ghost predicate RepeatSent(c: Conn, k: uint64, c': Conn, ms: seq<Msg>, pos: uint64) {
    && c'.queue == c.queue + EncodeAll(ms) && k <= pos
    && forall j: uint64 :: j in c'.stored <==> j in c.stored || k <= j < pos
  }

  lemma RepeatSentNext(c: Conn, k: uint64, c': Conn, ms: seq<Msg>, j: uint64, payload: bytes)
    requires RepeatSent(c, k, c', ms, j) && j + 1 < TWO64
    ensures RepeatSent(c, k, SendSequenced(c', j, payload), ms + [Sequenced(payload)], Succ(j))
  {
    EncodeAllConcat(ms, [Sequenced(payload)]);
    assert EncodeAll([Sequenced(payload)]) == [Encode(Sequenced(payload))];
  }

  lemma RepeatSentAll(c: Conn, m: ServerLog, log: seq<bytes>, k: uint64)
    requires Mirrors(m, log)
    ensures RepeatSent(c, k, RepeatFrom(c, m, k), SequencedAll(From(log, k)), if 1 <= k <= |log| then |log| + 1 else k)
  {
    var carries: Carrier := (c': Conn, ms: seq<Msg>, pos: uint64) => RepeatSent(c, k, c', ms, pos);
    forall c': Conn, ms: seq<Msg>, j: uint64 | carries(c', ms, j) && j in m
      ensures carries(SendSequenced(c', j, m[j]), ms + [Sequenced(m[j])], Succ(j))
    {
      RepeatSentNext(c, k, c', ms, j, m[j]);
    }
    assert c.queue + EncodeAll([]) == c.queue;
    RepeatAdds(SendSequenced, carries, c, [], m, log, k);
    assert [] + SequencedAll(From(log, k)) == SequencedAll(From(log, k));
  }

  /** repeat_from queues exactly the packets of k..nextSeq-1, each once, ascending, and nothing when
      k is not stored; and the connection's map gets exactly those numbers. */
  lemma RepeatSends(c: Conn, m: ServerLog, log: seq<bytes>, k: uint64)
    requires Mirrors(m, log)
    ensures RepeatFrom(c, m, k).queue == c.queue + EncodeAll(SequencedAll(From(log, k)))
    ensures forall j: uint64 :: j in RepeatFrom(c, m, k).stored <==> j in c.stored || 1 <= k <= j <= |log|
  {
    RepeatSentAll(c, m, log, k);
  }

  lemma LoginServing(c: Conn, l: Link, r: Reader, ms: seq<Msg>, m: ServerLog, log: seq<bytes>, session: bytes,
                     n: uint64)
    requires Serving(c, l, r, ms, log) && Payloads(log) && Mirrors(m, log)
    ensures var c' := OnLoginRequest(c, m, Cut(session, 10), n);
            Serving(c', l, r, ms + Answer(log, session, n), log) && c'.status == c.status
  {
    var accepted := LoginAccepted(AnnouncedSession(Cut(session, 10)), AnnouncedNumber(n));
    SendServing(c, l, r, ms, log, accepted);
    AppendAssociates(ms, accepted, SequencedAll(From(log, n)));
    if n != 0 {
      RepeatServing(Protocol.Send(c, Encode(accepted)), l, r, ms + [accepted], m, log, n);
    } else {
      assert SequencedAll(From(log, n)) == [];
      assert ms + [accepted] + [] == ms + [accepted];
    }
  }

  predicate FromClient(m: Msg) {
    m.LoginRequest? || m.ClientHeartbeat?
  }

  /** The server handles one message from the client. */
  lemma ServerPacket(c: Conn, l: Link, r: Reader, p: Peer, m: ServerLog, log: seq<bytes>)
    requires p.up != [] && Serving(c, l, r, p.down, log) && Payloads(log) && Mirrors(m, log)
    requires FromClient(p.up[0])
    ensures var c' := OnPacket(c, m, Encode(p.up[0]));
            Serving(c', l, r, OnUp(log, p).down, log) && c'.status == c.status
  {
    var msg := p.up[0];
    if msg.LoginRequest? {
      LoginPacket(c, m, msg.username, msg.password, msg.session, msg.number);
      LoginServing(c, l, r, p.down, m, log, msg.session, msg.number);
    } else {
      BeatPacket(c, m);
    }
  }

  // ------------------------------------------------------------ one connection refines one peer

  /** A client-side connection whose uplink carries these messages. */
  ghost predicate Asking(c: Conn, l: Link, r: Reader, ms: seq<Msg>) {
    && Carries(c, l, r, ms) && !c.isServer
    && (c.status == Connected ==> WriteInFlight(c))
    && forall k :: 0 <= k < |ms| ==> FromClient(ms[k])
  }

  ghost predicate EndsRefine(e: Ends, p: Peer, log: seq<bytes>) {
    && p.serverOpen == (e.server.status == Connected) && p.clientOpen == (e.client.status == Connected)
    && Serving(e.server, e.down, e.clientReader, p.down, log)
    && Asking(e.client, e.up, e.serverReader, p.up)
    && ClientOf(e.client) == p.client && e.past == Past(p.terms, p.taken)
  }

  lemma EmptyCarries(c: Conn)
    requires c.queue == []
    ensures Carries(c, IDLE_LINK, IDLE, [])
  {}

  lemma DialedAsks(u: bytes, w: bytes, session: bytes, number: uint64)
    ensures Asking(Dialed(u, w, session, number), IDLE_LINK, IDLE, [LoginRequest(u, w, session, number)])
  {
    var c := DialingConn(session, number).(status := Connected);
    EmptyCarries(c);
    SendCarries(c, IDLE_LINK, IDLE, [], LoginRequest(u, w, session, number));
    assert [] + [LoginRequest(u, w, session, number)] == [LoginRequest(u, w, session, number)];
  }

  lemma DialRefines(log: seq<bytes>, number: uint64, step: WireStep)
    requires step.Dial? && number == |log| + 1
    ensures EndsRefine(DialedEnds(number, step),
                       NewPeer(log, step.username, step.password, step.session, step.number), log)
  {
    EmptyCarries(ACCEPTED_CONN);
    DialedAsks(step.username, step.password, step.session, step.number);
  }

  lemma LongerLogServing(c: Conn, l: Link, r: Reader, ms: seq<Msg>, log: seq<bytes>, b: bytes)
    requires Serving(c, l, r, ms, log)
    ensures Serving(c, l, r, ms, log + [b])
  {}

  lemma PublishRefines(e: Ends, p: Peer, log: seq<bytes>, b: bytes)
    requires EndsRefine(e, p, log) && |b| <= 65532 && |log| + 1 < TWO64
    ensures EndsRefine(e.(server := SendSequenced(e.server, |log| + 1, b)), PushDown(p, Sequenced(b)), log + [b])
  {
    LongerLogServing(e.server, e.down, e.clientReader, p.down, log, b);
    SequencedServing(e.server, e.down, e.clientReader, p.down, log + [b], |log| + 1);
  }

  lemma ServerTimerRefines(e: Ends, p: Peer, log: seq<bytes>)
    requires EndsRefine(e, p, log)
    ensures EndsRefine(e.(server := Protocol.Send(e.server, Encode(ServerHeartbeat))),
                       PushDown(p, ServerHeartbeat), log)
  {
    SendServing(e.server, e.down, e.clientReader, p.down, log, ServerHeartbeat);
  }

  lemma ClientTimerRefines(e: Ends, p: Peer, log: seq<bytes>)
    requires EndsRefine(e, p, log)
    ensures EndsRefine(e.(client := Protocol.Send(e.client, Encode(ClientHeartbeat))),
                       p.(up := p.up + [ClientHeartbeat]), log)
  {
    SendCarries(e.client, e.up, e.serverReader, p.up, ClientHeartbeat);
  }

  lemma TransmitRefines(e: Ends, p: Peer, log: seq<bytes>, n: nat)
    requires EndsRefine(e, p, log)
    ensures EndsRefine(e.(down := TransmitOn(e.server, e.down, n)), p, log)
    ensures EndsRefine(e.(up := TransmitOn(e.client, e.up, n)), p, log)
  {
    TransmitCarries(e.server, e.down, e.clientReader, p.down, n);
    TransmitCarries(e.client, e.up, e.serverReader, p.up, n);
  }

  lemma CompleteRefines(e: Ends, p: Peer, log: seq<bytes>)
    requires EndsRefine(e, p, log)
    ensures CanComplete(e.server, e.down) ==>
              EndsRefine(e.(server := WriteDone(e.server), down := e.down.(sent := 0)), p, log)
    ensures CanComplete(e.client, e.up) ==>
              EndsRefine(e.(client := WriteDone(e.client), up := e.up.(sent := 0)), p, log)
  {
    if CanComplete(e.server, e.down) {
      CompleteCarries(e.server, e.down, e.clientReader, p.down);
    }
    if CanComplete(e.client, e.up) {
      CompleteCarries(e.client, e.up, e.serverReader, p.up);
    }
  }

  lemma ShutRefines(e: Ends, p: Peer, log: seq<bytes>)
    requires EndsRefine(e, p, log)
    ensures EndsRefine(e.(server := Closed(e.server)), CloseEnd(p, true), log)
    ensures EndsRefine(e.(client := Closed(e.client)), CloseEnd(p, false), log)
  {
    SameQueueCarries(e.server, Closed(e.server), e.down, e.clientReader, p.down);
    SameQueueCarries(e.client, Closed(e.client), e.up, e.serverReader, p.up);
  }

  // ------------------------------------------------------------ deliveries are several takes

  predicate SameOpen(p: Peer, p': Peer) {
    p'.serverOpen == p.serverOpen && p'.clientOpen == p.clientOpen
  }

  function TakeDown(p: Peer, n: nat): (p': Peer)
    requires n <= |p.down|
    ensures p'.down == p.down[n..] && p'.terms == p.terms && p'.up == p.up && SameOpen(p, p')
  {
    if n == 0 then p else OnDown(TakeDown(p, n - 1))
  }

  function TakeUp(log: seq<bytes>, p: Peer, n: nat): (p': Peer)
    requires n <= |p.up|
    ensures p'.up == p.up[n..] && p'.client == p.client && SameOpen(p, p') && p'.taken == p.taken
  {
    if n == 0 then p else OnUp(log, TakeUp(log, p, n - 1))
  }

  lemma {:induction false} TakeDownClient(p: Peer, n: nat)
    requires n <= |p.down|
    ensures TakeDown(p, n).client == HandleAll(p.client, p.down[..n])
  {
    if n > 0 {
      TakeDownClient(p, n - 1);
      assert p.down[..n] == p.down[..n - 1] + [p.down[n - 1]];
      HandleSnoc(p.client, p.down[..n - 1], p.down[n - 1]);
    }
  }

  lemma EncodeAllSnoc(ms: seq<Msg>, n: nat)
    requires 0 < n <= |ms|
    ensures EncodeAll(ms[..n]) == EncodeAll(ms[..n - 1]) + [Encode(ms[n - 1])]
  {
    assert ms[..n] == ms[..n - 1] + [ms[n - 1]];
    EncodeAllConcat(ms[..n - 1], [ms[n - 1]]);
    assert EncodeAll([ms[n - 1]]) == [Encode(ms[n - 1])];
  }

  /** The recorded count and points follow the messages. */
  lemma {:induction false} TakeDownCounts(p: Peer, n: nat)
    requires n <= |p.down|
    ensures TakeDown(p, n).taken == p.taken + CountOthers(EncodeAll(p.down[..n]))
  {
    if n > 0 {
      TakeDownCounts(p, n - 1);
      EncodeAllSnoc(p.down, n);
      CountSnoc(EncodeAll(p.down[..n - 1]), Encode(p.down[n - 1]));
      assert TakeDown(p, n - 1).down[0] == p.down[n - 1];
    }
  }

  lemma CountSnoc(ps: seq<bytes>, p: bytes)
    ensures CountOthers(ps + [p]) == CountOthers(ps) + if IsBeatPacket(p) then 0 else 1
  {
    assert (ps + [p])[..|ps|] == ps;
  }

  lemma TakeUpNext(log: seq<bytes>, p: Peer, n: nat)
    requires 0 < n <= |p.up|
    ensures TakeUp(log, p, n - 1).up != [] && TakeUp(log, p, n - 1).up[0] == p.up[n - 1]
    ensures TakeUp(log, p, n) == OnUp(log, TakeUp(log, p, n - 1))
  {}

  lemma OnUpTerms(log: seq<bytes>, number: uint64, p: Peer)
    requires p.up != [] && number == |log| + 1
    ensures OnUp(log, p).terms ==
            if IsLoginPacket(Encode(p.up[0])) then p.terms.(loginAt := Some(Broadcasts(number))) else p.terms
  {}

  lemma {:induction false} TakeUpTerms(log: seq<bytes>, number: uint64, p: Peer, n: nat)
    requires n <= |p.up| && number == |log| + 1
    ensures TakeUp(log, p, n).terms == TermsAfter(number, p.terms, EncodeAll(p.up[..n]))
  {
    if n > 0 {
      TakeUpTerms(log, number, p, n - 1);
      EncodeAllSnoc(p.up, n);
      TermsSnoc(number, p.terms, EncodeAll(p.up[..n - 1]), Encode(p.up[n - 1]));
      TakeUpNext(log, p, n);
      OnUpTerms(log, number, TakeUp(log, p, n - 1));
    }
  }

  lemma TermsSnoc(number: uint64, t: Terms, ps: seq<bytes>, p: bytes)
    ensures TermsAfter(number, t, ps + [p]) ==
            if IsLoginPacket(p) then TermsAfter(number, t, ps).(loginAt := Some(Broadcasts(number)))
            else TermsAfter(number, t, ps)
  {
    assert (ps + [p])[..|ps|] == ps;
  }

  type Coupling = (Conn, seq<Msg>) -> bool

  /** Each message from the client keeps the coupling between connection and downlink. */
  ghost predicate KeptByPackets(coupled: Coupling, m: ServerLog, log: seq<bytes>) {
    forall c, p: Peer :: coupled(c, p.down) && p.up != [] && FromClient(p.up[0]) ==>
      coupled(OnPacket(c, m, Encode(p.up[0])), OnUp(log, p).down)
  }

  lemma CoupledNext(coupled: Coupling, c: Conn, p: Peer, m: ServerLog, log: seq<bytes>)
    requires KeptByPackets(coupled, m, log) && coupled(c, p.down) && p.up != [] && FromClient(p.up[0])
    ensures coupled(OnPacket(c, m, Encode(p.up[0])), OnUp(log, p).down)
  {}

  lemma OnPacketsTake(c: Conn, m: ServerLog, ms: seq<Msg>, n: nat)
    requires 0 < n <= |ms|
    ensures OnPackets(c, m, EncodeAll(ms[..n])) ==
            OnPacket(OnPackets(c, m, EncodeAll(ms[..n - 1])), m, Encode(ms[n - 1]))
  {
    EncodeAllSnoc(ms, n);
    OnPacketsSnoc(c, m, EncodeAll(ms[..n - 1]), Encode(ms[n - 1]));
  }

  lemma {:induction false} PacketsCoupled(coupled: Coupling, c: Conn, p: Peer, m: ServerLog, log: seq<bytes>, n: nat)
    requires KeptByPackets(coupled, m, log) && coupled(c, p.down) && n <= |p.up|
    requires forall k :: 0 <= k < n ==> FromClient(p.up[k])
    ensures coupled(OnPackets(c, m, EncodeAll(p.up[..n])), TakeUp(log, p, n).down)
  {
    if n > 0 {
      PacketsCoupled(coupled, c, p, m, log, n - 1);
      OnPacketsTake(c, m, p.up, n);
      TakeUpNext(log, p, n);
      CoupledNext(coupled, OnPackets(c, m, EncodeAll(p.up[..n - 1])), TakeUp(log, p, n - 1), m, log);
    }
  }

  lemma ServerPackets(c: Conn, l: Link, r: Reader, p: Peer, m: ServerLog, log: seq<bytes>, n: nat)
    requires Serving(c, l, r, p.down, log) && Payloads(log) && Mirrors(m, log) && n <= |p.up|
    requires forall k :: 0 <= k < n ==> FromClient(p.up[k])
    ensures var c' := OnPackets(c, m, EncodeAll(p.up[..n]));
            Serving(c', l, r, TakeUp(log, p, n).down, log) && c'.status == c.status
  {
    var coupled: Coupling := (c', ms) => Serving(c', l, r, ms, log) && c'.status == c.status;
    forall c', q: Peer | coupled(c', q.down) && q.up != [] && FromClient(q.up[0])
      ensures coupled(OnPacket(c', m, Encode(q.up[0])), OnUp(log, q).down)
    {
      ServerPacket(c', l, r, q, m, log);
    }
    PacketsCoupled(coupled, c, p, m, log, n);
  }

  lemma SameSendingAsks(c: Conn, c': Conn, l: Link, r: Reader, ms: seq<Msg>)
    requires Asking(c, l, r, ms) && SameSending(c, c')
    ensures Asking(c', l, r, ms)
  {
    SameQueueCarries(c, c', l, r, ms);
  }

  /** What the client and the record become when these messages are read. */
  lemma ClientReads(e: Ends, p: Peer, m: ServerLog, log: seq<bytes>, n: nat, taken: nat)
    requires EndsRefine(e, p, log) && n <= |e.down.wire| && taken <= |p.down|
    requires FeedAll(e.clientReader, e.down.wire[..n]).packets == EncodeAll(p.down[..taken])
    ensures var e', p' := DeliverDown(m, e, n), TakeDown(p, taken);
            && SameSending(e.client, e'.client) && Asking(e'.client, e'.up, e'.serverReader, p'.up)
            && ClientOf(e'.client) == p'.client && e'.past == Past(p'.terms, p'.taken)
  {
    assert AllFromServer(p.down[..taken]);
    ClientPackets(e.client, m, p.down[..taken]);
    TakeDownClient(p, taken);
    TakeDownCounts(p, taken);
    SameSendingAsks(e.client, DeliverDown(m, e, n).client, e.up, e.serverReader, p.up);
  }

  lemma StillServing(c: Conn, l: Link, r: Reader, ms: seq<Msg>, log: seq<bytes>, l': Link, r': Reader, taken: nat)
    requires Serving(c, l, r, ms, log) && taken <= |ms| && Carries(c, l', r', ms[taken..])
    ensures Serving(c, l', r', ms[taken..], log)
  {}

  lemma DeliverDownRefines(e: Ends, p: Peer, m: ServerLog, log: seq<bytes>, n: nat) returns (taken: nat)
    requires EndsRefine(e, p, log) && n <= |e.down.wire|
    ensures taken <= |p.down| && EndsRefine(DeliverDown(m, e, n), TakeDown(p, taken), log)
  {
    taken := DeliverCarries(e.server, e.down, e.clientReader, p.down, n);
    ClientReads(e, p, m, log, n, taken);
    var e' := DeliverDown(m, e, n);
    StillServing(e.server, e.down, e.clientReader, p.down, log, e'.down, e'.clientReader, taken);
  }

  lemma DeliverUpRefines(e: Ends, p: Peer, number: uint64, m: ServerLog, log: seq<bytes>, n: nat) returns (taken: nat)
    requires EndsRefine(e, p, log) && n <= |e.up.wire| && Payloads(log) && Mirrors(m, log) && number == |log| + 1
    ensures taken <= |p.up| && EndsRefine(DeliverUp(number, m, e, n), TakeUp(log, p, taken), log)
  {
    taken := DeliverCarries(e.client, e.up, e.serverReader, p.up, n);
    ServerPackets(e.server, e.down, e.clientReader, p, m, log, taken);
    TakeUpTerms(log, number, p, taken);
  }

  // ------------------------------------------------------------ the system refines the session

  ghost predicate Refines(sys: System, s: Session) {
    && Mirrors(sys.log, s.log) && sys.nextSeq == |s.log| + 1 && Payloads(s.log)
    && |sys.ends| == |s.peers|
    && forall j :: 0 <= j < |s.peers| ==> EndsRefine(sys.ends[j], s.peers[j], s.log)
  }

  /** The broadcasts this theorem covers: what fits a packet, and before the counter would wrap. */
  predicate Covered(sys: System, step: WireStep) {
    step.Publish? ==> |step.payload| <= 65532 && sys.nextSeq < TWO64 - 1
  }

  function Repeat(step: Step, n: nat): (steps: seq<Step>)
    ensures |steps| == n
  {
    if n == 0 then [] else Repeat(step, n - 1) + [step]
  }

  lemma OneTake(s: Session, i: nat, q: Peer)
    requires i < |s.peers|
    ensures q.clientOpen && q.down != [] ==>
              Next(s.(peers := s.peers[i := q]), ClientTakes(i)) == s.(peers := s.peers[i := OnDown(q)])
    ensures q.serverOpen && q.up != [] ==>
              Next(s.(peers := s.peers[i := q]), ServerTakes(i)) == s.(peers := s.peers[i := OnUp(s.log, q)])
  {
    assert s.peers[i := q][i := OnDownOr(q)] == s.peers[i := OnDownOr(q)];
    assert s.peers[i := q][i := OnUpOr(s.log, q)] == s.peers[i := OnUpOr(s.log, q)];
  }

  function OnDownOr(q: Peer): (r: Peer) {
    if q.down == [] then q else OnDown(q)
  }

  function OnUpOr(log: seq<bytes>, q: Peer): (r: Peer) {
    if q.up == [] then q else OnUp(log, q)
  }

  lemma {:induction false} RepeatClientTakes(s: Session, i: nat, n: nat)
    requires i < |s.peers| && s.peers[i].clientOpen && n <= |s.peers[i].down|
    ensures Run(s, Repeat(ClientTakes(i), n)) == s.(peers := s.peers[i := TakeDown(s.peers[i], n)])
  {
    if n == 0 {
      assert s.peers[i := s.peers[i]] == s.peers;
    } else {
      RepeatClientTakes(s, i, n - 1);
      RunLast(s, Repeat(ClientTakes(i), n - 1), ClientTakes(i));
      OneTake(s, i, TakeDown(s.peers[i], n - 1));
    }
  }

  lemma {:induction false} RepeatServerTakes(s: Session, i: nat, n: nat)
    requires i < |s.peers| && s.peers[i].serverOpen && n <= |s.peers[i].up|
    ensures Run(s, Repeat(ServerTakes(i), n)) == s.(peers := s.peers[i := TakeUp(s.log, s.peers[i], n)])
  {
    if n == 0 {
      assert s.peers[i := s.peers[i]] == s.peers;
    } else {
      RepeatServerTakes(s, i, n - 1);
      RunLast(s, Repeat(ServerTakes(i), n - 1), ServerTakes(i));
      OneTake(s, i, TakeUp(s.log, s.peers[i], n - 1));
    }
  }

  /** The abstract step that matches a byte step of the program. */
  function Matching(step: WireStep): (r: Step)
    requires !Moves(step)
  {
    match step
    case Dial(u, w, session, n) => Accept(u, w, session, n)
    case Publish(b) => Broadcast(b)
    case ServerTimer(i) => ServerBeat(i)
    case ClientTimer(i) => ClientBeat(i)
    case Shut(i, server) => Close(i, server)
  }

  /** What that step does to peer j. */
  function QuietPeer(p: Peer, step: WireStep, j: nat): (r: Peer) {
    if !Concerns(step, j) then p
    else
      match step
      case Publish(b) => PushDown(p, Sequenced(b))
      case ServerTimer(_) => PushDown(p, ServerHeartbeat)
      case ClientTimer(_) => p.(up := p.up + [ClientHeartbeat])
      case Shut(_, server) => CloseEnd(p, server)
      case _ => p
  }

  lemma MatchingPeer(s: Session, step: WireStep, j: nat)
    requires j < |s.peers| && !Moves(step)
    ensures NextPeer(s, Matching(step), j) == QuietPeer(s.peers[j], step, j)
  {}

  lemma ActRefines(e: Ends, p: Peer, log: seq<bytes>, number: uint64, step: WireStep, j: nat)
    requires EndsRefine(e, p, log) && Concerns(step, j) && !Moves(step)
    requires step.Publish? ==> |step.payload| <= 65532 && number == |log| + 1
    ensures EndsRefine(Act(number, e, step), QuietPeer(p, step, j), LogAfter(log, step))
  {
    match step
    case Publish(b) => PublishRefines(e, p, log, b);
    case ServerTimer(_) => ServerTimerRefines(e, p, log);
    case ClientTimer(_) => ClientTimerRefines(e, p, log);
    case _ => ShutRefines(e, p, log);
  }

  lemma MoveRefines(number: uint64, m: ServerLog, e: Ends, p: Peer, log: seq<bytes>, step: WireStep)
    requires EndsRefine(e, p, log) && (step.Transmit? || step.Complete?)
    ensures EndsRefine(Move(number, m, e, step), p, log)
  {
    if step.Transmit? {
      TransmitRefines(e, p, log, step.n);
    } else {
      CompleteRefines(e, p, log);
    }
  }

  /** One connection, one step that delivers nothing. */
  lemma QuietEnds(number: uint64, m: ServerLog, e: Ends, p: Peer, log: seq<bytes>, step: WireStep, j: nat)
    requires EndsRefine(e, p, log) && !step.Deliver?
    requires step.Publish? ==> |step.payload| <= 65532 && number == |log| + 1
    ensures EndsRefine(NextEnds(number, m, e, step, j), QuietPeer(p, step, j), LogAfter(log, step))
  {
    if Concerns(step, j) {
      if Moves(step) {
        MoveRefines(number, m, e, p, log, step);
      } else {
        ActRefines(e, p, log, number, step, j);
      }
    }
  }

  lemma PublishMirrors(m: ServerLog, log: seq<bytes>, b: bytes)
    requires Mirrors(m, log) && Payloads(log) && |log| + 2 < TWO64 && |b| <= 65532
    ensures Mirrors(m[|log| + 1 := b], log + [b]) && Payloads(log + [b])
  {}

  lemma DialedRefines(sys: System, s: Session, e: Ends, p: Peer)
    requires Refines(sys, s) && EndsRefine(e, p, s.log)
    ensures Refines(sys.(ends := sys.ends + [e]), s.(peers := s.peers + [p]))
  {}

  lemma ProgramLog(sys: System, s: Session, step: WireStep)
    requires Mirrors(sys.log, s.log) && sys.nextSeq == |s.log| + 1 && Payloads(s.log)
    requires Covered(sys, step) && !Moves(step) && !step.Dial?
    ensures var sys', s' := NextSystem(sys, step), Next(s, Matching(step));
            && s'.log == LogAfter(s.log, step)
            && Mirrors(sys'.log, s'.log) && sys'.nextSeq == |s'.log| + 1 && Payloads(s'.log)
            && |sys'.ends| == |sys.ends| && |s'.peers| == |s.peers|
  {
    if step.Publish? {
      PublishMirrors(sys.log, s.log, step.payload);
    }
  }

  lemma ProgramEnds(sys: System, s: Session, step: WireStep, j: nat)
    requires |sys.ends| == |s.peers| && sys.nextSeq == |s.log| + 1
    requires j < |s.peers| && EndsRefine(sys.ends[j], s.peers[j], s.log)
    requires Covered(sys, step) && !Moves(step) && !step.Dial?
    ensures EndsRefine(NextSystem(sys, step).ends[j], Next(s, Matching(step)).peers[j], LogAfter(s.log, step))
  {
    NextPeerIs(s, Matching(step), j);
    MatchingPeer(s, step, j);
    QuietEnds(sys.nextSeq, sys.log, sys.ends[j], s.peers[j], s.log, step, j);
  }

  lemma ProgramRefines(sys: System, s: Session, step: WireStep)
    requires Refines(sys, s) && Covered(sys, step) && !Moves(step) && !step.Dial?
    ensures Refines(NextSystem(sys, step), Next(s, Matching(step)))
  {
    ProgramLog(sys, s, step);
    forall j | 0 <= j < |s.peers|
      ensures EndsRefine(NextSystem(sys, step).ends[j], Next(s, Matching(step)).peers[j], LogAfter(s.log, step))
    {
      ProgramEnds(sys, s, step, j);
    }
  }

  lemma DialAdds(sys: System, step: WireStep)
    requires step.Dial?
    ensures NextSystem(sys, step) == sys.(ends := sys.ends + [DialedEnds(sys.nextSeq, step)])
  {}

  lemma DialStepRefines(sys: System, s: Session, step: WireStep)
    requires Refines(sys, s) && step.Dial?
    ensures Refines(NextSystem(sys, step), Next(s, Matching(step)))
  {
    DialRefines(s.log, sys.nextSeq, step);
    DialedRefines(sys, s, DialedEnds(sys.nextSeq, step),
                  NewPeer(s.log, step.username, step.password, step.session, step.number));
    DialAdds(sys, step);
  }

  lemma TransportRefines(sys: System, s: Session, step: WireStep)
    requires Refines(sys, s) && (step.Transmit? || step.Complete?)
    ensures Refines(NextSystem(sys, step), s)
  {
    forall j | 0 <= j < |s.peers|
      ensures EndsRefine(NextSystem(sys, step).ends[j], s.peers[j], s.log)
    {
      QuietEnds(sys.nextSeq, sys.log, sys.ends[j], s.peers[j], s.log, step, j);
    }
  }

  function Queue(p: Peer, downward: bool): (r: seq<Msg>) {
    if downward then p.down else p.up
  }

  function Take(log: seq<bytes>, p: Peer, downward: bool, n: nat): (r: Peer)
    requires n <= |Queue(p, downward)|
  {
    if downward then TakeDown(p, n) else TakeUp(log, p, n)
  }

  lemma MoveDelivers(number: uint64, m: ServerLog, e: Ends, step: WireStep)
    requires step.Deliver?
    ensures Move(number, m, e, step) ==
            if step.downward then if step.n <= |e.down.wire| then DeliverDown(m, e, step.n) else e
            else if step.n <= |e.up.wire| then DeliverUp(number, m, e, step.n) else e
  {}

  lemma TakeNone(log: seq<bytes>, p: Peer, downward: bool, n: nat)
    requires n == 0
    ensures Take(log, p, downward, n) == p
  {}

  ghost predicate Delivered(e: Ends, p: Peer, log: seq<bytes>, downward: bool, taken: nat) {
    taken <= |Queue(p, downward)| && EndsRefine(e, Take(log, p, downward, taken), log)
  }

  lemma NothingDelivered(e: Ends, p: Peer, log: seq<bytes>, downward: bool)
    requires EndsRefine(e, p, log)
    ensures exists taken: nat :: taken == 0 && Delivered(e, p, log, downward, taken)
  {
    var none: nat :| none == 0;
    TakeNone(log, p, downward, none);
    assert Delivered(e, p, log, downward, none);
  }

  /** A delivery finishes some number of messages. */
  lemma DeliverEnds(number: uint64, m: ServerLog, e: Ends, p: Peer, log: seq<bytes>, step: WireStep)
    returns (taken: nat)
    requires EndsRefine(e, p, log) && Payloads(log) && Mirrors(m, log) && number == |log| + 1 && step.Deliver?
    ensures Delivered(Move(number, m, e, step), p, log, step.downward, taken)
  {
    MoveDelivers(number, m, e, step);
    if step.downward && step.n <= |e.down.wire| {
      taken := DeliverDownRefines(e, p, m, log, step.n);
    } else if !step.downward && step.n <= |e.up.wire| {
      taken := DeliverUpRefines(e, p, number, m, log, step.n);
    } else {
      NothingDelivered(e, p, log, step.downward);
      taken :| Delivered(e, p, log, step.downward, taken);
    }
  }

  function Takes(i: nat, downward: bool): (r: Step) {
    if downward then ClientTakes(i) else ServerTakes(i)
  }

  predicate ReaderOpen(p: Peer, downward: bool) {
    if downward then p.clientOpen else p.serverOpen
  }

  lemma RepeatTakes(s: Session, i: nat, downward: bool, n: nat)
    requires i < |s.peers| && n <= |Queue(s.peers[i], downward)| && ReaderOpen(s.peers[i], downward)
    ensures Run(s, Repeat(Takes(i, downward), n)) == s.(peers := s.peers[i := Take(s.log, s.peers[i], downward, n)])
  {
    if downward {
      RepeatClientTakes(s, i, n);
    } else {
      RepeatServerTakes(s, i, n);
    }
  }

  /** One connection changes, the others stay. */
  lemma OneRefines(sys: System, s: Session, ends: seq<Ends>, i: nat, p: Peer)
    requires Refines(sys, s) && |ends| == |sys.ends| && i < |ends|
    requires forall j :: 0 <= j < |ends| && j != i ==> ends[j] == sys.ends[j]
    requires EndsRefine(ends[i], p, s.log)
    ensures Refines(sys.(ends := ends), s.(peers := s.peers[i := p]))
  {}

  lemma DeliverOnly(sys: System, step: WireStep)
    requires step.Deliver?
    ensures var ends := NextSystem(sys, step).ends;
            && NextSystem(sys, step) == sys.(ends := ends) && |ends| == |sys.ends|
            && (forall j :: 0 <= j < |ends| && j != step.i ==> ends[j] == sys.ends[j])
            && (step.i < |ends| ==>
                  ends[step.i] == if Enabled(sys.ends[step.i], step)
                                  then Move(sys.nextSeq, sys.log, sys.ends[step.i], step) else sys.ends[step.i])
  {}

  lemma DeliverRefines(sys: System, s: Session, step: WireStep) returns (steps: seq<Step>)
    requires Refines(sys, s) && step.Deliver?
    ensures Refines(NextSystem(sys, step), Run(s, steps)) && Run(s, steps).log == s.log
  {
    DeliverOnly(sys, step);
    if step.i < |s.peers| && ReaderOpen(s.peers[step.i], step.downward) {
      var p := s.peers[step.i];
      var taken := DeliverEnds(sys.nextSeq, sys.log, sys.ends[step.i], p, s.log, step);
      steps := Repeat(Takes(step.i, step.downward), taken);
      RepeatTakes(s, step.i, step.downward, taken);
      OneRefines(sys, s, NextSystem(sys, step).ends, step.i, Take(s.log, p, step.downward, taken));
    } else {
      steps := [];
    }
  }

  lemma StepRefines(sys: System, s: Session, step: WireStep) returns (steps: seq<Step>)
    requires Refines(sys, s) && Covered(sys, step)
    ensures Refines(NextSystem(sys, step), Run(s, steps))
    ensures Run(s, steps).log == LogAfter(s.log, step)
  {
    if step.Deliver? {
      steps := DeliverRefines(sys, s, step);
    } else if Moves(step) {
      steps := [];
      TransportRefines(sys, s, step);
    } else {
      steps := [Matching(step)];
      RunLast(s, [], Matching(step));
      assert [] + [Matching(step)] == steps;
      if step.Dial? {
        DialStepRefines(sys, s, step);
      } else {
        ProgramRefines(sys, s, step);
      }
    }
  }

  /** The whole run covered: every payload fits a packet, and the counter has not reached its end. */
  predicate AllCovered(steps: seq<WireStep>) {
    |Published(steps)| < TWO64 - 1 && Payloads(Published(steps))
  }

  lemma CoveredPrefix(steps: seq<WireStep>)
    requires AllCovered(steps) && steps != []
    ensures AllCovered(steps[..|steps| - 1])
    ensures steps[|steps| - 1].Publish? ==>
              |steps[|steps| - 1].payload| <= 65532 && |Published(steps[..|steps| - 1])| + 1 < TWO64 - 1
  {
    var init, last := Published(steps[..|steps| - 1]), steps[|steps| - 1];
    assert forall k :: 0 <= k < |init| ==> Published(steps)[k] == init[k];
    assert last.Publish? ==> Published(steps)[|init|] == last.payload;
  }

  /** Byte-level refinement. Every run of the byte system, under any transport, is matched by a run
      of the message session: same log, same clients, and in flight exactly its queued messages. */
  lemma {:induction false} BytesRefineMessages(wire: seq<WireStep>) returns (steps: seq<Step>)
    requires AllCovered(wire)
    ensures Refines(RunSystem(wire), Run(START, steps)) && Run(START, steps).log == Published(wire)
    decreases |wire|
  {
    if wire == [] {
      steps := [];
    } else {
      var init, last := wire[..|wire| - 1], wire[|wire| - 1];
      CoveredPrefix(wire);
      var before := BytesRefineMessages(init);
      var more := StepRefines(RunSystem(init), Run(START, before), last);
      steps := before + more;
      RunSplit(START, before, more);
    }
  }
}
