/** The two classes of the program: a connection, on either side, and the server. Each method is
    proved against the corresponding function of Protocol. */
module Endpoint {
  import opened Bytes
  import opened Numeric
  import opened Records
  import opened SoupPacket
  import opened Framing
  import opened Protocol

  // ------------------------------------------------------------ building packets

  lemma RequestFields(rec: bytes, head: bytes, u: bytes, w: bytes, s: bytes, n: bytes)
    requires |rec| == 49 && |head| == 3 && rec[..3] == head
    requires |u| == 6 && |w| == 10 && |s| == 10 && |n| == 20
    ensures Put(Put(Put(Put(rec, USERNAME, u), PASSWORD, w), REQUESTED_SEQUENCE_NUMBER, n), REQUESTED_SESSION, s) ==
            head + (u + w + s + n)
  {
    var r2 := Put(Put(rec, USERNAME, u), PASSWORD, w);
    assert r2[..19] == head + u + w;
    var r3 := Put(r2, REQUESTED_SEQUENCE_NUMBER, n);
    assert r3[..19] == r2[..19] && r3[29..] == n;
    assert head + u + w + s + n == head + (u + w + s + n);
  }

  lemma AcceptedFields(rec: bytes, head: bytes, s: bytes, n: bytes)
    requires |rec| == 33 && |head| == 3 && rec[..3] == head && |s| == 10 && |n| == 20
    ensures Put(Put(rec, SEQUENCE_NUMBER, n), SESSION, s) == head + (s + n)
  {
    var r1 := Put(rec, SEQUENCE_NUMBER, n);
    assert r1[..3] == head && r1[13..] == n;
    assert head + s + n == head + (s + n);
  }

  lemma BlankHead(size: nat, packetType: byte)
    requires size >= 3
    ensures BlankPacket(size, packetType)[..3] == LengthBytes(size - 2) + [packetType]
  {}

  method NewLoginRequest(username: bytes, password: bytes, session: bytes, number: uint64) returns (p: bytes)
    ensures p == Encode(LoginRequest(username, password, session, number))
  {
    var req := new SoupMessage.Blank(LOGIN_REQUEST_LEN, LOGIN_REQUEST);
    BlankHead(LOGIN_REQUEST_LEN, LOGIN_REQUEST);
    RequestFields(req.record[..], LengthBytes(LOGIN_REQUEST_LEN - 2) + [LOGIN_REQUEST],
                  StrnCpy(username, 6), StrnCpy(password, 10), StrnCpy(session, 10), NumberBytes(number));
    req.SetString(USERNAME, username);
    req.SetString(PASSWORD, password);
    req.SetNumeric(REQUESTED_SEQUENCE_NUMBER, ToSigned(number));
    req.SetString(REQUESTED_SESSION, session);
    p := req.record[..];
  }

  method NewLoginAccepted(session: bytes, number: uint64) returns (p: bytes)
    ensures p == Encode(LoginAccepted(session, number))
  {
    var msg := new SoupMessage.Blank(LOGIN_ACCEPTED_LEN, LOGIN_ACCEPTED);
    BlankHead(LOGIN_ACCEPTED_LEN, LOGIN_ACCEPTED);
    AcceptedFields(msg.record[..], LengthBytes(LOGIN_ACCEPTED_LEN - 2) + [LOGIN_ACCEPTED],
                   StrnCpy(session, 10), NumberBytes(number));
    msg.SetNumeric(SEQUENCE_NUMBER, ToSigned(number));
    msg.SetString(SESSION, session);
    p := msg.record[..];
  }

  method NewSequenced(payload: bytes) returns (p: bytes)
    ensures p == Encode(Sequenced(payload))
  {
    var msg := new SoupMessage.Blank(3, SEQUENCED);
    msg.SetMessage(payload);
    p := msg.record[..];
  }

  method NewHeartbeat(fromServer: bool) returns (p: bytes)
    ensures p == Encode(if fromServer then ServerHeartbeat else ClientHeartbeat)
    ensures p == if fromServer then [0, 1, 72] else [0, 1, 82]
  {
    OthersAre([]);
    var msg := new SoupMessage.Blank(3, if fromServer then SERVER_HEARTBEAT else CLIENT_HEARTBEAT);
    p := msg.record[..];
  }

  // ------------------------------------------------------------ a connection

  /** A connection with the handlers of the reference client, which counts and files what it
      receives. `writing` says that an async_write is outstanding. */
  class Connection {
    const localIsServer: bool
    const username: bytes
    const password: bytes
    const parent: SoupBinServer?
    const incoming: PacketReader
    var status: Status
    var nextSeq: uint64
    var sessionId: bytes
    var stored: map<uint64, bytes>
    var received: map<uint64, bytes>
    var writeMsgs: seq<bytes>
    var writing: bool
    var numServerHeartbeats: uint32
    var numClientHeartbeats: uint32

    ghost function View(): (r: Conn)
      reads this
    {
      Conn(localIsServer, status, nextSeq, sessionId, stored, received, writeMsgs, writing,
           numServerHeartbeats, numClientHeartbeats)
    }

    /** What repeat_from can reach. */
    ghost function Log(): (r: ServerLog)
      reads this, parent
    {
      if parent == null then map[] else parent.messages
    }

    predicate HasParent() {
      parent != null <==> localIsServer
    }

    constructor Accepted(parent: SoupBinServer)
      ensures View() == ACCEPTED_CONN && this.parent == parent && HasParent()
      ensures localIsServer && status == Connected && nextSeq == 0 && sessionId == [] && writeMsgs == []
      ensures fresh(incoming) && fresh(incoming.buffer) && incoming.Ok() && incoming.View() == IDLE
    {
      localIsServer, username, password, this.parent := true, [], [], parent;
      incoming := new PacketReader();
      status, nextSeq, sessionId, stored, received, writeMsgs, writing := Connected, 0, [], map[], map[], [], false;
      numServerHeartbeats, numClientHeartbeats := 0, 0;
    }

    constructor Dialing(username: bytes, password: bytes, sessionId: bytes, nextSequenceNo: uint64)
      ensures View() == DialingConn(sessionId, nextSequenceNo) && HasParent()
      ensures !localIsServer && status == Connecting && writeMsgs == []
      ensures this.sessionId == sessionId && nextSeq == nextSequenceNo
      ensures this.username == username && this.password == password
      ensures fresh(incoming) && fresh(incoming.buffer) && incoming.Ok() && incoming.View() == IDLE
    {
      localIsServer, this.username, this.password, parent := false, username, password, null;
      incoming := new PacketReader();
      status, nextSeq, this.sessionId := Connecting, nextSequenceNo, sessionId;
      stored, received, writeMsgs, writing := map[], map[], [], false;
      numServerHeartbeats, numClientHeartbeats := 0, 0;
    }

    /** The completion of async_connect, on success. */
    method OnConnect()
      modifies this
      ensures View() == Protocol.Send(old(View()).(status := Connected),
                                      Encode(LoginRequest(username, password, old(sessionId), old(nextSeq))))
    {
      status := Connected;
      var req := NewLoginRequest(username, password, sessionId, nextSeq);
      Send(req);
    }

    method CloseSocket()
      modifies this
      ensures View() == Closed(old(View())) && status == Disconnected && !writing
    {
      status, writing := Disconnected, false;
    }

    // ---------------------------------------------------------- writing

    method DoWrite()
      requires writeMsgs != []
      modifies this`writing
      ensures writing
    {
      writing := true;
    }

    method Send(packet: bytes)
      modifies this
      ensures View() == Protocol.Send(old(View()), packet)
      ensures writeMsgs == old(writeMsgs) + [packet] && writing == (old(writing) || old(writeMsgs) == [])
    {
      var writeInProgress := writeMsgs != [];
      writeMsgs := writeMsgs + [packet];
      if !writeInProgress {
        DoWrite();
      }
    }

    /** The completion handler of async_write. */
    method OnWritten(ok: bool)
      requires writeMsgs != []
      modifies this
      ensures View() == if ok then WriteDone(old(View())) else Closed(old(View()))
      ensures ok ==> writeMsgs == old(writeMsgs[1..]) && writing == (writeMsgs != []) && status == old(status)
      ensures !ok ==> writeMsgs == old(writeMsgs) && !writing && status == Disconnected
    {
      if ok {
        writeMsgs, writing := writeMsgs[1..], false;
        if writeMsgs != [] {
          DoWrite();
        }
      } else {
        CloseSocket();
      }
    }

    method SendSequenced(number: uint64, payload: bytes)
      modifies this
      ensures View() == Protocol.SendSequenced(old(View()), number, payload)
    {
      if number !in stored {
        stored := stored[number := payload];
      }
      var msg := NewSequenced(payload);
      Send(msg);
    }

    method GetNextSeq(increment: bool) returns (n: uint64)
      modifies this
      ensures n == old(nextSeq)
      ensures View() == old(View()).(nextSeq := if increment then (n + 1) % TWO64 else n)
    {
      n := nextSeq;
      if increment {
        nextSeq := Succ(nextSeq);
      }
    }

    method OnTimer()
      modifies this
      ensures View() == Protocol.Send(old(View()), if localIsServer then [0, 1, 72] else [0, 1, 82])
    {
      OthersAre([]);
      var hb := NewHeartbeat(localIsServer);
      Send(hb);
    }

    // ---------------------------------------------------------- handlers

    method OnLoginRequest(p: bytes)
      requires |p| >= LOGIN_REQUEST_LEN
      modifies this
      ensures View() == Protocol.OnLoginRequest(old(View()), Log(), RequestedSession(p), RequestedNumber(p))
    {
      var requestedSession := RequestedSession(p);
      if requestedSession == [] {
        requestedSession := DEFAULT_SESSION;
      }
      var number, resend := RequestedNumber(p), false;
      if number != 0 {
        resend := true;
      } else {
        number := 1;
      }
      var msg := NewLoginAccepted(requestedSession, number);
      Send(msg);
      if resend && parent != null {
        parent.RepeatFrom(this, number);
      }
    }

    method OnLoginAccepted(p: bytes)
      requires |p| >= LOGIN_ACCEPTED_LEN
      modifies this
      ensures View() == Protocol.OnLoginAccepted(old(View()), AcceptedSession(p), AcceptedNumber(p))
    {
      nextSeq := AcceptedNumber(p);
      sessionId := AcceptedSession(p);
    }

    method OnSequencedData(p: bytes)
      requires |p| >= 3
      modifies this
      ensures View() == Protocol.OnSequencedData(old(View()), p[3..])
    {
      var number := GetNextSeq(true);
      if number !in received {
        received := received[number := p[3..]];
      }
    }

    method OnServerHeartbeat()
      modifies this
      ensures View() == old(View()).(serverBeats := (old(numServerHeartbeats) + 1) % TWO32)
    {
      numServerHeartbeats := Counted(numServerHeartbeats);
    }

    method OnClientHeartbeat()
      modifies this
      ensures View() == old(View()).(clientBeats := (old(numClientHeartbeats) + 1) % TWO32)
    {
      numClientHeartbeats := Counted(numClientHeartbeats);
    }

    /** The switch on the packet type. */
    method OnPacket(p: bytes)
      requires |p| >= 3 && HasParent()
      modifies this
      ensures View() == Protocol.OnPacket(old(View()), Log(), p)
    {
      if p[2] == LOGIN_ACCEPTED && |p| >= LOGIN_ACCEPTED_LEN {
        OnLoginAccepted(p);
      } else if p[2] == SEQUENCED {
        OnSequencedData(p);
      } else if p[2] == LOGIN_REQUEST && |p| >= LOGIN_REQUEST_LEN {
        OnLoginRequest(p);
      } else if p[2] == SERVER_HEARTBEAT {
        OnServerHeartbeat();
      } else if p[2] == CLIENT_HEARTBEAT {
        OnClientHeartbeat();
      }
    }

    /** Bytes arrive: the read loop, dispatching each packet it finishes. */
    method Receive(chunk: bytes)
      requires incoming.Ok() && HasParent()
      modifies this, incoming, incoming.buffer
      ensures incoming.Ok() && incoming.View() == FeedAll(old(incoming.View()), chunk).reader
      ensures View() == OnPackets(old(View()), Log(), FeedAll(old(incoming.View()), chunk).packets)
    {
      ghost var reader := incoming.View();
      var packets := incoming.Receive(chunk);
      var k := 0;
      assert packets[..0] == [];
      while k < |packets|
        invariant 0 <= k <= |packets|
        invariant incoming.Ok() && incoming.View() == FeedAll(reader, chunk).reader
        invariant View() == OnPackets(old(View()), Log(), packets[..k])
      {
        OnlyFramedPackets(reader, chunk, k);
        OnPacket(packets[k]);
        OnPacketsSnoc(old(View()), Log(), packets[..k], packets[k]);
        assert packets[..k + 1] == packets[..k] + [packets[k]];
        k := k + 1;
      }
      assert packets[..k] == packets;
    }
  }

  // ------------------------------------------------------------ the server

  /** Going on from c at pos is what is left of the replay from `start` to c0. */
  ghost predicate Resumes(c0: Conn, c: Conn, log: ServerLog, start: uint64, pos: uint64) {
    Repeat(Protocol.SendSequenced, c, log, pos) == Protocol.RepeatFrom(c0, log, start)
  }

  lemma ResumeNext(c0: Conn, c: Conn, log: ServerLog, start: uint64, pos: uint64)
    requires Resumes(c0, c, log, start, pos)
    ensures if pos in log then Resumes(c0, Protocol.SendSequenced(c, pos, log[pos]), log, start, Succ(pos))
            else c == Protocol.RepeatFrom(c0, log, start)
  {}

  class SoupBinServer {
    var nextSeq: uint64
    var connections: seq<Connection>
    var messages: ServerLog

    /** No connection is listed twice. */
    ghost predicate Ok()
      reads this
    {
      forall i, j :: 0 <= i < j < |connections| ==> connections[i] != connections[j]
    }

    constructor ()
      ensures Ok() && nextSeq == 1 && messages == map[] && connections == []
    {
      nextSeq, connections, messages := 1, [], map[];
    }

    /** The completion of async_accept: the connection gets broadcasts from now on. */
    method OnAccept() returns (conn: Connection)
      requires Ok()
      modifies this
      ensures Ok() && fresh(conn) && conn.View() == ACCEPTED_CONN && conn.parent == this
      ensures connections == old(connections) + [conn] && nextSeq == old(nextSeq) && messages == old(messages)
    {
      conn := new Connection.Accepted(this);
      connections := connections + [conn];
    }

    /** nextSeq == 0 would be the 2^64-th broadcast. */
    method SendSequenced(payload: bytes)
      requires Ok() && nextSeq != 0
      modifies this, set c | c in connections
      ensures Ok() && connections == old(connections) && nextSeq == Succ(old(nextSeq))
      ensures messages == old(messages)[old(nextSeq) := payload]
      ensures forall j :: 0 <= j < |connections| ==>
                connections[j].View() == Protocol.SendSequenced(old(connections[j].View()), old(nextSeq), payload)
    {
      var number := nextSeq;
      nextSeq := Succ(nextSeq);
      messages := messages[number := payload];
      SendToAll(number, payload);
    }

    /** for (auto c : connections) */
    method SendToAll(number: uint64, payload: bytes)
      requires Ok()
      modifies set c | c in connections
      ensures forall j :: 0 <= j < |connections| ==>
                connections[j].View() == Protocol.SendSequenced(old(connections[j].View()), number, payload)
    {
      for k := 0 to |connections|
        invariant forall j :: 0 <= j < k ==>
                    connections[j].View() == Protocol.SendSequenced(old(connections[j].View()), number, payload)
        invariant forall j :: k <= j < |connections| ==> connections[j].View() == old(connections[j].View())
      {
        connections[k].SendSequenced(number, payload);
      }
    }

    /** Terminates because only finitely many numbers are ahead of startPos before it wraps to 0,
        which is never stored. */
    method RepeatFrom(conn: Connection, startPos: uint64)
      modifies conn
      ensures conn.View() == Protocol.RepeatFrom(old(conn.View()), messages, startPos)
    {
      ghost var c0, c := conn.View(), conn.View();
      var pos := startPos;
      while pos in messages
        invariant conn.View() == c && Resumes(c0, c, messages, startPos, pos)
        decreases NumbersAhead(pos)
      {
        ResumeNext(c0, c, messages, startPos, pos);
        conn.SendSequenced(pos, messages[pos]);
        c := Protocol.SendSequenced(c, pos, messages[pos]);
        pos := Succ(pos);
      }
      ResumeNext(c0, c, messages, startPos, pos);
    }
  }
}
