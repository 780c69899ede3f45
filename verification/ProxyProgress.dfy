/** When a connection of proxylab-handout/proxy.c gets on: what reading a request comes to, for any
system calls, and a run that serves a client to the end. */
module ProxyProgress {
  import opened Arithmetic
  import opened Options
  import opened ProxyConnections
  import opened ProxyRequest

  // ----- reading a request

  /** How far a read gets in the client's stream. */
  function Advance(stream: string, pos: nat, call: Call): (p: nat)
    requires pos <= |stream| && call.Bytes?
    ensures pos <= p <= |stream|
  {
    pos + Min(Min(call.n + 1, MAX_OBJECT_SIZE), |stream| - pos)
  }

  predicate AllBytes(calls: seq<Call>) { forall i :: 0 <= i < |calls| ==> calls[i].Bytes? }

  /** How far a sequence of reads gets. */
  function PosAfter(stream: string, pos: nat, calls: seq<Call>): (p: nat)
    requires pos <= |stream| && AllBytes(calls)
    ensures pos <= p <= |stream|
    decreases |calls|
  {
    if calls == [] then pos else PosAfter(stream, Advance(stream, pos, calls[0]), calls[1..])
  }

  /** The part of the stream before `pos` has a blank line, before any NUL. */
  predicate Complete(stream: string, pos: nat)
    requires pos <= |stream|
  {
    BlankLine(UpToNul(stream[..pos]))
  }

  /** The reads of one event are the first j calls: none is made once the request is complete, and the
      next call, if there is one, does not read. */
  ghost predicate StopsAfter(stream: string, pos: nat, calls: seq<Call>, j: nat)
    requires pos <= |stream|
  {
    && j <= |calls| && AllBytes(calls[..j])
    && (forall i :: 0 <= i < j ==> NotYet(stream, pos, calls, i))
    && (Complete(stream, PosAfter(stream, pos, calls[..j])) || j == |calls| || !calls[j].Bytes?)
  }

  ghost predicate NotYet(stream: string, pos: nat, calls: seq<Call>, i: nat)
    requires pos <= |stream| && i <= |calls|
  {
    AllBytes(calls[..i]) && !Complete(stream, PosAfter(stream, pos, calls[..i]))
  }

  lemma StopsOnce(stream: string, pos: nat, calls: seq<Call>, j: nat, k: nat)
    requires pos <= |stream| && StopsAfter(stream, pos, calls, j) && StopsAfter(stream, pos, calls, k)
    ensures j == k
  {
    StopsBefore(stream, pos, calls, j, k);
    StopsBefore(stream, pos, calls, k, j);
  }

  lemma StopsBefore(stream: string, pos: nat, calls: seq<Call>, j: nat, k: nat)
    requires pos <= |stream| && StopsAfter(stream, pos, calls, j)
    requires k <= |calls| && AllBytes(calls[..k]) && forall i :: 0 <= i < k ==> NotYet(stream, pos, calls, i)
    ensures k <= j
  {
    assert forall i :: 0 <= i < k ==> calls[..k][i] == calls[i];
    assert k <= j || NotYet(stream, pos, calls, j);
  }

  /** One call before others. */
  lemma ShiftCalls(stream: string, pos: nat, calls: seq<Call>, j: nat)
    requires pos <= |stream| && calls != [] && calls[0].Bytes? && j < |calls| && AllBytes(calls[1..][..j])
    ensures AllBytes(calls[..j + 1])
    ensures PosAfter(stream, pos, calls[..j + 1])
      == PosAfter(stream, Advance(stream, pos, calls[0]), calls[1..][..j])
  {
    var first := calls[..j + 1];
    assert first == [calls[0]] + calls[1..][..j];
    assert first[1..] == calls[1..][..j];
  }

  lemma StopsLater(stream: string, pos: nat, calls: seq<Call>, j: nat)
    requires pos <= |stream| && calls != [] && calls[0].Bytes? && !Complete(stream, pos)
    requires StopsAfter(stream, Advance(stream, pos, calls[0]), calls[1..], j)
    ensures StopsAfter(stream, pos, calls, j + 1)
    ensures PosAfter(stream, pos, calls[..j + 1])
      == PosAfter(stream, Advance(stream, pos, calls[0]), calls[1..][..j])
  {
    var next := Advance(stream, pos, calls[0]);
    ShiftCalls(stream, pos, calls, j);
    forall i | 0 <= i < j + 1 ensures NotYet(stream, pos, calls, i) {
      if i == 0 {
        assert calls[..0] == [];
      } else {
        assert NotYet(stream, next, calls[1..], i - 1);
        ShiftCalls(stream, pos, calls, i - 1);
      }
    }
    assert j + 1 < |calls| ==> calls[j + 1] == calls[1..][j];
  }

  /** What reading a request comes to, with the bytes read by then. */
  ghost predicate ReadOutcome(c: Conn, k: nat, kern: Kern, stream: string, pos: nat, j: nat, h: Handled)
    requires pos <= |stream| && j <= |kern.script|
  {
    var got := stream[..pos];
    var asked := Rewrite(UpToNul(got));
    if Complete(stream, pos) then
      var connects := asked.Some? && j < |kern.script| && Usable(kern, kern.script[j]);
      && (h.Exits? <==> !connects)
      && (connects ==>
            var fd := kern.script[j].fd;
            && h.conn == c.(original := got, modified := asked.value.request, serverFd := fd, state := WritingServer)
            && h.kern.table == kern.table[fd := ServerEnd(k)]
            && ServerEnd(k) in h.kern.sockets
            && h.kern.sockets[ServerEnd(k)] == Socket(kern.script[j].stream, 0, "")
            && h.kern.script == kern.script[j + 1..])
    else
      && (h.Exits? <==> j < |kern.script| && kern.script[j].Hard?)
      && (h.Returns? ==> h.conn == c.(original := got))
  }

  lemma OneRead(c: Conn, k: nat, kern: Kern)
    requires ConnOk(c, k, kern) && c.state == ReadingClient
    requires kern.script != [] && kern.script[0].Bytes?
    ensures var s := kern.sockets[ClientEnd(k)];
      var next := Advance(s.stream, s.taken, kern.script[0]);
      Read(kern, c.clientFd, MAX_OBJECT_SIZE)
      == ReadGets(s.stream[s.taken..next],
          kern.(sockets := kern.sockets[ClientEnd(k) := s.(taken := next)], script := kern.script[1..]))
      && c.original + s.stream[s.taken..next] == s.stream[..next]
  {
    var s := kern.sockets[ClientEnd(k)];
    Taken(s.stream, s.taken, Advance(s.stream, s.taken, kern.script[0]) - s.taken);
  }

  /** Reading a request, for any system calls. When the request is complete the process ends exactly
      when parse follows a null pointer or the kernel gives no usable descriptor; otherwise the connection
      goes on to write the rewritten request to that descriptor. When it is not, the process ends exactly
      at a hard error, and otherwise the record has what was read. */
  lemma {:induction false} ReadClientExactly(c: Conn, k: nat, kern: Kern) returns (j: nat)
    requires ConnOk(c, k, kern) && c.state == ReadingClient
    ensures var s := kern.sockets[ClientEnd(k)];
      && StopsAfter(s.stream, s.taken, kern.script, j)
      && ReadOutcome(c, k, kern, s.stream, PosAfter(s.stream, s.taken, kern.script[..j]), j, ReadClient(c, k, kern))
    decreases |kern.script|
  {
    var s := kern.sockets[ClientEnd(k)];
    assert kern.script[..0] == [];
    if Complete(s.stream, s.taken) || kern.script == [] || !kern.script[0].Bytes? {
      j := 0;
      ReadStops(c, k, kern);
    } else {
      var r := Read(kern, c.clientFd, MAX_OBJECT_SIZE);
      OneRead(c, k, kern);
      ClientRead(c, k, kern);
      var c' := c.(original := c.original + r.bytes);
      var more := ReadClientExactly(c', k, r.kern);
      j := more + 1;
      var next := Advance(s.stream, s.taken, kern.script[0]);
      StopsLater(s.stream, s.taken, kern.script, more);
      OutcomeLater(c, k, kern, c', r.kern, s.stream,
        PosAfter(s.stream, next, kern.script[1..][..more]), more, ReadClient(c', k, r.kern));
    }
  }

  lemma ReadStops(c: Conn, k: nat, kern: Kern)
    requires ConnOk(c, k, kern) && c.state == ReadingClient
    requires var s := kern.sockets[ClientEnd(k)];
      Complete(s.stream, s.taken) || kern.script == [] || !kern.script[0].Bytes?
    ensures var s := kern.sockets[ClientEnd(k)];
      ReadOutcome(c, k, kern, s.stream, s.taken, 0, ReadClient(c, k, kern))
  {
  }

  lemma OutcomeLater(c: Conn, k: nat, kern: Kern, c': Conn, kern': Kern, stream: string, pos: nat, j: nat, h: Handled)
    requires pos <= |stream| && kern.script != [] && j <= |kern'.script|
    requires kern'.table == kern.table && kern'.script == kern.script[1..]
    requires c' == c.(original := c'.original) && ReadOutcome(c', k, kern', stream, pos, j, h)
    ensures ReadOutcome(c, k, kern, stream, pos, j + 1, h)
  {
    assert j < |kern'.script| ==> kern'.script[j] == kern.script[j + 1];
    assert j < |kern'.script| ==> kern'.script[j + 1..] == kern.script[j + 2..];
  }

  // ----- a client that is served

  ghost predicate Reachable(w: World) {
    exists ws :: IsRun(ws) && ws[|ws| - 1] == w
  }

  lemma ReachableInv(w: World)
    requires Reachable(w)
    ensures Inv(w)
  {
    var ws :| IsRun(ws) && ws[|ws| - 1] == w;
    RunInv(ws, |ws| - 1);
  }

  lemma Reaches(w: World, w': World, fd: int, script: seq<Call>)
    requires Reachable(w) && Step(w, w', Ready(fd), script)
    ensures Reachable(w')
  {
    var ws :| IsRun(ws) && ws[|ws| - 1] == w;
    var longer := ws + [w'];
    forall i | 0 <= i < |longer| - 1 ensures Next(longer[i], longer[i + 1]) {
      if i < |ws| - 1 {
        assert Next(ws[i], ws[i + 1]);
      }
    }
    assert IsRun(longer);
  }

  /** An event of the only connection. */
  lemma LoneEvent(w: World, fd: int, script: seq<Call>, h: Handled) returns (w': World)
    requires Reachable(w) && |w.conns| == 1 && fd in Fds(w.conns[0]) && fd in w.kern.table && fd != w.listenFd
    requires h == Dispatch(w.conns[0], 0, w.kern.(script := script)) && h.Returns?
    ensures Reachable(w') && w' == World(w.listenFd, [h.conn], h.kern)
    ensures Goes(w.kern.sockets, w'.kern.sockets)
  {
    w' := World(w.listenFd, [h.conn], h.kern);
    assert w.conns[0 := h.conn] == [h.conn];
    assert FindFd(w.conns, fd) == Some(0);
    ReachableInv(w);
    Reaches(w, w', fd, script);
    EventIsLocal(w, w', fd, script);
  }

  /** A client is accepted. */
  lemma Accepted(listenFd: int, fd: int, stream: string) returns (w: World)
    requires listenFd > 0 && fd > 0 && fd != listenFd
    ensures Reachable(w) && w.listenFd == listenFd && w.conns == [NewConn(fd)]
    ensures w.kern.table == map[listenFd := Listener, fd := ClientEnd(0)]
    ensures w.kern.sockets == map[ClientEnd(0) := Socket(stream, 0, "")]
  {
    var w0 := Start(listenFd);
    assert IsRun([w0]) && [w0][|[w0]| - 1] == w0;
    AcceptsOne(w0, fd, stream);
    assert w0.conns + [NewConn(fd)] == [NewConn(fd)];
    w := World(listenFd, [NewConn(fd)], Kern(map[listenFd := Listener, fd := ClientEnd(0)],
      map[ClientEnd(0) := Socket(stream, 0, "")], []));
    Reaches(w0, w, listenFd, [NewFd(fd, stream)]);
  }

  function Singles(n: nat): seq<Call> { seq(n, i => Bytes(0)) }

  lemma {:induction false} SinglesAdvance(stream: string, pos: nat, n: nat)
    requires pos + n <= |stream|
    ensures PosAfter(stream, pos, Singles(n)) == pos + n
    decreases n
  {
    if n > 0 {
      assert Singles(n)[1..] == Singles(n - 1);
      SinglesAdvance(stream, pos + 1, n - 1);
    }
  }

  lemma AtTheEnd(g: Get, n: nat)
    requires GoodGet(g) && Free(Render(g), "\0") && n <= |Render(g)|
    ensures Complete(Render(g), n) <==> n == |Render(g)|
    ensures UpToNul(Render(g)[..n]) == Render(g)[..n]
  {
    var part := Render(g)[..n];
    assert Free(part, "\0");
    assert UpToNul(part) == part;
    EndsAtBlankLine(g, n);
  }

  /** Reading byte by byte, the request is complete after its last byte. */
  lemma StopsAtTheEnd(g: Get, script: seq<Call>, j: nat)
    requires GoodGet(g) && Free(Render(g), "\0") && |script| == |Render(g)| + 1
    requires script[..|Render(g)|] == Singles(|Render(g)|)
    requires StopsAfter(Render(g), 0, script, j)
    ensures j == |Render(g)| == PosAfter(Render(g), 0, script[..j])
  {
    var stream := Render(g);
    var n := |stream|;
    forall i | 0 <= i <= n
      ensures AllBytes(script[..i]) && PosAfter(stream, 0, script[..i]) == i && (Complete(stream, i) <==> i == n)
    {
      assert script[..i] == script[..n][..i] == Singles(i);
      SinglesAdvance(stream, 0, i);
      AtTheEnd(g, i);
    }
    forall i | 0 <= i < n ensures NotYet(stream, 0, script, i) {
    }
    assert StopsAfter(stream, 0, script, n);
    StopsOnce(stream, 0, script, j, n);
  }

  function AskScript(g: Get, sfd: int, reply: string): seq<Call> {
    Singles(|Render(g)|) + [NewFd(sfd, reply)]
  }

  /** Reading a whole request comes to its forwarded form, for the descriptor that the kernel gives. */
  lemma AskOutcome(kern: Kern, fd: int, sfd: int, g: Get, reply: string)
    requires ConnOk(NewConn(fd), 0, kern) && kern.sockets[ClientEnd(0)] == Socket(Render(g), 0, "")
    requires kern.script == AskScript(g, sfd, reply) && sfd > 0 && sfd !in kern.table
    requires GoodGet(g) && ':' !in g.host && Free(Render(g), "\0")
    ensures var h := ReadClient(NewConn(fd), 0, kern);
      && h.Returns? && h.conn.state == WritingServer && h.conn.clientFd == fd && h.conn.serverFd == sfd
      && h.conn.modified == Forwarded(g) && h.conn.written == 0
      && ServerEnd(0) in h.kern.sockets && h.kern.sockets[ServerEnd(0)].stream == reply
  {
    var script, n := kern.script, |Render(g)|;
    var j := ReadClientExactly(NewConn(fd), 0, kern);
    assert script[..n] == Singles(n);
    StopsAtTheEnd(g, script, j);
    assert script[n] == NewFd(sfd, reply);
    AtTheEnd(g, n);
    assert Render(g)[..n] == Render(g);
    RewriteIsForwarded(g);
  }

  /** The request is read and the connection to the server made. */
  lemma Asks(w: World, fd: int, sfd: int, g: Get, reply: string) returns (w': World)
    requires Reachable(w) && sfd > 0 && sfd !in w.kern.table && fd in w.kern.table && fd != w.listenFd
    requires w.conns == [NewConn(fd)]
    requires ClientEnd(0) in w.kern.sockets && w.kern.sockets[ClientEnd(0)] == Socket(Render(g), 0, "")
    requires GoodGet(g) && ':' !in g.host && Free(Render(g), "\0")
    ensures Reachable(w') && w'.listenFd == w.listenFd && |w'.conns| == 1 && w'.conns[0].state == WritingServer
    ensures w'.conns[0].clientFd == fd && w'.conns[0].serverFd == sfd && w'.conns[0].modified == Forwarded(g)
    ensures ClientEnd(0) in w'.kern.sockets && w'.kern.sockets[ClientEnd(0)].stream == Render(g)
    ensures ServerEnd(0) in w'.kern.sockets && w'.kern.sockets[ServerEnd(0)].stream == reply
  {
    var script := AskScript(g, sfd, reply);
    ReachableInv(w);
    assert ConnOk(w.conns[0], 0, w.kern);
    ScriptOnly(NewConn(fd), 0, w.kern, script);
    AskOutcome(w.kern.(script := script), fd, sfd, g, reply);
    w' := LoneEvent(w, fd, script, ReadClient(NewConn(fd), 0, w.kern.(script := script)));
    assert OnlyMore(w.kern.sockets[ClientEnd(0)], w'.kern.sockets[ClientEnd(0)]);
  }

  ghost predicate SameStreams(w: World, w': World) {
    && ClientEnd(0) in w.kern.sockets && ServerEnd(0) in w.kern.sockets
    && ClientEnd(0) in w'.kern.sockets && ServerEnd(0) in w'.kern.sockets
    && w'.kern.sockets[ClientEnd(0)].stream == w.kern.sockets[ClientEnd(0)].stream
    && w'.kern.sockets[ServerEnd(0)].stream == w.kern.sockets[ServerEnd(0)].stream
  }

  lemma GoesSameStreams(w: World, w': World)
    requires ClientEnd(0) in w.kern.sockets && ServerEnd(0) in w.kern.sockets
    requires Goes(w.kern.sockets, w'.kern.sockets)
    ensures SameStreams(w, w')
  {
    assert OnlyMore(w.kern.sockets[ClientEnd(0)], w'.kern.sockets[ClientEnd(0)]);
    assert OnlyMore(w.kern.sockets[ServerEnd(0)], w'.kern.sockets[ServerEnd(0)]);
  }

  lemma WritesAll(c: Conn, k: nat, kern: Kern)
    requires ConnOk(c, k, kern) && c.state == WritingServer
    requires kern.script == if c.written == |c.modified| then [] else [Bytes(|c.modified|)]
    ensures var h := WriteServer(c, kern);
      h.Returns? && h.conn == c.(written := |c.modified|, state := ReadingServer)
  {
    if c.written < |c.modified| {
      var r := Write(kern, c.serverFd, c.modified[c.written..]);
      assert r.WriteTakes? && r.n == |c.modified| - c.written;
      ServerWritten(c, k, kern);
      assert WriteServer(c, kern) == WriteServer(c.(written := |c.modified|), r.kern);
    }
  }

  /** The request is written. */
  lemma Writes(w: World) returns (w': World)
    requires Reachable(w) && |w.conns| == 1 && w.conns[0].state == WritingServer && w.conns[0].serverFd != w.listenFd
    ensures Reachable(w') && w'.listenFd == w.listenFd && SameStreams(w, w')
    ensures w'.conns == [w.conns[0].(written := |w.conns[0].modified|, state := ReadingServer)]
  {
    var c := w.conns[0];
    var script := if c.written == |c.modified| then [] else [Bytes(|c.modified|)];
    ReachableInv(w);
    assert ConnOk(w.conns[0], 0, w.kern);
    ScriptOnly(c, 0, w.kern, script);
    WritesAll(c, 0, w.kern.(script := script));
    w' := LoneEvent(w, c.serverFd, script, Dispatch(c, 0, w.kern.(script := script)));
    GoesSameStreams(w, w');
  }

  lemma {:induction false} ReadsAll(c: Conn, k: nat, kern: Kern)
    requires ConnOk(c, k, kern) && c.state == ReadingServer
    requires var s := kern.sockets[ServerEnd(k)]; kern.script == Singles(|s.stream| - s.taken + 1)
    ensures var h := ReadServer(c, kern);
      h.Returns? && h.conn.state == WritingClient && h.conn.clientFd == c.clientFd && h.conn.modified == c.modified
    decreases |kern.script|
  {
    var s, r := kern.sockets[ServerEnd(k)], Read(kern, c.serverFd, MAX_OBJECT_SIZE);
    assert kern.script[0] == Bytes(0) && r.ReadGets?;
    assert kern.script[1..] == Singles(|s.stream| - s.taken);
    ServerRead(c, k, kern);
    if s.taken < |s.stream| {
      assert |r.bytes| == 1;
      ReadsAll(c.(response := c.response + r.bytes), k, r.kern);
    } else {
      assert r.bytes == "" && c.response + "" == c.response;
    }
  }

  /** The response is read. */
  lemma ReadsReply(w: World) returns (w': World)
    requires Reachable(w) && |w.conns| == 1 && w.conns[0].state == ReadingServer && w.conns[0].serverFd != w.listenFd
    ensures Reachable(w') && w'.listenFd == w.listenFd && SameStreams(w, w')
    ensures |w'.conns| == 1 && w'.conns[0].state == WritingClient
    ensures w'.conns[0].clientFd == w.conns[0].clientFd && w'.conns[0].modified == w.conns[0].modified
  {
    var c := w.conns[0];
    ReachableInv(w);
    assert ConnOk(w.conns[0], 0, w.kern);
    var s := w.kern.sockets[ServerEnd(0)];
    var script := Singles(|s.stream| - s.taken + 1);
    ScriptOnly(c, 0, w.kern, script);
    ReadsAll(c, 0, w.kern.(script := script));
    w' := LoneEvent(w, c.serverFd, script, Dispatch(c, 0, w.kern.(script := script)));
    GoesSameStreams(w, w');
  }

  lemma AnswersAll(c: Conn, k: nat, kern: Kern)
    requires ConnOk(c, k, kern) && c.state == WritingClient
    requires kern.script == if c.sent == |c.response| then [] else [Bytes(|c.response|)]
    ensures var h := WriteClient(c, kern);
      h.Returns? && h.conn.state == Finished && h.conn.modified == c.modified
  {
    if c.sent < |c.response| {
      var r := Write(kern, c.clientFd, c.response[c.sent..]);
      assert r.WriteTakes? && r.n == |c.response| - c.sent;
      ClientWritten(c, k, kern);
      assert WriteClient(c, kern) == WriteClient(c.(sent := |c.response|), r.kern);
    }
  }

  /** The response is written to the client. */
  lemma Replies(w: World) returns (w': World)
    requires Reachable(w) && |w.conns| == 1 && w.conns[0].state == WritingClient && w.conns[0].clientFd != w.listenFd
    ensures Reachable(w') && w'.listenFd == w.listenFd && SameStreams(w, w')
    ensures |w'.conns| == 1 && w'.conns[0].state == Finished && w'.conns[0].modified == w.conns[0].modified
  {
    var c := w.conns[0];
    var script := if c.sent == |c.response| then [] else [Bytes(|c.response|)];
    ReachableInv(w);
    assert ConnOk(w.conns[0], 0, w.kern);
    ScriptOnly(c, 0, w.kern, script);
    AnswersAll(c, 0, w.kern.(script := script));
    w' := LoneEvent(w, c.clientFd, script, Dispatch(c, 0, w.kern.(script := script)));
    GoesSameStreams(w, w');
  }

  /** Every well-formed request can be served to the end, with any response: there is a run in which the
      server is sent exactly its forwarded form and the client exactly the response. */
  lemma Served(listenFd: int, fd: int, sfd: int, g: Get, reply: string) returns (w: World)
    requires listenFd > 0 && fd > 0 && sfd > 0 && fd != listenFd && sfd != listenFd && sfd != fd
    requires GoodGet(g) && ':' !in g.host && Free(Render(g), "\0")
    ensures Reachable(w) && |w.conns| == 1 && w.conns[0].state == Finished
    ensures var sockets := w.kern.sockets;
      && ClientEnd(0) in sockets && ServerEnd(0) in sockets
      && sockets[ClientEnd(0)].stream == Render(g) && sockets[ServerEnd(0)].stream == reply
      && sockets[ServerEnd(0)].sent == Forwarded(g) && sockets[ClientEnd(0)].sent == reply
  {
    var w1 := Accepted(listenFd, fd, Render(g));
    var w2 := Asks(w1, fd, sfd, g, reply);
    var w3 := Writes(w2);
    var w4 := ReadsReply(w3);
    w := Replies(w4);
    SentAll(w);
  }

  lemma SentAll(w: World)
    requires Reachable(w) && |w.conns| == 1 && w.conns[0].state == Finished
    ensures ClientEnd(0) in w.kern.sockets && ServerEnd(0) in w.kern.sockets
    ensures w.kern.sockets[ServerEnd(0)].sent == w.conns[0].modified
    ensures w.kern.sockets[ClientEnd(0)].sent == w.kern.sockets[ServerEnd(0)].stream
  {
    ReachableInv(w);
    assert ConnOk(w.conns[0], 0, w.kern);
    var c, server := w.conns[0], w.kern.sockets[ServerEnd(0)];
    assert c.modified[..|c.modified|] == c.modified && c.response[..|c.response|] == c.response;
    assert server.stream[..|server.stream|] == server.stream;
  }
}
