/** The connections of proxylab-handout/proxy.c: four states a connection, any number of connections,
one event at a time, over a kernel that hands out file descriptor numbers again once they are closed. */
module ProxyConnections {
  import opened Arithmetic
  import opened Options
  import opened ProxyRequest

  const MAX_OBJECT_SIZE: nat := 102400
  const REQ_ARRAY_SIZE: nat := 512

  // ----- the kernel

  /** What a file descriptor number stands for: the listening socket, or one of the two sockets of a
      connection. */
  datatype End = Listener | ClientEnd(k: nat) | ServerEnd(k: nat)

  /** A socket: everything its peer ever sends, how much of that has been read, and what has been
      written to it. */
  datatype RawSocket = Socket(stream: string, taken: nat, sent: string)
  type Socket = s: RawSocket | s.taken <= |s.stream| witness Socket("", 0, "")

  /** How the next system call goes: EAGAIN, a hard error, at most so many bytes, or a new descriptor. */
  datatype Call = Again | Hard | Bytes(n: nat) | NewFd(fd: int, stream: string)

  datatype Kern = Kern(table: map<int, End>, sockets: map<End, Socket>, script: seq<Call>)

  datatype ReadResult = ReadFails | ReadBlocks(kern: Kern) | ReadGets(bytes: string, kern: Kern)
  datatype WriteResult = WriteFails | WriteBlocks(kern: Kern) | WriteTakes(n: nat, kern: Kern)

  function Read(kern: Kern, fd: int, max: nat): ReadResult {
    if fd !in kern.table || kern.table[fd] !in kern.sockets then ReadFails
    else if kern.script == [] then ReadBlocks(kern)
    else
      var e, more := kern.table[fd], kern.script[1..];
      var s := kern.sockets[e];
      match kern.script[0]
      case Hard => ReadFails
      case Bytes(n) =>
        var m := Min(Min(n + 1, max), |s.stream| - s.taken);
        ReadGets(s.stream[s.taken..s.taken + m],
          kern.(sockets := kern.sockets[e := s.(taken := s.taken + m)], script := more))
      case _ => ReadBlocks(kern.(script := more))
  }

  function Write(kern: Kern, fd: int, bytes: string): WriteResult {
    if fd !in kern.table || kern.table[fd] !in kern.sockets then WriteFails
    else if kern.script == [] then WriteBlocks(kern)
    else
      var e, more := kern.table[fd], kern.script[1..];
      var s := kern.sockets[e];
      match kern.script[0]
      case Hard => WriteFails
      case Bytes(n) =>
        var m := Min(n, |bytes|);
        WriteTakes(m, kern.(sockets := kern.sockets[e := s.(sent := s.sent + bytes[..m])], script := more))
      case _ => WriteBlocks(kern.(script := more))
  }

  /** A number the kernel may hand out: free, and not one the program takes for a failure. */
  predicate Usable(kern: Kern, call: Call) {
    call.NewFd? && call.fd > 0 && call.fd !in kern.table
  }

  function Open(kern: Kern, e: End): Kern
    requires kern.script != [] && Usable(kern, kern.script[0])
  {
    var call := kern.script[0];
    Kern(kern.table[call.fd := e], kern.sockets[e := Socket(call.stream, 0, "")], kern.script[1..])
  }

  function Close(kern: Kern, fd: int): Kern {
    kern.(table := kern.table - {fd})
  }

  // ----- one connection

  datatype State = ReadingClient | WritingServer | ReadingServer | WritingClient | Finished

  /** req_info_t, with each buffer as the bytes stored in it. */
  datatype RawConn = Conn(clientFd: int, serverFd: int, state: State, original: string, modified: string,
                          response: string, written: nat, sent: nat)
  type Conn = c: RawConn |
    c.written <= |c.modified| && c.sent <= |c.response| && (c.state == ReadingClient ==> c.written == 0)
    witness Conn(-1, -1, ReadingClient, "", "", "", 0, 0)

  /** What the process does with an event: it exits, or goes on. */
  datatype Handled = Exits | Returns(conn: Conn, kern: Kern)

  function UpToNul(s: string): string { s[..Span(s, "\0")] }

  function ReadClient(c: Conn, k: nat, kern: Kern): Handled
    requires c.state == ReadingClient
    decreases |kern.script|
  {
    if BlankLine(UpToNul(c.original)) then Connect(c, k, kern)
    else
      match Read(kern, c.clientFd, MAX_OBJECT_SIZE)
      case ReadFails => Exits
      case ReadBlocks(after) => Returns(c, after)
      case ReadGets(bytes, after) => ReadClient(c.(original := c.original + bytes), k, after)
  }

  function Connect(c: Conn, k: nat, kern: Kern): Handled
    requires c.state == ReadingClient
  {
    match Rewrite(UpToNul(c.original))
    case None => Exits
    case Some(rewritten) =>
      if kern.script == [] || !Usable(kern, kern.script[0]) then Exits
      else
        Returns(c.(modified := rewritten.request, serverFd := kern.script[0].fd, state := WritingServer),
          Open(kern, ServerEnd(k)))
  }

  function WriteServer(c: Conn, kern: Kern): Handled
    requires c.state == WritingServer
    decreases |kern.script|
  {
    if c.written == |c.modified| then
      if c.serverFd !in kern.table then Exits else Returns(c.(state := ReadingServer), kern)
    else
      match Write(kern, c.serverFd, c.modified[c.written..])
      case WriteFails => Exits
      case WriteBlocks(after) => Returns(c, after)
      case WriteTakes(n, after) => WriteServer(c.(written := c.written + n), after)
  }

  function ReadServer(c: Conn, kern: Kern): Handled
    requires c.state == ReadingServer
    decreases |kern.script|
  {
    match Read(kern, c.serverFd, MAX_OBJECT_SIZE)
    case ReadFails => Exits
    case ReadBlocks(after) => Returns(c, after)
    case ReadGets(bytes, after) =>
      if bytes != "" then ReadServer(c.(response := c.response + bytes), after)
      else if c.clientFd !in kern.table then Exits
      else Returns(c.(state := WritingClient, serverFd := -1), Close(after, c.serverFd))
  }

  function WriteClient(c: Conn, kern: Kern): Handled
    requires c.state == WritingClient
    decreases |kern.script|
  {
    if c.sent == |c.response| then
      Returns(c.(state := Finished, clientFd := -1), Close(kern, c.clientFd))
    else
      match Write(kern, c.clientFd, c.response[c.sent..])
      case WriteFails => Exits
      case WriteBlocks(after) => Returns(c, after)
      case WriteTakes(n, after) => WriteClient(c.(sent := c.sent + n), after)
  }

  /** The switch on the state, for connection number k. */
  function Dispatch(c: Conn, k: nat, kern: Kern): Handled {
    match c.state
    case ReadingClient => ReadClient(c, k, kern)
    case WritingServer => WriteServer(c, kern)
    case ReadingServer => ReadServer(c, kern)
    case WritingClient => WriteClient(c, kern)
    case Finished => Returns(c, kern)
  }

  // ----- all connections

  datatype World = World(listenFd: int, conns: seq<Conn>, kern: Kern)

  function FindFrom(conns: seq<Conn>, fd: int, i: nat): (r: Option<nat>)
    ensures r.Some? ==> i <= r.value < |conns| && fd in Fds(conns[r.value])
    ensures forall j :: i <= j < (if r.Some? then r.value else |conns|) ==> fd !in Fds(conns[j])
    decreases |conns| - i
  {
    if i >= |conns| then None
    else if fd == conns[i].clientFd || fd == conns[i].serverFd then Some(i)
    else FindFrom(conns, fd, i + 1)
  }

  function Fds(c: Conn): set<int> { {c.clientFd, c.serverFd} }

  /** find_fd. */
  function FindFd(conns: seq<Conn>, fd: int): Option<nat> { FindFrom(conns, fd, 0) }

  function NewConn(fd: int): Conn { Conn(fd, -1, ReadingClient, "", "", "", 0, 0) }

  /** The listening socket is open; otherwise accept fails. */
  predicate Listening(w: World) {
    w.listenFd in w.kern.table && w.kern.table[w.listenFd] == Listener
  }

  /** The loop over accept; None when the array of records would overflow. */
  function Accept(w: World): Option<World>
    decreases |w.kern.script|
  {
    if !Listening(w) || w.kern.script == [] then Some(w)
    else if !Usable(w.kern, w.kern.script[0]) then Some(w.(kern := w.kern.(script := w.kern.script[1..])))
    else if |w.conns| >= REQ_ARRAY_SIZE then None
    else
      Accept(w.(conns := w.conns + [NewConn(w.kern.script[0].fd)], kern := Open(w.kern, ClientEnd(|w.conns|))))
  }

  /** An event on a descriptor: it is ready, or the kernel reports an error or a hang-up on it. */
  datatype Event = Ready(fd: int) | Failed(fd: int)

  /** One turn of the event loop; None when the process ends. */
  function Handle(w: World, ev: Event): Option<World> {
    match ev
    case Failed(fd) => Some(w.(kern := Close(w.kern, fd)))
    case Ready(fd) =>
      if fd == w.listenFd then Accept(w)
      else
        match FindFd(w.conns, fd)
        case None => None
        case Some(k) =>
          match Dispatch(w.conns[k], k, w.kern)
          case Exits => None
          case Returns(c, kern) => Some(w.(conns := w.conns[k := c], kern := kern))
  }

  function WithScript(w: World, script: seq<Call>): World { w.(kern := w.kern.(script := script)) }

  /** One event, on a descriptor that is open, with the kernel behaving in any way. */
  ghost predicate Step(w: World, w': World, ev: Event, script: seq<Call>) {
    ev.fd in w.kern.table && Handle(WithScript(w, script), ev) == Some(w')
  }

  ghost predicate Next(w: World, w': World) {
    exists fd, script :: Step(w, w', Ready(fd), script)
  }

  function Start(listenFd: int): World {
    World(listenFd, [], Kern(map[listenFd := Listener], map[], []))
  }

  ghost predicate IsRun(ws: seq<World>) {
    && ws != [] && ws[0].listenFd > 0 && ws[0] == Start(ws[0].listenFd)
    && forall i :: 0 <= i < |ws| - 1 ==> Next(ws[i], ws[i + 1])
  }

  // ----- the invariant

  predicate Of(e: End, k: nat) { e == ClientEnd(k) || e == ServerEnd(k) }

  /** The open descriptors of connection k are the ones in its record. */
  ghost predicate FdsOk(c: Conn, k: nat, table: map<int, End>) {
    && -1 !in table
    && (c.clientFd != -1 ==> c.clientFd in table && table[c.clientFd] == ClientEnd(k))
    && (c.serverFd != -1 ==> c.serverFd in table && table[c.serverFd] == ServerEnd(k))
    && (forall fd :: fd in table && table[fd] == ClientEnd(k) ==> fd == c.clientFd)
    && (forall fd :: fd in table && table[fd] == ServerEnd(k) ==> fd == c.serverFd)
  }

  ghost predicate StreamsOk(c: Conn, k: nat, sockets: map<End, Socket>) {
    && ClientEnd(k) in sockets
    && var client := sockets[ClientEnd(k)];
    && c.original == client.stream[..client.taken]
    && if c.state == ReadingClient then
        && c.clientFd != -1 && c.serverFd == -1 && c.modified == "" && c.response == ""
        && client.sent == "" && ServerEnd(k) !in sockets
      else
        && ServerEnd(k) in sockets
        && var server := sockets[ServerEnd(k)];
        && server.sent == c.modified[..c.written] && client.sent == c.response[..c.sent]
        && c.response == server.stream[..server.taken]
        && (c.state != WritingServer ==> c.written == |c.modified|)
        && (c.state == WritingServer ==> c.response == "")
        && (c.state == WritingServer || c.state == ReadingServer ==> c.sent == 0)
        && (c.state == WritingClient || c.state == Finished ==> server.taken == |server.stream|)
        && (c.state == Finished ==> c.sent == |c.response|)
        && (c.clientFd == -1 <==> c.state == Finished)
        && (c.serverFd == -1 <==> c.state == WritingClient || c.state == Finished)
  }

  ghost predicate ConnOk(c: Conn, k: nat, kern: Kern) {
    FdsOk(c, k, kern.table) && StreamsOk(c, k, kern.sockets)
  }

  ghost predicate TableOk(w: World) {
    && -1 !in w.kern.table
    && forall fd :: fd in w.kern.table ==>
      match w.kern.table[fd]
      case Listener => fd == w.listenFd
      case ClientEnd(k) => k < |w.conns|
      case ServerEnd(k) => k < |w.conns|
  }

  ghost predicate Inv(w: World) {
    && TableOk(w)
    && (forall e :: e in w.kern.sockets ==> e != Listener && e.k < |w.conns|)
    && (forall k :: 0 <= k < |w.conns| ==> ConnOk(w.conns[k], k, w.kern))
  }

  // ----- what handling an event of one connection leaves alone

  /** The kernel's state for everything that is not of connection k is as before. */
  ghost predicate Apart(k: nat, before: Kern, after: Kern) {
    && (forall fd :: fd in before.table && !Of(before.table[fd], k) ==>
      fd in after.table && after.table[fd] == before.table[fd])
    && (forall fd :: fd in after.table && !Of(after.table[fd], k) ==>
      fd in before.table && after.table[fd] == before.table[fd])
    && (forall e :: !Of(e, k) ==> (e in before.sockets <==> e in after.sockets))
    && (forall e :: e in before.sockets && !Of(e, k) ==> after.sockets[e] == before.sockets[e])
  }

  lemma ApartTwice(k: nat, a: Kern, b: Kern, c: Kern)
    requires Apart(k, a, b) && Apart(k, b, c)
    ensures Apart(k, a, c)
  {
  }

  function Rank(s: State): nat {
    match s
    case ReadingClient => 0
    case WritingServer => 1
    case ReadingServer => 2
    case WritingClient => 3
    case Finished => 4
  }

  predicate Prefix(a: string, b: string) { |a| <= |b| && a == b[..|a|] }

  /** A record only ever advances. */
  ghost predicate Advances(c: Conn, c': Conn) {
    && Rank(c.state) <= Rank(c'.state)
    && Prefix(c.original, c'.original) && Prefix(c.response, c'.response)
    && (c.state != ReadingClient ==> c'.modified == c.modified && c'.original == c.original)
    && c.written <= c'.written && c.sent <= c'.sent
  }

  lemma AdvancesTwice(a: Conn, b: Conn, c: Conn)
    requires Advances(a, b) && Advances(b, c)
    ensures Advances(a, c)
  {
    assert c.original[..|b.original|][..|a.original|] == c.original[..|a.original|];
    assert c.response[..|b.response|][..|a.response|] == c.response[..|a.response|];
  }

  /** Handling an event of connection k in a good state leaves k good and the others alone. */
  ghost predicate Fine(c: Conn, k: nat, kern: Kern, h: Handled) {
    h.Returns? ==>
      && ConnOk(h.conn, k, h.kern) && Apart(k, kern, h.kern) && Advances(c, h.conn)
      && (forall e :: e in h.kern.sockets ==> e in kern.sockets || Of(e, k))
  }

  lemma FineThen(c: Conn, k: nat, kern: Kern, c': Conn, kern': Kern, h: Handled)
    requires Apart(k, kern, kern') && Advances(c, c') && Fine(c', k, kern', h)
    ensures Fine(c, k, kern, h)
  {
    if h.Returns? {
      ApartTwice(k, kern, kern', h.kern);
      AdvancesTwice(c, c', h.conn);
    }
  }

  // ----- every handler is fine

  lemma ScriptOnly(c: Conn, k: nat, kern: Kern, script: seq<Call>)
    requires ConnOk(c, k, kern)
    ensures ConnOk(c, k, kern.(script := script)) && Apart(k, kern, kern.(script := script)) && Advances(c, c)
  {
    assert c.original[..|c.original|] == c.original && c.response[..|c.response|] == c.response;
  }

  /** A call that would block. */
  lemma FineBlocked(c: Conn, k: nat, kern: Kern, script: seq<Call>)
    requires ConnOk(c, k, kern)
    ensures Fine(c, k, kern, Returns(c, kern.(script := script)))
  {
    ScriptOnly(c, k, kern, script);
  }

  lemma PrefixGrows(a: string, b: string)
    ensures Prefix(a, a + b)
  {
    assert (a + b)[..|a|] == a;
  }

  lemma PrefixSelf(a: string)
    ensures Prefix(a, a)
  {
    assert a[..|a|] == a;
  }

  lemma ClientRead(c: Conn, k: nat, kern: Kern)
    requires ConnOk(c, k, kern) && c.state == ReadingClient
    requires Read(kern, c.clientFd, MAX_OBJECT_SIZE).ReadGets?
    ensures var r := Read(kern, c.clientFd, MAX_OBJECT_SIZE);
      var c' := c.(original := c.original + r.bytes);
      ConnOk(c', k, r.kern) && Apart(k, kern, r.kern) && Advances(c, c')
  {
    var r := Read(kern, c.clientFd, MAX_OBJECT_SIZE);
    var before, after := kern.sockets[ClientEnd(k)], r.kern.sockets[ClientEnd(k)];
    assert after.stream[..after.taken] == before.stream[..before.taken] + r.bytes;
    PrefixGrows(c.original, r.bytes);
    assert c.response[..|c.response|] == c.response;
  }

  lemma Connected(c: Conn, k: nat, kern: Kern, modified: string)
    requires ConnOk(c, k, kern) && c.state == ReadingClient
    requires kern.script != [] && Usable(kern, kern.script[0])
    ensures Fine(c, k, kern,
      Returns(c.(modified := modified, serverFd := kern.script[0].fd, state := WritingServer),
        Open(kern, ServerEnd(k))))
  {
    PrefixSelf(c.original);
    assert modified[..0] == "";
  }

  lemma ConnectFine(c: Conn, k: nat, kern: Kern)
    requires ConnOk(c, k, kern) && c.state == ReadingClient
    ensures Fine(c, k, kern, Connect(c, k, kern))
  {
    var h := Connect(c, k, kern);
    if h.Returns? {
      Connected(c, k, kern, h.conn.modified);
    }
  }

  lemma {:induction false} ReadClientFine(c: Conn, k: nat, kern: Kern)
    requires ConnOk(c, k, kern) && c.state == ReadingClient
    ensures Fine(c, k, kern, ReadClient(c, k, kern))
    decreases |kern.script|
  {
    if BlankLine(UpToNul(c.original)) {
      ConnectFine(c, k, kern);
    } else {
      match Read(kern, c.clientFd, MAX_OBJECT_SIZE)
      case ReadFails =>
      case ReadBlocks(after) => FineBlocked(c, k, kern, after.script);
      case ReadGets(bytes, after) =>
        ClientRead(c, k, kern);
        ReadClientFine(c.(original := c.original + bytes), k, after);
        FineThen(c, k, kern, c.(original := c.original + bytes), after, ReadClient(c, k, kern));
    }
  }

  lemma ApartSocket(k: nat, kern: Kern, e: End, s: Socket, script: seq<Call>)
    requires Of(e, k)
    ensures Apart(k, kern, kern.(sockets := kern.sockets[e := s], script := script))
  {
  }

  lemma AdvancesBy(c: Conn, bytes: string, n: nat, m: nat)
    requires c.written + n <= |c.modified| && c.sent + m <= |c.response| && c.state != ReadingClient
    ensures Advances(c, c.(response := c.response + bytes, written := c.written + n, sent := c.sent + m))
  {
    PrefixSelf(c.original);
    PrefixGrows(c.response, bytes);
  }

  lemma Taken(s: string, i: nat, n: nat)
    requires i + n <= |s|
    ensures s[..i] + s[i..][..n] == s[..i + n]
    ensures s[..i] + s[i..i + n] == s[..i + n]
  {
  }

  lemma ServerSent(c: Conn, k: nat, sockets: map<End, Socket>, n: nat)
    requires StreamsOk(c, k, sockets) && c.state == WritingServer && c.written + n <= |c.modified|
    ensures var s := sockets[ServerEnd(k)];
      StreamsOk(c.(written := c.written + n), k,
        sockets[ServerEnd(k) := s.(sent := s.sent + c.modified[c.written..][..n])])
  {
    Taken(c.modified, c.written, n);
  }

  lemma ServerWritten(c: Conn, k: nat, kern: Kern)
    requires ConnOk(c, k, kern) && c.state == WritingServer
    requires Write(kern, c.serverFd, c.modified[c.written..]).WriteTakes?
    ensures var r := Write(kern, c.serverFd, c.modified[c.written..]);
      && c.written + r.n <= |c.modified|
      && ConnOk(c.(written := c.written + r.n), k, r.kern) && Apart(k, kern, r.kern)
      && Advances(c, c.(written := c.written + r.n))
  {
    var r := Write(kern, c.serverFd, c.modified[c.written..]);
    var s := kern.sockets[ServerEnd(k)];
    ServerSent(c, k, kern.sockets, r.n);
    ApartSocket(k, kern, ServerEnd(k), s.(sent := s.sent + c.modified[c.written..][..r.n]), r.kern.script);
    AdvancesBy(c, "", r.n, 0);
    assert c.response + "" == c.response;
  }

  lemma ServerAsked(c: Conn, k: nat, kern: Kern)
    requires ConnOk(c, k, kern) && c.state == WritingServer && c.written == |c.modified|
    ensures Fine(c, k, kern, Returns(c.(state := ReadingServer), kern))
  {
    ScriptOnly(c, k, kern, []);
    var socket := kern.sockets[ServerEnd(k)];
    assert socket.stream[..socket.taken] == "";
  }

  lemma {:induction false} WriteServerFine(c: Conn, k: nat, kern: Kern)
    requires ConnOk(c, k, kern) && c.state == WritingServer
    ensures Fine(c, k, kern, WriteServer(c, kern))
    decreases |kern.script|
  {
    if c.written == |c.modified| {
      ServerAsked(c, k, kern);
    } else {
      match Write(kern, c.serverFd, c.modified[c.written..])
      case WriteFails =>
      case WriteBlocks(after) => FineBlocked(c, k, kern, after.script);
      case WriteTakes(n, after) =>
        ServerWritten(c, k, kern);
        var c' := c.(written := c.written + n);
        var h := WriteServer(c', after);
        WriteServerFine(c', k, after);
        FineThen(c, k, kern, c', after, h);
        assert WriteServer(c, kern) == h;
    }
  }

  lemma ServerGot(c: Conn, k: nat, sockets: map<End, Socket>, n: nat)
    requires StreamsOk(c, k, sockets) && c.state == ReadingServer
    requires var s := sockets[ServerEnd(k)]; s.taken + n <= |s.stream|
    ensures var s := sockets[ServerEnd(k)];
      StreamsOk(c.(response := c.response + s.stream[s.taken..s.taken + n]), k,
        sockets[ServerEnd(k) := s.(taken := s.taken + n)])
  {
    var s := sockets[ServerEnd(k)];
    Taken(s.stream, s.taken, n);
  }

  lemma ServerRead(c: Conn, k: nat, kern: Kern)
    requires ConnOk(c, k, kern) && c.state == ReadingServer
    requires Read(kern, c.serverFd, MAX_OBJECT_SIZE).ReadGets?
    ensures var r := Read(kern, c.serverFd, MAX_OBJECT_SIZE);
      var c' := c.(response := c.response + r.bytes);
      && ConnOk(c', k, r.kern) && Apart(k, kern, r.kern) && Advances(c, c')
      && (r.bytes == "" ==> var s := r.kern.sockets[ServerEnd(k)]; s.taken == |s.stream|)
  {
    var r := Read(kern, c.serverFd, MAX_OBJECT_SIZE);
    var s := kern.sockets[ServerEnd(k)];
    var n := |r.bytes|;
    ServerGot(c, k, kern.sockets, n);
    ApartSocket(k, kern, ServerEnd(k), s.(taken := s.taken + n), r.kern.script);
    AdvancesBy(c, r.bytes, 0, 0);
  }

  lemma ServerClosed(c: Conn, k: nat, kern: Kern)
    requires ConnOk(c, k, kern) && c.state == ReadingServer
    requires var s := kern.sockets[ServerEnd(k)]; s.taken == |s.stream|
    ensures Fine(c, k, kern, Returns(c.(state := WritingClient, serverFd := -1), Close(kern, c.serverFd)))
  {
    ScriptOnly(c, k, kern, []);
  }

  lemma {:induction false} ReadServerFine(c: Conn, k: nat, kern: Kern)
    requires ConnOk(c, k, kern) && c.state == ReadingServer
    ensures Fine(c, k, kern, ReadServer(c, kern))
    decreases |kern.script|
  {
    match Read(kern, c.serverFd, MAX_OBJECT_SIZE)
    case ReadFails =>
    case ReadBlocks(after) => FineBlocked(c, k, kern, after.script);
    case ReadGets(bytes, after) =>
      ServerRead(c, k, kern);
      var c' := c.(response := c.response + bytes);
      if bytes != "" {
        ReadServerFine(c', k, after);
      } else {
        assert c' == c by {
          assert c.response + "" == c.response;
        }
        ServerClosed(c, k, after);
      }
      FineThen(c, k, kern, c', after, ReadServer(c, kern));
  }

  lemma ClientSent(c: Conn, k: nat, sockets: map<End, Socket>, n: nat)
    requires StreamsOk(c, k, sockets) && c.state == WritingClient && c.sent + n <= |c.response|
    ensures var s := sockets[ClientEnd(k)];
      StreamsOk(c.(sent := c.sent + n), k,
        sockets[ClientEnd(k) := s.(sent := s.sent + c.response[c.sent..][..n])])
  {
    Taken(c.response, c.sent, n);
  }

  lemma ClientWritten(c: Conn, k: nat, kern: Kern)
    requires ConnOk(c, k, kern) && c.state == WritingClient
    requires Write(kern, c.clientFd, c.response[c.sent..]).WriteTakes?
    ensures var r := Write(kern, c.clientFd, c.response[c.sent..]);
      && c.sent + r.n <= |c.response|
      && ConnOk(c.(sent := c.sent + r.n), k, r.kern) && Apart(k, kern, r.kern)
      && Advances(c, c.(sent := c.sent + r.n))
  {
    var r := Write(kern, c.clientFd, c.response[c.sent..]);
    var s := kern.sockets[ClientEnd(k)];
    ClientSent(c, k, kern.sockets, r.n);
    ApartSocket(k, kern, ClientEnd(k), s.(sent := s.sent + c.response[c.sent..][..r.n]), r.kern.script);
    AdvancesBy(c, "", 0, r.n);
    assert c.response + "" == c.response;
  }

  lemma ClientClosed(c: Conn, k: nat, kern: Kern)
    requires ConnOk(c, k, kern) && c.state == WritingClient && c.sent == |c.response|
    ensures Fine(c, k, kern, Returns(c.(state := Finished, clientFd := -1), Close(kern, c.clientFd)))
  {
    ScriptOnly(c, k, kern, []);
  }

  lemma {:induction false} WriteClientFine(c: Conn, k: nat, kern: Kern)
    requires ConnOk(c, k, kern) && c.state == WritingClient
    ensures Fine(c, k, kern, WriteClient(c, kern))
    decreases |kern.script|
  {
    if c.sent == |c.response| {
      ClientClosed(c, k, kern);
    } else {
      match Write(kern, c.clientFd, c.response[c.sent..])
      case WriteFails =>
      case WriteBlocks(after) => FineBlocked(c, k, kern, after.script);
      case WriteTakes(n, after) =>
        ClientWritten(c, k, kern);
        var c' := c.(sent := c.sent + n);
        var h := WriteClient(c', after);
        WriteClientFine(c', k, after);
        FineThen(c, k, kern, c', after, h);
        assert WriteClient(c, kern) == h;
    }
  }

  lemma DispatchFine(c: Conn, k: nat, kern: Kern)
    requires ConnOk(c, k, kern)
    ensures Fine(c, k, kern, Dispatch(c, k, kern))
  {
    match c.state
    case ReadingClient => ReadClientFine(c, k, kern);
    case WritingServer => WriteServerFine(c, k, kern);
    case ReadingServer => ReadServerFine(c, k, kern);
    case WritingClient => WriteClientFine(c, k, kern);
    case Finished => ScriptOnly(c, k, kern, []);
  }

  // ----- the request that is forwarded

  /** The request for the server is the rewriting of what the client sent. */
  ghost predicate Asked(c: Conn) {
    && BlankLine(UpToNul(c.original))
    && Rewrite(UpToNul(c.original)).Some? && Rewrite(UpToNul(c.original)).value.request == c.modified
  }

  lemma {:induction false} ReadClientAsks(c: Conn, k: nat, kern: Kern)
    requires c.state == ReadingClient && ReadClient(c, k, kern).Returns?
    requires ReadClient(c, k, kern).conn.state != ReadingClient
    ensures Asked(ReadClient(c, k, kern).conn)
    decreases |kern.script|
  {
    if !BlankLine(UpToNul(c.original)) {
      match Read(kern, c.clientFd, MAX_OBJECT_SIZE)
      case ReadBlocks(after) =>
      case ReadGets(bytes, after) => ReadClientAsks(c.(original := c.original + bytes), k, after);
    }
  }

  // ----- every event keeps the invariant

  lemma ApartKeeps(c: Conn, j: nat, k: nat, before: Kern, after: Kern)
    requires ConnOk(c, j, before) && Apart(k, before, after) && j != k && -1 !in after.table
    ensures ConnOk(c, j, after)
  {
  }

  lemma FindsOwner(w: World, fd: int, k: nat)
    requires Inv(w) && fd in w.kern.table
    ensures FindFd(w.conns, fd) == Some(k) <==> Of(w.kern.table[fd], k)
  {
    var found := FindFd(w.conns, fd);
    if found.Some? {
      assert ConnOk(w.conns[found.value], found.value, w.kern);
    }
    if Of(w.kern.table[fd], k) {
      assert ConnOk(w.conns[k], k, w.kern);
    }
  }

  lemma ReadyKeepsInv(w: World, fd: int)
    requires Inv(w) && fd in w.kern.table && fd != w.listenFd && Handle(w, Ready(fd)).Some?
    ensures Inv(Handle(w, Ready(fd)).value)
  {
    var k := FindFd(w.conns, fd).value;
    var c := w.conns[k];
    var h := Dispatch(c, k, w.kern);
    var w' := Handle(w, Ready(fd)).value;
    assert ConnOk(c, k, w.kern);
    DispatchFine(c, k, w.kern);
    forall j | 0 <= j < |w.conns| ensures ConnOk(w'.conns[j], j, w'.kern) {
      if j != k {
        assert ConnOk(w.conns[j], j, w.kern);
        ApartKeeps(w.conns[j], j, k, w.kern, w'.kern);
      }
    }
  }

  lemma AcceptOne(w: World)
    requires Inv(w) && w.kern.script != [] && Usable(w.kern, w.kern.script[0])
    ensures Inv(w.(conns := w.conns + [NewConn(w.kern.script[0].fd)], kern := Open(w.kern, ClientEnd(|w.conns|))))
  {
    var n, fd := |w.conns|, w.kern.script[0].fd;
    var w' := w.(conns := w.conns + [NewConn(fd)], kern := Open(w.kern, ClientEnd(n)));
    assert w'.kern.table == w.kern.table[fd := ClientEnd(n)];
    forall j | 0 <= j <= n ensures ConnOk(w'.conns[j], j, w'.kern) {
      if j < n {
        assert ConnOk(w.conns[j], j, w.kern);
        ApartKeeps(w.conns[j], j, n, w.kern, w'.kern);
      }
    }
  }

  lemma {:induction false} AcceptKeepsInv(w: World)
    requires Inv(w) && Accept(w).Some?
    ensures Inv(Accept(w).value) && |w.conns| <= |Accept(w).value.conns|
    ensures Accept(w).value.conns[..|w.conns|] == w.conns
    decreases |w.kern.script|
  {
    if !Listening(w) || w.kern.script == [] {
    } else if !Usable(w.kern, w.kern.script[0]) {
      InvScript(w, w.kern.script[1..]);
    } else {
      AcceptOne(w);
      var w' := w.(conns := w.conns + [NewConn(w.kern.script[0].fd)], kern := Open(w.kern, ClientEnd(|w.conns|)));
      AcceptKeepsInv(w');
      assert w'.conns[..|w.conns|] == w.conns;
      assert Accept(w).value.conns[..|w'.conns|][..|w.conns|] == Accept(w).value.conns[..|w.conns|];
    }
  }

  lemma InvScript(w: World, script: seq<Call>)
    requires Inv(w)
    ensures Inv(WithScript(w, script))
  {
    var w' := WithScript(w, script);
    forall k | 0 <= k < |w.conns| ensures ConnOk(w'.conns[k], k, w'.kern) {
      assert ConnOk(w.conns[k], k, w.kern);
    }
  }

  lemma NextKeepsInv(w: World, w': World)
    requires Inv(w) && Next(w, w')
    ensures Inv(w')
  {
    var fd, script :| Step(w, w', Ready(fd), script);
    InvScript(w, script);
    if fd == w.listenFd {
      AcceptKeepsInv(WithScript(w, script));
    } else {
      ReadyKeepsInv(WithScript(w, script), fd);
    }
  }

  lemma {:induction false} RunInv(ws: seq<World>, i: nat)
    requires IsRun(ws) && i < |ws|
    ensures Inv(ws[i])
  {
    if i > 0 {
      RunInv(ws, i - 1);
      assert Next(ws[i - 1], ws[i - 1 + 1]);
      NextKeepsInv(ws[i - 1], ws[i]);
    }
  }

  /** In every run every descriptor of a record is open and belongs to that record alone. */
  lemma DescriptorsDistinct(ws: seq<World>, i: nat, j: nat, k: nat)
    requires IsRun(ws) && i < |ws| && j < |ws[i].conns| && k < |ws[i].conns|
    ensures var a, b := ws[i].conns[j], ws[i].conns[k];
      && (a.clientFd != -1 ==> a.clientFd in ws[i].kern.table)
      && (a.serverFd != -1 ==> a.serverFd in ws[i].kern.table)
      && (j != k ==> Fds(a) * Fds(b) <= {-1})
      && (a.clientFd == a.serverFd ==> a.clientFd == -1)
  {
    RunInv(ws, i);
    assert ConnOk(ws[i].conns[j], j, ws[i].kern) && ConnOk(ws[i].conns[k], k, ws[i].kern);
  }

  /** In every run find_fd finds the one record of any descriptor that can have an event, so that the
      exit for an unknown descriptor is never taken. */
  lemma RunFindsOwner(ws: seq<World>, i: nat, fd: int)
    requires IsRun(ws) && i < |ws| && fd in ws[i].kern.table && fd != ws[i].listenFd
    ensures var found := FindFd(ws[i].conns, fd);
      found.Some? && found.value < |ws[i].conns| && Of(ws[i].kern.table[fd], found.value)
  {
    RunInv(ws, i);
    var e := ws[i].kern.table[fd];
    FindsOwner(ws[i], fd, e.k);
    assert Of(e, e.k);
  }

  /** The socket goes on: the peer's bytes are what they were, and nothing read or written is undone. */
  ghost predicate Goes(before: map<End, Socket>, after: map<End, Socket>) {
    forall e :: e in before ==> e in after && OnlyMore(before[e], after[e])
  }

  predicate OnlyMore(s: Socket, t: Socket) {
    t.stream == s.stream && s.taken <= t.taken && Prefix(s.sent, t.sent)
  }

  lemma GoesOne(sockets: map<End, Socket>, e: End, t: Socket)
    requires e in sockets ==> OnlyMore(sockets[e], t)
    ensures Goes(sockets, sockets[e := t])
  {
    forall d | d in sockets ensures OnlyMore(sockets[d], sockets[e := t][d]) {
      PrefixSelf(sockets[d].sent);
    }
  }

  lemma GoesTwice(a: map<End, Socket>, b: map<End, Socket>, c: map<End, Socket>)
    requires Goes(a, b) && Goes(b, c)
    ensures Goes(a, c)
  {
    forall e | e in a ensures e in c && OnlyMore(a[e], c[e]) {
      assert OnlyMore(a[e], b[e]) && OnlyMore(b[e], c[e]);
      assert c[e].sent[..|b[e].sent|][..|a[e].sent|] == c[e].sent[..|a[e].sent|];
    }
  }

  lemma GoesSelf(sockets: map<End, Socket>)
    ensures Goes(sockets, sockets)
  {
    forall e | e in sockets ensures OnlyMore(sockets[e], sockets[e]) {
      PrefixSelf(sockets[e].sent);
    }
  }

  lemma ReadGoes(kern: Kern, fd: int, max: nat)
    ensures var r := Read(kern, fd, max);
      && (r.ReadBlocks? ==> r.kern.sockets == kern.sockets)
      && (r.ReadGets? ==> Goes(kern.sockets, r.kern.sockets))
  {
    var r := Read(kern, fd, max);
    if r.ReadGets? {
      var e := kern.table[fd];
      PrefixSelf(kern.sockets[e].sent);
      GoesOne(kern.sockets, e, r.kern.sockets[e]);
    }
  }

  lemma WriteGoes(kern: Kern, fd: int, bytes: string)
    ensures var r := Write(kern, fd, bytes);
      && (r.WriteBlocks? ==> r.kern.sockets == kern.sockets)
      && (r.WriteTakes? ==> Goes(kern.sockets, r.kern.sockets))
  {
    var r := Write(kern, fd, bytes);
    if r.WriteTakes? {
      var e := kern.table[fd];
      PrefixGrows(kern.sockets[e].sent, bytes[..r.n]);
      GoesOne(kern.sockets, e, r.kern.sockets[e]);
    }
  }

  ghost predicate HandledGoes(kern: Kern, h: Handled) {
    h.Returns? ==> Goes(kern.sockets, h.kern.sockets)
  }

  lemma HandledThen(a: Kern, b: Kern, h: Handled)
    requires Goes(a.sockets, b.sockets) && HandledGoes(b, h)
    ensures HandledGoes(a, h)
  {
    if h.Returns? {
      GoesTwice(a.sockets, b.sockets, h.kern.sockets);
    }
  }

  lemma ConnectGoes(c: Conn, k: nat, kern: Kern)
    requires c.state == ReadingClient && ServerEnd(k) !in kern.sockets
    ensures HandledGoes(kern, Connect(c, k, kern))
  {
    var h := Connect(c, k, kern);
    if h.Returns? {
      GoesOne(kern.sockets, ServerEnd(k), h.kern.sockets[ServerEnd(k)]);
    }
  }

  lemma {:induction false} ReadClientGoes(c: Conn, k: nat, kern: Kern)
    requires ConnOk(c, k, kern) && c.state == ReadingClient
    ensures HandledGoes(kern, ReadClient(c, k, kern))
    decreases |kern.script|
  {
    GoesSelf(kern.sockets);
    if BlankLine(UpToNul(c.original)) {
      ConnectGoes(c, k, kern);
    } else {
      ReadGoes(kern, c.clientFd, MAX_OBJECT_SIZE);
      match Read(kern, c.clientFd, MAX_OBJECT_SIZE)
      case ReadFails =>
      case ReadBlocks(after) =>
      case ReadGets(bytes, after) =>
        ClientRead(c, k, kern);
        ReadClientGoes(c.(original := c.original + bytes), k, after);
        HandledThen(kern, after, ReadClient(c, k, kern));
    }
  }

  lemma {:induction false} WriteServerGoes(c: Conn, kern: Kern)
    requires c.state == WritingServer
    ensures HandledGoes(kern, WriteServer(c, kern))
    decreases |kern.script|
  {
    GoesSelf(kern.sockets);
    WriteGoes(kern, c.serverFd, c.modified[c.written..]);
    if c.written != |c.modified| {
      match Write(kern, c.serverFd, c.modified[c.written..])
      case WriteFails =>
      case WriteBlocks(after) =>
      case WriteTakes(n, after) =>
        WriteServerGoes(c.(written := c.written + n), after);
        HandledThen(kern, after, WriteServer(c, kern));
    }
  }

  lemma {:induction false} ReadServerGoes(c: Conn, kern: Kern)
    requires c.state == ReadingServer
    ensures HandledGoes(kern, ReadServer(c, kern))
    decreases |kern.script|
  {
    GoesSelf(kern.sockets);
    ReadGoes(kern, c.serverFd, MAX_OBJECT_SIZE);
    match Read(kern, c.serverFd, MAX_OBJECT_SIZE)
    case ReadFails =>
    case ReadBlocks(after) =>
    case ReadGets(bytes, after) =>
      if bytes != "" {
        ReadServerGoes(c.(response := c.response + bytes), after);
        HandledThen(kern, after, ReadServer(c, kern));
      }
  }

  lemma {:induction false} WriteClientGoes(c: Conn, kern: Kern)
    requires c.state == WritingClient
    ensures HandledGoes(kern, WriteClient(c, kern))
    decreases |kern.script|
  {
    GoesSelf(kern.sockets);
    WriteGoes(kern, c.clientFd, c.response[c.sent..]);
    if c.sent != |c.response| {
      match Write(kern, c.clientFd, c.response[c.sent..])
      case WriteFails =>
      case WriteBlocks(after) =>
      case WriteTakes(n, after) =>
        WriteClientGoes(c.(sent := c.sent + n), after);
        HandledThen(kern, after, WriteClient(c, kern));
    }
  }

  /** An event of one connection leaves every other connection's record and sockets as they were,
      advances its own record, and undoes nothing that was read or written. */
  lemma EventIsLocal(w: World, w': World, fd: int, script: seq<Call>)
    requires Inv(w) && Step(w, w', Ready(fd), script) && fd != w.listenFd
    ensures |w'.conns| == |w.conns| && w.kern.table[fd] != Listener
    ensures var k := w.kern.table[fd].k;
      k < |w.conns| && Advances(w.conns[k], w'.conns[k]) && Apart(k, w.kern, w'.kern)
    ensures forall j :: 0 <= j < |w.conns| && j != w.kern.table[fd].k ==> w'.conns[j] == w.conns[j]
    ensures Goes(w.kern.sockets, w'.kern.sockets)
  {
    var v := WithScript(w, script);
    InvScript(w, script);
    var k := w.kern.table[fd].k;
    FindsOwner(v, fd, k);
    var c := w.conns[k];
    assert ConnOk(v.conns[k], k, v.kern);
    DispatchFine(c, k, v.kern);
    match c.state {
      case ReadingClient => ReadClientGoes(c, k, v.kern);
      case WritingServer => WriteServerGoes(c, v.kern);
      case ReadingServer => ReadServerGoes(c, v.kern);
      case WritingClient => WriteClientGoes(c, v.kern);
      case Finished => GoesSelf(v.kern.sockets);
    }
  }

  lemma {:induction false} AcceptGoes(w: World)
    requires Inv(w) && Accept(w).Some?
    ensures Goes(w.kern.sockets, Accept(w).value.kern.sockets)
    decreases |w.kern.script|
  {
    GoesSelf(w.kern.sockets);
    if Listening(w) && w.kern.script != [] && Usable(w.kern, w.kern.script[0]) {
      AcceptOne(w);
      var w' := w.(conns := w.conns + [NewConn(w.kern.script[0].fd)], kern := Open(w.kern, ClientEnd(|w.conns|)));
      GoesOne(w.kern.sockets, ClientEnd(|w.conns|), w'.kern.sockets[ClientEnd(|w.conns|)]);
      AcceptGoes(w');
      GoesTwice(w.kern.sockets, w'.kern.sockets, Accept(w').value.kern.sockets);
    }
  }

  /** Accepting adds records and changes none. */
  lemma AcceptIsLocal(w: World, w': World, script: seq<Call>)
    requires Inv(w) && Step(w, w', Ready(w.listenFd), script)
    ensures |w.conns| <= |w'.conns| && w'.conns[..|w.conns|] == w.conns
    ensures Goes(w.kern.sockets, w'.kern.sockets)
  {
    var v := WithScript(w, script);
    InvScript(w, script);
    AcceptKeepsInv(v);
    AcceptGoes(v);
  }

  // ----- edge triggering

  /** The calls were used up to the end of the script or to one that did not move any byte: what is
      ready has been taken, as monitoring by edges demands. */
  ghost predicate Drained(before: seq<Call>, after: seq<Call>) {
    exists n: nat :: n <= |before| && StoppedAt(before, after, n)
  }

  predicate StoppedAt(before: seq<Call>, after: seq<Call>, n: nat)
    requires n <= |before|
  {
    after == before[n..] && (n == |before| || (n > 0 && !before[n - 1].Bytes?))
  }

  lemma DrainedNow(script: seq<Call>)
    ensures script == [] ==> Drained(script, script)
    ensures script != [] && !script[0].Bytes? ==> Drained(script, script[1..])
  {
    if script == [] {
      assert StoppedAt(script, script, 0);
    } else if !script[0].Bytes? {
      assert StoppedAt(script, script[1..], 1);
    }
  }

  lemma DrainedLater(before: seq<Call>, after: seq<Call>)
    requires before != [] && Drained(before[1..], after)
    ensures Drained(before, after)
  {
    var n: nat :| n <= |before[1..]| && StoppedAt(before[1..], after, n);
    assert before[1..][n..] == before[n + 1..];
    assert n > 0 ==> before[1..][n - 1] == before[n];
    assert StoppedAt(before, after, n + 1);
  }

  /** What is still to do before the state may change. */
  predicate Incomplete(c: Conn) {
    match c.state
    case ReadingClient => !BlankLine(UpToNul(c.original))
    case WritingServer => c.written < |c.modified|
    case ReadingServer => true
    case WritingClient => c.sent < |c.response|
    case Finished => false
  }

  /** The handler moves one state on, or its work is incomplete and the kernel has no more for it. */
  ghost predicate DoneOrDrained(from: State, script: seq<Call>, h: Handled) {
    h.Returns? ==>
      || (Rank(h.conn.state) == Rank(from) + 1)
      || (h.conn.state == from && Incomplete(h.conn) && Drained(script, h.kern.script))
  }

  lemma {:induction false} ReadClientDrains(c: Conn, k: nat, kern: Kern)
    requires c.state == ReadingClient
    ensures DoneOrDrained(ReadingClient, kern.script, ReadClient(c, k, kern))
    decreases |kern.script|
  {
    if !BlankLine(UpToNul(c.original)) {
      DrainedNow(kern.script);
      match Read(kern, c.clientFd, MAX_OBJECT_SIZE)
      case ReadFails =>
      case ReadBlocks(after) =>
      case ReadGets(bytes, after) =>
        var c' := c.(original := c.original + bytes);
        ReadClientDrains(c', k, after);
        var h := ReadClient(c', k, after);
        if h.Returns? && h.conn.state == ReadingClient {
          DrainedLater(kern.script, h.kern.script);
        }
    }
  }

  lemma {:induction false} WriteServerDrains(c: Conn, kern: Kern)
    requires c.state == WritingServer
    ensures DoneOrDrained(WritingServer, kern.script, WriteServer(c, kern))
    decreases |kern.script|
  {
    if c.written != |c.modified| {
      DrainedNow(kern.script);
      match Write(kern, c.serverFd, c.modified[c.written..])
      case WriteFails =>
      case WriteBlocks(after) =>
      case WriteTakes(n, after) =>
        var c' := c.(written := c.written + n);
        WriteServerDrains(c', after);
        var h := WriteServer(c', after);
        if h.Returns? && h.conn.state == WritingServer {
          DrainedLater(kern.script, h.kern.script);
        }
    }
  }

  lemma {:induction false} ReadServerDrains(c: Conn, kern: Kern)
    requires c.state == ReadingServer
    ensures DoneOrDrained(ReadingServer, kern.script, ReadServer(c, kern))
    decreases |kern.script|
  {
    DrainedNow(kern.script);
    match Read(kern, c.serverFd, MAX_OBJECT_SIZE)
    case ReadFails =>
    case ReadBlocks(after) =>
    case ReadGets(bytes, after) =>
      if bytes != "" {
        var c' := c.(response := c.response + bytes);
        ReadServerDrains(c', after);
        var h := ReadServer(c', after);
        if h.Returns? && h.conn.state == ReadingServer {
          DrainedLater(kern.script, h.kern.script);
        }
      }
  }

  lemma {:induction false} WriteClientDrains(c: Conn, kern: Kern)
    requires c.state == WritingClient
    ensures DoneOrDrained(WritingClient, kern.script, WriteClient(c, kern))
    decreases |kern.script|
  {
    if c.sent != |c.response| {
      DrainedNow(kern.script);
      match Write(kern, c.clientFd, c.response[c.sent..])
      case WriteFails =>
      case WriteBlocks(after) =>
      case WriteTakes(n, after) =>
        var c' := c.(sent := c.sent + n);
        WriteClientDrains(c', after);
        var h := WriteClient(c', after);
        if h.Returns? && h.conn.state == WritingClient {
          DrainedLater(kern.script, h.kern.script);
        }
    }
  }

  /** An event never leaves a connection waiting while its descriptor is ready: the handler goes one
      state on, or stops with its work incomplete at a call that would block. */
  lemma DispatchDrains(c: Conn, k: nat, kern: Kern)
    requires c.state != Finished
    ensures DoneOrDrained(c.state, kern.script, Dispatch(c, k, kern))
  {
    match c.state
    case ReadingClient => ReadClientDrains(c, k, kern);
    case WritingServer => WriteServerDrains(c, kern);
    case ReadingServer => ReadServerDrains(c, kern);
    case WritingClient => WriteClientDrains(c, kern);
  }

  /** A client that closes before its blank line: no number of reads gets read_client out of its loop,
      and none changes anything. The model's handler returns only because its script ends. */
  lemma {:induction false} ClosedClientSpins(c: Conn, k: nat, kern: Kern)
    requires ConnOk(c, k, kern) && c.state == ReadingClient && !BlankLine(UpToNul(c.original))
    requires var client := kern.sockets[ClientEnd(k)]; client.taken == |client.stream|
    requires forall i :: 0 <= i < |kern.script| ==> kern.script[i].Bytes?
    ensures ReadClient(c, k, kern) == Returns(c, kern.(script := []))
    decreases |kern.script|
  {
    if kern.script != [] {
      var client, after := kern.sockets[ClientEnd(k)], kern.(script := kern.script[1..]);
      assert client.stream[client.taken..client.taken] == "" && c.original + "" == c.original;
      assert kern.sockets[ClientEnd(k) := client] == kern.sockets;
      assert Read(kern, c.clientFd, MAX_OBJECT_SIZE) == ReadGets("", after);
      ScriptOnly(c, k, kern, kern.script[1..]);
      ClosedClientSpins(c, k, after);
    }
  }

  predicate NoHardError(script: seq<Call>) {
    forall i :: 0 <= i < |script| ==> !script[i].Hard?
  }

  lemma {:induction false} WriteServerStaysUp(c: Conn, k: nat, kern: Kern)
    requires ConnOk(c, k, kern) && NoHardError(kern.script) && c.state == WritingServer
    ensures WriteServer(c, kern).Returns?
    decreases |kern.script|
  {
    var r := Write(kern, c.serverFd, c.modified[c.written..]);
    if c.written != |c.modified| && r.WriteTakes? {
      ServerWritten(c, k, kern);
      WriteServerStaysUp(c.(written := c.written + r.n), k, r.kern);
    }
  }

  lemma {:induction false} ReadServerStaysUp(c: Conn, k: nat, kern: Kern)
    requires ConnOk(c, k, kern) && NoHardError(kern.script) && c.state == ReadingServer
    ensures ReadServer(c, kern).Returns?
    decreases |kern.script|
  {
    var r := Read(kern, c.serverFd, MAX_OBJECT_SIZE);
    if r.ReadGets? {
      ServerRead(c, k, kern);
      if r.bytes != "" {
        ReadServerStaysUp(c.(response := c.response + r.bytes), k, r.kern);
      }
    }
  }

  lemma {:induction false} WriteClientStaysUp(c: Conn, k: nat, kern: Kern)
    requires ConnOk(c, k, kern) && NoHardError(kern.script) && c.state == WritingClient
    ensures WriteClient(c, kern).Returns?
    decreases |kern.script|
  {
    var r := Write(kern, c.clientFd, c.response[c.sent..]);
    if c.sent != |c.response| && r.WriteTakes? {
      ClientWritten(c, k, kern);
      WriteClientStaysUp(c.(sent := c.sent + r.n), k, r.kern);
    }
  }

  /** Once its request is on the way, a connection in a good state ends the process only by a hard
      error of a system call. */
  lemma StaysUp(c: Conn, k: nat, kern: Kern)
    requires ConnOk(c, k, kern) && NoHardError(kern.script) && c.state != ReadingClient
    ensures Dispatch(c, k, kern).Returns?
  {
    match c.state
    case WritingServer => WriteServerStaysUp(c, k, kern);
    case ReadingServer => ReadServerStaysUp(c, k, kern);
    case WritingClient => WriteClientStaysUp(c, k, kern);
    case Finished =>
  }

  /** How many clients the kernel hands over before accept fails. */
  function Offered(kern: Kern, n: nat): nat
    decreases |kern.script|
  {
    if kern.script == [] || !Usable(kern, kern.script[0]) then 0
    else 1 + Offered(Open(kern, ClientEnd(n)), n + 1)
  }

  /** The accept loop makes a record for each of them, and the array overflows exactly when they are
      more than there is room for. */
  lemma {:induction false} AcceptTakesAll(w: World)
    requires Listening(w) && |w.conns| <= REQ_ARRAY_SIZE
    ensures Accept(w).None? <==> |w.conns| + Offered(w.kern, |w.conns|) > REQ_ARRAY_SIZE
    ensures Accept(w).Some? ==> |Accept(w).value.conns| == |w.conns| + Offered(w.kern, |w.conns|)
    decreases |w.kern.script|
  {
    if w.kern.script != [] && Usable(w.kern, w.kern.script[0]) && |w.conns| < REQ_ARRAY_SIZE {
      AcceptTakesAll(w.(conns := w.conns + [NewConn(w.kern.script[0].fd)], kern := Open(w.kern, ClientEnd(|w.conns|))));
    }
  }

  // ----- what is sent

  ghost predicate AskedOnceRead(c: Conn) { c.state != ReadingClient ==> Asked(c) }

  ghost predicate AllAsked(w: World) {
    forall k :: 0 <= k < |w.conns| ==> AskedOnceRead(w.conns[k])
  }

  lemma AskedStays(c: Conn, k: nat, kern: Kern)
    requires ConnOk(c, k, kern) && AskedOnceRead(c) && Dispatch(c, k, kern).Returns?
    ensures AskedOnceRead(Dispatch(c, k, kern).conn)
  {
    DispatchFine(c, k, kern);
    if c.state == ReadingClient && Dispatch(c, k, kern).conn.state != ReadingClient {
      ReadClientAsks(c, k, kern);
    }
  }

  lemma {:induction false} AcceptAsked(w: World)
    requires AllAsked(w) && Accept(w).Some?
    ensures AllAsked(Accept(w).value)
    decreases |w.kern.script|
  {
    if Listening(w) && w.kern.script != [] && Usable(w.kern, w.kern.script[0]) {
      AcceptAsked(w.(conns := w.conns + [NewConn(w.kern.script[0].fd)], kern := Open(w.kern, ClientEnd(|w.conns|))));
    }
  }

  lemma NextAsked(w: World, w': World)
    requires Inv(w) && AllAsked(w) && Next(w, w')
    ensures AllAsked(w')
  {
    var fd, script :| Step(w, w', Ready(fd), script);
    var v := WithScript(w, script);
    InvScript(w, script);
    if fd == w.listenFd {
      AcceptAsked(v);
    } else {
      var k := FindFd(v.conns, fd).value;
      assert ConnOk(v.conns[k], k, v.kern);
      assert AskedOnceRead(v.conns[k]);
      AskedStays(v.conns[k], k, v.kern);
    }
  }

  lemma RunNext(ws: seq<World>, i: nat)
    requires IsRun(ws) && 0 < i < |ws|
    ensures Next(ws[i - 1], ws[i])
  {
    assert Next(ws[i - 1], ws[i - 1 + 1]);
  }

  lemma {:induction false} RunAsked(ws: seq<World>, i: nat)
    requires IsRun(ws) && i < |ws|
    ensures AllAsked(ws[i])
  {
    if i > 0 {
      RunAsked(ws, i - 1);
      RunInv(ws, i - 1);
      RunNext(ws, i);
      NextAsked(ws[i - 1], ws[i]);
    }
  }

  /** In every run, for every connection: nothing is sent before the request is complete; what the
      server has been sent is a prefix of the rewriting of what the client sent, and what the client
      has been sent is a prefix of what the server sent; both are complete once it is finished. */
  lemma StreamsArePrefixes(ws: seq<World>, i: nat, k: nat)
    requires IsRun(ws) && i < |ws| && k < |ws[i].conns|
    ensures var c, sockets := ws[i].conns[k], ws[i].kern.sockets;
      && ClientEnd(k) in sockets
      && c.original == sockets[ClientEnd(k)].stream[..sockets[ClientEnd(k)].taken]
      && if c.state == ReadingClient then sockets[ClientEnd(k)].sent == "" && ServerEnd(k) !in sockets
        else
          && Asked(c) && ServerEnd(k) in sockets
          && Prefix(sockets[ServerEnd(k)].sent, c.modified)
          && Prefix(sockets[ClientEnd(k)].sent, sockets[ServerEnd(k)].stream)
          && (c.state != WritingServer ==> sockets[ServerEnd(k)].sent == c.modified)
          && (c.state == Finished ==> sockets[ClientEnd(k)].sent == sockets[ServerEnd(k)].stream)
  {
    RunInv(ws, i);
    RunAsked(ws, i);
    var c, sockets := ws[i].conns[k], ws[i].kern.sockets;
    assert ConnOk(c, k, ws[i].kern);
    if c.state != ReadingClient {
      assert AskedOnceRead(c);
      var server := sockets[ServerEnd(k)];
      assert c.modified[..|c.modified|] == c.modified && c.response[..|c.response|] == c.response;
      assert server.stream[..server.taken][..c.sent] == server.stream[..c.sent];
    }
  }

  /** The part of a request that has a blank line is all of it. */
  lemma WholeRequest(g: Get, taken: nat)
    requires GoodGet(g) && Free(Render(g), "\0") && taken <= |Render(g)|
    requires BlankLine(UpToNul(Render(g)[..taken]))
    ensures UpToNul(Render(g)[..taken]) == Render(g)
  {
    var part := Render(g)[..taken];
    assert Free(part, "\0");
    assert UpToNul(part) == part;
    EndsAtBlankLine(g, taken);
    assert Render(g)[..|Render(g)|] == Render(g);
  }

  /** For a client that sends one well-formed request, the server is sent the forwarded form of it,
      and once the connection is finished the client has been sent all that the server sent. */
  lemma EndToEnd(ws: seq<World>, i: nat, k: nat, g: Get)
    requires IsRun(ws) && i < |ws| && k < |ws[i].conns| && ws[i].conns[k].state != ReadingClient
    requires ClientEnd(k) in ws[i].kern.sockets && ws[i].kern.sockets[ClientEnd(k)].stream == Render(g)
    requires GoodGet(g) && ':' !in g.host && Free(Render(g), "\0")
    ensures var c, sockets := ws[i].conns[k], ws[i].kern.sockets;
      && ServerEnd(k) in sockets && Prefix(sockets[ServerEnd(k)].sent, Forwarded(g))
      && (c.state == Finished ==>
        sockets[ServerEnd(k)].sent == Forwarded(g)
        && sockets[ClientEnd(k)].sent == sockets[ServerEnd(k)].stream)
  {
    StreamsArePrefixes(ws, i, k);
    WholeRequest(g, ws[i].kern.sockets[ClientEnd(k)].taken);
    RewriteIsForwarded(g);
  }

  // ----- the error branch

  /** The kernel reports an error on a connection's descriptor: the descriptor is closed but stays in
      the record, so the record names a closed descriptor. */
  lemma ErrorLeavesStale(w: World, fd: int)
    requires Inv(w) && fd in w.kern.table && w.kern.table[fd] != Listener
    ensures var w' := Handle(w, Failed(fd)).value;
      && FindFd(w'.conns, fd) == Some(w.kern.table[fd].k) && fd !in w'.kern.table
      && w.kern.table[fd].k < |w.conns| && fd in Fds(w.conns[w.kern.table[fd].k])
      && !Inv(w')
  {
    var k := w.kern.table[fd].k;
    FindsOwner(w, fd, k);
    var w' := Handle(w, Failed(fd)).value;
    assert ConnOk(w.conns[k], k, w.kern);
    assert !ConnOk(w'.conns[k], k, w'.kern);
  }

  /** Every descriptor in a record is open or -1, no two records share one, and find_fd picks the owner
      of every open descriptor but the listening one. */
  ghost predicate RecordsGood(w: World) {
    && (forall k :: 0 <= k < |w.conns| ==> OpenOrGone(w.conns[k], w.kern.table))
    && (forall j, k :: 0 <= j < k < |w.conns| ==> Fds(w.conns[j]) * Fds(w.conns[k]) <= {-1})
    && (forall fd :: fd in w.kern.table && fd != w.listenFd ==> OwnerFound(w, fd))
  }

  predicate OpenOrGone(c: Conn, table: map<int, End>) {
    (c.clientFd == -1 || c.clientFd in table) && (c.serverFd == -1 || c.serverFd in table)
  }

  predicate OwnerFound(w: World, fd: int)
    requires fd in w.kern.table
  {
    w.kern.table[fd] != Listener && FindFd(w.conns, fd) == Some(w.kern.table[fd].k)
  }

  lemma InvMeansGood(w: World)
    requires Inv(w)
    ensures RecordsGood(w)
  {
    forall k | 0 <= k < |w.conns| ensures OpenOrGone(w.conns[k], w.kern.table) {
      assert ConnOk(w.conns[k], k, w.kern);
    }
    forall j, k | 0 <= j < k < |w.conns| ensures Fds(w.conns[j]) * Fds(w.conns[k]) <= {-1} {
      assert ConnOk(w.conns[j], j, w.kern) && ConnOk(w.conns[k], k, w.kern);
    }
    forall fd | fd in w.kern.table && fd != w.listenFd ensures OwnerFound(w, fd) {
      FindsOwner(w, fd, w.kern.table[fd].k);
    }
  }

  lemma ListenerFails(w: World, fd: int)
    requires Inv(w) && fd in w.kern.table && w.kern.table[fd] == Listener
    ensures Inv(Handle(w, Failed(fd)).value)
  {
    var w' := Handle(w, Failed(fd)).value;
    forall k | 0 <= k < |w.conns| ensures ConnOk(w'.conns[k], k, w'.kern) {
      assert ConnOk(w.conns[k], k, w.kern);
    }
  }

  /** An error event on an open descriptor leaves the records good exactly when it is the listening
      socket's. */
  lemma ErrorKeepsExactly(w: World, fd: int)
    requires Inv(w) && fd in w.kern.table
    ensures RecordsGood(Handle(w, Failed(fd)).value) <==> w.kern.table[fd] == Listener
  {
    if w.kern.table[fd] == Listener {
      ListenerFails(w, fd);
      InvMeansGood(Handle(w, Failed(fd)).value);
    } else {
      ErrorLeavesStale(w, fd);
      assert !OpenOrGone(w.conns[w.kern.table[fd].k], Close(w.kern, fd).table);
    }
  }

  /** And when the kernel gives that number to the next client, the events of that client find the
      old record: find_fd no longer finds the owner. */
  lemma ErrorThenReuse(w: World, fd: int, stream: string)
    requires Inv(w) && Listening(w) && |w.conns| < REQ_ARRAY_SIZE
    requires fd in w.kern.table && fd != w.listenFd && fd > 0
    ensures var failed := Handle(w, Failed(fd)).value;
      var reused := Accept(WithScript(failed, [NewFd(fd, stream)]));
      && reused.Some? && fd in reused.value.kern.table
      && reused.value.kern.table[fd] == ClientEnd(|w.conns|)
      && FindFd(reused.value.conns, fd) == Some(w.kern.table[fd].k)
      && w.kern.table[fd].k < |w.conns|
  {
    var k := w.kern.table[fd].k;
    FindsOwner(w, fd, k);
    var v := WithScript(Handle(w, Failed(fd)).value, [NewFd(fd, stream)]);
    assert Usable(v.kern, v.kern.script[0]);
    var v' := v.(conns := v.conns + [NewConn(fd)], kern := Open(v.kern, ClientEnd(|v.conns|)));
    assert v'.kern.script == [];
    assert Accept(v) == Accept(v') == Some(v');
    FindInFront(w.conns, NewConn(fd), fd, 0);
  }

  lemma {:induction false} FindInFront(conns: seq<Conn>, c: Conn, fd: int, i: nat)
    requires FindFrom(conns, fd, i).Some?
    ensures FindFrom(conns + [c], fd, i) == FindFrom(conns, fd, i)
    decreases |conns| - i
  {
    if fd != conns[i].clientFd && fd != conns[i].serverFd {
      FindInFront(conns, c, fd, i + 1);
    }
  }

  // ----- runs with error events

  ghost predicate Steps(w: World, w': World, ev: Event) {
    exists script :: Step(w, w', ev, script)
  }

  /** A run in which the kernel also reports errors, with its events. */
  ghost predicate IsEventRun(ws: seq<World>, evs: seq<Event>) {
    && |ws| == |evs| + 1 && ws[0].listenFd > 0 && ws[0] == Start(ws[0].listenFd)
    && forall i :: 0 <= i < |evs| ==> Steps(ws[i], ws[i + 1], evs[i])
  }

  /** An error, but not of the listening socket. */
  predicate Harms(w: World, ev: Event) {
    ev.Failed? && ev.fd in w.kern.table && w.kern.table[ev.fd] != Listener
  }

  lemma HarmlessKeepsInv(w: World, w': World, ev: Event)
    requires Inv(w) && Steps(w, w', ev) && !Harms(w, ev)
    ensures Inv(w')
  {
    var script :| Step(w, w', ev, script);
    if ev.Failed? {
      InvScript(w, script);
      ListenerFails(WithScript(w, script), ev.fd);
    } else {
      assert Next(w, w');
      NextKeepsInv(w, w');
    }
  }

  lemma HarmBreaks(w: World, w': World, ev: Event)
    requires Inv(w) && Steps(w, w', ev) && Harms(w, ev)
    ensures !RecordsGood(w')
  {
    var script :| Step(w, w', ev, script);
    InvScript(w, script);
    ErrorKeepsExactly(WithScript(w, script), ev.fd);
  }

  lemma StartInv(listenFd: int)
    requires listenFd > 0
    ensures Inv(Start(listenFd))
  {
  }

  /** Up to the first harmful error the invariant holds, and then the records are bad. */
  lemma {:induction false} FirstHarm(ws: seq<World>, evs: seq<Event>, n: nat) returns (j: nat)
    requires IsEventRun(ws, evs) && n <= |evs|
    ensures j <= n && Inv(ws[j])
    ensures if j < n then Harms(ws[j], evs[j]) else forall i :: 0 <= i < n ==> !Harms(ws[i], evs[i])
  {
    if n == 0 {
      StartInv(ws[0].listenFd);
      j := 0;
    } else {
      j := FirstHarm(ws, evs, n - 1);
      if j == n - 1 && !Harms(ws[j], evs[j]) {
        assert Steps(ws[j], ws[j + 1], evs[j]);
        HarmlessKeepsInv(ws[j], ws[j + 1], evs[j]);
        j := n;
      }
    }
  }

  lemma {:induction false} HarmlessRun(ws: seq<World>, evs: seq<Event>, n: nat)
    requires IsEventRun(ws, evs) && n <= |evs| && forall i :: 0 <= i < n ==> !Harms(ws[i], evs[i])
    ensures Inv(ws[n])
  {
    if n == 0 {
      StartInv(ws[0].listenFd);
    } else {
      HarmlessRun(ws, evs, n - 1);
      assert Steps(ws[n - 1], ws[n - 1 + 1], evs[n - 1]);
      HarmlessKeepsInv(ws[n - 1], ws[n], evs[n - 1]);
    }
  }

  /** In a run with error events the records are good in every state exactly when no error is reported
      on a socket other than the listening one. */
  lemma EventRunExactly(ws: seq<World>, evs: seq<Event>)
    requires IsEventRun(ws, evs)
    ensures (forall i :: 0 <= i < |ws| ==> RecordsGood(ws[i])) <==>
      (forall i :: 0 <= i < |evs| ==> !Harms(ws[i], evs[i]))
  {
    var j := FirstHarm(ws, evs, |evs|);
    if j < |evs| {
      assert Steps(ws[j], ws[j + 1], evs[j]);
      HarmBreaks(ws[j], ws[j + 1], evs[j]);
      assert !RecordsGood(ws[j + 1]);
    } else {
      forall i | 0 <= i < |ws| ensures RecordsGood(ws[i]) {
        HarmlessRun(ws, evs, i);
        InvMeansGood(ws[i]);
      }
    }
  }

  lemma AcceptsOne(w: World, fd: int, stream: string)
    requires Listening(w) && fd > 0 && fd !in w.kern.table && |w.conns| < REQ_ARRAY_SIZE
    ensures var w' := World(w.listenFd, w.conns + [NewConn(fd)],
        Kern(w.kern.table[fd := ClientEnd(|w.conns|)],
          w.kern.sockets[ClientEnd(|w.conns|) := Socket(stream, 0, "")], []));
      Step(w, w', Ready(w.listenFd), [NewFd(fd, stream)])
  {
    var v := WithScript(w, [NewFd(fd, stream)]);
    assert Usable(v.kern, v.kern.script[0]);
    var v' := v.(conns := v.conns + [NewConn(fd)], kern := Open(v.kern, ClientEnd(|v.conns|)));
    assert v'.kern.script == [];
    assert Accept(v) == Accept(v') == Some(v');
  }

  /** A client is accepted, an error is reported on its descriptor, and the number goes to the next
      client: two records hold it, and find_fd finds the first, which does not own it. */
  lemma ReuseRun(listenFd: int, fd: int, first: string, second: string)
    returns (ws: seq<World>, evs: seq<Event>)
    requires listenFd > 0 && fd > 0 && fd != listenFd
    ensures IsEventRun(ws, evs) && |evs| == 3 && evs[1] == Failed(fd)
    ensures var w := ws[3];
      && |w.conns| == 2 && w.conns[0].clientFd == fd == w.conns[1].clientFd
      && fd in w.kern.table && w.kern.table[fd] == ClientEnd(1) && FindFd(w.conns, fd) == Some(0)
  {
    var w0 := Start(listenFd);
    AcceptsOne(w0, fd, first);
    var w1 := World(listenFd, [NewConn(fd)],
      Kern(w0.kern.table[fd := ClientEnd(0)], w0.kern.sockets[ClientEnd(0) := Socket(first, 0, "")], []));
    assert w0.conns + [NewConn(fd)] == [NewConn(fd)];
    var w2 := w1.(kern := Close(w1.kern, fd));
    assert Step(w1, w2, Failed(fd), []);
    AcceptsOne(w2, fd, second);
    var w3 := World(listenFd, w2.conns + [NewConn(fd)],
      Kern(w2.kern.table[fd := ClientEnd(1)], w2.kern.sockets[ClientEnd(1) := Socket(second, 0, "")], []));
    ws, evs := [w0, w1, w2, w3], [Ready(listenFd), Failed(fd), Ready(listenFd)];
    assert Steps(w0, w1, evs[0]) && Steps(w1, w2, evs[1]) && Steps(w2, w3, evs[2]);
  }
}
