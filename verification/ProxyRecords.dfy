/** The records and handlers of proxylab-handout/proxy.c as the code keeps them: req_info_t with its
fixed-size buffers and counters, updated in place by system calls. */
module ProxyRecords {
  import opened Options
  import opened Arithmetic
  import opened Memory
  import opened ProxyRequest
  import opened ProxyConnections

  /** What the peer of a descriptor still has to send. */
  function RestOf(kern: Kern, fd: int): string {
    if fd in kern.table && kern.table[fd] in kern.sockets then
      var s := kern.sockets[kern.table[fd]]; s.stream[s.taken..]
    else ""
  }

  function Left(kern: Kern, fd: int): nat { |RestOf(kern, fd)| }

  lemma ReadTakes(kern: Kern, fd: int, max: nat)
    ensures var r := ProxyConnections.Read(kern, fd, max);
      && (r.ReadGets? ==> RestOf(kern, fd) == r.bytes + RestOf(r.kern, fd) && |r.bytes| <= max)
      && (r.ReadBlocks? ==> RestOf(r.kern, fd) == RestOf(kern, fd))
  {
    var r := ProxyConnections.Read(kern, fd, max);
    if r.ReadGets? {
      var s := kern.sockets[kern.table[fd]];
      assert s.stream[s.taken..] == s.stream[s.taken..s.taken + |r.bytes|] + s.stream[s.taken + |r.bytes|..];
    }
  }

  lemma ReadLeaves(kern: Kern, fd: int, max: nat)
    ensures var r := ProxyConnections.Read(kern, fd, max);
      && (r.ReadGets? ==> Left(kern, fd) == |r.bytes| + Left(r.kern, fd))
      && (r.ReadBlocks? ==> Left(r.kern, fd) == Left(kern, fd))
  {
    ReadTakes(kern, fd, max);
  }

  /** The system calls. A result of -1 is a failure, and `blocked` tells EAGAIN from the others. */
  class Kernel {
    var kern: Kern

    constructor (k: Kern)
      ensures kern == k
    {
      kern := k;
    }

    method Read(fd: int, buf: array<char>, at: nat, max: nat) returns (n: int, blocked: bool)
      requires at + Left(kern, fd) <= buf.Length
      modifies this, buf
      ensures match ProxyConnections.Read(old(kern), fd, max)
        case ReadFails => n == -1 && !blocked && kern == old(kern) && buf[..] == old(buf[..])
        case ReadBlocks(after) => n == -1 && blocked && kern == after && buf[..] == old(buf[..])
        case ReadGets(bytes, after) =>
          && n == |bytes| && kern == after && at + n <= buf.Length
          && buf[..at + n] == old(buf[..at]) + bytes && buf[at + n..] == old(buf[at + n..])
    {
      ReadLeaves(kern, fd, max);
      match ProxyConnections.Read(kern, fd, max)
      case ReadFails =>
        n, blocked := -1, false;
      case ReadBlocks(after) =>
        n, blocked := -1, true;
        kern := after;
      case ReadGets(bytes, after) =>
        n, blocked := |bytes|, false;
        kern := after;
        Deliver(bytes, buf, at);
    }

    method Deliver(bytes: string, buf: array<char>, at: nat)
      requires at + |bytes| <= buf.Length
      modifies buf
      ensures buf[..at + |bytes|] == old(buf[..at]) + bytes
      ensures buf[at + |bytes|..] == old(buf[at + |bytes|..])
    {
      Copy(bytes, buf, at);
      assert buf[..at + |bytes|] == buf[..at] + buf[at..at + |bytes|];
    }

    method Write(fd: int, buf: array<char>, from: nat, to: nat) returns (n: int, blocked: bool)
      requires from <= to <= buf.Length
      modifies this
      ensures match ProxyConnections.Write(old(kern), fd, buf[from..to])
        case WriteFails => n == -1 && !blocked && kern == old(kern)
        case WriteBlocks(after) => n == -1 && blocked && kern == after
        case WriteTakes(taken, after) => n == taken && kern == after
    {
      match ProxyConnections.Write(kern, fd, buf[from..to])
      case WriteFails =>
        n, blocked := -1, false;
      case WriteBlocks(after) =>
        n, blocked := -1, true;
        kern := after;
      case WriteTakes(taken, after) =>
        n, blocked := taken, false;
        kern := after;
    }

    /** connect_to_server: a descriptor for a new socket, or -1. */
    method Connect(e: End) returns (fd: int)
      modifies this
      ensures if old(kern).script != [] && Usable(old(kern), old(kern).script[0]) then
          fd == old(kern).script[0].fd && fd > 0 && kern == Open(old(kern), e)
        else fd == -1 && kern == old(kern)
    {
      if kern.script != [] && Usable(kern, kern.script[0]) {
        fd := kern.script[0].fd;
        kern := Open(kern, e);
      } else {
        fd := -1;
      }
    }

    /** accept: a descriptor for the next client, or -1. */
    method Accept(listenFd: int, e: End) returns (fd: int)
      modifies this
      ensures if listenFd !in old(kern).table || old(kern).table[listenFd] != Listener || old(kern).script == [] then
          fd == -1 && kern == old(kern)
        else if Usable(old(kern), old(kern).script[0]) then
          fd == old(kern).script[0].fd && fd > 0 && kern == Open(old(kern), e)
        else fd == -1 && kern == old(kern).(script := old(kern).script[1..])
    {
      fd := -1;
      if listenFd in kern.table && kern.table[listenFd] == Listener && kern.script != [] {
        if Usable(kern, kern.script[0]) {
          fd := kern.script[0].fd;
          kern := Open(kern, e);
        } else {
          kern := kern.(script := kern.script[1..]);
        }
      }
    }

    method Close(fd: int)
      modifies this
      ensures kern == ProxyConnections.Close(old(kern), fd)
    {
      kern := ProxyConnections.Close(kern, fd);
    }
  }

  lemma SpanUnique(s: string, d: string, n: nat)
    requires n <= |s| && (n < |s| ==> s[n] in d) && Free(s[..n], d)
    ensures Span(s, d) == n
  {
    assert forall i :: 0 <= i < n ==> s[i] == s[..n][i];
  }

  /** A string in a buffer is its text up to the terminator, wherever in the zeros that is looked for. */
  lemma UpToTerminator(s: string, n: nat)
    requires n < |s| && s[n] == '\0'
    ensures UpToNul(s) == UpToNul(s[..n])
  {
    var m := Span(s[..n], "\0");
    assert Free(s[..m], "\0") by {
      assert forall i :: 0 <= i < m ==> s[..n][i] == s[i];
    }
    assert m < n ==> s[..n][m] == s[m];
    SpanUnique(s, "\0", m);
    assert s[..n][..m] == s[..m];
  }

  /** The rewriting of what has been read fits the buffer, if there is one. */
  ghost predicate Small(original: string) {
    forall r :: Rewrite(UpToNul(original)) == Some(r) ==> |r.request| < MAX_OBJECT_SIZE
  }

  /** So it does whatever part of the rest of the client's bytes is read first. */
  ghost predicate RewritingFits(original: string, rest: string) {
    forall n :: 0 <= n <= |rest| ==> Small(original + rest[..n])
  }

  lemma SmallSoFar(original: string, rest: string)
    requires RewritingFits(original, rest)
    ensures Small(original)
  {
    assert rest[..0] == "" && original + "" == original;
    assert Small(original + rest[..0]);
  }

  lemma FitsAfter(original: string, bytes: string, rest: string)
    requires RewritingFits(original, bytes + rest)
    ensures RewritingFits(original + bytes, rest)
  {
    forall n | 0 <= n <= |rest| ensures Small((original + bytes) + rest[..n]) {
      assert (bytes + rest)[..|bytes| + n] == bytes + rest[..n];
      assert Small(original + (bytes + rest)[..|bytes| + n]);
      assert (original + bytes) + rest[..n] == original + (bytes + rest[..n]);
    }
  }

  lemma FitsAfterRead(original: string, kern: Kern, fd: int)
    requires RewritingFits(original, RestOf(kern, fd))
    ensures var r := Read(kern, fd, MAX_OBJECT_SIZE);
      && (r.ReadGets? ==> RewritingFits(original + r.bytes, RestOf(r.kern, fd)))
      && (r.ReadBlocks? ==> RewritingFits(original, RestOf(r.kern, fd)))
  {
    var r := Read(kern, fd, MAX_OBJECT_SIZE);
    ReadTakes(kern, fd, MAX_OBJECT_SIZE);
    if r.ReadGets? {
      FitsAfter(original, r.bytes, RestOf(r.kern, fd));
    }
  }

  lemma ReadClientUnfolds(c: Conn, k: nat, kern: Kern)
    requires c.state == ReadingClient
    ensures var h, r := ProxyConnections.ReadClient(c, k, kern), Read(kern, c.clientFd, MAX_OBJECT_SIZE);
      if BlankLine(UpToNul(c.original)) then h == ProxyConnections.Connect(c, k, kern)
      else if r.ReadFails? then h == Exits
      else if r.ReadBlocks? then h == Returns(c, r.kern)
      else h == ProxyConnections.ReadClient(c.(original := c.original + r.bytes), k, r.kern)
  {
  }

  lemma WriteServerUnfolds(c: Conn, kern: Kern)
    requires c.state == WritingServer && c.written != |c.modified|
    ensures var h, r := ProxyConnections.WriteServer(c, kern), Write(kern, c.serverFd, c.modified[c.written..]);
      if r.WriteFails? then h == Exits
      else if r.WriteBlocks? then h == Returns(c, r.kern)
      else h == ProxyConnections.WriteServer(c.(written := c.written + r.n), r.kern)
  {
  }

  lemma WriteClientUnfolds(c: Conn, kern: Kern)
    requires c.state == WritingClient
    ensures var h, r := ProxyConnections.WriteClient(c, kern), Write(kern, c.clientFd, c.response[c.sent..]);
      if c.sent == |c.response| then
        h == Returns(c.(state := Finished, clientFd := -1), ProxyConnections.Close(kern, c.clientFd))
      else if r.WriteFails? then h == Exits
      else if r.WriteBlocks? then h == Returns(c, r.kern)
      else h == ProxyConnections.WriteClient(c.(sent := c.sent + r.n), r.kern)
  {
  }

  lemma ReadServerUnfolds(c: Conn, kern: Kern)
    requires c.state == ReadingServer
    ensures var h, r := ProxyConnections.ReadServer(c, kern), Read(kern, c.serverFd, MAX_OBJECT_SIZE);
      if r.ReadFails? then h == Exits
      else if r.ReadBlocks? then h == Returns(c, r.kern)
      else
        var c' := c.(response := c.response + r.bytes);
        if r.bytes == "" then c' == c && h == Closing(c, r.kern)
        else h == ProxyConnections.ReadServer(c', r.kern)
  {
    var r := Read(kern, c.serverFd, MAX_OBJECT_SIZE);
    if r.ReadGets? && r.bytes == "" {
      assert c.response + r.bytes == c.response;
    }
  }

  class Request {
    var clientFd: int
    var serverFd: int
    var state: State
    const original: array<char>
    const modified: array<char>
    const response: array<char>
    var clientBytesRead: nat
    var serverBytesWritten: nat
    var serverBytesRead: nat
    var clientBytesWritten: nat
    /** How long the string in `modified` is. */
    ghost var length: nat

    /** The client's bytes with zeros after them, the request as a string, and counters within range. */
    ghost predicate Valid()
      reads this, original, modified, response
    {
      && original.Length == modified.Length == response.Length == MAX_OBJECT_SIZE
      && original != modified && original != response && modified != response
      && clientBytesRead < MAX_OBJECT_SIZE && serverBytesRead <= MAX_OBJECT_SIZE
      && (forall i :: clientBytesRead <= i < MAX_OBJECT_SIZE ==> original[i] == '\0')
      && length < MAX_OBJECT_SIZE && modified[length] == '\0' && Free(modified[..length], "\0")
      && serverBytesWritten <= length && clientBytesWritten <= serverBytesRead
      && (state == ReadingClient ==> serverBytesWritten == 0)
    }

    /** The record and its buffers belong to one index of the array. */
    ghost predicate OwnedBy(i: nat, owner: map<object, nat>) {
      && this in owner && original in owner && modified in owner && response in owner
      && owner[this] == i && owner[original] == i && owner[modified] == i && owner[response] == i
    }

    ghost function Abs(): Conn
      requires Valid()
      reads this, original, modified, response
    {
      Conn(clientFd, serverFd, state, original[..clientBytesRead], modified[..length],
        response[..serverBytesRead], serverBytesWritten, clientBytesWritten)
    }

    /** req_info_constructor, and the assignment of the descriptor that follows it. */
    constructor (fd: int)
      ensures Valid() && Abs() == NewConn(fd)
      ensures fresh(original) && fresh(modified) && fresh(response)
    {
      clientFd, serverFd, state := fd, -1, ReadingClient;
      original := new char[MAX_OBJECT_SIZE](i => '\0');
      modified := new char[MAX_OBJECT_SIZE](i => '\0');
      response := new char[MAX_OBJECT_SIZE](i => '\0');
      clientBytesRead, serverBytesWritten, serverBytesRead, clientBytesWritten := 0, 0, 0, 0;
      length := 0;
    }

    /** write_server; false when the process exits. */
    method WriteServer(kernel: Kernel) returns (ok: bool)
      requires Valid() && state == WritingServer
      modifies this, kernel
      ensures Valid()
      ensures ProxyConnections.WriteServer(old(Abs()), old(kernel.kern))
        == if ok then Returns(Abs(), kernel.kern) else Exits
    {
      ghost var h := ProxyConnections.WriteServer(Abs(), kernel.kern);
      var modifiedLen := Strlen(modified, length);
      while serverBytesWritten != modifiedLen
        invariant Valid() && length == modifiedLen && state == WritingServer
        invariant ProxyConnections.WriteServer(Abs(), kernel.kern) == h
        decreases |kernel.kern.script|
      {
        var n, blocked := WriteRequest(kernel, modifiedLen);
        if n == -1 {
          return blocked;
        }
      }
      ok := RequestWritten(kernel);
    }

    method RequestWritten(kernel: Kernel) returns (ok: bool)
      requires Valid() && state == WritingServer && serverBytesWritten == length
      modifies this`state
      ensures Valid()
      ensures ProxyConnections.WriteServer(old(Abs()), kernel.kern)
        == if ok then Returns(Abs(), kernel.kern) else Exits
    {
      if serverFd !in kernel.kern.table {
        return false;
      }
      state := ReadingServer;
      return true;
    }

    /** One write of what is left of the request. */
    method WriteRequest(kernel: Kernel, modifiedLen: nat) returns (n: int, blocked: bool)
      requires Valid() && state == WritingServer && serverBytesWritten != length == modifiedLen
      modifies this`serverBytesWritten, kernel
      ensures Valid()
      ensures var h := ProxyConnections.WriteServer(old(Abs()), old(kernel.kern));
        if n == -1 then h == if blocked then Returns(Abs(), kernel.kern) else Exits
        else
          && |kernel.kern.script| < |old(kernel.kern).script|
          && h == ProxyConnections.WriteServer(Abs(), kernel.kern)
    {
      WriteServerUnfolds(Abs(), kernel.kern);
      assert modified[..length][serverBytesWritten..] == modified[serverBytesWritten..modifiedLen];
      n, blocked := kernel.Write(serverFd, modified, serverBytesWritten, modifiedLen);
      if n != -1 {
        serverBytesWritten := serverBytesWritten + n;
      }
    }

    method Strlen(buf: array<char>, ghost n: nat) returns (len: nat)
      requires n < buf.Length && buf[n] == '\0' && Free(buf[..n], "\0")
      ensures len == n
    {
      assert forall i :: 0 <= i < n ==> buf[i] == buf[..n][i];
      len := 0;
      while buf[len] != '\0'
        invariant len <= n
        decreases n - len
      {
        len := len + 1;
      }
    }
  
    /** One read into the response, after what is there. */
    method ReadResponse(kernel: Kernel) returns (n: int, blocked: bool)
      requires Valid() && serverBytesRead + Left(kernel.kern, serverFd) <= MAX_OBJECT_SIZE
      modifies this`serverBytesRead, response, kernel
      ensures Valid() && serverBytesRead + Left(kernel.kern, serverFd) <= MAX_OBJECT_SIZE
      ensures var r, c := ProxyConnections.Read(old(kernel.kern), serverFd, MAX_OBJECT_SIZE), old(Abs());
        if r.ReadFails? then n == -1 && !blocked
        else if r.ReadBlocks? then n == -1 && blocked && kernel.kern == r.kern && Abs() == c
        else n == |r.bytes| && kernel.kern == r.kern && Abs() == c.(response := c.response + r.bytes)
    {
      ReadLeaves(kernel.kern, serverFd, MAX_OBJECT_SIZE);
      n, blocked := kernel.Read(serverFd, response, serverBytesRead, MAX_OBJECT_SIZE);
      if n != -1 {
        serverBytesRead := serverBytesRead + n;
      } else {
        assert response[..serverBytesRead] == response[..][..serverBytesRead];
      }
    }

    /** read_server; false when the process exits. */
    method ReadServer(kernel: Kernel) returns (ok: bool)
      requires Valid() && state == ReadingServer && serverBytesRead + Left(kernel.kern, serverFd) <= MAX_OBJECT_SIZE
      modifies this, response, kernel
      ensures Valid()
      ensures ProxyConnections.ReadServer(old(Abs()), old(kernel.kern))
        == if ok then Returns(Abs(), kernel.kern) else Exits
    {
      ghost var h := ProxyConnections.ReadServer(Abs(), kernel.kern);
      var n := -1;
      while n != 0
        invariant Valid() && state == ReadingServer
        invariant serverBytesRead + Left(kernel.kern, serverFd) <= MAX_OBJECT_SIZE
        invariant n != 0 ==> ProxyConnections.ReadServer(Abs(), kernel.kern) == h
        invariant n == 0 ==> h == Closing(Abs(), kernel.kern)
        decreases |kernel.kern.script|, n != 0
      {
        ReadServerUnfolds(Abs(), kernel.kern);
        var blocked;
        n, blocked := ReadResponse(kernel);
        if n == -1 {
          return blocked;
        }
      }
      ok := ResponseRead(kernel);
    }

    method ResponseRead(kernel: Kernel) returns (ok: bool)
      requires Valid() && state == ReadingServer
      modifies this`state, this`serverFd, kernel
      ensures Valid()
      ensures Closing(old(Abs()), old(kernel.kern)) == if ok then Returns(Abs(), kernel.kern) else Exits
    {
      if clientFd !in kernel.kern.table {
        return false;
      }
      state := WritingClient;
      kernel.Close(serverFd);
      serverFd := -1;
      return true;
    }

    /** write_client; false when the process exits. */
    method WriteClient(kernel: Kernel) returns (ok: bool)
      requires Valid() && state == WritingClient
      modifies this, kernel
      ensures Valid()
      ensures ProxyConnections.WriteClient(old(Abs()), old(kernel.kern))
        == if ok then Returns(Abs(), kernel.kern) else Exits
    {
      ghost var h := ProxyConnections.WriteClient(Abs(), kernel.kern);
      var contentLen := serverBytesRead;
      while clientBytesWritten != contentLen
        invariant Valid() && serverBytesRead == contentLen && state == WritingClient
        invariant ProxyConnections.WriteClient(Abs(), kernel.kern) == h
        decreases |kernel.kern.script|
      {
        WriteClientUnfolds(Abs(), kernel.kern);
        var n, blocked := WriteResponse(kernel, contentLen);
        if n == -1 {
          return blocked;
        }
      }
      WriteClientUnfolds(Abs(), kernel.kern);
      state := Finished;
      kernel.Close(clientFd);
      clientFd := -1;
      return true;
    }

    /** One write of what is left of the response. */
    method WriteResponse(kernel: Kernel, contentLen: nat) returns (n: int, blocked: bool)
      requires Valid() && state == WritingClient && serverBytesRead == contentLen
      modifies this`clientBytesWritten, kernel
      ensures Valid()
      ensures var c := old(Abs());
        var r := ProxyConnections.Write(old(kernel.kern), clientFd, c.response[c.sent..]);
        if r.WriteFails? then n == -1 && !blocked
        else if r.WriteBlocks? then n == -1 && blocked && kernel.kern == r.kern && Abs() == c
        else n == r.n && kernel.kern == r.kern && Abs() == c.(sent := c.sent + r.n)
    {
      assert response[..contentLen][clientBytesWritten..] == response[clientBytesWritten..contentLen];
      n, blocked := kernel.Write(clientFd, response, clientBytesWritten, contentLen);
      if n != -1 {
        clientBytesWritten := clientBytesWritten + n;
      }
    }

    /** One read into the client's buffer, after what is there. */
    method ReadMore(kernel: Kernel) returns (n: int, blocked: bool)
      requires Valid() && clientBytesRead + Left(kernel.kern, clientFd) < MAX_OBJECT_SIZE
      modifies this`clientBytesRead, original, kernel
      ensures Valid() && clientBytesRead + Left(kernel.kern, clientFd) < MAX_OBJECT_SIZE
      ensures var r, c := ProxyConnections.Read(old(kernel.kern), clientFd, MAX_OBJECT_SIZE), old(Abs());
        if r.ReadFails? then n == -1 && !blocked
        else if r.ReadBlocks? then n == -1 && blocked && kernel.kern == r.kern && Abs() == c
        else n == |r.bytes| && kernel.kern == r.kern && Abs() == c.(original := c.original + r.bytes)
    {
      ReadLeaves(kernel.kern, clientFd, MAX_OBJECT_SIZE);
      n, blocked := kernel.Read(clientFd, original, clientBytesRead, MAX_OBJECT_SIZE);
      if n != -1 {
        clientBytesRead := clientBytesRead + n;
        assert forall i :: clientBytesRead <= i < MAX_OBJECT_SIZE ==>
            original[i] == original[clientBytesRead..][i - clientBytesRead];
      } else {
        assert original[..clientBytesRead] == original[..][..clientBytesRead];
        assert forall i :: 0 <= i < MAX_OBJECT_SIZE ==> original[i] == original[..][i];
      }
    }

    /** What is still to come from the client, and its rewriting, fit the buffers. */
    ghost predicate RoomToRead(kern: Kern)
      reads this, original, modified, response
    {
      && Valid() && state == ReadingClient && clientBytesRead + Left(kern, clientFd) < MAX_OBJECT_SIZE
      && RewritingFits(Abs().original, RestOf(kern, clientFd))
    }

    /** One round of the loop of read_client. */
    method ReadRound(k: nat, kernel: Kernel) returns (n: int, blocked: bool)
      requires RoomToRead(kernel.kern) && !BlankLine(UpToNul(Abs().original))
      modifies this`clientBytesRead, original, kernel
      ensures Valid()
      ensures var h := ProxyConnections.ReadClient(old(Abs()), k, old(kernel.kern));
        if n == -1 then h == if blocked then Returns(Abs(), kernel.kern) else Exits
        else
          && RoomToRead(kernel.kern) && |kernel.kern.script| < |old(kernel.kern).script|
          && h == ProxyConnections.ReadClient(Abs(), k, kernel.kern)
    {
      FitsAfterRead(Abs().original, kernel.kern, clientFd);
      ReadClientUnfolds(Abs(), k, kernel.kern);
      n, blocked := ReadMore(kernel);
    }

    /** read_client; false when the process exits. */
    method ReadClient(k: nat, kernel: Kernel) returns (ok: bool)
      requires RoomToRead(kernel.kern)
      modifies this, original, modified, kernel
      ensures Valid()
      ensures ProxyConnections.ReadClient(old(Abs()), k, old(kernel.kern))
        == if ok then Returns(Abs(), kernel.kern) else Exits
    {
      ghost var h := ProxyConnections.ReadClient(Abs(), k, kernel.kern);
      var found := Strstr();
      while !found
        invariant RoomToRead(kernel.kern)
        invariant ProxyConnections.ReadClient(Abs(), k, kernel.kern) == h
        invariant found <==> BlankLine(UpToNul(Abs().original))
        decreases |kernel.kern.script|
      {
        var n, blocked := ReadRound(k, kernel);
        if n == -1 {
          return blocked;
        }
        found := Strstr();
      }
      ReadClientUnfolds(Abs(), k, kernel.kern);
      SmallSoFar(Abs().original, RestOf(kernel.kern, clientFd));
      ok := ParseAndConnect(k, kernel);
    }

    /** The string that the client's buffer holds. */
    method Text() returns (text: string)
      requires Valid()
      ensures text == UpToNul(original[..clientBytesRead]) && Free(text, "\0")
    {
      UpToTerminator(original[..], clientBytesRead);
      assert original[..][..clientBytesRead] == original[..clientBytesRead];
      text := UpToNul(original[..]);
    }

    /** strstr for the blank line. */
    method Strstr() returns (found: bool)
      requires Valid()
      ensures found <==> BlankLine(UpToNul(original[..clientBytesRead]))
    {
      var text := Text();
      found := BlankLine(text);
    }

    /** The end of read_client: parse, connect_to_server, and the next state. */
    method ParseAndConnect(k: nat, kernel: Kernel) returns (ok: bool)
      requires Valid() && state == ReadingClient && Small(original[..clientBytesRead])
      modifies this, modified, kernel
      ensures Valid()
      ensures ProxyConnections.Connect(old(Abs()), k, old(kernel.kern))
        == if ok then Returns(Abs(), kernel.kern) else Exits
    {
      ghost var c := Abs();
      ok := StoreRequest();
      if !ok {
        return;
      }
      ghost var asked := c.(modified := modified[..length]);
      assert Abs() == asked;
      serverFd := kernel.Connect(ServerEnd(k));
      if serverFd == -1 {
        return false;
      }
      state := WritingServer;
      assert Abs() == asked.(serverFd := serverFd, state := WritingServer);
    }

    /** parse, with its result copied into `modified`. */
    method StoreRequest() returns (ok: bool)
      requires Valid() && state == ReadingClient && Small(original[..clientBytesRead])
      modifies this`length, modified
      ensures Valid()
      ensures var rewritten := Rewrite(UpToNul(original[..clientBytesRead]));
        if ok then rewritten.Some? && modified[..length] == rewritten.value.request else rewritten.None?
    {
      var text := Text();
      var rewritten := Parse(text);
      if rewritten.None? {
        return false;
      }
      RewriteFree(text);
      Strcpy(rewritten.value.request);
      ok := true;
    }

    /** strcpy into `modified`, of which nothing has been written yet. */
    method Strcpy(request: string)
      requires Valid() && state == ReadingClient && Free(request, "\0") && |request| < MAX_OBJECT_SIZE
      modifies this`length, modified
      ensures Valid() && length == |request| && modified[..length] == request
    {
      Copy(request, modified, 0);
      assert modified[0..|request|] == modified[..|request|];
      modified[|request|] := '\0';
      length := |request|;
      assert modified[..length] == request;
    }
  }

  /** What read_server does after its loop. */
  ghost function Closing(c: Conn, kern: Kern): Handled {
    if c.clientFd !in kern.table then Exits
    else Returns(c.(state := WritingClient, serverFd := -1), ProxyConnections.Close(kern, c.serverFd))
  }

  /** What the peers still send on behalf of a connection fits its buffers. */
  ghost predicate Room(c: Conn, kern: Kern) {
    match c.state
    case ReadingClient =>
      && |c.original| + Left(kern, c.clientFd) < MAX_OBJECT_SIZE
      && RewritingFits(c.original, RestOf(kern, c.clientFd))
    case ReadingServer => |c.response| + Left(kern, c.serverFd) <= MAX_OBJECT_SIZE
    case _ => true
  }

  /** The array of records and the kernel, with the connections they stand for. */
  class Proxy {
    const listenFd: int
    const kernel: Kernel
    const requests: array<Request?>
    var size: nat
    ghost var conns: seq<Conn>
    ghost var Repr: set<object>
    /** Which record an object is part of. */
    ghost var owner: map<object, nat>

    ghost predicate Valid()
      reads this, Repr
    {
      && this in Repr && kernel in Repr && requests in Repr && owner.Keys <= Repr
      && this !in owner && kernel !in owner && requests !in owner
      && requests.Length == REQ_ARRAY_SIZE && size <= REQ_ARRAY_SIZE && |conns| == size
      && (forall i :: 0 <= i < size ==> requests[i] != null && requests[i].OwnedBy(i, owner))
      && (forall i :: 0 <= i < size ==> requests[i].Valid() && requests[i].Abs() == conns[i])
    }

    /** No connections yet: the kernel has opened the listening socket. */
    constructor (fd: int)
      ensures Valid() && fresh(Repr) && World() == Start(fd)
    {
      listenFd := fd;
      kernel := new Kernel(Start(fd).kern);
      requests := new Request?[REQ_ARRAY_SIZE](i => null);
      size, conns := 0, [];
      owner := map[];
      new;
      Repr := {this, kernel, requests};
    }

    ghost function World(): World
      reads this, kernel
    {
      ProxyConnections.World(listenFd, conns, kernel.kern)
    }

    /** find_fd. */
    method FindFd(fd: int) returns (k: nat, found: bool)
      requires Valid()
      ensures ProxyConnections.FindFd(conns, fd) == if found then Some(k) else None
      ensures found ==> k < size
    {
      k := 0;
      while k < size
        invariant k <= size
        invariant FindFrom(conns, fd, 0) == FindFrom(conns, fd, k)
      {
        assert requests[k].Abs() == conns[k];
        if fd == requests[k].clientFd || fd == requests[k].serverFd {
          return k, true;
        }
        k := k + 1;
      }
      return k, false;
    }

    /** The switch on the state. */
    method Dispatch(r: Request, k: nat) returns (ok: bool)
      requires r.Valid() && Room(r.Abs(), kernel.kern)
      modifies r, r.original, r.modified, r.response, kernel
      ensures r.Valid()
      ensures ProxyConnections.Dispatch(old(r.Abs()), k, old(kernel.kern))
        == if ok then Returns(r.Abs(), kernel.kern) else Exits
    {
      match r.state {
        case ReadingClient => ok := r.ReadClient(k, kernel);
        case WritingServer => ok := r.WriteServer(kernel);
        case ReadingServer => ok := r.ReadServer(kernel);
        case WritingClient => ok := r.WriteClient(kernel);
        case Finished => ok := true;
      }
    }

    /** The event for the record at index k. */
    method DispatchAt(k: nat) returns (ok: bool)
      requires Valid() && k < size && Room(conns[k], kernel.kern)
      modifies Repr
      ensures ok ==> Valid() && Repr == old(Repr)
      ensures |conns| == |old(conns)| && conns == old(conns)[k := conns[k]]
      ensures ProxyConnections.Dispatch(old(conns[k]), k, old(kernel.kern))
        == if ok then Returns(conns[k], kernel.kern) else Exits
    {
      var r := requests[k];
      assert r.Abs() == conns[k];
      ok := Dispatch(r, k);
      if ok {
        conns := conns[k := r.Abs()];
      }
    }

    /** An event on a descriptor other than the listening one; false when the process exits. */
    method HandleReady(fd: int) returns (ok: bool)
      requires Valid() && fd != listenFd
      requires var found := ProxyConnections.FindFd(conns, fd);
        found.Some? ==> Room(conns[found.value], kernel.kern)
      modifies Repr
      ensures ok ==> Valid() && Repr == old(Repr)
      ensures Handle(old(World()), Ready(fd)) == if ok then Some(World()) else None
    {
      ghost var w := World();
      var k, found := FindFd(fd);
      if !found {
        return false;
      }
      ok := DispatchAt(k);
      HandleIs(w, fd, k);
    }

    /** The loop over accept, for an event on the listening descriptor. The array must not overflow. */
    method HandleAccept()
      requires Valid() && Accept(World()).Some?
      modifies Repr
      ensures Valid() && fresh(Repr - old(Repr))
      ensures Accept(old(World())) == Some(World())
    {
      ghost var goal := Accept(World());
      var fd := kernel.Accept(listenFd, ClientEnd(size));
      while fd > 0
        invariant Valid() && fresh(Repr - old(Repr))
        invariant goal.Some?
        invariant goal == if fd > 0 then Accept(WithRecord(World(), fd)) else Some(World())
        invariant fd > 0 ==> size < REQ_ARRAY_SIZE
        decreases |kernel.kern.script|, fd > 0
      {
        Append(fd);
        fd := kernel.Accept(listenFd, ClientEnd(size));
      }
    }

    /** A new record at the end of the array. */
    method Append(fd: int)
      requires Valid() && size < REQ_ARRAY_SIZE
      modifies this, requests
      ensures Valid() && fresh(Repr - old(Repr))
      ensures World() == WithRecord(old(World()), fd)
    {
      var r := new Request(fd);
      Store(r);
    }

    method Store(r: Request)
      requires Valid() && size < REQ_ARRAY_SIZE && r.Valid()
      requires r !in Repr && r.original !in Repr && r.modified !in Repr && r.response !in Repr
      modifies this, requests
      ensures Valid() && Repr == old(Repr) + {r, r.original, r.modified, r.response}
      ensures size == old(size) + 1 && conns == old(conns) + [r.Abs()]
    {
      Claim(r);
      Put(r);
    }

    /** The record becomes the part of the proxy that has the next index. */
    ghost method Claim(r: Request)
      requires Valid() && r.Valid()
      requires r !in Repr && r.original !in Repr && r.modified !in Repr && r.response !in Repr
      modifies this`owner, this`Repr
      ensures Repr == old(Repr) + {r, r.original, r.modified, r.response} && owner.Keys <= Repr
      ensures this !in owner && kernel !in owner && requests !in owner && r.OwnedBy(size, owner)
      ensures forall i :: 0 <= i < size ==> requests[i].OwnedBy(i, owner)
    {
      forall i | 0 <= i < size ensures requests[i].OwnedBy(i, Owning(owner, r, size)) {
        OwnedStays(requests[i], i, owner, r, size);
      }
      OwnedNew(owner, r, size);
      owner := Owning(owner, r, size);
      Repr := Repr + {r, r.original, r.modified, r.response};
    }

    /** The assignment of a record to the array, behind those in use. */
    method Put(r: Request)
      requires size < requests.Length && |conns| == size && r.Valid() && r.OwnedBy(size, owner)
      requires forall i :: 0 <= i < size ==> requests[i] != null && requests[i].OwnedBy(i, owner)
      requires forall i :: 0 <= i < size ==> requests[i].Valid() && requests[i].Abs() == conns[i]
      requires requests !in owner
      modifies requests, this`conns, this`size
      ensures conns == old(conns) + [r.Abs()] && size == old(size) + 1
      ensures forall i :: 0 <= i < size ==> requests[i] != null && requests[i].OwnedBy(i, owner)
      ensures forall i :: 0 <= i < size ==> requests[i].Valid() && requests[i].Abs() == conns[i]
    {
      requests[size] := r;
      conns := conns + [r.Abs()];
      size := size + 1;
    }
  }

  ghost function Owning(owner: map<object, nat>, r: Request, n: nat): map<object, nat> {
    owner[r := n][r.original := n][r.modified := n][r.response := n]
  }

  lemma OwnedNew(owner: map<object, nat>, r: Request, n: nat)
    requires r.original != r.modified && r.original != r.response && r.modified != r.response
    ensures r.OwnedBy(n, Owning(owner, r, n))
    ensures Owning(owner, r, n).Keys == owner.Keys + {r, r.original, r.modified, r.response}
  {
  }

  lemma OwnedStays(x: Request, i: nat, owner: map<object, nat>, r: Request, n: nat)
    requires x.OwnedBy(i, owner)
    requires r !in owner && r.original !in owner && r.modified !in owner && r.response !in owner
    ensures x.OwnedBy(i, Owning(owner, r, n))
  {
  }

  lemma HandleIs(w: World, fd: int, k: nat)
    requires fd != w.listenFd && k < |w.conns| && ProxyConnections.FindFd(w.conns, fd) == Some(k)
    ensures var h := ProxyConnections.Dispatch(w.conns[k], k, w.kern);
      Handle(w, Ready(fd))
      == if h.Exits? then None else Some(w.(conns := w.conns[k := h.conn], kern := h.kern))
  {
  }

  ghost function WithRecord(w: World, fd: int): World { w.(conns := w.conns + [NewConn(fd)]) }
}
