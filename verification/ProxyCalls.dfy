/** What one event of a connection of proxylab-handout/proxy.c comes to after its request is parsed, for
any results of the system calls. */
module ProxyCalls {
  import opened Arithmetic
  import opened Options
  import opened ProxyConnections
  import opened ProxyProgress

  // ----- writing

  /** How many bytes a sequence of writes has room for. */
  function Room(calls: seq<Call>): nat {
    if calls == [] then 0 else (if calls[0].Bytes? then calls[0].n else 0) + Room(calls[1..])
  }

  /** The writes of one event, with so many bytes left to write, are the first j calls: none is made once
      all is written, and the next call, if there is one, does not write. */
  ghost predicate WritesStop(left: nat, calls: seq<Call>, j: nat) {
    && j <= |calls| && AllBytes(calls[..j])
    && (forall i :: 0 <= i < j ==> Room(calls[..i]) < left)
    && (Room(calls[..j]) >= left || j == |calls| || !calls[j].Bytes?)
  }

  /** One write before others. */
  lemma WritesLater(left: nat, calls: seq<Call>, j: nat)
    requires calls != [] && calls[0].Bytes? && left > 0
    requires WritesStop(left - Min(calls[0].n, left), calls[1..], j)
    ensures WritesStop(left, calls, j + 1) && Room(calls[..j + 1]) == calls[0].n + Room(calls[1..][..j])
  {
    forall i | 0 <= i <= j ensures Room(calls[..i + 1]) == calls[0].n + Room(calls[1..][..i]) {
      assert calls[..i + 1][1..] == calls[1..][..i];
    }
    assert calls[..j + 1] == [calls[0]] + calls[1..][..j];
    assert calls[..0] == [];
    forall i | 0 <= i < j + 1 ensures Room(calls[..i]) < left {
      if i > 0 {
        assert Room(calls[1..][..i - 1]) < left - Min(calls[0].n, left);
        assert calls[..i - 1 + 1] == calls[..i];
      }
    }
    assert j + 1 < |calls| ==> calls[j + 1] == calls[1..][j];
  }

  /** After all that the writes have room for: the process ends exactly at a hard error with bytes left;
      the connection goes to the next state exactly when none is left, and otherwise counts them. */
  ghost predicate ServerWriteOutcome(c: Conn, script: seq<Call>, j: nat, h: Handled)
    requires j <= |script|
  {
    var left, room := |c.modified| - c.written, Room(script[..j]);
    && (h.Exits? <==> room < left && j < |script| && script[j].Hard?)
    && (h.Returns? ==>
          && h.conn == if room >= left then c.(written := |c.modified|, state := ReadingServer)
                       else c.(written := c.written + room))
  }

  lemma {:induction false} WriteServerExactly(c: Conn, k: nat, kern: Kern) returns (j: nat)
    requires ConnOk(c, k, kern) && c.state == WritingServer
    ensures WritesStop(|c.modified| - c.written, kern.script, j)
    ensures ServerWriteOutcome(c, kern.script, j, WriteServer(c, kern))
    decreases |kern.script|
  {
    assert kern.script[..0] == [];
    var left := |c.modified| - c.written;
    if left == 0 || kern.script == [] || !kern.script[0].Bytes? {
      j := 0;
    } else {
      var r := Write(kern, c.serverFd, c.modified[c.written..]);
      assert r.WriteTakes? && r.n == Min(kern.script[0].n, left) && r.kern.script == kern.script[1..];
      ServerWritten(c, k, kern);
      var c' := c.(written := c.written + r.n);
      var more := WriteServerExactly(c', k, r.kern);
      j := more + 1;
      WritesLater(left, kern.script, more);
      assert j < |kern.script| ==> kern.script[j] == kern.script[1..][more];
    }
  }

  ghost predicate ClientWriteOutcome(c: Conn, kern: Kern, j: nat, h: Handled)
    requires j <= |kern.script|
  {
    var left, room := |c.response| - c.sent, Room(kern.script[..j]);
    && (h.Exits? <==> room < left && j < |kern.script| && kern.script[j].Hard?)
    && (h.Returns? ==>
          && h.conn == (if room >= left then c.(sent := |c.response|, state := Finished, clientFd := -1)
                        else c.(sent := c.sent + room))
          && h.kern.table == if room >= left then kern.table - {c.clientFd} else kern.table)
  }

  lemma {:induction false} WriteClientExactly(c: Conn, k: nat, kern: Kern) returns (j: nat)
    requires ConnOk(c, k, kern) && c.state == WritingClient
    ensures WritesStop(|c.response| - c.sent, kern.script, j)
    ensures ClientWriteOutcome(c, kern, j, WriteClient(c, kern))
    decreases |kern.script|
  {
    assert kern.script[..0] == [];
    var left := |c.response| - c.sent;
    if left == 0 || kern.script == [] || !kern.script[0].Bytes? {
      j := 0;
    } else {
      var r := Write(kern, c.clientFd, c.response[c.sent..]);
      assert r.WriteTakes? && r.n == Min(kern.script[0].n, left) && r.kern.script == kern.script[1..];
      ClientWritten(c, k, kern);
      var c' := c.(sent := c.sent + r.n);
      var more := WriteClientExactly(c', k, r.kern);
      j := more + 1;
      WritesLater(left, kern.script, more);
      assert j < |kern.script| ==> kern.script[j] == kern.script[1..][more];
    }
  }

  // ----- reading the response

  /** The reads of one event are the first j calls: none of them is made at the end of the stream, and
      the next call, if there is one, is made there or does not read. */
  ghost predicate ReadsStop(stream: string, pos: nat, calls: seq<Call>, j: nat)
    requires pos <= |stream|
  {
    && j <= |calls| && AllBytes(calls[..j])
    && (forall i :: 0 <= i < j ==> AllBytes(calls[..i]) && PosAfter(stream, pos, calls[..i]) < |stream|)
    && (j == |calls| || !calls[j].Bytes? || PosAfter(stream, pos, calls[..j]) == |stream|)
  }

  lemma ReadsLater(stream: string, pos: nat, calls: seq<Call>, j: nat)
    requires pos < |stream| && calls != [] && calls[0].Bytes?
    requires ReadsStop(stream, Advance(stream, pos, calls[0]), calls[1..], j)
    ensures ReadsStop(stream, pos, calls, j + 1)
    ensures PosAfter(stream, pos, calls[..j + 1])
      == PosAfter(stream, Advance(stream, pos, calls[0]), calls[1..][..j])
  {
    ShiftCalls(stream, pos, calls, j);
    forall i | 0 <= i < j + 1 ensures AllBytes(calls[..i]) && PosAfter(stream, pos, calls[..i]) < |stream| {
      if i == 0 {
        assert calls[..0] == [];
      } else {
        assert AllBytes(calls[1..][..i - 1]);
        ShiftCalls(stream, pos, calls, i - 1);
      }
    }
    assert j + 1 < |calls| ==> calls[j + 1] == calls[1..][j];
  }

  /** The process ends exactly at a hard error; a read at the end of the stream closes the server's
      descriptor and leads to the next state; otherwise the record has what was read. */
  ghost predicate ReplyOutcome(c: Conn, kern: Kern, stream: string, pos: nat, j: nat, h: Handled)
    requires pos <= |stream| && j <= |kern.script|
  {
    var ended := j < |kern.script| && kern.script[j].Bytes?;
    && (h.Exits? <==> j < |kern.script| && kern.script[j].Hard?)
    && (h.Returns? ==>
          && h.conn == (if ended then c.(response := stream, state := WritingClient, serverFd := -1)
                        else c.(response := stream[..pos]))
          && h.kern.table == if ended then kern.table - {c.serverFd} else kern.table)
  }

  lemma ReplyStops(c: Conn, k: nat, kern: Kern)
    requires ConnOk(c, k, kern) && c.state == ReadingServer
    requires var s := kern.sockets[ServerEnd(k)];
      kern.script == [] || !kern.script[0].Bytes? || s.taken == |s.stream|
    ensures var s := kern.sockets[ServerEnd(k)];
      ReplyOutcome(c, kern, s.stream, s.taken, 0, ReadServer(c, kern))
  {
    var s := kern.sockets[ServerEnd(k)];
    assert s.stream[..s.taken] == c.response;
    assert s.taken == |s.stream| ==> c.response == s.stream;
  }

  lemma OneReply(c: Conn, k: nat, kern: Kern)
    requires ConnOk(c, k, kern) && c.state == ReadingServer
    requires kern.script != [] && kern.script[0].Bytes?
    requires var s := kern.sockets[ServerEnd(k)]; s.taken < |s.stream|
    ensures var s, r := kern.sockets[ServerEnd(k)], Read(kern, c.serverFd, MAX_OBJECT_SIZE);
      var next := Advance(s.stream, s.taken, kern.script[0]);
      && r.ReadGets? && r.bytes == s.stream[s.taken..next] && next > s.taken
      && r.kern == kern.(sockets := kern.sockets[ServerEnd(k) := s.(taken := next)], script := kern.script[1..])
      && ReadServer(c, kern) == ReadServer(c.(response := c.response + r.bytes), r.kern)
  {
  }

  lemma {:induction false} ReadServerExactly(c: Conn, k: nat, kern: Kern) returns (j: nat)
    requires ConnOk(c, k, kern) && c.state == ReadingServer
    ensures var s := kern.sockets[ServerEnd(k)];
      && ReadsStop(s.stream, s.taken, kern.script, j)
      && ReplyOutcome(c, kern, s.stream, PosAfter(s.stream, s.taken, kern.script[..j]), j, ReadServer(c, kern))
    decreases |kern.script|
  {
    var s := kern.sockets[ServerEnd(k)];
    assert kern.script[..0] == [];
    if kern.script == [] || !kern.script[0].Bytes? || s.taken == |s.stream| {
      j := 0;
      ReplyStops(c, k, kern);
    } else {
      var r, next := Read(kern, c.serverFd, MAX_OBJECT_SIZE), Advance(s.stream, s.taken, kern.script[0]);
      OneReply(c, k, kern);
      ServerRead(c, k, kern);
      var c' := c.(response := c.response + r.bytes);
      var more := ReadServerExactly(c', k, r.kern);
      j := more + 1;
      ReadsLater(s.stream, s.taken, kern.script, more);
      assert j < |kern.script| ==> kern.script[j] == kern.script[1..][more];
    }
  }
}
