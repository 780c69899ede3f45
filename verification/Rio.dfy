/** The robust I/O functions of hw6/csapp.c (lines 734-883) and the echo loop of hw6/echo.c. */
module Rio {
  // The kernel is a finite script of what successive system calls will do. A descriptor that is read
  // delivers its bytes in chunks of any size, may be interrupted by a signal handler any number of times
  // and may fail; when the script is used up it reports end of file for ever.

  import opened Arithmetic

  type Byte = b: int | 0 <= b < 256

  const NEWLINE: Byte := 10
  const RIO_BUFSIZE: nat := 8192
  const MAXLINE: nat := 8192

  // ----- the kernel's side

  /** What a read will do: deliver some bytes, be interrupted, or fail. */
  datatype Arrival = Chunk(bytes: seq<Byte>) | Interrupt | Failure

  /** The bytes a script will deliver, whatever the chunks. */
  function Bytes(script: seq<Arrival>): seq<Byte> {
    if script == [] then []
    else (if script[0].Chunk? then script[0].bytes else []) + Bytes(script[1..])
  }

  predicate NeverFails(script: seq<Arrival>) {
    script == [] || (!script[0].Failure? && NeverFails(script[1..]))
  }

  /** A read that returns 0 means end of file, so a chunk is never empty. */
  predicate Proper(script: seq<Arrival>) {
    forall i :: 0 <= i < |script| && script[i].Chunk? ==> script[i].bytes != []
  }

  /** How many bytes there are before a read fails; all of them if none does. */
  function Before(script: seq<Arrival>): nat {
    if script == [] || script[0].Failure? then 0
    else (if script[0].Chunk? then |script[0].bytes| else 0) + Before(script[1..])
  }

  /** Reads that are to bring n bytes meet a failure. */
  predicate FailsBefore(script: seq<Arrival>, n: nat) {
    !NeverFails(script) && Before(script) < n
  }

  lemma BytesBehind(script: seq<Arrival>, i: nat)
    requires 0 < i <= |script|
    ensures var size := if script[0].Chunk? then |script[0].bytes| else 0;
      |Bytes(script[..i])| == size + |Bytes(script[1..][..i - 1])|
  {
    assert script[..i][1..] == script[1..][..i - 1];
  }

  /** That is: a failure stands in the script with fewer than n bytes before it. */
  lemma {:induction false} FailsExactly(script: seq<Arrival>, n: nat)
    ensures FailsBefore(script, n)
      <==> exists i :: 0 <= i < |script| && script[i].Failure? && |Bytes(script[..i])| < n
  {
    if n > 0 && script != [] {
      var first, rest := script[0], script[1..];
      var size := if first.Chunk? then |first.bytes| else 0;
      FailsExactly(rest, if size < n then n - size else 0);
      assert script[..0] == [];
      forall i | 0 < i < |script|
        ensures script[i] == rest[i - 1] && |Bytes(script[..i])| == size + |Bytes(rest[..i - 1])|
      {
        BytesBehind(script, i);
      }
      assert forall i :: 0 <= i < |rest| ==> rest[i] == script[i + 1];
    }
  }

  lemma {:induction false} BeforeAll(script: seq<Arrival>)
    ensures Before(script) <= |Bytes(script)|
    ensures NeverFails(script) ==> Before(script) == |Bytes(script)|
  {
    if script != [] {
      BeforeAll(script[1..]);
    }
  }

  /** After k bytes the same failures are ahead. */
  predicate SameAhead(script: seq<Arrival>, rest: seq<Arrival>, k: int) {
    && (NeverFails(script) <==> NeverFails(rest))
    && Before(script) == Before(rest) + (if k > 0 then k else 0)
  }

  class Source {
    var script: seq<Arrival>

    constructor (script: seq<Arrival>)
      ensures this.script == script
    {
      this.script := script;
    }

    /** read(2) of at most n bytes into dst[off..]; on -1, `interrupted` says whether errno is EINTR. */
    method Read(dst: array<Byte>, off: nat, n: nat) returns (r: int, interrupted: bool)
      requires Proper(script) && n > 0 && off + n <= dst.Length
      modifies this, dst
      ensures Proper(script) && -1 <= r <= n
      ensures r >= 0 ==> Delivers(dst, off, r, Bytes(old(script)), Bytes(script))
      ensures r == 0 ==> old(script) == [] && script == []
      ensures r == -1 ==> |script| < |old(script)| && Bytes(script) == Bytes(old(script))
      ensures r == -1 && !interrupted ==> !NeverFails(old(script)) && Before(old(script)) == 0
      ensures r >= 0 || interrupted ==> SameAhead(old(script), script, r)
      ensures forall i :: 0 <= i < dst.Length && !(off <= i < off + r) ==> dst[i] == old(dst[i])
    {
      if script == [] {
        return 0, false;
      }
      match script[0]
      case Interrupt =>
        script := script[1..];
        return -1, true;
      case Failure =>
        script := script[1..];
        return -1, false;
      case Chunk(bytes) =>
        r := TakeChunk(dst, off, n);
        return r, false;
    }

    /** Deliver the front of the chunk that is first in the script. */
    method TakeChunk(dst: array<Byte>, off: nat, n: nat) returns (k: nat)
      requires Proper(script) && n > 0 && off + n <= dst.Length && script != [] && script[0].Chunk?
      modifies this, dst
      ensures Proper(script) && SameAhead(old(script), script, k)
      ensures 0 < k <= n && Delivers(dst, off, k, Bytes(old(script)), Bytes(script))
      ensures forall i :: 0 <= i < dst.Length && !(off <= i < off + k) ==> dst[i] == old(dst[i])
    {
      var bytes := script[0].bytes;
      k := Min(n, |bytes|);
      TakeFromChunk(script, k);
      forall i | off <= i < off + k {
        dst[i] := bytes[i - off];
      }
      script := if k == |bytes| then script[1..] else [Chunk(bytes[k..])] + script[1..];
    }
  }

  /** The first k bytes of `before` stand in the array from off on, and the others are left. */
  ghost predicate Delivers(dst: array<Byte>, off: nat, k: nat, before: seq<Byte>, after: seq<Byte>)
    reads dst
  {
    && off + k <= dst.Length && k <= |before| && after == before[k..]
    && forall i :: off <= i < off + k ==> dst[i] == before[i - off]
  }

  /** One delivery after another. */
  lemma DeliversOn(dst: array<Byte>, k: nat, m: nat, before: seq<Byte>, mid: seq<Byte>, after: seq<Byte>)
    requires Delivers(dst, 0, k, before, mid) && Delivers(dst, k, m, mid, after)
    ensures Delivers(dst, 0, k + m, before, after)
  {
    assert before[k..][m..] == before[k + m..];
    assert forall i :: k <= i < k + m ==> mid[i - k] == before[i];
  }

  lemma DeliveredPart(dst: array<Byte>, k: nat, before: seq<Byte>, after: seq<Byte>)
    requires Delivers(dst, 0, k, before, after)
    ensures dst[..k] + after == before
  {
    assert dst[..k] == before[..k];
    assert before == before[..k] + before[k..];
  }

  lemma TakeFromChunk(script: seq<Arrival>, k: nat)
    requires script != [] && script[0].Chunk? && Proper(script) && 0 < k <= |script[0].bytes|
    ensures var bytes := script[0].bytes;
      var rest := if k == |bytes| then script[1..] else [Chunk(bytes[k..])] + script[1..];
      && k <= |Bytes(script)| && Bytes(script)[..k] == bytes[..k] && Bytes(rest) == Bytes(script)[k..]
      && Proper(rest) && SameAhead(script, rest, k)
  {
    var bytes := script[0].bytes;
    if k < |bytes| {
      assert ([Chunk(bytes[k..])] + script[1..])[1..] == script[1..];
    }
  }

  /** What a write will do: take some bytes, be interrupted, fail, or take nothing and leave errno as
      it was. */
  datatype Departure = Accept(count: nat) | WriteInterrupt | WriteFailure | Nothing

  predicate NeverRefuses(script: seq<Departure>) {
    forall i :: 0 <= i < |script| ==>
      !script[i].WriteFailure? && !script[i].Nothing? && (script[i].Accept? ==> script[i].count > 0)
  }

  /** A write fails while bytes are left of the n that are to go: it reports an error, or it takes
      nothing, and errno is not the EINTR of an earlier interruption. */
  function Refuses(script: seq<Departure>, eintr: bool, n: nat): bool {
    if n == 0 || script == [] then false
    else if script[0].WriteInterrupt? then Refuses(script[1..], true, n)
    else if script[0].WriteFailure? then true
    else if script[0].Nothing? || script[0].count == 0 then !eintr || Refuses(script[1..], eintr, n)
    else script[0].count < n && Refuses(script[1..], eintr, n - script[0].count)
  }

  lemma {:induction false} NeverRefusing(script: seq<Departure>, eintr: bool, n: nat)
    requires NeverRefuses(script)
    ensures !Refuses(script, eintr, n)
  {
    if n > 0 && script != [] {
      var interrupted := eintr || script[0].WriteInterrupt?;
      var taken := if script[0].Accept? then script[0].count else 0;
      NeverRefusing(script[1..], interrupted, if taken < n then n - taken else 0);
    }
  }

  /** A descriptor that is written; with the script used up it takes everything it is given. */
  class Sink {
    var script: seq<Departure>
    var out: seq<Byte>
    var errnoIsEintr: bool

    constructor (script: seq<Departure>)
      ensures this.script == script && out == []
    {
      this.script := script;
      out := [];
      errnoIsEintr := false;
    }

    /** write(2) of src[off..off + n]. */
    method Write(src: array<Byte>, off: nat, n: nat) returns (r: int)
      requires n > 0 && off + n <= src.Length
      modifies this
      ensures -1 <= r <= n
      ensures out == old(out) + if r > 0 then src[off..off + r] else []
      ensures NeverRefuses(old(script)) ==> NeverRefuses(script) && (r > 0 || errnoIsEintr)
      ensures r <= 0 ==> |script| < |old(script)|
      ensures old(Refuses(script, errnoIsEintr, n)) <==>
        (r <= 0 && !errnoIsEintr) || Refuses(script, errnoIsEintr, if r < 0 then n else n - r)
    {
      if script == [] {
        out := out + src[off..off + n];
        return n;
      }
      var first := script[0];
      script := script[1..];
      match first
      case Accept(count) =>
        r := Min(n, count);
        out := out + src[off..off + r];
      case WriteInterrupt =>
        errnoIsEintr := true;
        return -1;
      case WriteFailure =>
        errnoIsEintr := false;
        return -1;
      case Nothing =>
        return 0;
    }
  }

  // ----- unbuffered calls

  /** One call of read in the loop of rio_readn, which goes on after EINTR as if no byte had come: the
      bytes it got, and -1 for a failure, 0 at end of file, 1 to go on. */
  method ReadMore(fd: Source, usrbuf: array<Byte>, bufp: nat, nleft: nat, ghost stream: seq<Byte>)
    returns (nread: nat, status: int)
    requires Proper(fd.script) && nleft > 0 && bufp + nleft <= usrbuf.Length
    requires Delivers(usrbuf, 0, bufp, stream, Bytes(fd.script))
    modifies fd, usrbuf
    ensures Proper(fd.script) && nread <= nleft
    ensures Delivers(usrbuf, 0, bufp + nread, stream, Bytes(fd.script))
    ensures status == -1 ==> nread == 0 && !NeverFails(old(fd.script)) && Before(old(fd.script)) == 0
    ensures status != -1 ==> SameAhead(old(fd.script), fd.script, nread)
    ensures status == 0 ==> nread == 0 && fd.script == []
    ensures status != -1 && status != 0 && nread == 0 ==> |fd.script| < |old(fd.script)|
  {
    ghost var mid := Bytes(fd.script);
    var r, interrupted := fd.Read(usrbuf, bufp, nleft);
    assert Delivers(usrbuf, 0, bufp, stream, mid);
    if r > 0 {
      DeliversOn(usrbuf, bufp, r, stream, mid, Bytes(fd.script));
      return r, 1;
    }
    return 0, if r < 0 && interrupted then 1 else r;
  }

  /** All bytes are there, or the stream is at its end. */
  lemma ReadnDone(usrbuf: array<Byte>, k: nat, n: nat, before: seq<Arrival>, after: seq<Arrival>)
    requires Delivers(usrbuf, 0, k, Bytes(before), Bytes(after)) && SameAhead(before, after, k)
    requires k == n || (k < n && after == [])
    ensures k == Min(n, |Bytes(before)|) && !FailsBefore(before, n)
  {
    assert Bytes([]) == [] && NeverFails([]);
  }

  /** rio_readn: reads n bytes, or what there is before end of file. After a failure the bytes already
      read are in the buffer, and only those are gone from the stream. */
  method Readn(fd: Source, usrbuf: array<Byte>, n: nat) returns (r: int)
    requires Proper(fd.script) && n <= usrbuf.Length
    modifies fd, usrbuf
    ensures Proper(fd.script) && -1 <= r <= n
    ensures r == -1 <==> FailsBefore(old(fd.script), n)
    ensures r >= 0 ==> r == Min(n, |Bytes(old(fd.script))|)
    ensures r >= 0 ==> Delivers(usrbuf, 0, r, Bytes(old(fd.script)), Bytes(fd.script))
    ensures r < 0 ==> exists k: nat :: k <= n && Delivers(usrbuf, 0, k, Bytes(old(fd.script)), Bytes(fd.script))
  {
    ghost var stream := Bytes(fd.script);
    var nleft, bufp := n, 0;
    while nleft > 0
      invariant 0 <= bufp <= n && nleft == n - bufp && Proper(fd.script)
      invariant Delivers(usrbuf, 0, bufp, stream, Bytes(fd.script))
      invariant SameAhead(old(fd.script), fd.script, bufp)
      decreases nleft, |fd.script|
    {
      var nread, status := ReadMore(fd, usrbuf, bufp, nleft, stream);
      if status == -1 {
        assert Delivers(usrbuf, 0, bufp, stream, Bytes(fd.script));
        return -1;
      } else if status == 0 {
        break;
      }
      nleft := nleft - nread;
      bufp := bufp + nread;
    }
    ReadnDone(usrbuf, bufp, n, old(fd.script), fd.script);
    return n - nleft;
  }

  /** rio_writen: writes all n bytes, unless the descriptor fails. */
  method Writen(fd: Sink, usrbuf: array<Byte>, n: nat) returns (r: int)
    requires n <= usrbuf.Length
    modifies fd
    ensures r == n || r == -1
    ensures r == n ==> fd.out == old(fd.out) + usrbuf[..n]
    ensures old(fd.out) <= fd.out <= old(fd.out) + usrbuf[..n]
    ensures r == -1 <==> old(Refuses(fd.script, fd.errnoIsEintr, n))
    ensures NeverRefuses(old(fd.script)) ==> r == n && NeverRefuses(fd.script)
  {
    var nleft, bufp := n, 0;
    while nleft > 0
      invariant 0 <= bufp <= n && nleft == n - bufp
      invariant fd.out == old(fd.out) + usrbuf[..bufp]
      invariant NeverRefuses(old(fd.script)) ==> NeverRefuses(fd.script)
      invariant old(Refuses(fd.script, fd.errnoIsEintr, n)) <==> Refuses(fd.script, fd.errnoIsEintr, nleft)
      decreases nleft, |fd.script|
    {
      var nwritten := fd.Write(usrbuf, bufp, nleft);
      if nwritten <= 0 {
        if fd.errnoIsEintr {
          nwritten := 0;
        } else {
          return -1;
        }
      } else {
        assert usrbuf[..bufp + nwritten] == usrbuf[..bufp] + usrbuf[bufp..bufp + nwritten];
      }
      nleft := nleft - nwritten;
      bufp := bufp + nwritten;
    }
    return n;
  }

  // ----- what a line is

  /** The length of the next line of a stream, counting its newline, at most cap. */
  function LineLength(s: seq<Byte>, cap: nat): (k: nat)
    ensures k <= cap && k <= |s|
    ensures k == 0 <==> s == [] || cap == 0
  {
    if s == [] || cap == 0 then 0
    else if s[0] == NEWLINE then 1
    else 1 + LineLength(s[1..], cap - 1)
  }

  /** No newline before the last of the k bytes, and the line cannot go on: it ends with the newline,
      has the full length, or is all there is. */
  ghost predicate IsLineLength(k: nat, s: seq<Byte>, cap: nat) {
    && k <= |s| && k <= cap
    && (forall i :: 0 <= i < k - 1 ==> s[i] != NEWLINE)
    && ((k > 0 && s[k - 1] == NEWLINE) || k == cap || k == |s|)
  }

  /** There is exactly one such length, and LineLength finds it. */
  lemma {:induction false} LineLengthExactly(k: nat, s: seq<Byte>, cap: nat)
    ensures IsLineLength(k, s, cap) <==> k == LineLength(s, cap)
    decreases cap
  {
    if s != [] && cap > 0 && s[0] != NEWLINE {
      var t := s[1..];
      assert forall i :: 0 <= i < |t| ==> t[i] == s[i + 1];
      assert forall i :: 1 <= i < |s| ==> s[i] == t[i - 1];
      if k > 0 {
        LineLengthExactly(k - 1, t, cap - 1);
        assert IsLineLength(k, s, cap) <==> IsLineLength(k - 1, t, cap - 1);
      }
    }
  }

  /** How much of a stream must be seen to know its next line: the line, and beyond it, when it ends
      short of both a newline and the full length, that the stream ends there. */
  function Demand(s: seq<Byte>, cap: nat): nat {
    if cap == 0 then 0
    else if s == [] || s[0] == NEWLINE then 1
    else 1 + Demand(s[1..], cap - 1)
  }

  lemma {:induction false} DemandExactly(s: seq<Byte>, cap: nat)
    ensures var k := LineLength(s, cap);
      Demand(s, cap) == if k == cap || (k > 0 && s[k - 1] == NEWLINE) then k else k + 1
    decreases cap
  {
    if cap > 0 && s != [] && s[0] != NEWLINE {
      DemandExactly(s[1..], cap - 1);
    }
  }

  // ----- the buffered reader

  class Reader {
    const fd: Source
    const buf: array<Byte>
    var cnt: int
    var bufptr: nat
    /** Everything the caller has not been given yet: what is left in the buffer, then what is left in
        the descriptor. */
    ghost var unread: seq<Byte>

    ghost predicate Valid()
      reads this, fd, buf
    {
      && buf.Length == RIO_BUFSIZE && Proper(fd.script)
      && cnt <= RIO_BUFSIZE && (cnt > 0 ==> bufptr + cnt <= RIO_BUFSIZE)
      && unread == Pending() + Bytes(fd.script)
    }

    /** The bytes that have been read from the descriptor and not delivered. */
    ghost function Pending(): seq<Byte>
      reads this, buf
    {
      if 0 < cnt && bufptr + cnt <= buf.Length then buf[bufptr..bufptr + cnt] else []
    }

    /** How many bytes the caller can have before a read fails. */
    ghost function Sure(): nat
      reads this, fd
    {
      (if cnt > 0 then cnt else 0) + Before(fd.script)
    }

    /** A read fails before the caller has n more bytes. */
    ghost predicate Fails(n: nat)
      reads this, fd
    {
      !NeverFails(fd.script) && Sure() < n
    }

    /** rio_readinitb. */
    constructor (fd: Source)
      requires Proper(fd.script)
      ensures Valid() && this.fd == fd && unread == Bytes(fd.script) && fresh(buf)
      ensures Sure() == Before(fd.script)
    {
      this.fd := fd;
      cnt, bufptr := 0, 0;
      unread := Bytes(fd.script);
      buf := new Byte[RIO_BUFSIZE](_ => 0);
    }

    /** The refill loop of rio_read: afterwards the buffer is not empty, or the stream has ended (0),
        or the descriptor has failed (-1). */
    method Refill() returns (status: int)
      requires Valid()
      modifies this, fd, buf
      ensures Valid() && unread == old(unread)
      ensures status == -1 ==> !NeverFails(old(fd.script)) && old(Sure()) == 0
      ensures status != -1 ==> (NeverFails(old(fd.script)) <==> NeverFails(fd.script)) && Sure() == old(Sure())
      ensures status == 1 || status == 0 || status == -1
      ensures status == 1 <==> cnt > 0
      ensures status == 0 ==> unread == [] && NeverFails(fd.script)
    {
      while cnt <= 0
        invariant Valid() && unread == old(unread)
        invariant (NeverFails(old(fd.script)) <==> NeverFails(fd.script)) && Sure() == old(Sure())
        decreases |fd.script|, cnt <= 0
      {
        ghost var stream := Bytes(fd.script);
        assert unread == stream;
        var r, interrupted := fd.Read(buf, 0, RIO_BUFSIZE);
        cnt := r;
        if cnt < 0 {
          if !interrupted {
            return -1;
          }
        } else if cnt == 0 {
          return 0;
        } else {
          bufptr := 0;
          DeliveredPart(buf, r, stream, Bytes(fd.script));
          assert Pending() == buf[..r];
          return 1;
        }
      }
      return 1;
    }

    /** rio_read: delivers at least one byte unless the stream has ended or the descriptor failed, and
        never loses or repeats one. */
    method ReadSome(usrbuf: array<Byte>, off: nat, n: nat) returns (r: int)
      requires Valid() && n > 0 && off + n <= usrbuf.Length && usrbuf != buf
      modifies this, fd, buf, usrbuf
      ensures Valid() && -1 <= r <= n
      ensures r >= 0 ==> Delivers(usrbuf, off, r, old(unread), unread)
      ensures r < 0 ==> unread == old(unread)
      ensures r == 0 ==> unread == [] && NeverFails(fd.script)
      ensures r == -1 ==> !NeverFails(old(fd.script)) && old(Sure()) == 0
      ensures r >= 0 ==> (NeverFails(old(fd.script)) <==> NeverFails(fd.script)) && Sure() + r == old(Sure())
      ensures forall i :: 0 <= i < usrbuf.Length && !(off <= i < off + r) ==> usrbuf[i] == old(usrbuf[i])
    {
      var status := Refill();
      if status < 1 {
        return status;
      }
      var k := n;
      if cnt < n {
        k := cnt;
      }
      CopyOut(usrbuf, off, k);
      return k;
    }

    /** The memcpy of rio_read: k pending bytes go to the caller. */
    method CopyOut(usrbuf: array<Byte>, off: nat, k: nat)
      requires Valid() && k <= cnt && off + k <= usrbuf.Length && usrbuf != buf
      modifies this, usrbuf
      ensures Valid() && fd.script == old(fd.script)
      ensures Delivers(usrbuf, off, k, old(unread), unread) && Sure() + k == old(Sure())
      ensures forall i :: 0 <= i < usrbuf.Length && !(off <= i < off + k) ==> usrbuf[i] == old(usrbuf[i])
    {
      ghost var pending, rest := Pending(), Bytes(fd.script);
      forall i | off <= i < off + k {
        usrbuf[i] := buf[bufptr + (i - off)];
      }
      forall i | off <= i < off + k
        ensures usrbuf[i] == unread[i - off]
      {
        assert pending[i - off] == buf[bufptr + (i - off)];
      }
      bufptr := bufptr + k;
      cnt := cnt - k;
      assert Pending() == pending[k..];
      assert unread[k..] == pending[k..] + rest;
      unread := unread[k..];
    }

    /** rio_readnb: delivers n bytes, or what there is before the end of the stream. */
    method Readnb(usrbuf: array<Byte>, n: nat) returns (r: int)
      requires Valid() && n <= usrbuf.Length && usrbuf != buf
      modifies this, fd, buf, usrbuf
      ensures Valid() && -1 <= r <= n
      ensures r == -1 <==> old(Fails(n))
      ensures r >= 0 ==> r == Min(n, |old(unread)|) && Delivers(usrbuf, 0, r, old(unread), unread)
      ensures r >= 0 ==> (NeverFails(old(fd.script)) <==> NeverFails(fd.script)) && Sure() + r == old(Sure())
      ensures r < 0 ==> exists k: nat :: k <= n && Delivers(usrbuf, 0, k, old(unread), unread)
    {
      ghost var stream := unread;
      var nleft, bufp := n, 0;
      while nleft > 0
        invariant Valid() && 0 <= bufp <= n && nleft == n - bufp
        invariant Delivers(usrbuf, 0, bufp, stream, unread)
        invariant (NeverFails(old(fd.script)) <==> NeverFails(fd.script)) && Sure() + bufp == old(Sure())
        decreases nleft
      {
        ghost var mid := unread;
        var nread := ReadSome(usrbuf, bufp, nleft);
        assert Delivers(usrbuf, 0, bufp, stream, mid);
        if nread < 0 {
          assert Delivers(usrbuf, 0, bufp, stream, unread);
          return -1;
        } else if nread == 0 {
          break;
        }
        DeliversOn(usrbuf, bufp, nread, stream, mid, unread);
        nleft := nleft - nread;
        bufp := bufp + nread;
      }
      return n - nleft;
    }

    /** One round of rio_readlineb: rio_read(rp, &c, 1), and c goes to the caller's buffer. */
    method TakeByte(usrbuf: array<Byte>, at: nat) returns (rc: int, c: Byte)
      requires Valid() && at < usrbuf.Length && usrbuf != buf
      modifies this, fd, buf, usrbuf
      ensures Valid() && -1 <= rc <= 1
      ensures rc == -1 ==> !NeverFails(old(fd.script)) && old(Sure()) == 0
      ensures rc >= 0 ==> (NeverFails(old(fd.script)) <==> NeverFails(fd.script)) && Sure() + rc == old(Sure())
      ensures rc == 1 ==> [c] + unread == old(unread) && usrbuf[at] == c
      ensures rc <= 0 ==> unread == old(unread)
      ensures rc == 0 ==> unread == [] && NeverFails(fd.script)
      ensures forall i :: 0 <= i < usrbuf.Length && i != at ==> usrbuf[i] == old(usrbuf[i])
    {
      ghost var stream := unread;
      var one := new Byte[1];
      rc := ReadSome(one, 0, 1);
      c := one[0];
      if rc == 1 {
        DeliveredPart(one, 1, stream, unread);
        assert one[..1] == [c];
        usrbuf[at] := c;
      }
    }

    /** The loop of rio_readlineb; `got` is what it has put into the caller's buffer. */
    method TakeLine(usrbuf: array<Byte>, maxlen: nat) returns (n: nat, rc: int, ghost got: seq<Byte>)
      requires Valid() && 0 < maxlen <= usrbuf.Length && usrbuf != buf
      modifies this, fd, buf, usrbuf
      ensures Valid() && -1 <= rc <= 1 && n == |got| + 1 <= maxlen
      ensures rc == -1 <==> old(Fails(Demand(unread, maxlen - 1)))
      ensures rc >= 0 ==> (NeverFails(old(fd.script)) <==> NeverFails(fd.script)) && Sure() + |got| == old(Sure())
      ensures got + unread == old(unread) && forall i :: 0 <= i < |got| ==> usrbuf[i] == got[i]
      ensures rc >= 0 ==> |got| == LineLength(old(unread), maxlen - 1)
      ensures rc == 0 ==> unread == [] && NeverFails(fd.script)
      ensures rc == 1 && maxlen > 1 ==> got != []
    {
      ghost var stream := unread;
      n, rc, got := 1, 1, [];
      var newline := false;
      while n < maxlen && !newline && rc == 1
        invariant Valid() && -1 <= rc <= 1 && n == |got| + 1 <= maxlen
        invariant forall i :: 0 <= i < |got| ==> usrbuf[i] == got[i]
        invariant LineGoesOn(stream, maxlen - 1, got, newline, unread) && (newline ==> got != [])
        invariant rc == 0 ==> unread == [] && NeverFails(fd.script)
        invariant rc >= 0 ==> (NeverFails(old(fd.script)) <==> NeverFails(fd.script)) && Sure() + |got| == old(Sure())
        invariant rc == -1 ==> old(Fails(Demand(unread, maxlen - 1)))
        decreases maxlen - n, rc
      {
        var c;
        rc, c := TakeByte(usrbuf, n - 1);
        if rc == 1 {
          OneMoreByte(stream, maxlen - 1, got, c, unread);
          got := got + [c];
          newline := c == NEWLINE;
          n := n + 1;
        }
      }
    }

    /** rio_readlineb: delivers the next line, at most maxlen - 1 bytes of it, and ends it with a NUL
        unless the stream is at its end. The caller's buffer has room for maxlen bytes, and for the NUL. */
    method Readlineb(usrbuf: array<Byte>, maxlen: nat) returns (r: int)
      requires Valid() && maxlen <= usrbuf.Length && usrbuf.Length > 0 && usrbuf != buf
      modifies this, fd, buf, usrbuf
      ensures Valid() && -1 <= r <= LineCap(maxlen)
      ensures r == -1 <==> old(Fails(Demand(unread, LineCap(maxlen))))
      ensures r >= 0 ==> (NeverFails(old(fd.script)) <==> NeverFails(fd.script)) && Sure() + r == old(Sure())
      ensures r >= 0 ==> r == LineLength(old(unread), LineCap(maxlen)) && Delivers(usrbuf, 0, r, old(unread), unread)
      ensures r > 0 ==> usrbuf[r] == 0
      ensures r == 0 && maxlen > 1 ==> NeverFails(fd.script)
      ensures r < 0 ==> exists k: nat :: k <= LineCap(maxlen) && Delivers(usrbuf, 0, k, old(unread), unread)
    {
      if maxlen == 0 {
        usrbuf[0] := 0;
        return 0;
      }
      var n, rc;
      ghost var got;
      n, rc, got := TakeLine(usrbuf, maxlen);
      if rc > 0 || (rc == 0 && n > 1) {
        usrbuf[n - 1] := 0;
      }
      SplitDelivers(usrbuf, got, old(unread), unread);
      return if rc < 0 then -1 else n - 1;
    }
  }

  lemma SplitDelivers(usrbuf: array<Byte>, got: seq<Byte>, before: seq<Byte>, after: seq<Byte>)
    requires got + after == before && |got| <= usrbuf.Length
    requires forall i :: 0 <= i < |got| ==> usrbuf[i] == got[i]
    ensures Delivers(usrbuf, 0, |got|, before, after)
  {
  }

  /** A line has been read up to `got`; unless its newline was the last byte, the rest of it is the
      line that the rest of the stream starts with. */
  ghost predicate LineGoesOn(stream: seq<Byte>, cap: nat, got: seq<Byte>, newline: bool, rest: seq<Byte>) {
    && |got| <= cap && got + rest == stream
    && LineLength(stream, cap) == |got| + (if newline then 0 else LineLength(rest, cap - |got|))
    && Demand(stream, cap) == |got| + (if newline then 0 else Demand(rest, cap - |got|))
  }

  lemma OneMoreByte(stream: seq<Byte>, cap: nat, got: seq<Byte>, c: Byte, rest: seq<Byte>)
    requires LineGoesOn(stream, cap, got, false, [c] + rest) && |got| < cap
    ensures LineGoesOn(stream, cap, got + [c], c == NEWLINE, rest)
  {
    assert got + ([c] + rest) == got + [c] + rest;
    assert ([c] + rest)[1..] == rest;
  }

  function LineCap(maxlen: nat): nat { if maxlen == 0 then 0 else maxlen - 1 }

  // ----- any mix of calls on one buffer

  datatype Call = Block(n: nat) | Line(maxlen: nat)

  /** How many bytes a call is due from a stream, without any buffer or chunk in sight. */
  function Due(stream: seq<Byte>, call: Call): (k: nat)
    ensures k <= |stream|
  {
    match call
    case Block(n) => Min(n, |stream|)
    case Line(maxlen) => LineLength(stream, LineCap(maxlen))
  }

  function Pieces(stream: seq<Byte>, calls: seq<Call>): seq<seq<Byte>>
    decreases |calls|
  {
    if calls == [] then []
    else
      var k := Due(stream, calls[0]);
      [stream[..k]] + Pieces(stream[k..], calls[1..])
  }

  function Remaining(stream: seq<Byte>, calls: seq<Call>): seq<Byte>
    decreases |calls|
  {
    if calls == [] then stream else Remaining(stream[Due(stream, calls[0])..], calls[1..])
  }

  function Flatten(pieces: seq<seq<Byte>>): seq<Byte> {
    if pieces == [] then [] else pieces[0] + Flatten(pieces[1..])
  }

  /** The pieces and what remains are the stream: nothing lost, repeated or out of order. */
  lemma {:induction false} PiecesConserve(stream: seq<Byte>, calls: seq<Call>)
    ensures Flatten(Pieces(stream, calls)) + Remaining(stream, calls) == stream
    decreases |calls|
  {
    if calls != [] {
      var k := Due(stream, calls[0]);
      PiecesConserve(stream[k..], calls[1..]);
      var tail := Pieces(stream[k..], calls[1..]);
      assert Flatten([stream[..k]] + tail) == stream[..k] + Flatten(tail);
      assert stream == stream[..k] + stream[k..];
    }
  }

  /** How much of the stream a call has to see. */
  function Need(stream: seq<Byte>, call: Call): (k: nat)
    ensures k >= Due(stream, call)
  {
    match call
    case Block(n) => n
    case Line(maxlen) =>
      DemandExactly(stream, LineCap(maxlen));
      Demand(stream, LineCap(maxlen))
  }

  /** How much of the stream the calls have to see. */
  function Needed(stream: seq<Byte>, calls: seq<Call>): nat
    decreases |calls|
  {
    if calls == [] then 0
    else
      var k := Due(stream, calls[0]);
      Max(Need(stream, calls[0]), k + Needed(stream[k..], calls[1..]))
  }

  function Max(a: nat, b: nat): nat { if a < b then b else a }

  /** One call, into a buffer of its own. */
  method OneCall(rp: Reader, call: Call) returns (ok: bool, piece: seq<Byte>)
    requires rp.Valid()
    modifies rp, rp.fd, rp.buf
    ensures rp.Valid()
    ensures !ok <==> old(rp.Fails(Need(rp.unread, call)))
    ensures ok ==> var k := Due(old(rp.unread), call);
      && piece == old(rp.unread)[..k] && rp.unread == old(rp.unread)[k..]
      && (NeverFails(old(rp.fd.script)) <==> NeverFails(rp.fd.script)) && rp.Sure() + k == old(rp.Sure())
  {
    match call
    case Block(n) =>
      var usrbuf := new Byte[n];
      var r := rp.Readnb(usrbuf, n);
      if r < 0 {
        return false, [];
      }
      return true, usrbuf[..r];
    case Line(maxlen) =>
      var usrbuf := new Byte[maxlen + 1];
      var r := rp.Readlineb(usrbuf, maxlen);
      if r < 0 {
        return false, [];
      }
      return true, usrbuf[..r];
  }

  /** Whatever mix of block and line reads is made on one buffer, and however the kernel chunks and
      interrupts, the calls deliver what the plain stream owes them, unless a read fails within the
      part of the stream that they have to see. */
  method Session(rp: Reader, calls: seq<Call>) returns (ok: bool, pieces: seq<seq<Byte>>)
    requires rp.Valid()
    modifies rp, rp.fd, rp.buf
    ensures rp.Valid()
    ensures !ok <==> old(rp.Fails(Needed(rp.unread, calls)))
    ensures ok ==> pieces == Pieces(old(rp.unread), calls) && rp.unread == Remaining(old(rp.unread), calls)
    decreases |calls|
  {
    if calls == [] {
      return true, [];
    }
    var first;
    ok, first := OneCall(rp, calls[0]);
    if !ok {
      return false, [];
    }
    ok, pieces := Session(rp, calls[1..]);
    pieces := [first] + pieces;
  }

  // ----- echo

  /** echo writes back exactly the bytes it receives, in order, until the end of the stream; the two
      wrappers end the process on an error, which is the result false. */
  method Echo(connIn: Source, connOut: Sink) returns (ok: bool)
    requires Proper(connIn.script)
    modifies connIn, connOut
    ensures ok ==> connOut.out == old(connOut.out) + Bytes(old(connIn.script)) && Bytes(connIn.script) == []
    ensures ok ==> NeverFails(old(connIn.script))
    ensures NeverFails(old(connIn.script)) && NeverRefuses(old(connOut.script)) ==> ok
    ensures old(connOut.out) <= connOut.out <= old(connOut.out) + Bytes(old(connIn.script))
  {
    ghost var before, stream := connOut.out, Bytes(connIn.script);
    ghost var sent, rest: seq<Byte> := [], stream;
    var buf := new Byte[MAXLINE];
    var rio := new Reader(connIn);
    var n := rio.Readlineb(buf, MAXLINE);
    while n > 0
      invariant rio.Valid() && rio.fd == connIn && -1 <= n < MAXLINE
      invariant fresh(buf) && fresh(rio) && fresh(rio.buf) && buf != rio.buf
      invariant connOut.out == before + sent && sent + rest == stream
      invariant n >= 0 ==> Delivers(buf, 0, n, rest, rio.unread)
      invariant n == 0 ==> rest == []
      invariant n >= 0 ==> (NeverFails(old(connIn.script)) <==> NeverFails(connIn.script))
      invariant n == 0 ==> NeverFails(connIn.script)
      invariant n == -1 ==> !NeverFails(old(connIn.script))
      invariant NeverRefuses(old(connOut.script)) ==> NeverRefuses(connOut.script)
      decreases |rest|, n >= 0
    {
      var ok := EchoLine(connOut, buf, n, rest);
      EchoedSoFar(before, sent, rest, n);
      if !ok {
        return false;
      }
      sent, rest := sent + rest[..n], rest[n..];
      n := rio.Readlineb(buf, MAXLINE);
    }
    EchoedSoFar(before, sent, rest, 0);
    return n == 0;
  }

  /** Rio_writen of one line, which is the front of the rest of the stream. */
  method EchoLine(connOut: Sink, buf: array<Byte>, n: nat, ghost rest: seq<Byte>) returns (ok: bool)
    requires n <= buf.Length && n <= |rest| && Delivers(buf, 0, n, rest, rest[n..])
    modifies connOut
    ensures ok ==> connOut.out == old(connOut.out) + rest[..n]
    ensures old(connOut.out) <= connOut.out <= old(connOut.out) + rest[..n]
    ensures NeverRefuses(old(connOut.script)) ==> ok && NeverRefuses(connOut.script)
  {
    assert buf[..n] == rest[..n];
    var written := Writen(connOut, buf, n);
    return written == n;
  }

  lemma EchoedSoFar(before: seq<Byte>, sent: seq<Byte>, rest: seq<Byte>, n: nat)
    requires n <= |rest|
    ensures before + sent + rest[..n] == before + (sent + rest[..n])
    ensures sent + rest[..n] + rest[n..] == sent + rest
    ensures before <= before + sent <= before + sent + rest[..n] <= before + (sent + rest)
    ensures rest == [] ==> before + sent == before + (sent + rest)
  {
    assert before + (sent + rest) == before + sent + rest[..n] + rest[n..];
  }
}
