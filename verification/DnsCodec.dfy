/** The encoder, the decoder and the query builder of dnsresolverlab-handout/resolver.c. */
module DnsCodec {
  import opened DnsName
  import opened Memory

  // ----- encoding

  lemma RunIs(s: seq<Byte>, k: nat)
    requires k <= |s| && (k < |s| ==> s[k] == DOT) && forall i :: 0 <= i < k ==> s[i] != DOT
    ensures RunLength(s) == k
  {
  }

  lemma {:induction false} DotsSkipped(s: seq<Byte>, i: nat, end: nat)
    requires i <= end <= |s| && forall k :: i <= k < end ==> s[k] == DOT
    ensures Labels(s[i..]) == Labels(s[end..])
    decreases end - i
  {
    if i < end {
      assert s[i..][1..] == s[i + 1..];
      DotsSkipped(s, i + 1, end);
    }
  }

  lemma LabelTaken(s: seq<Byte>, i: nat, end: nat)
    requires i < end <= |s| && s[i] != DOT && RunLength(s[i..]) == end - i
    ensures Labels(s[i..]) == [s[i..end]] + Labels(s[end..])
  {
    assert s[i..][..end - i] == s[i..end] && s[i..][end - i..] == s[end..];
  }

  lemma TokenLabels(name: seq<Byte>, start: nat, end: nat, next: nat)
    requires start < end <= |name| && next == if end < |name| then end + 1 else end
    requires forall i :: start <= i < end ==> name[i] != DOT
    requires end < |name| ==> name[end] == DOT
    ensures Labels(name[start..]) == [name[start..end]] + Labels(name[next..])
  {
    var tail := name[start..];
    RunIs(tail, end - start);
    LabelTaken(name, start, end);
    if end < |name| {
      DotsSkipped(name, end, end + 1);
    }
  }

  method SkipDots(name: seq<Byte>, from: nat) returns (start: nat)
    requires from <= |name|
    ensures from <= start <= |name| && (start < |name| ==> name[start] != DOT)
    ensures Labels(name[from..]) == Labels(name[start..])
  {
    start := from;
    while start < |name| && name[start] == DOT
      invariant from <= start <= |name|
      invariant forall k :: from <= k < start ==> name[k] == DOT
    {
      start := start + 1;
    }
    DotsSkipped(name, from, start);
  }

  /** strtok with a dot as the delimiter, from position `from`: the next token, and where to go on. */
  method Token(name: seq<Byte>, from: nat) returns (start: nat, end: nat, next: nat)
    requires from <= |name|
    ensures from <= start <= end <= next <= |name|
    ensures start == end ==> Labels(name[from..]) == []
    ensures start < end ==> Labels(name[from..]) == [name[start..end]] + Labels(name[next..])
  {
    start := SkipDots(name, from);
    end := start;
    while end < |name| && name[end] != DOT
      invariant start <= end <= |name|
      invariant forall i :: start <= i < end ==> name[i] != DOT
    {
      end := end + 1;
    }
    next := if end < |name| then end + 1 else end;
    if start < end {
      TokenLabels(name, start, end, next);
    } else {
      assert name[start..] == [];
    }
  }

  /** A length byte and the label. */
  method StoreLabel(l: Label, wire: array<Byte>, at: nat)
    requires at + 1 + |l| <= wire.Length
    modifies wire
    ensures wire[..at + 1 + |l|] == old(wire[..at]) + ([|l| % 256] + l)
    ensures wire[at + 1 + |l|..] == old(wire[at + 1 + |l|..])
  {
    wire[at] := |l| % 256;
    assert wire[..at + 1] == old(wire[..at]) + [|l| % 256];
    Copy(l, wire, at + 1);
    assert wire[..at + 1 + |l|] == wire[..at + 1] + wire[at + 1..at + 1 + |l|];
  }

  lemma Regroup(out: seq<Byte>, l: Label, rest: seq<Label>)
    ensures out + Wire([l] + rest) == (out + ([|l| % 256] + l)) + Wire(rest)
  {
    assert ([l] + rest)[1..] == rest;
  }

  /** name_ascii_to_wire. */
  method NameToWire(name: seq<Byte>, wire: array<Byte>)
    requires |name| + 2 <= wire.Length
    modifies wire
    ensures var w := Wire(Labels(name));
      |w| <= wire.Length && wire[..|w|] == w && wire[|w|..] == old(wire[|w|..])
  {
    ghost var was := wire[..];
    ghost var out: seq<Byte> := [];
    WireSizeExactly(name);
    var copied := 0;
    assert name[0..] == name;
    var start, end, next := Token(name, 0);
    ghost var rest := Labels(name);
    while start < end
      invariant start <= end <= next <= |name|
      invariant start == end ==> rest == []
      invariant start < end ==> rest == [name[start..end]] + Labels(name[next..])
      invariant out + Wire(rest) == Wire(Labels(name)) && |out| == copied
      invariant wire[..copied] == out && wire[copied..] == was[copied..]
      decreases |name| - start
    {
      var l := name[start..end];
      Regroup(out, l, Labels(name[next..]));
      out := out + ([|l| % 256] + l);
      assert |out| + |Wire(Labels(name[next..]))| == |Wire(Labels(name))|;
      StoreLabel(l, wire, copied);
      copied := copied + 1 + |l|;
      assert wire[copied..] == was[copied..];
      rest := Labels(name[next..]);
      start, end, next := Token(name, next);
    }
    assert Wire(Labels(name)) == out + [0];
    wire[copied] := 0;
    assert wire[..copied + 1] == out + [0];
  }

  // ----- decoding

  /** Each label after a dot, as the decoder leaves them in its buffer. */
  function Dotted(labels: seq<Label>): seq<Byte> {
    if labels == [] then [] else [DOT] + labels[0] + Dotted(labels[1..])
  }

  lemma {:induction false} DottedIsJoin(labels: seq<Label>)
    requires labels != []
    ensures Dotted(labels) == [DOT] + Join(labels)
  {
    if |labels| > 1 {
      DottedIsJoin(labels[1..]);
    }
  }

  predicate PlainLabels(labels: seq<Label>) {
    forall i :: 0 <= i < |labels| ==> Plain(labels[i])
  }

  lemma {:induction false} DottedPlain(labels: seq<Label>)
    requires PlainLabels(labels)
    ensures Plain(Dotted(labels))
  {
    if labels != [] {
      assert Plain(labels[0]);
      DottedPlain(labels[1..]);
    }
  }

  lemma RegroupDotted(out: seq<Byte>, l: Label, rest: seq<Label>)
    ensures out + Dotted([l] + rest) == (out + ([DOT] + l)) + Dotted(rest)
  {
    assert ([l] + rest)[1..] == rest;
  }

  /** What a name expands to has labels of one to sixty-three bytes. */
  lemma {:induction false} ExpandShort(msg: seq<Byte>, i: nat, segment: nat, whole: bool)
    requires Expand(msg, i, segment, whole).Good?
    ensures ShortLabels(Expand(msg, i, segment, whole).labels)
    decreases segment, |msg| - i
  {
    if msg[i] >= 0xC0 {
      ExpandShort(msg, Target(msg, i, whole), Target(msg, i, whole), whole);
    } else if msg[i] != 0 {
      ExpandShort(msg, i + 1 + msg[i], segment, whole);
    }
  }

  /** strlen, malloc and strcpy of the string without its first byte. */
  method CopyTail(name: array<Byte>, ghost dotted: seq<Byte>) returns (text: array<Byte>)
    requires CStringAt(name, dotted) && dotted != []
    ensures fresh(text) && text.Length == |dotted| && CStringAt(text, dotted[1..])
  {
    var length := 0;
    while name[length] != 0
      invariant length <= |dotted|
      decreases |dotted| - length
    {
      length := length + 1;
    }
    text := new Byte[length];
    var i := 0;
    while name[1 + i] != 0
      invariant i < length && text.Length == length == |dotted|
      invariant forall k :: 0 <= k < i ==> text[k] == dotted[1 + k]
      invariant CStringAt(name, dotted)
      decreases length - i
    {
      text[i] := name[1 + i];
      i := i + 1;
    }
    text[i] := 0;
  }

  /** One label, copied with its length byte, which is then replaced by a dot. */
  method StoreDotted(msg: seq<Byte>, index: nat, size: nat, name: array<Byte>, copied: nat)
    requires index + size < |msg| && copied + size < name.Length
    modifies name
    ensures name[..copied + size + 1] == old(name[..copied]) + ([DOT] + msg[index + 1..index + 1 + size])
  {
    Copy(msg[index..index + size + 1], name, copied);
    ghost var l := msg[index..index + size + 1];
    assert name[copied + 1..copied + size + 1] == l[1..];
    name[copied] := DOT;
    assert name[copied + 1..copied + size + 1] == l[1..];
    assert name[..copied + size + 1]
        == name[..copied] + [name[copied]] + name[copied + 1..copied + size + 1];
  }

  /** name_ascii_from_wire: the name at an offset of a message, with the pointers read as line 209
      reads them, as canonical text in a buffer of exactly the right size. */
  method NameFromWire(msg: seq<Byte>, at: nat) returns (text: array<Byte>)
    requires Expand(msg, at, at, false).Good?
    requires var labels := Expand(msg, at, at, false).labels;
      labels != [] && PlainLabels(labels) && |Join(labels)| + 2 <= RES_MAX
    ensures var name := Join(Expand(msg, at, at, false).labels);
      fresh(text) && text.Length == |name| + 1 && name != [] && CStringAt(text, Canonical(name))
  {
    ghost var labels := Expand(msg, at, at, false).labels;
    DottedIsJoin(labels);
    DottedPlain(labels);
    var name := new Byte[RES_MAX];
    var copied: nat, index: nat := 0, at;
    ghost var out: seq<Byte>, segment: nat, rest := [], at, labels;
    while msg[index] != 0
      invariant Expand(msg, index, segment, false).Good?
      invariant Expand(msg, index, segment, false).labels == rest
      invariant out + Dotted(rest) == Dotted(labels) && |out| == copied
      invariant copied < name.Length && name[..copied] == out
      decreases segment, |msg| - index
    {
      if msg[index] >= 0xC0 {
        index := msg[index + 1];
        segment := index;
      } else {
        var size: nat := msg[index];
        ghost var l, more := rest[0], rest[1..];
        assert rest == [l] + more;
        RegroupDotted(out, l, more);
        assert |out| + |Dotted(rest)| < RES_MAX;
        assert l == msg[index + 1..index + 1 + size];
        StoreDotted(msg, index, size, name, copied);
        out := out + ([DOT] + l);
        copied := copied + size + 1;
        index := index + size + 1;
        rest := more;
      }
    }
    assert rest == [] && out == Dotted(labels);
    name[copied] := 0;
    assert name[..copied] == out;
    ghost var joined := Join(labels);
    ExpandShort(msg, at, at, false);
    assert ShortLabel(labels[0]);
    assert forall k :: 0 <= k < copied ==> name[k] == name[..copied][k];
    text := CopyTail(name, Dotted(labels));
    assert Dotted(labels)[1..] == joined;
    Canonicalize(text, joined);
  }

  // ----- the query

  function Header(id1: Byte, id2: Byte): seq<Byte> {
    [id1, id2, 1, 0, 0, 1, 0, 0, 0, 0, 0, 0]
  }

  function Footer(): seq<Byte> { [0, 1, 0, 1] }

  /** A query message: header, name, type and class (section 4.1 of RFC 1035). */
  function Query(id1: Byte, id2: Byte, labels: seq<Label>): seq<Byte> {
    Header(id1, id2) + Wire(labels) + Footer()
  }

  function Read16(msg: seq<Byte>, i: nat): int
    requires i + 2 <= |msg|
  {
    msg[i] as int * 256 + msg[i + 1]
  }

  /** The fields of a query by section 4.1 of RFC 1035: a standard query that asks for recursion, with
      one question and nothing else, for an address (type 1) in the Internet (class 1). */
  lemma QueryFields(id1: Byte, id2: Byte, labels: seq<Label>)
    ensures var q := Query(id1, id2, labels);
      && |q| >= 17 && Read16(q, 0) == id1 as int * 256 + id2
      && Read16(q, 2) == 0x0100
      && Read16(q, 4) == 1 && Read16(q, 6) == Read16(q, 8) == Read16(q, 10) == 0
      && q[12..|q| - 4] == Wire(labels)
      && Read16(q, |q| - 4) == 1 && Read16(q, |q| - 2) == 1
  {
    var q, w := Query(id1, id2, labels), Wire(labels);
    assert |w| >= 1;
    assert q[..12] == Header(id1, id2) && q[|q| - 4..] == Footer();
    assert forall k :: 0 <= k < 12 ==> q[k] == Header(id1, id2)[k];
    assert forall k :: 0 <= k < 4 ==> q[|q| - 4 + k] == Footer()[k];
  }

  /** create_dns_query. The two random bytes are parameters. A name without empty labels fills the
      array exactly; any other leaves bytes between the name and the footer unset. */
  method CreateQuery(qname: seq<Byte>, id1: Byte, id2: Byte, wire: array<Byte>)
    requires wire.Length == 12 + |qname| + 2 + 4
    modifies wire
    ensures NoEmptyLabel(qname) ==> wire[..] == Query(id1, id2, Labels(qname))
    ensures wire[..12] == Header(id1, id2) && At(wire[..], 12, Wire(Labels(qname)))
      && wire[14 + |qname|..] == Footer()
  {
    var dest := new Byte[|qname| + 2];
    NameToWire(qname, dest);
    WireSizeExactly(qname);
    ghost var w := Wire(Labels(qname));
    var encoded := dest[..];
    assert encoded[..|w|] == w;
    Copy(Header(id1, id2), wire, 0);
    assert wire[..12] == wire[0..12];
    Copy(encoded, wire, 12);
    Copy(Footer(), wire, 14 + |qname|);
    assert wire[..14 + |qname|] == Header(id1, id2) + encoded;
    assert wire[14 + |qname|..] == wire[14 + |qname|..14 + |qname| + 4];
    assert wire[..] == wire[..14 + |qname|] + wire[14 + |qname|..];
    assert wire[..] == Header(id1, id2) + encoded + Footer();
    assert wire[..][12..12 + |w|] == encoded[..|w|];
    if |w| == |qname| + 2 {
      assert encoded == w;
    }
  }

  /** The query has the size resolve computes exactly when the name has no empty label. */
  lemma QueryFillsExactly(qname: seq<Byte>, id1: Byte, id2: Byte)
    ensures |Query(id1, id2, Labels(qname))| == 12 + |qname| + 2 + 4 <==> NoEmptyLabel(qname)
  {
    WireSizeExactly(qname);
  }

  lemma {:induction false} NoDotAtEnd(s: seq<Byte>)
    requires NoEmptyLabel(s)
    ensures s[|s| - 1] != DOT
    decreases |s|
  {
    var k := RunLength(s);
    if k < |s| {
      NoDotAtEnd(s[k + 1..]);
    }
  }

  /** Decoding the name in a query gives back the name that was asked for, in lower case. */
  lemma QueryNameRoundTrip(qname: seq<Byte>, id1: Byte, id2: Byte, whole: bool)
    requires NoEmptyLabel(qname) && ShortLabels(Labels(qname))
    ensures Expand(Query(id1, id2, Labels(qname)), 12, 12, whole) == Good(Labels(qname), [])
    ensures Canonical(Join(Labels(qname))) == Lower(qname)
  {
    var labels := Labels(qname);
    assert Query(id1, id2, labels) == Header(id1, id2) + (Wire(labels) + Footer());
    var msg := Query(id1, id2, labels);
    assert msg[12..12 + |Wire(labels)|] == Wire(labels);
    ExpandWire(msg, 12, labels, 12, whole);
    JoinLabels(qname);
    NoDotAtEnd(qname);
  }

  /** The encoder and the decoder together, on arrays. */
  method EncodeThenDecode(qname: seq<Byte>, id1: Byte, id2: Byte) returns (text: array<Byte>)
    requires NoEmptyLabel(qname) && ShortLabels(Labels(qname)) && Plain(qname)
    requires |qname| + 2 <= RES_MAX
    ensures text.Length == |qname| + 1 && CStringAt(text, Lower(qname))
  {
    var wire := new Byte[18 + |qname|];
    CreateQuery(qname, id1, id2, wire);
    QueryNameRoundTrip(qname, id1, id2, false);
    JoinLabels(qname);
    LabelsPlain(qname);
    text := NameFromWire(wire[..], 12);
  }

  lemma {:induction false} LabelsPlain(s: seq<Byte>)
    requires Plain(s)
    ensures PlainLabels(Labels(s))
    decreases |s|
  {
    if s != [] {
      if s[0] == DOT {
        LabelsPlain(s[1..]);
      } else {
        LabelsPlain(s[RunLength(s)..]);
      }
    }
  }
}
