/** Compressed names (section 4.1.4 of RFC 1035) as chains of parts, and what
dnsresolverlab-handout/resolver.c reads of them. */
module DnsChain {
  import opened DnsName
  import opened DnsCodec

  /** A part of a name: where it stands, and its labels. */
  datatype Part = Part(at: nat, labels: seq<Label>)

  /** A pointer to an offset: two set bits and fourteen bits of offset. */
  function PointerBytes(target: nat): seq<Byte>
    requires target < 0x4000
  {
    [0xC0 + target / 256, target % 256]
  }

  /** The parts stand in the message: each has its labels, each but the last then a pointer to the next,
      which starts before where the part starts, and the last a zero byte. `segment` bounds the first
      pointer. */
  ghost predicate Stands(msg: seq<Byte>, parts: seq<Part>, segment: nat)
    decreases |parts|
  {
    && parts != [] && ShortLabels(parts[0].labels)
    && if |parts| == 1 then At(msg, parts[0].at, LabelBytes(parts[0].labels) + [0])
      else
        var next := parts[1].at;
        && next < segment && next < 0x4000
        && At(msg, parts[0].at, LabelBytes(parts[0].labels) + PointerBytes(next))
        && Stands(msg, parts[1..], next)
  }

  /** The name that the parts spell. */
  function AllLabels(parts: seq<Part>): seq<Label> {
    if parts == [] then [] else parts[0].labels + AllLabels(parts[1..])
  }

  /** Where the pointers lead. */
  function Offsets(parts: seq<Part>): seq<nat>
    requires parts != []
  {
    seq(|parts| - 1, i requires 0 <= i < |parts| - 1 => parts[i + 1].at)
  }

  /** Labels in front of what is read after them. */
  function InFront(labels: seq<Label>, rest: Expansion): Expansion {
    match rest
    case Bad => Bad
    case Good(more, parts) => Good(labels + more, parts)
  }

  lemma InFrontTwice(a: seq<Label>, b: seq<Label>, rest: Expansion)
    ensures InFront(a, InFront(b, rest)) == InFront(a + b, rest)
    ensures InFront([], rest) == rest
  {
    match rest
    case Bad =>
    case Good(more, parts) => assert a + (b + more) == (a + b) + more && [] + more == more;
  }

  lemma ExpandOne(msg: seq<Byte>, i: nat, l: Label, segment: nat, whole: bool)
    requires ShortLabel(l) && i + 1 + |l| <= |msg| && msg[i] == |l| && msg[i + 1..i + 1 + |l|] == l
    ensures Expand(msg, i, segment, whole) == InFront([l], Expand(msg, i + 1 + |l|, segment, whole))
  {
  }

  /** Labels, wherever they stand, are read, and reading goes on behind them. */
  lemma {:induction false} ExpandLabels(msg: seq<Byte>, i: nat, labels: seq<Label>, segment: nat, whole: bool)
    requires ShortLabels(labels) && At(msg, i, LabelBytes(labels))
    ensures Expand(msg, i, segment, whole)
      == InFront(labels, Expand(msg, i + |LabelBytes(labels)|, segment, whole))
    decreases |labels|
  {
    var after := Expand(msg, i + |LabelBytes(labels)|, segment, whole);
    if labels == [] {
      InFrontTwice([], [], after);
    } else {
      var l, rest := labels[0], labels[1..];
      assert ShortLabel(l) && labels == [l] + rest;
      LabelAt(msg, i, l, LabelBytes(rest));
      ExpandOne(msg, i, l, segment, whole);
      ExpandLabels(msg, i + 1 + |l|, rest, segment, whole);
      InFrontTwice([l], rest, after);
    }
  }

  lemma LabelAt(msg: seq<Byte>, i: nat, l: Label, rest: seq<Byte>)
    requires ShortLabel(l) && At(msg, i, ([|l| % 256] + l) + rest)
    ensures i + 1 + |l| <= |msg| && msg[i] == |l| && msg[i + 1..i + 1 + |l|] == l
    ensures At(msg, i + 1 + |l|, rest)
  {
    AtSplit(msg, i, [|l| % 256] + l, rest);
    AtSplit(msg, i, [|l| % 256], l);
    assert msg[i] == msg[i..i + 1][0];
  }

  lemma TwoBytesAt(msg: seq<Byte>, i: nat, a: Byte, b: Byte)
    requires At(msg, i, [a, b])
    ensures i + 1 < |msg| && msg[i] == a && msg[i + 1] == b
  {
    assert msg[i..i + 2][0] == a && msg[i..i + 2][1] == b;
  }

  /** Where the first pointer stands, and where it leads. */
  lemma PointerRead(msg: seq<Byte>, i: nat, target: nat, whole: bool)
    requires target < 0x4000 && At(msg, i, PointerBytes(target)) && (whole || target < 256)
    ensures i + 1 < |msg| && msg[i] >= 0xC0 && Target(msg, i, whole) == target
  {
    TwoBytesAt(msg, i, 0xC0 + target / 256, target % 256);
  }

  lemma OffsetsRest(parts: seq<Part>)
    requires |parts| > 1
    ensures Offsets(parts) == [parts[1].at] + Offsets(parts[1..])
    ensures AllLow(Offsets(parts)) <==> parts[1].at < 256 && AllLow(Offsets(parts[1..]))
  {
    assert Offsets(parts) == [parts[1].at] + Offsets(parts[1..]);
    AllLowCons(parts[1].at, Offsets(parts[1..]));
  }

  /** A chain of parts is read as the labels of all parts, in order, through the offsets of its
      pointers: whole, or by their low bytes if these are the offsets. */
  lemma {:induction false} ExpandChain(msg: seq<Byte>, parts: seq<Part>, segment: nat, whole: bool)
    requires Stands(msg, parts, segment) && (whole || AllLow(Offsets(parts)))
    ensures Expand(msg, parts[0].at, segment, whole) == Good(AllLabels(parts), Offsets(parts))
    decreases |parts|
  {
    var labels, at := parts[0].labels, parts[0].at;
    var behind := at + |LabelBytes(labels)|;
    if |parts| == 1 {
      AtSplit(msg, at, LabelBytes(labels), [0]);
      assert msg[behind] == msg[behind..behind + 1][0] == 0;
      ExpandLabels(msg, at, labels, segment, whole);
      assert AllLabels(parts[1..]) == [];
    } else {
      var next := parts[1].at;
      AtSplit(msg, at, LabelBytes(labels), PointerBytes(next));
      OffsetsRest(parts);
      PointerRead(msg, behind, next, whole);
      ExpandLabels(msg, at, labels, segment, whole);
      ExpandChain(msg, parts[1..], next, whole);
      assert Expand(msg, behind, segment, whole) == Good(AllLabels(parts[1..]), Offsets(parts));
    }
  }

  lemma ZeroStands(msg: seq<Byte>, i: nat, segment: nat)
    requires i < |msg| && msg[i] == 0
    ensures Stands(msg, [Part(i, [])], segment)
  {
    assert msg[i..i + 1] == [0];
    assert LabelBytes([]) + [0] == [0];
  }

  /** A pointer in front of a chain. */
  lemma PointerStands(msg: seq<Byte>, i: nat, more: seq<Part>, segment: nat)
    requires i + 1 < |msg| && msg[i] >= 0xC0 && Target(msg, i, true) < segment
    requires more != [] && more[0].at == Target(msg, i, true) && Stands(msg, more, more[0].at)
    ensures Stands(msg, [Part(i, [])] + more, segment)
  {
    var parts := [Part(i, [])] + more;
    assert msg[i..i + 2] == PointerBytes(more[0].at);
    assert LabelBytes([]) + PointerBytes(more[0].at) == PointerBytes(more[0].at);
    assert parts[1..] == more;
  }

  /** And nothing else is: whatever is read as a name is such a chain. */
  lemma {:induction false} ChainRead(msg: seq<Byte>, i: nat, segment: nat) returns (parts: seq<Part>)
    requires Expand(msg, i, segment, true).Good?
    ensures Stands(msg, parts, segment) && parts[0].at == i
    decreases segment, |msg| - i
  {
    if msg[i] == 0 {
      ZeroStands(msg, i, segment);
      parts := [Part(i, [])];
    } else if msg[i] >= 0xC0 {
      var target := Target(msg, i, true);
      var more := ChainRead(msg, target, target);
      PointerStands(msg, i, more, segment);
      parts := [Part(i, [])] + more;
    } else {
      var more := ChainRead(msg, i + 1 + msg[i], segment);
      parts := MoreLabels(msg, i, more, segment);
    }
  }

  /** A label in front of a chain. */
  lemma MoreLabels(msg: seq<Byte>, i: nat, more: seq<Part>, segment: nat) returns (parts: seq<Part>)
    requires i < |msg| && 0 < msg[i] < 64 && i + 1 + msg[i] <= |msg|
    requires Stands(msg, more, segment) && more[0].at == i + 1 + msg[i]
    ensures Stands(msg, parts, segment) && parts[0].at == i
  {
    var l := msg[i + 1..i + 1 + msg[i]];
    var labels := [l] + more[0].labels;
    parts := [Part(i, labels)] + more[1..];
    assert parts[1..] == more[1..];
    assert labels[1..] == more[0].labels;
    assert LabelBytes(labels) == ([|l|] + l) + LabelBytes(more[0].labels);
    assert msg[i..i + 1 + |l|] == [|l|] + l;
    forall k | 0 <= k < |labels| ensures ShortLabel(labels[k]) {
      if k > 0 {
        assert ShortLabel(more[0].labels[k - 1]);
      }
    }
    var tail := if |more| == 1 then [0] else PointerBytes(more[1].at);
    AtSplit(msg, i, [|l|] + l, LabelBytes(more[0].labels) + tail);
    assert ([|l|] + l) + (LabelBytes(more[0].labels) + tail) == LabelBytes(labels) + tail;
  }

  /** A name is read, whole, exactly where such a chain stands. */
  lemma ExpandExactly(msg: seq<Byte>, i: nat, labels: seq<Label>)
    ensures (exists parts :: Spells(msg, i, parts, labels))
      <==> Expand(msg, i, i, true).Good? && Expand(msg, i, i, true).labels == labels
  {
    if Expand(msg, i, i, true).Good? {
      var parts := ChainRead(msg, i, i);
      ExpandChain(msg, parts, i, true);
      assert Expand(msg, i, i, true).labels == labels ==> Spells(msg, i, parts, labels);
    }
    if exists parts :: Spells(msg, i, parts, labels) {
      var parts :| Spells(msg, i, parts, labels);
      ExpandChain(msg, parts, i, true);
    }
  }

  ghost predicate Spells(msg: seq<Byte>, i: nat, parts: seq<Part>, labels: seq<Label>) {
    Stands(msg, parts, i) && parts[0].at == i && AllLabels(parts) == labels
  }

  /** The decoder's text for a chain of parts with low offsets is the name they spell, with dots, in
      canonical form. */
  method ReadChain(msg: seq<Byte>, at: nat, ghost parts: seq<Part>) returns (text: array<Byte>)
    requires Stands(msg, parts, at) && parts[0].at == at && AllLow(Offsets(parts))
    requires var labels := AllLabels(parts);
      labels != [] && PlainLabels(labels) && |Join(labels)| + 2 <= RES_MAX
    ensures fresh(text) && CStringAt(text, Canonical(Join(AllLabels(parts))))
  {
    ExpandChain(msg, parts, at, false);
    text := NameFromWire(msg, at);
  }
}
