/** Domain names in dnsresolverlab-handout/resolver.c: dotted text, wire format (section 3.1 of
RFC 1035) and wire format with compression (section 4.1.4 of RFC 1035). */
module DnsName {
  import opened Options

  type Byte = b: int | 0 <= b < 256

  const DOT: Byte := 46
  const RES_MAX: nat := 65536

  type Label = seq<Byte>

  // ----- text and labels

  /** The length of the run of other bytes before the first dot. */
  function RunLength(s: seq<Byte>): (k: nat)
    ensures k <= |s| && (k < |s| ==> s[k] == DOT)
    ensures forall i :: 0 <= i < k ==> s[i] != DOT
  {
    if s == [] || s[0] == DOT then 0
    else
      var k := RunLength(s[1..]);
      assert forall i :: 0 < i < k + 1 ==> s[i] == s[1..][i - 1];
      1 + k
  }

  /** The tokens that strtok finds with a dot as the delimiter. */
  function Labels(s: seq<Byte>): seq<Label>
    decreases |s|
  {
    if s == [] then []
    else if s[0] == DOT then Labels(s[1..])
    else [s[..RunLength(s)]] + Labels(s[RunLength(s)..])
  }

  /** Labels with dots between them. */
  function Join(labels: seq<Label>): seq<Byte> {
    if labels == [] then []
    else if |labels| == 1 then labels[0]
    else labels[0] + [DOT] + Join(labels[1..])
  }

  /** A name that is a label, or a label, a dot and such a name: no empty label anywhere. */
  predicate NoEmptyLabel(s: seq<Byte>)
    decreases |s|
  {
    var k := RunLength(s);
    k > 0 && (k == |s| || NoEmptyLabel(s[k + 1..]))
  }

  predicate Dotless(l: Label) { l != [] && DOT !in l }

  /** Splitting a name without empty labels and joining the labels gives it back. */
  lemma {:induction false} JoinLabels(s: seq<Byte>)
    requires NoEmptyLabel(s)
    ensures Labels(s) != [] && Join(Labels(s)) == s
    ensures forall i :: 0 <= i < |Labels(s)| ==> Dotless(Labels(s)[i])
    decreases |s|
  {
    var k := RunLength(s);
    if k == |s| {
      assert s[..k] == s && s[k..] == [];
    } else {
      JoinLabels(s[k + 1..]);
      assert s[k..][1..] == s[k + 1..];
      assert Labels(s) == [s[..k]] + Labels(s[k + 1..]);
      assert s == s[..k] + [DOT] + s[k + 1..];
    }
  }

  lemma {:induction false} RunStops(l: Label, rest: seq<Byte>)
    requires DOT !in l && (rest != [] ==> rest[0] == DOT)
    ensures RunLength(l + rest) == |l|
  {
    if l != [] {
      assert l[0] in l;
      RunStops(l[1..], rest);
      assert (l + rest)[1..] == l[1..] + rest;
    } else {
      assert l + rest == rest;
    }
  }

  /** Joining labels and splitting the name gives them back. */
  lemma {:induction false} LabelsOfJoin(labels: seq<Label>)
    requires labels != [] && forall i :: 0 <= i < |labels| ==> Dotless(labels[i])
    ensures NoEmptyLabel(Join(labels)) && Labels(Join(labels)) == labels
    decreases |labels|
  {
    var l, s := labels[0], Join(labels);
    assert Dotless(l);
    if |labels| == 1 {
      assert s == l + [];
      RunStops(l, []);
      assert s[..|l|] == l && s[|l|..] == [];
    } else {
      var rest := labels[1..];
      LabelsOfJoin(rest);
      assert s == l + ([DOT] + Join(rest));
      RunStops(l, [DOT] + Join(rest));
      assert s[0] == l[0] && l[0] in l;
      assert s[..|l|] == l && s[|l|..] == [DOT] + Join(rest) && s[|l| + 1..] == Join(rest);
      assert s[|l|..][1..] == Join(rest);
      assert Labels(s) == [l] + Labels(Join(rest));
    }
  }

  /** What strtok makes of any text: a dot parts what is before from what is after it, ... */
  lemma {:induction false} LabelsAtDot(a: seq<Byte>, b: seq<Byte>)
    ensures Labels(a + [DOT] + b) == Labels(a) + Labels(b)
    decreases |a|
  {
    var s := a + [DOT] + b;
    if a == [] {
      assert s[1..] == b;
    } else if a[0] == DOT {
      assert s[1..] == a[1..] + [DOT] + b;
      LabelsAtDot(a[1..], b);
    } else {
      var k := RunLength(a);
      var rest := a[k..] + [DOT] + b;
      assert s == a[..k] + rest;
      RunStops(a[..k], rest);
      assert s[k..] == rest && s[..k] == a[..k];
      LabelsAtDot(a[k..], b);
    }
  }

  /** ... and a text without dots is one token, unless it is empty. */
  lemma LabelsOfOne(l: seq<Byte>)
    requires DOT !in l
    ensures Labels(l) == if l == [] then [] else [l]
  {
    if l != [] {
      assert l + [] == l && l[0] in l;
      RunStops(l, []);
      assert l[..|l|] == l && l[|l|..] == [];
    }
  }

  // ----- wire format

  /** Each label after its length byte, and a zero byte. */
  function Wire(labels: seq<Label>): seq<Byte> {
    if labels == [] then [0] else [|labels[0]| % 256] + labels[0] + Wire(labels[1..])
  }

  /** Each label after its length byte. */
  function LabelBytes(labels: seq<Label>): seq<Byte> {
    if labels == [] then [] else ([|labels[0]| % 256] + labels[0]) + LabelBytes(labels[1..])
  }

  lemma {:induction false} LabelBytesEnd(labels: seq<Label>)
    ensures LabelBytes(labels) + [0] == Wire(labels)
  {
    if labels != [] {
      LabelBytesEnd(labels[1..]);
    }
  }

  /** The encoding of a text never needs more than strlen + 2 bytes, and needs exactly that many, the
      size that create_dns_query and resolve reserve, when the name has no empty label. */
  lemma {:induction false} WireSizeExactly(s: seq<Byte>)
    ensures |Wire(Labels(s))| <= |s| + 2
    ensures |Wire(Labels(s))| == |s| + 2 <==> NoEmptyLabel(s)
    decreases |s|
  {
    if s != [] {
      if s[0] == DOT {
        WireSizeExactly(s[1..]);
      } else {
        var k := RunLength(s);
        assert |Wire(Labels(s))| == 1 + k + |Wire(Labels(s[k..]))|;
        if k < |s| {
          assert s[k..][1..] == s[k + 1..];
          assert Labels(s[k..]) == Labels(s[k + 1..]);
          WireSizeExactly(s[k + 1..]);
        }
      }
    }
  }

  /** What is read from some offset: the labels, and the offset of each part a pointer leads to. */
  datatype Expansion = Bad | Good(labels: seq<Label>, parts: seq<nat>)

  /** The offset a pointer at i leads to: all fourteen bits of it, or, as line 209 reads it, the low
      eight. */
  function Target(msg: seq<Byte>, i: nat, whole: bool): nat
    requires i + 1 < |msg| && msg[i] >= 0xC0
  {
    var high: int := msg[i];
    if whole then (high - 0xC0) * 256 + msg[i + 1] else msg[i + 1]
  }

  /** The name at offset i of a message, following pointers. `segment` is where the part now being
      read started; a pointer must lead to before that part. */
  function Expand(msg: seq<Byte>, i: nat, segment: nat, whole: bool): Expansion
    decreases segment, |msg| - i
  {
    if i >= |msg| then Bad
    else if msg[i] == 0 then Good([], [])
    else if msg[i] >= 0xC0 then
      if i + 1 >= |msg| || Target(msg, i, whole) >= segment then Bad
      else
        var target := Target(msg, i, whole);
        match Expand(msg, target, target, whole)
        case Bad => Bad
        case Good(labels, parts) => Good(labels, [target] + parts)
    else if msg[i] >= 64 || i + 1 + msg[i] > |msg| then Bad
    else
      match Expand(msg, i + 1 + msg[i], segment, whole)
      case Bad => Bad
      case Good(labels, parts) => Good([msg[i + 1..i + 1 + msg[i]]] + labels, parts)
  }

  predicate AllLow(parts: seq<nat>) { forall k :: 0 <= k < |parts| ==> parts[k] < 256 }

  lemma AllLowCons(p: nat, parts: seq<nat>)
    ensures AllLow([p] + parts) <==> p < 256 && AllLow(parts)
  {
    assert forall k :: 0 <= k < |parts| ==> ([p] + parts)[k + 1] == parts[k];
    assert ([p] + parts)[0] == p;
    if AllLow([p] + parts) {
      forall k | 0 <= k < |parts| ensures parts[k] < 256 {
        assert ([p] + parts)[k + 1] < 256;
      }
    }
  }

  lemma SameAfterFirst<T>(x: T, a: seq<T>, b: seq<T>)
    ensures [x] + a == [x] + b ==> a == b
  {
    assert ([x] + a)[1..] == a && ([x] + b)[1..] == b;
  }

  /** A name without bad pointers is read part for part as section 4.1.4 of RFC 1035 says exactly
      when every pointer followed has an offset below 256. */
  lemma {:induction false} LowPointersExactly(msg: seq<Byte>, i: nat, segment: nat)
    requires Expand(msg, i, segment, true).Good?
    ensures Expand(msg, i, segment, false) == Expand(msg, i, segment, true)
      <==> AllLow(Expand(msg, i, segment, true).parts)
    decreases segment, |msg| - i
  {
    if msg[i] == 0 {
    } else if msg[i] >= 0xC0 {
      var whole, low := Target(msg, i, true), Target(msg, i, false);
      LowPointersExactly(msg, whole, whole);
      AllLowCons(whole, Expand(msg, whole, whole, true).parts);
      if whole >= 256 {
        assert low != whole;
        var other := Expand(msg, i, segment, false);
        assert other.Good? ==> other.parts[0] == low;
      } else {
        var other := Expand(msg, low, low, false);
        if other.Good? {
          SameAfterFirst(low, Expand(msg, whole, whole, true).parts, other.parts);
        }
      }
    } else {
      var next := i + 1 + msg[i];
      LowPointersExactly(msg, next, segment);
      var other := Expand(msg, next, segment, false);
      if other.Good? {
        SameAfterFirst(msg[i + 1..next], Expand(msg, next, segment, true).labels, other.labels);
      }
    }
  }

  /** With low pointers only, the name is the one that section 4.1.4 of RFC 1035 prescribes. */
  lemma LowPointersReadRight(msg: seq<Byte>, i: nat, segment: nat)
    requires Expand(msg, i, segment, true).Good? && AllLow(Expand(msg, i, segment, true).parts)
    ensures Expand(msg, i, segment, false).Good?
    ensures Expand(msg, i, segment, false).labels == Expand(msg, i, segment, true).labels
  {
    LowPointersExactly(msg, i, segment);
  }

  /** A message with the one-letter name a at offset t, after it a pointer to t, and the name b at the
      offset that the low byte of the pointer gives. */
  function Misleading(t: nat): seq<Byte>
    requires 256 <= t < 0x4000
  {
    seq(t + 5, i requires 0 <= i < t + 5 =>
      if i == t % 256 || i == t then 1
      else if i == t % 256 + 1 then 98
      else if i == t + 1 then 97
      else if i == t + 3 then 0xC0 + t / 256
      else if i == t + 4 then t % 256
      else 0)
  }

  lemma OneLetter(msg: seq<Byte>, i: nat, segment: nat, whole: bool)
    requires i + 2 < |msg| && msg[i] == 1 && msg[i + 2] == 0
    ensures Expand(msg, i, segment, whole) == Good([[msg[i + 1]]], [])
  {
    assert msg[i + 1..i + 2] == [msg[i + 1]];
    assert Expand(msg, i + 2, segment, whole) == Good([], []);
  }

  lemma MisleadingNames(t: nat)
    requires 256 <= t < 0x4000
    ensures var msg := Misleading(t);
      && Expand(msg, t + 3, t + 3, true) == Good([[97]], [t])
      && Expand(msg, t + 3, t + 3, false) == Good([[98]], [t % 256])
  {
    var msg := Misleading(t);
    assert t % 256 + 2 < t;
    OneLetter(msg, t, t, true);
    OneLetter(msg, t % 256, t % 256, false);
    assert Target(msg, t + 3, true) == t && Target(msg, t + 3, false) == t % 256;
  }

  /** A name that follows one pointer, to offset t, and what the decoder makes of it. */
  ghost predicate ReadsRight(msg: seq<Byte>, i: nat, t: nat) {
    var right, read := Expand(msg, i, i, true), Expand(msg, i, i, false);
    right.Good? && right.parts == [t] ==> read.Good? && read.labels == right.labels
  }

  /** Every name that follows a pointer to offset t is read right exactly when t is below 256. */
  lemma OffsetReadRightExactly(t: nat)
    requires t < 0x4000
    ensures (forall msg, i: nat :: ReadsRight(msg, i, t)) <==> t < 256
  {
    if t < 256 {
      forall msg, i: nat ensures ReadsRight(msg, i, t) {
        var right := Expand(msg, i, i, true);
        if right.Good? && right.parts == [t] {
          LowPointersReadRight(msg, i, i);
        }
      }
    } else {
      MisleadingNames(t);
      assert [[97 as Byte]][0][0] != [[98 as Byte]][0][0];
      assert !ReadsRight(Misleading(t), t + 3, t);
    }
  }

  ghost predicate At(msg: seq<Byte>, i: nat, bytes: seq<Byte>) {
    i + |bytes| <= |msg| && msg[i..i + |bytes|] == bytes
  }

  lemma AtSplit(msg: seq<Byte>, i: nat, a: seq<Byte>, b: seq<Byte>)
    ensures At(msg, i, a + b) <==> At(msg, i, a) && At(msg, i + |a|, b)
  {
    if i + |a| + |b| <= |msg| {
      var s := msg[i..i + |a| + |b|];
      assert s[..|a|] == msg[i..i + |a|] && s[|a|..] == msg[i + |a|..i + |a| + |b|];
      assert s == s[..|a|] + s[|a|..];
      assert (a + b)[..|a|] == a && (a + b)[|a|..] == b;
    }
  }

  predicate ShortLabel(l: Label) { 0 < |l| < 64 }

  predicate ShortLabels(labels: seq<Label>) {
    forall i :: 0 <= i < |labels| ==> ShortLabel(labels[i])
  }

  /** Where the first label of a name in wire format is, and the rest of the name. */
  lemma FirstLabelAt(msg: seq<Byte>, i: nat, l: Label, rest: seq<Label>)
    requires ShortLabel(l) && At(msg, i, Wire([l] + rest))
    ensures i + 1 + |l| <= |msg| && msg[i] == |l| && msg[i + 1..i + 1 + |l|] == l
    ensures At(msg, i + 1 + |l|, Wire(rest))
  {
    assert ([l] + rest)[1..] == rest;
    assert Wire([l] + rest) == [|l|] + (l + Wire(rest));
    AtSplit(msg, i, [|l|], l + Wire(rest));
    AtSplit(msg, i + 1, l, Wire(rest));
    assert msg[i] == msg[i..i + 1][0];
  }

  /** A name in wire format, anywhere in a message, expands to its labels. */
  lemma {:induction false} ExpandWire(msg: seq<Byte>, i: nat, labels: seq<Label>, segment: nat, whole: bool)
    requires ShortLabels(labels) && At(msg, i, Wire(labels))
    ensures Expand(msg, i, segment, whole) == Good(labels, [])
    decreases |labels|
  {
    if labels == [] {
      assert msg[i] == msg[i..i + 1][0] == 0;
    } else {
      var l, rest := labels[0], labels[1..];
      assert ShortLabel(l) && labels == [l] + rest;
      FirstLabelAt(msg, i, l, rest);
      ExpandWire(msg, i + 1 + |l|, rest, segment, whole);
    }
  }

  // ----- lower case

  function LowerByte(b: Byte): Byte { if 65 <= b <= 90 then b + 32 else b }

  function Lower(s: seq<Byte>): seq<Byte> {
    seq(|s|, i requires 0 <= i < |s| => LowerByte(s[i]))
  }

  /** Lower case, letter by letter: the 26 capital letters have their small ones, and nothing else
      changes. */
  lemma LowerTable(b: Byte)
    ensures var capitals := [65, 66, 67, 68, 69, 70, 71, 72, 73, 74, 75, 76, 77,
                             78, 79, 80, 81, 82, 83, 84, 85, 86, 87, 88, 89, 90];
      var small := [97, 98, 99, 100, 101, 102, 103, 104, 105, 106, 107, 108, 109,
                    110, 111, 112, 113, 114, 115, 116, 117, 118, 119, 120, 121, 122];
      if 65 <= b <= 90 then capitals[b - 65] == b && LowerByte(b) == small[b - 65] else LowerByte(b) == b
  {
  }

  lemma {:induction false} JoinEnds(labels: seq<Label>)
    requires labels != [] && forall i :: 0 <= i < |labels| ==> Dotless(labels[i])
    ensures Join(labels) != [] && Join(labels)[|Join(labels)| - 1] != DOT
    decreases |labels|
  {
    var l := labels[0];
    assert Dotless(l);
    if |labels| == 1 {
      assert l[|l| - 1] in l;
    } else {
      JoinEnds(labels[1..]);
    }
  }

  /** The canonical form of a name, with a final dot or without, is the name without it in lower case. */
  lemma CanonicalName(labels: seq<Label>)
    requires labels != [] && forall i :: 0 <= i < |labels| ==> Dotless(labels[i])
    ensures Canonical(Join(labels)) == Lower(Join(labels)) == Canonical(Join(labels) + [DOT])
    ensures Canonical([DOT]) == [DOT]
  {
    JoinEnds(labels);
    assert (Join(labels) + [DOT])[..|Join(labels)|] == Join(labels);
  }

  /** What canonicalize_name leaves in the string. */
  function Canonical(name: seq<Byte>): seq<Byte> {
    if name == [DOT] then name
    else if name != [] && name[|name| - 1] == DOT then Lower(name[..|name| - 1])
    else Lower(name)
  }

  lemma CanonicalTwice(name: seq<Byte>)
    requires name != [] && Plain(name) && (|name| >= 2 ==> !(name[|name| - 1] == DOT && name[|name| - 2] == DOT))
    ensures Canonical(Canonical(name)) == Canonical(name)
  {
  }

  predicate Plain(text: seq<Byte>) { forall i :: 0 <= i < |text| ==> text[i] != 0 }

  ghost predicate CStringAt(buf: array<Byte>, text: seq<Byte>)
    reads buf
  {
    && Plain(text) && |text| < buf.Length && buf[|text|] == 0
    && forall i :: 0 <= i < |text| ==> buf[i] == text[i]
  }

  /** canonicalize_name, in place. The empty string is not a name: the code would look at the byte
      before it. */
  method Canonicalize(name: array<Byte>, ghost text: seq<Byte>)
    requires CStringAt(name, text) && text != []
    modifies name
    ensures CStringAt(name, Canonical(text))
  {
    assert Plain(text);
    if name[0] == DOT && name[1] == 0 {
      assert |text| == 1;
      assert text == [DOT];
      return;
    }
    var namelen := 0;
    while name[namelen] != 0
      invariant namelen <= |text|
      decreases |text| - namelen
    {
      namelen := namelen + 1;
    }
    assert namelen == |text|;
    if name[namelen - 1] == DOT {
      name[namelen - 1] := 0;
    }
    ghost var cut := name[..namelen];
    for i := 0 to namelen
      invariant forall k :: 0 <= k < i ==> name[k] == LowerByte(cut[k])
      invariant forall k :: i <= k < namelen ==> name[k] == cut[k]
      invariant name[namelen] == 0
    {
      if 65 <= name[i] <= 90 {
        name[i] := name[i] + 32;
      }
    }
  }
}
