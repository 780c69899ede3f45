/** The answer section of a response (section 4.1.3 of RFC 1035) and the walk over it in
dnsresolverlab-handout/resolver.c. */
module DnsAnswer {
  import opened DnsName
  import opened DnsAddress
  import opened DnsCodec
  import opened Memory

  // ----- records and their encoding

  const A: nat := 1
  const CNAME: nat := 5

  /** The name a record is about: a pointer alone, a name in full, or labels and then a pointer. */
  datatype Owner = Pointer(high: Byte, low: Byte) | Full(labels: seq<Label>)
    | Ending(labels: seq<Label>, high: Byte, low: Byte)

  /** `other` is the class and the time to live. */
  datatype Record = Record(owner: Owner, kind: nat, other: seq<Byte>, rdata: seq<Byte>)

  function OwnerBytes(o: Owner): (s: seq<Byte>)
    ensures |s| >= 1
  {
    match o
    case Pointer(high, low) => [high, low]
    case Full(labels) => LabelBytes(labels) + [0]
    case Ending(labels, high, low) => LabelBytes(labels) + [high, low]
  }

  lemma FullIsWire(labels: seq<Label>)
    ensures OwnerBytes(Full(labels)) == Wire(labels)
  {
    LabelBytesEnd(labels);
  }

  /** An owner name as section 4.1.4 of RFC 1035 has it. */
  predicate AnyOwner(o: Owner) {
    match o
    case Pointer(high, _) => high >= 0xC0
    case Full(labels) => ShortLabels(labels)
    case Ending(labels, high, _) => labels != [] && ShortLabels(labels) && high >= 0xC0
  }

  /** One that resolve measures rightly. */
  predicate GoodOwner(o: Owner) {
    && AnyOwner(o)
    && (o.Full? ==> PlainLabels(o.labels))
    && (o.Ending? ==> PlainLabels(o.labels) && o.low == 0)
  }

  predicate GoodRecord(r: Record) {
    GoodOwner(r.owner) && r.kind < 0x1_0000 && |r.other| == 6 && |r.rdata| < 0x1_0000
  }

  predicate GoodRecords(rs: seq<Record>) {
    forall i :: 0 <= i < |rs| ==> GoodRecord(rs[i])
  }

  function Short(n: nat): seq<Byte>
    requires n < 0x1_0000
  {
    [n / 256, n % 256]
  }

  function RecordBytes(r: Record): seq<Byte>
    requires GoodRecord(r)
  {
    OwnerBytes(r.owner) + (Short(r.kind) + (r.other + (Short(|r.rdata|) + r.rdata)))
  }

  function Records(rs: seq<Record>): seq<Byte>
    requires GoodRecords(rs)
  {
    if rs == [] then [] else RecordBytes(rs[0]) + Records(rs[1..])
  }

  function Message(a: seq<Byte>, b: seq<Byte>, c: seq<Byte>, d: seq<Byte>, e: seq<Byte>, f: seq<Byte>,
                   rest: seq<Byte>): seq<Byte>
  {
    a + (b + (c + (d + (e + (f + rest)))))
  }

  /** A response to a question: header, question, answers, and whatever follows. */
  function Response(id: seq<Byte>, count: nat, counts: seq<Byte>, labels: seq<Label>, rs: seq<Record>,
                    rest: seq<Byte>): seq<Byte>
    requires |id| == 6 && count < 0x1_0000 && |counts| == 4 && GoodRecords(rs)
  {
    Message(id, Short(count), counts, Wire(labels), Footer(), Records(rs), rest)
  }

  /** A message that resolve reads as the answers to its question. */
  ghost predicate ResponseTo(msg: seq<Byte>, qname: seq<Byte>, rs: seq<Record>) {
    && |rs| < 0x1_0000 && GoodRecords(rs)
    && At(msg, 6, Short(|rs|)) && At(msg, 12 + |qname| + 2 + 4, Records(rs))
  }

  lemma SecondAndSixth(a: seq<Byte>, b: seq<Byte>, c: seq<Byte>, d: seq<Byte>, e: seq<Byte>, f: seq<Byte>,
                       rest: seq<Byte>, n: nat)
    requires |a| == 6 && |b| == 2 && |c| == 4 && |d| == n + 2 && |e| == 4
    ensures At(Message(a, b, c, d, e, f, rest), 6, b)
    ensures At(Message(a, b, c, d, e, f, rest), 12 + n + 2 + 4, f)
  {
    var msg := Message(a, b, c, d, e, f, rest);
    assert msg[0..|msg|] == msg;
    AtSplit(msg, 0, a, b + (c + (d + (e + (f + rest)))));
    AtSplit(msg, |a|, b, c + (d + (e + (f + rest))));
    AtSplit(msg, |a| + |b|, c, d + (e + (f + rest)));
    AtSplit(msg, |a| + |b| + |c|, d, e + (f + rest));
    AtSplit(msg, |a| + |b| + |c| + |d|, e, f + rest);
    AtSplit(msg, |a| + |b| + |c| + |d| + |e|, f, rest);
  }

  lemma ResponseSized(id: seq<Byte>, counts: seq<Byte>, qname: seq<Byte>, labels: seq<Label>, rs: seq<Record>,
                      rest: seq<Byte>)
    requires |id| == 6 && |rs| < 0x1_0000 && |counts| == 4 && GoodRecords(rs)
    requires |Wire(labels)| == |qname| + 2
    ensures ResponseTo(Response(id, |rs|, counts, labels, rs, rest), qname, rs)
  {
    SecondAndSixth(id, Short(|rs|), counts, Wire(labels), Footer(), Records(rs), rest, |qname|);
  }

  /** The answers of a response start where resolve looks for them, after as many bytes as the query
      had, when the name has no empty label. */
  lemma ResponseShape(id: seq<Byte>, counts: seq<Byte>, qname: seq<Byte>, rs: seq<Record>, rest: seq<Byte>)
    requires |id| == 6 && |rs| < 0x1_0000 && |counts| == 4 && GoodRecords(rs) && NoEmptyLabel(qname)
    ensures ResponseTo(Response(id, |rs|, counts, Labels(qname), rs, rest), qname, rs)
  {
    WireSizeExactly(qname);
    ResponseSized(id, counts, qname, Labels(qname), rs, rest);
  }

  // ----- what the entries of the list should say

  /** The text for the record whose data starts at an offset of the message: the code looks at the low
      byte of the type only, and takes everything that is not an alias to be an address. */
  predicate Readable(msg: seq<Byte>, data: nat, r: Record) {
    if r.kind % 256 == CNAME then
      var name := Expand(msg, data, data, false);
      name.Good? && name.labels != [] && PlainLabels(name.labels) && |Join(name.labels)| + 2 <= RES_MAX
    else
      data + 4 <= |msg|
  }

  function Text(msg: seq<Byte>, data: nat, r: Record): seq<Byte>
    requires Readable(msg, data, r)
  {
    if r.kind % 256 == CNAME then Canonical(Join(Expand(msg, data, data, false).labels))
    else AddressText(msg[data..data + 4])
  }

  function DataOffset(at: nat, r: Record): nat { at + |OwnerBytes(r.owner)| + 10 }

  /** Where the records start, and where the last one ends. */
  ghost function Offsets(at: nat, rs: seq<Record>): (offsets: seq<nat>)
    requires GoodRecords(rs)
    ensures |offsets| == |rs| + 1 && offsets[0] == at
    decreases |rs|
  {
    if rs == [] then [at] else [at] + Offsets(at + |RecordBytes(rs[0])|, rs[1..])
  }

  /** Where the data of record number k is. */
  ghost function DataAt(at: nat, rs: seq<Record>, k: nat): nat
    requires GoodRecords(rs) && k < |rs|
  {
    DataOffset(Offsets(at, rs)[k], rs[k])
  }

  ghost predicate AllReadable(msg: seq<Byte>, at: nat, rs: seq<Record>)
    requires GoodRecords(rs)
  {
    forall k :: 0 <= k < |rs| ==> Readable(msg, DataAt(at, rs, k), rs[k])
  }

  /** The texts of the records of a message. */
  ghost function Texts(msg: seq<Byte>, at: nat, rs: seq<Record>): (texts: seq<seq<Byte>>)
    requires GoodRecords(rs) && AllReadable(msg, at, rs)
    ensures |texts| == |rs|
  {
    seq(|rs|, k requires 0 <= k < |rs| => Text(msg, DataAt(at, rs, k), rs[k]))
  }

  /** What a record of one of the two types says by RFC 1035: four bytes of address, or a name. */
  ghost predicate Says(msg: seq<Byte>, data: nat, r: Record, text: seq<Byte>) {
    && (r.kind == A ==> |r.rdata| == 4 && text == AddressText(r.rdata))
    && (r.kind == CNAME ==>
      var name := Expand(msg, data, data, true); name.Good? && text == Canonical(Join(name.labels)))
  }

  lemma AddressMeant(msg: seq<Byte>, data: nat, r: Record)
    requires At(msg, data, r.rdata) && |r.rdata| == 4 && r.kind == A && Readable(msg, data, r)
    ensures Text(msg, data, r) == AddressText(r.rdata)
  {
  }

  /** The text is what the record says when an alias has low pointers only. */
  lemma TextIsMeaning(msg: seq<Byte>, data: nat, r: Record)
    requires At(msg, data, r.rdata) && Readable(msg, data, r) && ReadAsMeant(msg, data, r)
    ensures Says(msg, data, r, Text(msg, data, r))
  {
    if r.kind == CNAME {
      LowPointersExactly(msg, data, data);
    } else if r.kind == A {
      AddressMeant(msg, data, r);
    }
  }

  /** Only the low byte of the type counts: for 5 the data is read as a name, and for any other value its
      first four bytes as an address. */
  lemma TypeByLowByte(msg: seq<Byte>, data: nat, r: Record)
    requires At(msg, data, r.rdata) && Readable(msg, data, r)
    ensures r.kind % 256 != CNAME && |r.rdata| >= 4 ==> Text(msg, data, r) == AddressText(r.rdata[..4])
    ensures r.kind % 256 == CNAME ==> Text(msg, data, r) == Text(msg, data, r.(kind := CNAME))
  {
    if r.kind % 256 != CNAME && |r.rdata| >= 4 {
      assert msg[data..data + 4] == msg[data..data + |r.rdata|][..4];
    }
  }

  // ----- where the fields of a record are

  lemma ByteAt(msg: seq<Byte>, i: nat, bytes: seq<Byte>, k: nat)
    requires At(msg, i, bytes) && k < |bytes|
    ensures msg[i + k] == bytes[k]
  {
    assert msg[i..i + |bytes|][k] == msg[i + k];
  }

  lemma FiveParts(msg: seq<Byte>, at: nat, o: seq<Byte>, kind: seq<Byte>, other: seq<Byte>, length: seq<Byte>,
                  data: seq<Byte>)
    requires At(msg, at, o + (kind + (other + (length + data)))) && |kind| == |length| == 2 && |other| == 6
    ensures At(msg, at, o) && at + |o| + 10 + |data| <= |msg| && At(msg, at + |o| + 10, data)
    ensures msg[at + |o| + 1] == kind[1] && msg[at + |o| + 8] == length[0] && msg[at + |o| + 9] == length[1]
  {
    AtSplit(msg, at, o, kind + (other + (length + data)));
    AtSplit(msg, at + |o|, kind, other + (length + data));
    AtSplit(msg, at + |o| + 2, other, length + data);
    AtSplit(msg, at + |o| + 8, length, data);
    ByteAt(msg, at + |o|, kind, 1);
    ByteAt(msg, at + |o| + 8, length, 0);
    ByteAt(msg, at + |o| + 8, length, 1);
  }

  lemma RecordFields(msg: seq<Byte>, at: nat, r: Record)
    requires GoodRecord(r) && At(msg, at, RecordBytes(r))
    ensures At(msg, at, OwnerBytes(r.owner))
    ensures var data := DataOffset(at, r);
      && data + |r.rdata| == at + |RecordBytes(r)| <= |msg|
      && msg[data - 9] == r.kind % 256
      && msg[data - 2] == |r.rdata| / 256 && msg[data - 1] == |r.rdata| % 256
      && At(msg, data, r.rdata)
  {
    FiveParts(msg, at, OwnerBytes(r.owner), Short(r.kind), r.other, Short(|r.rdata|), r.rdata);
  }

  // ----- the walk

  class Entry {
    var value: array?<Byte>
    var next: Entry?
    constructor ()
      ensures value == null && next == null
    {
      value, next := null, null;
    }
  }

  /** strlen, from an offset of the response. */
  function StringLength(msg: seq<Byte>, i: nat): (n: nat)
    requires i <= |msg|
    ensures i + n <= |msg| && (i + n < |msg| ==> msg[i + n] == 0)
    ensures forall k :: i <= k < i + n ==> msg[k] != 0
    decreases |msg| - i
  {
    if i == |msg| || msg[i] == 0 then 0 else 1 + StringLength(msg, i + 1)
  }

  /** What resolve takes to be the length of an owner name. */
  function CodeLength(msg: seq<Byte>, i: nat): nat
    requires i < |msg|
  {
    if msg[i] >= 0xC0 then 2 else StringLength(msg, i) + 1
  }

  /** The bytes end with their first zero. */
  predicate ZeroEnds(bytes: seq<Byte>) {
    bytes != [] && bytes[|bytes| - 1] == 0 && Plain(bytes[..|bytes| - 1])
  }

  lemma StringLengthExactly(msg: seq<Byte>, i: nat, bytes: seq<Byte>)
    requires bytes != [] && At(msg, i, bytes)
    ensures StringLength(msg, i) + 1 == |bytes| <==> ZeroEnds(bytes)
  {
    var n := |bytes| - 1;
    forall k | 0 <= k < |bytes| ensures msg[i + k] == bytes[k] {
      ByteAt(msg, i, bytes, k);
    }
    if StringLength(msg, i) == n {
      forall k | 0 <= k < n ensures bytes[..n][k] != 0 {
        assert msg[i + k] != 0;
      }
    }
    if ZeroEnds(bytes) {
      assert msg[i + n] == 0;
      assert forall k :: i <= k < i + n ==> msg[k] == bytes[..n][k - i];
    }
  }

  lemma {:induction false} LabelBytesPlain(labels: seq<Label>)
    requires ShortLabels(labels)
    ensures Plain(LabelBytes(labels)) <==> PlainLabels(labels)
    ensures labels != [] ==> 0 < LabelBytes(labels)[0] < 64
  {
    if labels != [] {
      var l, rest := labels[0], labels[1..];
      assert ShortLabel(l) && labels == [l] + rest;
      LabelBytesPlain(rest);
      PlainConcat([|l| % 256], l);
      PlainConcat([|l| % 256] + l, LabelBytes(rest));
      PlainLabelsCons(l, rest);
    }
  }

  lemma PlainConcat(a: seq<Byte>, b: seq<Byte>)
    ensures Plain(a + b) <==> Plain(a) && Plain(b)
  {
    assert forall k :: 0 <= k < |a| ==> (a + b)[k] == a[k];
    assert forall k :: 0 <= k < |b| ==> (a + b)[|a| + k] == b[k];
  }

  lemma PlainLabelsCons(l: Label, rest: seq<Label>)
    ensures PlainLabels([l] + rest) <==> Plain(l) && PlainLabels(rest)
  {
    var all := [l] + rest;
    assert all[0] == l;
    assert forall k :: 0 <= k < |rest| ==> all[k + 1] == rest[k];
  }

  lemma OwnerZeroEnds(o: Owner)
    requires AnyOwner(o) && !o.Pointer?
    ensures ZeroEnds(OwnerBytes(o)) <==> GoodOwner(o)
    ensures OwnerBytes(o)[0] < 64
  {
    var bytes, start := OwnerBytes(o), LabelBytes(o.labels);
    LabelBytesPlain(o.labels);
    if o.Full? {
      assert bytes[..|bytes| - 1] == start;
    } else {
      assert bytes[..|bytes| - 1] == start + [o.high];
      PlainConcat(start, [o.high]);
    }
  }

  /** resolve measures an owner name rightly exactly when it is a pointer alone, a name in full without
      a NUL in any label, or such labels and a pointer whose low byte is 0. */
  lemma OwnerLengthExactly(msg: seq<Byte>, i: nat, o: Owner)
    requires AnyOwner(o) && At(msg, i, OwnerBytes(o))
    ensures CodeLength(msg, i) == |OwnerBytes(o)| <==> GoodOwner(o)
  {
    ByteAt(msg, i, OwnerBytes(o), 0);
    if !o.Pointer? {
      OwnerZeroEnds(o);
      StringLengthExactly(msg, i, OwnerBytes(o));
    }
  }

  /** After labels and any other pointer, the string goes on into the type, whose high byte is 0 for
      addresses and aliases: the walk is then off by one. */
  lemma PointerShiftsByOne(msg: seq<Byte>, i: nat, o: Owner, kind: nat)
    requires o.Ending? && AnyOwner(o) && PlainLabels(o.labels) && o.low != 0 && kind < 256
    requires At(msg, i, OwnerBytes(o) + Short(kind))
    ensures CodeLength(msg, i) == |OwnerBytes(o)| + 1
  {
    var start, bytes := LabelBytes(o.labels), OwnerBytes(o) + [0];
    LabelBytesPlain(o.labels);
    PlainConcat(start, [o.high, o.low]);
    assert bytes[..|bytes| - 1] == start + [o.high, o.low];
    assert OwnerBytes(o) + Short(kind) == bytes + [kind];
    AtSplit(msg, i, bytes, [kind]);
    ByteAt(msg, i, bytes, 0);
    StringLengthExactly(msg, i, bytes);
  }

  /** The owner name 1 'a' and a pointer to offset 12, with the type of an address. */
  lemma ShiftedOwner()
    ensures var msg := [1, 97, 0xC0, 12, 0, 1];
      At(msg, 0, OwnerBytes(Ending([[97]], 0xC0, 12))) && CodeLength(msg, 0) == 5
  {
    var o, msg := Ending([[97]], 0xC0, 12), [1, 97, 0xC0, 12, 0, 1];
    assert LabelBytes([[97]]) == [1, 97] + LabelBytes([]) == [1, 97];
    assert OwnerBytes(o) == [1, 97, 0xC0, 12];
    assert msg[0..6] == OwnerBytes(o) + Short(1);
    assert ShortLabel([97]) && Plain([97]);
    AtSplit(msg, 0, OwnerBytes(o), Short(1));
    PointerShiftsByOne(msg, 0, o, 1);
  }

  /** A good owner name is measured without leaving the message. */
  lemma OwnerMeasured(msg: seq<Byte>, i: nat, o: Owner)
    requires GoodOwner(o) && At(msg, i, OwnerBytes(o))
    ensures i < |msg| && CodeLength(msg, i) == |OwnerBytes(o)|
    ensures msg[i] < 0xC0 ==> i + StringLength(msg, i) < |msg|
  {
    OwnerLengthExactly(msg, i, o);
    ByteAt(msg, i, OwnerBytes(o), 0);
    if !o.Pointer? {
      OwnerZeroEnds(o);
      StringLengthExactly(msg, i, OwnerBytes(o));
    }
  }

  method OwnerLength(msg: seq<Byte>, index: nat) returns (length: nat)
    requires index < |msg| && (msg[index] < 0xC0 ==> index + StringLength(msg, index) < |msg|)
    ensures length == CodeLength(msg, index)
  {
    if msg[index] >= 0xC0 {
      length := 2;
    } else {
      length := 0;
      while msg[index + length] != 0
        invariant length <= StringLength(msg, index)
        decreases StringLength(msg, index) - length
      {
        length := length + 1;
      }
      length := length + 1;
    }
  }

  /** get_answer_address: the text of an address fits the sixteen bytes allocated for it. */
  method GetAnswerAddress(msg: seq<Byte>, index: nat) returns (text: array<Byte>)
    requires index + 4 <= |msg|
    ensures fresh(text) && CStringAt(text, AddressText(msg[index..index + 4]))
  {
    var address := AddressText(msg[index..index + 4]);
    text := new Byte[16];
    Copy(address, text, 0);
    text[|address|] := 0;
    assert text[0..|address|] == address;
    assert forall k :: 0 <= k < |address| ==> text[k] == text[0..|address|][k];
  }

  ghost function Values(entries: seq<Entry>): set<object>
    reads entries
  {
    set i | 0 <= i < |entries| && entries[i].value != null :: entries[i].value
  }

  /** Distinct entries, each holding its text, and each but the last leading to the next. */
  ghost predicate Linked(entries: seq<Entry>, texts: seq<seq<Byte>>)
    reads entries, Values(entries)
  {
    && |entries| == |texts|
    && (forall i, j :: 0 <= i < j < |entries| ==> entries[i] != entries[j])
    && (forall i :: 0 <= i < |entries| - 1 ==> entries[i].next == entries[i + 1])
    && (forall i :: 0 <= i < |entries| ==>
      entries[i].value != null && CStringAt(entries[i].value, texts[i]))
  }

  /** A chain of distinct entries from the head to null, one for each text. */
  ghost predicate IsList(head: Entry?, entries: seq<Entry>, texts: seq<seq<Byte>>)
    reads entries, Values(entries)
  {
    && Linked(entries, texts)
    && if entries == [] then head == null else head == entries[0] && entries[|entries| - 1].next == null
  }

  lemma OffsetsRest(at: nat, rs: seq<Record>, k: nat)
    requires GoodRecords(rs) && 0 < k <= |rs|
    ensures Offsets(at, rs)[k] == Offsets(at + |RecordBytes(rs[0])|, rs[1..])[k - 1]
  {
  }

  /** Each record ends where the next one starts. */
  lemma {:induction false} OffsetsStep(at: nat, rs: seq<Record>, k: nat)
    requires GoodRecords(rs) && k < |rs|
    ensures Offsets(at, rs)[k + 1] == Offsets(at, rs)[k] + |RecordBytes(rs[k])|
    decreases k
  {
    if k > 0 {
      OffsetsStep(at + |RecordBytes(rs[0])|, rs[1..], k - 1);
      OffsetsRest(at, rs, k);
      OffsetsRest(at, rs, k + 1);
      assert rs[1..][k - 1] == rs[k];
    }
  }

  lemma NextRecord(msg: seq<Byte>, at: nat, rs: seq<Record>)
    requires rs != [] && GoodRecords(rs) && At(msg, at, Records(rs))
    ensures GoodRecord(rs[0]) && GoodRecords(rs[1..])
    ensures At(msg, at, RecordBytes(rs[0])) && At(msg, at + |RecordBytes(rs[0])|, Records(rs[1..]))
  {
    AtSplit(msg, at, RecordBytes(rs[0]), Records(rs[1..]));
  }

  lemma SuffixStep(msg: seq<Byte>, i: nat, next: nat, rs: seq<Record>, k: nat)
    requires GoodRecords(rs) && k < |rs| && At(msg, i, Records(rs[k..])) && next == i + |RecordBytes(rs[k])|
    ensures At(msg, i, RecordBytes(rs[k])) && At(msg, next, Records(rs[k + 1..]))
  {
    var suffix := rs[k..];
    assert suffix[0] == rs[k] && suffix[1..] == rs[k + 1..];
    NextRecord(msg, i, suffix);
  }

  ghost predicate Steps(offsets: seq<nat>, rs: seq<Record>)
    requires GoodRecords(rs)
  {
    && |offsets| == |rs| + 1
    && forall k :: 0 <= k < |rs| ==> offsets[k + 1] == offsets[k] + |RecordBytes(rs[k])|
  }

  lemma SuffixAt(msg: seq<Byte>, offsets: seq<nat>, rs: seq<Record>, k: nat)
    requires GoodRecords(rs) && Steps(offsets, rs) && At(msg, offsets[0], Records(rs)) && k < |rs|
    ensures At(msg, offsets[k], Records(rs[k..]))
  {
    assert rs[0..] == rs;
    for j := 0 to k
      invariant At(msg, offsets[j], Records(rs[j..]))
    {
      SuffixStep(msg, offsets[j], offsets[j + 1], rs, j);
    }
  }

  /** Record number k is encoded between its offset and the next. */
  lemma BoundariesHold(msg: seq<Byte>, at: nat, rs: seq<Record>, k: nat)
    requires GoodRecords(rs) && At(msg, at, Records(rs)) && k < |rs|
    ensures At(msg, Offsets(at, rs)[k], RecordBytes(rs[k]))
    ensures Offsets(at, rs)[k + 1] == Offsets(at, rs)[k] + |RecordBytes(rs[k])|
  {
    var offsets := Offsets(at, rs);
    forall j | 0 <= j < |rs| ensures offsets[j + 1] == offsets[j] + |RecordBytes(rs[j])| {
      OffsetsStep(at, rs, j);
    }
    SuffixAt(msg, offsets, rs, k);
    SuffixStep(msg, offsets[k], offsets[k + 1], rs, k);
  }

  /** An address record has four bytes, and an alias has low pointers only. */
  predicate ReadAsMeant(msg: seq<Byte>, data: nat, r: Record) {
    && (r.kind == A ==> |r.rdata| == 4)
    && (r.kind == CNAME ==>
      var name := Expand(msg, data, data, true); name.Good? && AllLow(name.parts))
  }

  /** Every text in the list is what the record in the same place says. */
  lemma ListSaysRecords(msg: seq<Byte>, at: nat, rs: seq<Record>)
    requires GoodRecords(rs) && At(msg, at, Records(rs)) && AllReadable(msg, at, rs)
    requires forall k :: 0 <= k < |rs| ==> ReadAsMeant(msg, DataAt(at, rs, k), rs[k])
    ensures forall k :: 0 <= k < |rs| ==> Says(msg, DataAt(at, rs, k), rs[k], Texts(msg, at, rs)[k])
  {
    forall k | 0 <= k < |rs| ensures Says(msg, DataAt(at, rs, k), rs[k], Texts(msg, at, rs)[k]) {
      BoundariesHold(msg, at, rs, k);
      RecordFields(msg, Offsets(at, rs)[k], rs[k]);
      TextIsMeaning(msg, DataAt(at, rs, k), rs[k]);
    }
  }

  /** What resolve reads of a record before its data. */
  lemma RecordMeasured(msg: seq<Byte>, index: nat, r: Record)
    requires GoodRecord(r) && At(msg, index, RecordBytes(r))
    ensures index < |msg| && (msg[index] < 0xC0 ==> index + StringLength(msg, index) < |msg|)
    ensures var data := index + CodeLength(msg, index) + 10;
      && data == DataOffset(index, r) <= |msg| && msg[data - 9] == r.kind % 256
      && data + (msg[data - 2] as int * 256 + msg[data - 1]) == index + |RecordBytes(r)|
  {
    RecordFields(msg, index, r);
    OwnerMeasured(msg, index, r.owner);
  }

  method ReadData(msg: seq<Byte>, data: nat, ghost r: Record) returns (text: array<Byte>)
    requires 10 <= data <= |msg| && msg[data - 9] == r.kind % 256 && Readable(msg, data, r)
    ensures fresh(text) && CStringAt(text, Text(msg, data, r))
  {
    if msg[data - 10 + 1] == 5 {
      text := NameFromWire(msg, data);
    } else {
      text := GetAnswerAddress(msg, data);
    }
  }

  /** One turn of the loop of resolve: the text of the record at `index`, which is where the record
      starts, and where the record ends. */
  method ReadRecord(msg: seq<Byte>, index: nat, ghost r: Record) returns (text: array<Byte>, next: nat)
    requires GoodRecord(r) && At(msg, index, RecordBytes(r)) && Readable(msg, DataOffset(index, r), r)
    ensures fresh(text) && CStringAt(text, Text(msg, DataOffset(index, r), r))
    ensures next == index + |RecordBytes(r)|
  {
    RecordMeasured(msg, index, r);
    text, next := ReadMeasured(msg, index, DataOffset(index, r), r, index + |RecordBytes(r)|);
  }

  method ReadMeasured(msg: seq<Byte>, index: nat, ghost at: nat, ghost r: Record, ghost end: nat)
    returns (text: array<Byte>, next: nat)
    requires index < |msg| && (msg[index] < 0xC0 ==> index + StringLength(msg, index) < |msg|)
    requires at == index + CodeLength(msg, index) + 10 <= |msg| && msg[at - 9] == r.kind % 256
    requires at + (msg[at - 2] as int * 256 + msg[at - 1]) == end && Readable(msg, at, r)
    ensures fresh(text) && CStringAt(text, Text(msg, at, r)) && next == end
  {
    var nameLength := OwnerLength(msg, index);
    var data := index + nameLength + 10;
    text := ReadData(msg, data, r);
    var length: nat := msg[data - 2];
    length := length * 256;
    length := length + msg[data - 1];
    next := data + length;
  }

  /** The entries filled so far, with the one to fill next behind them. */
  ghost predicate Open(head: Entry, entries: seq<Entry>, current: Entry, texts: seq<seq<Byte>>)
    reads entries, Values(entries)
  {
    && Linked(entries, texts) && current !in entries
    && (if entries == [] then head == current
        else head == entries[0] && entries[|entries| - 1].next == current)
  }

  lemma LinkedSnoc(entries: seq<Entry>, texts: seq<seq<Byte>>, e: Entry, text: seq<Byte>)
    requires Linked(entries, texts) && e !in entries
    requires entries != [] ==> entries[|entries| - 1].next == e
    requires e.value != null && CStringAt(e.value, text)
    ensures Linked(entries + [e], texts + [text])
  {
  }

  /** Record number k is where the offsets say, and has the text with its number. */
  ghost predicate RecordNumber(msg: seq<Byte>, offsets: seq<nat>, rs: seq<Record>, texts: seq<seq<Byte>>, k: nat)
    requires k < |rs| == |texts| && |offsets| == |rs| + 1
  {
    var r, index := rs[k], offsets[k];
    && GoodRecord(r) && At(msg, index, RecordBytes(r)) && offsets[k + 1] == index + |RecordBytes(r)|
    && Readable(msg, DataOffset(index, r), r) && texts[k] == Text(msg, DataOffset(index, r), r)
  }

  ghost predicate Layout(msg: seq<Byte>, offsets: seq<nat>, rs: seq<Record>, texts: seq<seq<Byte>>) {
    && |offsets| == |rs| + 1 && |texts| == |rs|
    && forall k :: 0 <= k < |rs| ==> RecordNumber(msg, offsets, rs, texts, k)
  }

  lemma LayoutHolds(msg: seq<Byte>, at: nat, rs: seq<Record>)
    requires GoodRecords(rs) && At(msg, at, Records(rs)) && AllReadable(msg, at, rs)
    ensures Layout(msg, Offsets(at, rs), rs, Texts(msg, at, rs))
  {
    forall k | 0 <= k < |rs| ensures RecordNumber(msg, Offsets(at, rs), rs, Texts(msg, at, rs), k) {
      BoundariesHold(msg, at, rs, k);
      assert Readable(msg, DataAt(at, rs, k), rs[k]);
    }
  }

  /** The text of record number i, and where the next one starts. */
  method ReadNumber(msg: seq<Byte>, index: nat, ghost i: nat, ghost offsets: seq<nat>, ghost rs: seq<Record>,
                    ghost texts: seq<seq<Byte>>)
    returns (text: array<Byte>, next: nat)
    requires Layout(msg, offsets, rs, texts) && i < |rs| && index == offsets[i]
    ensures fresh(text) && CStringAt(text, texts[i]) && next == offsets[i + 1]
  {
    assert RecordNumber(msg, offsets, rs, texts, i);
    text, next := ReadRecord(msg, index, rs[i]);
  }

  /** Links the entry made last to the one made now, and gives it its text. */
  method Fill(current: Entry, following: Entry, text: array<Byte>, ghost said: seq<Byte>, ghost head: Entry,
              ghost entries: seq<Entry>, ghost texts: seq<seq<Byte>>)
    requires Open(head, entries, current, texts) && CStringAt(text, said)
    requires following != current && following !in entries
    modifies current
    ensures Open(head, entries + [current], following, texts + [said])
  {
    current.next := following;
    current.value := text;
    LinkedSnoc(entries, texts, current, said);
  }

  /** The loop body, for record number i. */
  method Turn(msg: seq<Byte>, index: nat, current: Entry, ghost i: nat, ghost offsets: seq<nat>,
              ghost rs: seq<Record>, ghost texts: seq<seq<Byte>>, ghost head: Entry,
              ghost entries: seq<Entry>)
    returns (following: Entry, next: nat)
    requires Layout(msg, offsets, rs, texts) && i < |rs| && index == offsets[i]
    requires Open(head, entries, current, texts[..i])
    modifies current
    ensures fresh(following) && next == offsets[i + 1]
    ensures Open(head, entries + [current], following, texts[..i + 1])
  {
    following := new Entry();
    var text;
    text, next := ReadNumber(msg, index, i, offsets, rs, texts);
    Fill(current, following, text, texts[i], head, entries, texts[..i]);
    assert texts[..i + 1] == texts[..i] + [texts[i]];
  }

  /** Ending the chain after the entry filled last. */
  method Close(prev: Entry, ghost head: Entry, ghost entries: seq<Entry>, ghost current: Entry,
               ghost texts: seq<seq<Byte>>)
    requires Open(head, entries, current, texts) && entries != [] && prev == entries[|entries| - 1]
    modifies prev
    ensures IsList(head, entries, texts)
  {
    prev.next := null;
  }

  /** The loop, over `total` records starting at `index`. */
  method Walk(msg: seq<Byte>, index: nat, total: nat, ghost offsets: seq<nat>, ghost rs: seq<Record>,
              ghost texts: seq<seq<Byte>>)
    returns (head: Entry?, ghost entries: seq<Entry>)
    requires Layout(msg, offsets, rs, texts) && index == offsets[0] && total == |rs|
    ensures IsList(head, entries, texts)
    ensures rs == [] <==> head == null
  {
    var current := new Entry();
    var first := current;
    var prev: Entry? := null;
    var at := index;
    entries := [];
    for i := 0 to total
      invariant |entries| == i && at == offsets[i]
      invariant fresh(current) && forall e :: e in entries ==> fresh(e)
      invariant Open(first, entries, current, texts[..i])
      invariant i > 0 ==> prev == entries[i - 1]
    {
      var following;
      following, at := Turn(msg, at, current, i, offsets, rs, texts, first, entries);
      entries := entries + [current];
      prev := current;
      current := following;
    }
    assert texts[..total] == texts;
    if total == 0 {
      return null, [];
    }
    Close(prev, first, entries, current, texts);
    head := first;
  }

  /** The answer section of resolve: for a response with any number of readable records, a list with
      one entry a record, in order. */
  method Answers(qname: seq<Byte>, response: seq<Byte>, ghost rs: seq<Record>)
    returns (head: Entry?, ghost entries: seq<Entry>)
    requires ResponseTo(response, qname, rs)
    requires AllReadable(response, 12 + |qname| + 2 + 4, rs)
    ensures IsList(head, entries, Texts(response, 12 + |qname| + 2 + 4, rs))
    ensures rs == [] <==> head == null
  {
    ByteAt(response, 6, Short(|rs|), 0);
    ByteAt(response, 6, Short(|rs|), 1);
    var total: nat := response[6];
    total := total * 256;
    total := total + response[7];
    var index: nat := 12 + |qname| + 2 + 4;
    LayoutHolds(response, index, rs);
    head, entries := Walk(response, index, total, Offsets(index, rs), rs, Texts(response, index, rs));
  }

  // ----- answers without compression in their data

  datatype Answer = Address(owner: Owner, other: seq<Byte>, address: seq<Byte>)
    | Alias(owner: Owner, other: seq<Byte>, labels: seq<Label>)

  /** A name that has at least one label and no dot or NUL in any, and fits the decoder's buffer. */
  predicate GoodName(labels: seq<Label>) {
    && labels != [] && ShortLabels(labels) && PlainLabels(labels)
    && (forall i :: 0 <= i < |labels| ==> Dotless(labels[i]))
    && |Wire(labels)| < 0x1_0000
  }

  predicate GoodAnswer(a: Answer) {
    && GoodOwner(a.owner) && |a.other| == 6
    && if a.Address? then |a.address| == 4 else GoodName(a.labels)
  }

  predicate GoodAnswers(answers: seq<Answer>) {
    forall i :: 0 <= i < |answers| ==> GoodAnswer(answers[i])
  }

  function RecordOf(a: Answer): Record {
    match a
    case Address(owner, other, address) => Record(owner, A, other, address)
    case Alias(owner, other, labels) => Record(owner, CNAME, other, Wire(labels))
  }

  function RecordsOf(answers: seq<Answer>): seq<Record> {
    seq(|answers|, i requires 0 <= i < |answers| => RecordOf(answers[i]))
  }

  /** What an answer says: the dotted address, or the alias in lower case. */
  function Said(a: Answer): seq<Byte>
    requires GoodAnswer(a)
  {
    match a
    case Address(_, _, address) => AddressText(address)
    case Alias(_, _, labels) => Lower(Join(labels))
  }

  function AllSaid(answers: seq<Answer>): seq<seq<Byte>>
    requires GoodAnswers(answers)
  {
    seq(|answers|, i requires 0 <= i < |answers| => Said(answers[i]))
  }

  lemma RecordsOfGood(answers: seq<Answer>)
    requires GoodAnswers(answers)
    ensures GoodRecords(RecordsOf(answers))
  {
    forall i | 0 <= i < |answers| ensures GoodRecord(RecordsOf(answers)[i]) {
      assert GoodAnswer(answers[i]);
    }
  }

  lemma {:induction false} JoinShorter(labels: seq<Label>)
    requires labels != []
    ensures |Join(labels)| + 2 == |Wire(labels)|
  {
    if |labels| > 1 {
      JoinShorter(labels[1..]);
    }
  }

  /** An alias in full is read as its name in lower case. */
  lemma AliasRead(msg: seq<Byte>, data: nat, labels: seq<Label>)
    requires GoodName(labels) && At(msg, data, Wire(labels))
    ensures Expand(msg, data, data, false) == Good(labels, [])
    ensures |Join(labels)| + 2 <= RES_MAX && Canonical(Join(labels)) == Lower(Join(labels))
  {
    ExpandWire(msg, data, labels, data, false);
    JoinShorter(labels);
    LabelsOfJoin(labels);
    NoDotAtEnd(Join(labels));
  }

  lemma AnswerRead(msg: seq<Byte>, at: nat, a: Answer)
    requires GoodAnswer(a) && GoodRecord(RecordOf(a)) && At(msg, at, RecordBytes(RecordOf(a)))
    ensures var r := RecordOf(a);
      Readable(msg, DataOffset(at, r), r) && Text(msg, DataOffset(at, r), r) == Said(a)
  {
    var r := RecordOf(a);
    var data := DataOffset(at, r);
    RecordFields(msg, at, r);
    match a
    case Address(_, _, address) => assert msg[data..data + 4] == address;
    case Alias(_, _, labels) => AliasRead(msg, data, labels);
  }

  /** Whatever addresses and aliases are encoded, the records are readable, and their texts are the
      addresses and the lower-cased aliases, in order. */
  lemma AnswersRead(msg: seq<Byte>, at: nat, answers: seq<Answer>)
    requires GoodAnswers(answers) && GoodRecords(RecordsOf(answers)) && At(msg, at, Records(RecordsOf(answers)))
    ensures AllReadable(msg, at, RecordsOf(answers))
    ensures Texts(msg, at, RecordsOf(answers)) == AllSaid(answers)
  {
    var rs := RecordsOf(answers);
    forall k | 0 <= k < |rs|
      ensures Readable(msg, DataAt(at, rs, k), rs[k])
      ensures Text(msg, DataAt(at, rs, k), rs[k]) == Said(answers[k])
    {
      assert GoodAnswer(answers[k]) && GoodRecord(rs[k]);
      BoundariesHold(msg, at, rs, k);
      AnswerRead(msg, Offsets(at, rs)[k], answers[k]);
    }
  }

  /** A response encoded from answers is one that resolve reads. */
  lemma EncodedShape(id: seq<Byte>, counts: seq<Byte>, qname: seq<Byte>, answers: seq<Answer>, rest: seq<Byte>)
    requires |id| == 6 && |counts| == 4 && NoEmptyLabel(qname)
    requires |answers| < 0x1_0000 && GoodAnswers(answers)
    ensures GoodRecords(RecordsOf(answers))
    ensures ResponseTo(Response(id, |answers|, counts, Labels(qname), RecordsOf(answers), rest), qname,
      RecordsOf(answers))
  {
    RecordsOfGood(answers);
    ResponseShape(id, counts, qname, RecordsOf(answers), rest);
  }

  /** From the encoder to the list: a response encoded from answers is one that the walk takes, and the
      texts of its list are what the answers say. */
  lemma EncodedAnswers(msg: seq<Byte>, qname: seq<Byte>, answers: seq<Answer>)
    requires GoodAnswers(answers) && ResponseTo(msg, qname, RecordsOf(answers))
    ensures AllReadable(msg, 12 + |qname| + 2 + 4, RecordsOf(answers))
    ensures Texts(msg, 12 + |qname| + 2 + 4, RecordsOf(answers)) == AllSaid(answers)
  {
    AnswersRead(msg, 12 + |qname| + 2 + 4, answers);
  }
}
