/** The text of an IPv4 address, as sprintf writes it in dnsresolverlab-handout/resolver.c. */
module DnsAddress {
  import opened DnsName

  /** The decimal text of a byte, as printf's %d writes it. */
  function Decimal(b: Byte): seq<Byte> {
    if b < 10 then [48 + b]
    else if b < 100 then [48 + b / 10, 48 + b % 10]
    else [48 + b / 100, 48 + b / 10 % 10, 48 + b % 10]
  }

  function AddressText(address: seq<Byte>): seq<Byte>
    requires |address| == 4
  {
    Decimal(address[0]) + [DOT]
    + (Decimal(address[1]) + [DOT] + (Decimal(address[2]) + [DOT] + Decimal(address[3])))
  }

  // ----- decimal numerals

  /** Decimal digits, with no superfluous zero in front. */
  predicate IsNumeral(s: seq<Byte>) {
    && s != [] && (forall k :: 0 <= k < |s| ==> 48 <= s[k] <= 57)
    && (s[0] == 48 ==> |s| == 1)
  }

  /** The number that digits denote in base ten. */
  function Value(s: seq<Byte>): int {
    if s == [] then 0 else 10 * Value(s[..|s| - 1]) + (s[|s| - 1] as int - 48)
  }

  lemma ValueOne(a: Byte)
    ensures Value([a]) == a as int - 48
  {
    assert [a][..0] == [];
    assert Value([]) == 0;
  }

  lemma ValueSnoc(s: seq<Byte>, a: Byte)
    ensures Value(s + [a]) == 10 * Value(s) + (a as int - 48)
  {
    assert (s + [a])[..|s|] == s;
  }

  lemma ValueTwo(a: Byte, b: Byte)
    ensures Value([a, b]) == 10 * (a as int - 48) + (b as int - 48)
  {
    ValueOne(a);
    ValueSnoc([a], b);
    assert [a] + [b] == [a, b];
  }

  lemma ValueThree(a: Byte, b: Byte, c: Byte)
    ensures Value([a, b, c]) == 100 * (a as int - 48) + 10 * (b as int - 48) + (c as int - 48)
  {
    ValueTwo(a, b);
    ValueSnoc([a, b], c);
    assert [a, b] + [c] == [a, b, c];
  }

  lemma DecimalValue(b: Byte)
    ensures Value(Decimal(b)) == b
  {
    if b < 10 {
      ValueOne(48 + b);
    } else if b < 100 {
      ValueTwo(48 + b / 10, 48 + b % 10);
    } else {
      ValueThree(48 + b / 100, 48 + b / 10 % 10, 48 + b % 10);
    }
  }

  /** The text of a byte is a numeral for it. */
  lemma DecimalDenotes(b: Byte)
    ensures IsNumeral(Decimal(b)) && Value(Decimal(b)) == b
  {
    DecimalValue(b);
  }

  lemma {:induction false} ValuePositive(s: seq<Byte>)
    requires IsNumeral(s) && s[0] != 48
    ensures Value(s) >= 1
  {
    if |s| == 1 {
      ValueOne(s[0]);
      assert s == [s[0]];
    } else {
      ValuePositive(s[..|s| - 1]);
    }
  }

  lemma ValueNotNegative(s: seq<Byte>)
    requires IsNumeral(s)
    ensures Value(s) >= 0 && (|s| > 1 ==> Value(s) >= 10)
  {
    if s[0] != 48 {
      ValuePositive(s);
    } else {
      ValueOne(s[0]);
      assert s == [s[0]];
    }
    if |s| > 1 {
      ValuePositive(s[..|s| - 1]);
    }
  }

  /** There is only one numeral for a number. */
  lemma {:induction false} NumeralUnique(s: seq<Byte>, t: seq<Byte>)
    requires IsNumeral(s) && IsNumeral(t) && Value(s) == Value(t)
    ensures s == t
    decreases |s|
  {
    ValueNotNegative(s);
    ValueNotNegative(t);
    if |s| == 1 || |t| == 1 {
      ValueOne(s[0]);
      ValueOne(t[0]);
      assert |s| == 1 ==> s == [s[0]];
      assert |t| == 1 ==> t == [t[0]];
    } else {
      NumeralUnique(s[..|s| - 1], t[..|t| - 1]);
      assert s == s[..|s| - 1] + [s[|s| - 1]] && t == t[..|t| - 1] + [t[|t| - 1]];
    }
  }

  /** The text of a byte is the one numeral for it. */
  lemma DecimalExactly(s: seq<Byte>, b: Byte)
    ensures s == Decimal(b) <==> IsNumeral(s) && Value(s) == b
  {
    DecimalDenotes(b);
    if IsNumeral(s) && Value(s) == b {
      NumeralUnique(s, Decimal(b));
    }
  }

  // ----- addresses

  lemma AddressTextParts(a: seq<Byte>)
    requires |a| == 4
    ensures var parts := [Decimal(a[0]), Decimal(a[1]), Decimal(a[2]), Decimal(a[3])];
      AddressText(a) == Join(parts) && Labels(AddressText(a)) == parts && NoEmptyLabel(AddressText(a))
  {
    var parts := [Decimal(a[0]), Decimal(a[1]), Decimal(a[2]), Decimal(a[3])];
    var two, three := [Decimal(a[2]), Decimal(a[3])], [Decimal(a[1]), Decimal(a[2]), Decimal(a[3])];
    assert parts[1..] == three && three[1..] == two && two[1..] == [Decimal(a[3])];
    assert Join(two) == Decimal(a[2]) + [DOT] + Decimal(a[3]);
    assert Join(three) == Decimal(a[1]) + [DOT] + Join(two);
    LabelsOfJoin(parts);
  }

  /** Four numerals with dots between them, for the bytes of an address. */
  ghost predicate IsDotted(t: seq<Byte>, a: seq<Byte>) {
    && NoEmptyLabel(t) && |Labels(t)| == |a| == 4
    && forall k :: 0 <= k < 4 ==> IsNumeral(Labels(t)[k]) && Value(Labels(t)[k]) == a[k]
  }

  /** The text of an address is exactly the text that splits at its dots into the numerals of its four
      bytes. */
  lemma AddressTextExactly(t: seq<Byte>, a: seq<Byte>)
    requires |a| == 4
    ensures t == AddressText(a) <==> IsDotted(t, a)
  {
    var parts := [Decimal(a[0]), Decimal(a[1]), Decimal(a[2]), Decimal(a[3])];
    AddressTextParts(a);
    forall k | 0 <= k < 4 ensures IsNumeral(parts[k]) && Value(parts[k]) == a[k] {
      DecimalDenotes(a[k]);
    }
    if IsDotted(t, a) {
      forall k | 0 <= k < 4 ensures Labels(t)[k] == parts[k] {
        DecimalExactly(Labels(t)[k], a[k]);
      }
      assert Labels(t) == parts;
      JoinLabels(t);
    }
  }

  /** Different addresses have different texts, of at most fifteen characters. */
  lemma AddressTextTells(a: seq<Byte>, b: seq<Byte>)
    requires |a| == |b| == 4
    ensures AddressText(a) == AddressText(b) <==> a == b
    ensures |AddressText(a)| <= 15
  {
    if AddressText(a) == AddressText(b) {
      AddressTextExactly(AddressText(a), a);
      AddressTextExactly(AddressText(a), b);
    }
  }
}
