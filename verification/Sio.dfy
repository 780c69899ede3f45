/** Printing a number without stdio: sio_ltoa and sio_reverse of hw6/csapp.c (lines 222-244). */
module Sio {
  import opened Memory

  /** The quotient of C's division, which truncates toward zero, by repeated subtraction. */
  function Quot(v: int, b: int): (q: int)
    requires b >= 2
    ensures v >= 0 ==> 0 <= q <= v && (v > 0 ==> q < v)
    ensures v <= 0 ==> q <= 0
    decreases if v >= 0 then v else 1 - v
  {
    if v < 0 then -Quot(-v, b) else if v < b then 0 else 1 + Quot(v - b, b)
  }

  /** The remainder of C's division. */
  function Rem(v: int, b: int): (r: int)
    requires b >= 2
    ensures -b < r < b && (v >= 0 ==> r >= 0) && (v <= 0 ==> r <= 0)
    decreases if v >= 0 then v else 1 - v
  {
    if v < 0 then -Rem(-v, b) else if v < b then v else Rem(v - b, b)
  }

  lemma {:induction false} QuotAndRem(v: int, b: int)
    requires b >= 2
    ensures v == Quot(v, b) * b + Rem(v, b)
    decreases if v >= 0 then v else 1 - v
  {
    if v < 0 {
      QuotAndRem(-v, b);
      assert (-Quot(-v, b)) * b == -(Quot(-v, b) * b);
    } else if v >= b {
      QuotAndRem(v - b, b);
      assert (1 + Quot(v - b, b)) * b == b + Quot(v - b, b) * b;
    }
  }

  lemma DivisionFacts(v: int, b: int)
    requires b >= 2
    ensures v == (v / b) * b + v % b && 0 <= v % b < b
  {
  }

  /** For a number that is not negative, quotient and remainder are the usual ones; otherwise they are
      those of its absolute value, negated. */
  lemma QuotIsDivision(v: int, b: int)
    requires b >= 2
    ensures v >= 0 ==> Quot(v, b) == v / b && Rem(v, b) == v % b
    ensures v < 0 ==> Quot(v, b) == -((-v) / b) && Rem(v, b) == -((-v) % b)
  {
    var u := if v >= 0 then v else -v;
    QuotAndRem(u, b);
    DivisionFacts(u, b);
    OneDivision(b, Quot(u, b), Rem(u, b), u / b, u % b);
  }

  /** The character that the loop stores for a remainder c. */
  function DigitChar(c: int): (d: char)
    requires -36 < c < 36
    ensures d != NUL
  {
    if c < 10 then (c + '0' as int) as char else (c - 10 + 'a' as int) as char
  }

  /** They are the usual digits, in order. */
  lemma DigitTable(c: int)
    ensures 0 <= c < 10 ==> DigitChar(c) == "0123456789"[c]
    ensures 10 <= c < 36 ==> DigitChar(c) == "abcdefghijklmnopqrstuvwxyz"[c - 10]
  {
  }

  function DigitValue(c: char): int {
    if '0' <= c <= '9' then c as int - '0' as int else if 'a' <= c <= 'z' then c as int - 'a' as int + 10 else -1
  }

  predicate IsDigit(c: char, b: int) { 0 <= DigitValue(c) < b }

  predicate IsNumeral(s: string, b: int) { s != "" && forall i :: 0 <= i < |s| ==> IsDigit(s[i], b) }

  /** The number that a string of digits denotes in base b. */
  function Value(s: string, b: int): int {
    if s == "" then 0 else Value(s[..|s| - 1], b) * b + DigitValue(s[|s| - 1])
  }

  /** A numeral without superfluous leading zeros. */
  predicate Canonical(s: string) { s != "" && (s[0] == '0' ==> |s| == 1) }

  /** What sio_ltoa leaves in the buffer, most significant digit first. */
  function Numeral(v: int, b: int): (s: string)
    requires 2 <= b <= 36
    ensures |s| >= 1
    decreases if v >= 0 then v else 0
  {
    var c := Rem(v, b);
    if Quot(v, b) > 0 then Numeral(Quot(v, b), b) + [DigitChar(c)] else [DigitChar(c)]
  }

  lemma ProductNonNegative(x: int, y: int)
    requires x >= 0 && y >= 0
    ensures x * y >= 0
  {
  }

  lemma TimesBase(q: int, b: int)
    requires b >= 2
    ensures q >= 0 ==> q * b >= 2 * q
    ensures q > 0 ==> q * b >= b
    ensures q < 0 ==> q * b <= -b
  {
    if q >= 0 {
      ProductNonNegative(q, b - 2);
      assert q * b == 2 * q + q * (b - 2);
    }
    if q > 0 {
      ProductNonNegative(q - 1, b);
      assert q * b == b + (q - 1) * b;
    }
    if q < 0 {
      ProductNonNegative(-1 - q, b);
      assert (-1 - q) * b == -b - q * b;
    }
  }

  lemma QuotHalves(v: int, b: int)
    requires b >= 2 && v >= 0
    ensures 2 * Quot(v, b) <= v
  {
    QuotAndRem(v, b);
    TimesBase(Quot(v, b), b);
  }

  lemma DigitRoundTrip(c: int)
    requires 0 <= c < 36
    ensures DigitValue(DigitChar(c)) == c && (DigitChar(c) == '0' <==> c == 0)
  {
  }

  /** For a number that is not negative the result is a canonical numeral that denotes it. */
  lemma {:induction false} NumeralDenotes(v: int, b: int)
    requires v >= 0 && 2 <= b <= 36
    ensures IsNumeral(Numeral(v, b), b) && Canonical(Numeral(v, b)) && Value(Numeral(v, b), b) == v
    ensures Numeral(v, b)[0] == '0' ==> v == 0
    decreases v
  {
    QuotAndRem(v, b);
    DigitRoundTrip(Rem(v, b));
    var s := Numeral(v, b);
    if Quot(v, b) > 0 {
      NumeralDenotes(Quot(v, b), b);
      assert s[..|s| - 1] == Numeral(Quot(v, b), b);
    } else {
      assert s[..|s| - 1] == "";
    }
  }

  lemma {:induction false} ValueNonNegative(s: string, b: int)
    requires b >= 2 && forall i :: 0 <= i < |s| ==> IsDigit(s[i], b)
    ensures Value(s, b) >= 0
    ensures s != "" && s[0] != '0' ==> Value(s, b) > 0
  {
    if s != "" {
      ValueNonNegative(s[..|s| - 1], b);
      TimesBase(Value(s[..|s| - 1], b), b);
    }
  }

  lemma DigitsByValue(c: char, b: int)
    requires 2 <= b <= 36 && IsDigit(c, b)
    ensures DigitChar(DigitValue(c)) == c
  {
  }

  lemma OneDivision(b: int, q: int, d: int, q': int, d': int)
    requires b >= 2 && 0 <= d < b && 0 <= d' < b && q * b + d == q' * b + d'
    ensures q == q' && d == d'
  {
    TimesBase(q' - q, b);
    assert (q' - q) * b == q' * b - q * b;
  }

  /** There is no other canonical numeral for a number. */
  lemma {:induction false} NumeralUnique(s: string, b: int)
    requires 2 <= b <= 36 && IsNumeral(s, b) && Canonical(s)
    ensures Value(s, b) >= 0 && s == Numeral(Value(s, b), b)
  {
    var front, d := s[..|s| - 1], DigitValue(s[|s| - 1]);
    var q := Value(front, b);
    ValueNonNegative(front, b);
    ValueNonNegative(s, b);
    QuotAndRem(Value(s, b), b);
    OneDivision(b, q, d, Quot(Value(s, b), b), Rem(Value(s, b), b));
    DigitsByValue(s[|s| - 1], b);
    if front != "" {
      assert front[0] == s[0];
      NumeralUnique(front, b);
      assert s == front + [s[|s| - 1]];
    }
  }

  /** sio_ltoa writes the number exactly when it is not negative: for a negative one it stores a single
      character that does not denote it. */
  lemma DenotesExactlyNonNegative(v: int, b: int)
    requires 2 <= b <= 36
    ensures IsNumeral(Numeral(v, b), b) && Value(Numeral(v, b), b) == v <==> v >= 0
  {
    if v >= 0 {
      NumeralDenotes(v, b);
    } else {
      NegativeIsOneCharacter(v, b);
      OneCharacterValue(Numeral(v, b), b);
    }
  }

  /** A number below zero gives one character, as far before '0' as the last digit is above 0. */
  lemma NegativeIsOneCharacter(v: int, b: int)
    requires 2 <= b <= 36 && v < 0
    ensures (-v) % b <= 35 && Numeral(v, b) == [(48 - (-v) % b) as char]
  {
    QuotIsDivision(v, b);
  }

  lemma OneCharacterValue(s: string, b: int)
    requires |s| == 1
    ensures Value(s, b) == DigitValue(s[0])
  {
    assert s[..0] == "";
  }

  function Pow2(k: nat): nat { if k == 0 then 1 else 2 * Pow2(k - 1) }

  lemma {:induction false} NumeralFits(v: int, b: int, k: nat)
    requires 2 <= b <= 36 && v < Pow2(k) && k > 0
    ensures 1 <= |Numeral(v, b)| <= k
    decreases k
  {
    if v < 0 {
      NegativeIsOneCharacter(v, b);
    } else if Quot(v, b) > 0 {
      assert k > 1;
      QuotHalves(v, b);
      NumeralFits(Quot(v, b), b, k - 1);
    }
  }

  /** A long is printed in at most 63 characters, in any base, so the 128-byte buffer is large enough. */
  lemma LongFits(v: int, b: int)
    requires 2 <= b <= 36 && -0x8000_0000_0000_0000 <= v < 0x8000_0000_0000_0000
    ensures |Numeral(v, b)| <= 63
  {
    assert Pow2(10) == 1024;
    assert Pow2(20) == 1024 * Pow2(10);
    assert Pow2(30) == 1024 * Pow2(20);
    assert Pow2(40) == 1024 * Pow2(30);
    assert Pow2(50) == 1024 * Pow2(40);
    assert Pow2(60) == 1024 * Pow2(50);
    assert Pow2(63) == 8 * Pow2(60);
    NumeralFits(v, b, 63);
  }

  function Reversed(s: string): (r: string)
    ensures |r| == |s|
  {
    if s == "" then "" else [s[|s| - 1]] + Reversed(s[..|s| - 1])
  }

  lemma {:induction false} ReversedAt(s: string, k: nat)
    requires k < |s|
    ensures Reversed(s)[k] == s[|s| - 1 - k]
  {
    if k > 0 {
      ReversedAt(s[..|s| - 1], k - 1);
    }
  }

  lemma ReversedTwice(s: string)
    ensures Reversed(Reversed(s)) == s
  {
    forall k | 0 <= k < |s|
      ensures Reversed(Reversed(s))[k] == s[k]
    {
      ReversedAt(Reversed(s), k);
      ReversedAt(s, |s| - 1 - k);
    }
  }

  lemma {:induction false} ReversedCons(c: char, s: string)
    ensures Reversed([c] + s) == Reversed(s) + [c]
  {
    if s != "" {
      var t := [c] + s;
      assert t[..|t| - 1] == [c] + s[..|s| - 1];
      ReversedCons(c, s[..|s| - 1]);
    }
  }

  // ----- the two functions, over the caller's buffer

  method Strlen(s: array<char>, ghost text: string) returns (n: nat)
    requires NUL !in text && |text| < s.Length && s[..|text|] == text && s[|text|] == NUL
    ensures n == |text|
  {
    n := 0;
    assert forall k :: 0 <= k < |text| ==> s[k] == s[..|text|][k] == text[k];
    while s[n] != NUL
      invariant n <= |text|
      decreases |text| - n
    {
      assert n < |text|;
      n := n + 1;
    }
  }

  /** sio_reverse: the C string in the buffer is reversed where it stands. */
  method Reverse(s: array<char>, ghost text: string)
    requires NUL !in text && |text| < s.Length && s[..|text|] == text && s[|text|] == NUL
    modifies s
    ensures s[..|text|] == Reversed(text) && s[|text|] == NUL
  {
    var n := Strlen(s, text);
    var i, j := 0, n - 1;
    assert forall k :: 0 <= k < n ==> s[k] == s[..n][k] == text[k];
    while i < j
      invariant 0 <= i <= n && j == n - 1 - i && s[n] == NUL
      invariant forall k :: 0 <= k < i ==> s[k] == text[n - 1 - k] && s[n - 1 - k] == text[k]
      invariant forall k :: i <= k < n - i ==> s[k] == text[k]
    {
      var c := s[i];
      s[i] := s[j];
      s[j] := c;
      i, j := i + 1, j - 1;
    }
    forall k | 0 <= k < n
      ensures s[..n][k] == Reversed(text)[k]
    {
      ReversedAt(text, k);
    }
  }

  lemma ReversedSnoc(s: string, d: char)
    ensures Reversed(s + [d]) == [d] + Reversed(s)
  {
    assert (s + [d])[..|s|] == s;
  }

  lemma Regroup(a: string, d: char, c: string)
    ensures a + [d] + c == a + ([d] + c)
  {
  }

  /** The digits still to come, then those in the buffer read backwards, are the numeral. */
  function Assembled(rest: int, b: int, done: string, more: bool): (text: string)
    requires 2 <= b <= 36
    ensures |text| >= |done| + (if more then 1 else 0)
  {
    if more then Numeral(rest, b) + Reversed(done) else Reversed(done)
  }

  lemma OneMoreDigit(rest: int, b: int, done: string)
    requires 2 <= b <= 36
    ensures Assembled(Quot(rest, b), b, done + [DigitChar(Rem(rest, b))], Quot(rest, b) > 0)
      == Assembled(rest, b, done, true)
  {
    var d, q := DigitChar(Rem(rest, b)), Quot(rest, b);
    ReversedSnoc(done, d);
    if q > 0 {
      Regroup(Numeral(q, b), d, Reversed(done));
    }
  }

  /** The do-while loop of sio_ltoa: least significant digit first. */
  method StoreDigits(v: int, s: array<char>, b: int) returns (i: nat, ghost done: string)
    requires 2 <= b <= 36 && |Numeral(v, b)| < s.Length
    modifies s
    ensures i == |done| && Reversed(done) == Numeral(v, b) && NUL !in done
    ensures forall k :: 0 <= k < i ==> s[k] == done[k]
  {
    i := 0;
    done := "";
    var rest, more := v, true;
    while more
      invariant Assembled(rest, b, done, more) == Numeral(v, b)
      invariant i == |done| && NUL !in done
      invariant forall k :: 0 <= k < i ==> s[k] == done[k]
      decreases more, if rest >= 0 then rest else 0
    {
      var c := Rem(rest, b);
      OneMoreDigit(rest, b, done);
      s[i] := DigitChar(c);
      done := done + [DigitChar(c)];
      i := i + 1;
      rest := Quot(rest, b);
      more := rest > 0;
    }
  }

  /** sio_ltoa: the buffer receives the numeral and a NUL. */
  method Ltoa(v: int, s: array<char>, b: int)
    requires 2 <= b <= 36 && |Numeral(v, b)| < s.Length
    modifies s
    ensures var text := Numeral(v, b); s[..|text|] == text && s[|text|] == NUL
  {
    var i;
    ghost var done;
    i, done := StoreDigits(v, s, b);
    s[i] := NUL;
    assert s[..i] == done;
    Reverse(s, done);
  }
}
