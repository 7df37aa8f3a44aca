/** The numbers that the parser reads are those of the grammar, and the printer's digits stand for the number. */

module JsonNumbers {
  import opened Outcomes
  import opened Text
  import opened Json
  import opened JsonProofs
  import opened JsonGrammar

  predicate Digital(s: Bytes) { forall i :: 0 <= i < |s| ==> IsDigit(s[i]) }

  /** Digits read one by one behind a number that was read already. */
  function Read(acc: nat, s: Bytes): nat
    requires Digital(s)
    decreases |s|
  {
    if s == [] then acc else
      assert IsDigit(s[0]);
      Read(acc * 10 + (s[0] as int - '0' as int), s[1..])
  }

  lemma {:induction false} ReadLast(acc: nat, s: Bytes)
    requires Digital(s) && s != []
    ensures IsDigit(s[|s| - 1])
    ensures Read(acc, s) == Read(acc, s[..|s| - 1]) * 10 + (s[|s| - 1] as int - '0' as int)
    decreases |s|
  {
    assert IsDigit(s[0]) && IsDigit(s[|s| - 1]);
    if |s| > 1 {
      ReadLast(acc * 10 + (s[0] as int - '0' as int), s[1..]);
      assert s[1..][..|s| - 2] == s[..|s| - 1][1..];
    }
  }

  lemma {:induction false} ReadIsDecimal(s: Bytes)
    requires Digital(s)
    ensures Read(0, s) == Decimal(s)
    decreases |s|
  {
    if s != [] {
      ReadLast(0, s);
      ReadIsDecimal(s[..|s| - 1]);
    }
  }

  lemma {:induction false} DigitsRead(s: Bytes, acc: nat, k: Bytes)
    requires Digital(s) && !StartsDigit(k)
    ensures ParseDigits(s + k, acc) == Parsed(Read(acc, s), k)
    decreases |s|
  {
    if s == [] {
      assert s + k == k;
    } else {
      assert IsDigit(s[0]) && (s + k)[0] == s[0] && (s + k)[1..] == s[1..] + k;
      DigitsRead(s[1..], acc * 10 + (s[0] - 48), k);
    }
  }

  lemma {:induction false} DigitsSound(s: Bytes, acc: nat) returns (p: Bytes)
    ensures Digital(p) && s == p + ParseDigits(s, acc).rest && ParseDigits(s, acc).value == Read(acc, p)
    ensures StartsDigit(s) ==> p != []
    decreases |s|
  {
    if StartsDigit(s) {
      var q := DigitsSound(s[1..], acc * 10 + (s[0] - 48));
      p := [s[0]] + q;
      assert p[1..] == q;
    } else {
      p := [];
    }
  }

  // ------------------------------------------------------------------ integers

  lemma NaturalReads(p: Bytes, n: nat, k: Bytes)
    requires NaturalIs(p, n) && !StartsDigit(k)
    ensures StartsDigit(p + k) && ParseWhole(p + k) == Parsed(n, k)
  {
    assert IsDigit(p[0]) && (p + k)[0] == p[0];
    if p[0] == 48 {
      assert Decimal(p[..0]) == 0 && p[..|p| - 1] == p[..0];
      assert (p + k)[1..] == k;
    } else {
      DigitsRead(p, 0, k);
      ReadIsDecimal(p);
    }
  }

  lemma NaturalSound(s: Bytes) returns (p: Bytes)
    requires StartsDigit(s)
    ensures s == p + ParseWhole(s).rest && NaturalIs(p, ParseWhole(s).value)
  {
    if s[0] == 48 {
      p := [s[0]];
      assert Decimal(p) == 0 by { assert p[..0] == []; }
    } else {
      p := DigitsSound(s, 0);
      ReadIsDecimal(p);
    }
  }

  /** The part of a number before its fraction and exponent. */
  lemma IntegerReads(p: Bytes, n: int, k: Bytes)
    requires IntegerIs(p, n) && !StartsDigit(k)
    ensures p != [] && StartsDigit(Unsigned(p + k)) && ParseWhole(Unsigned(p + k)).rest == k
    ensures n == if (p + k)[0] == 45 then 0 - ParseWhole(Unsigned(p + k)).value else ParseWhole(Unsigned(p + k)).value
  {
    assert (p + k)[0] == p[0];
    if Starts(p, '-') {
      NaturalReads(p[1..], -n, k);
      assert (p + k)[1..] == p[1..] + k;
    } else {
      assert IsDigit(p[0]);
      NaturalReads(p, n, k);
    }
  }

  lemma IntegerSound(s: Bytes) returns (p: Bytes)
    requires StartsDigit(Unsigned(s))
    ensures s == p + ParseWhole(Unsigned(s)).rest
    ensures IntegerIs(p, if s[0] == 45 then 0 - ParseWhole(Unsigned(s)).value else ParseWhole(Unsigned(s)).value)
  {
    p := NaturalSound(Unsigned(s));
    assert IsDigit(p[0]);
    if s[0] == 45 {
      p := [45] + p;
      assert p[1..] + ParseWhole(Unsigned(s)).rest == Unsigned(s);
    }
  }

  // -------------------------------------------------- fractions and exponents

  lemma FractionReads(f: Bytes, k: Bytes)
    requires Fraction(f) && !StartsDigit(k)
    ensures SkipFraction(f + k) == k
  {
    assert (f + k)[1..] == f[1..] + k && IsDigit(f[1..][0]) && (f + k)[1] == f[1..][0];
    DigitsRead(f[1..], 0, k);
  }

  /** What is skipped as a fraction is one. */
  lemma FractionSound(s: Bytes) returns (f: Bytes)
    ensures s == f + SkipFraction(s) && (f == [] || Fraction(f))
    ensures f != [] ==> !StartsDigit(SkipFraction(s))
  {
    f := [];
    if SkipFraction(s) != s {
      var d := DigitsSound(s[1..], 0);
      f := [s[0]] + d;
      assert f[1..] == d;
    }
  }

  lemma ExponentReads(e: Bytes, k: Bytes)
    requires Exponent(e) && !StartsDigit(k)
    ensures SkipExponent(e + k) == k
  {
    var s := e + k;
    assert s[0] == e[0] && s[1..] == e[1..] + k;
    if AllDigits(e[1..]) {
      assert IsDigit(e[1..][0]) && s[1] == e[1..][0];
      DigitsRead(e[1..], 0, k);
    } else {
      assert s[1] == e[1..][0] && s[2..] == e[2..] + k && IsDigit(e[2..][0]);
      DigitsRead(e[2..], 0, k);
    }
  }

  lemma ExponentSound(s: Bytes)
    requires SkipExponent(s) == [] && s != []
    ensures Exponent(s)
  {
    var digits := ExponentDigits(s);
    var d := DigitsSound(digits, 0);
    assert d == digits;
    assert s[1..][1..] == s[2..];
  }

  // --------------------------------------------------------------- main results

  lemma FloatReads(s: Bytes)
    requires FloatText(s)
    ensures ParseNumber(s) == Some(Parsed(JFloat(s), []))
  {
    var p, f, e, n := FloatPieces(s);
    PartsRead(f, e);
    IntegerReads(p, n, f + e);
    assert s == s + [];
    FloatIs(s, s, []);
  }

  lemma FloatPieces(s: Bytes) returns (p: Bytes, f: Bytes, e: Bytes, n: int)
    requires FloatText(s)
    ensures s == p + (f + e) && f + e != [] && IntegerIs(p, n)
    ensures (f == [] || Fraction(f)) && (e == [] || Exponent(e))
  {
    var i: nat, j: nat, m :| FloatAt(s, i, j, m);
    p, f, e, n := s[..i], s[i..j], s[j..], m;
  }

  lemma PartsRead(f: Bytes, e: Bytes)
    requires (f == [] || Fraction(f)) && (e == [] || Exponent(e))
    ensures SkipExponent(SkipFraction(f + e)) == [] && !StartsDigit(f + e)
  {
    if f == [] { assert f + e == e; } else { FractionReads(f, e); }
    if e != [] {
      ExponentReads(e, []);
      assert e + [] == e;
    }
  }

  lemma FloatSound(s: Bytes)
    requires ParseNumber(s) == Some(Parsed(JFloat(s), []))
    ensures FloatText(s)
  {
    FloatIs(s, s, []);
    var p := IntegerSound(s);
    var w := ParseWhole(Unsigned(s)).rest;
    var f := FractionSound(w);
    var e := SkipFraction(w);
    if e != [] { ExponentSound(e); }
    FloatParts(s, p, f, e, if s[0] == 45 then 0 - ParseWhole(Unsigned(s)).value else ParseWhole(Unsigned(s)).value);
  }

  lemma FloatParts(s: Bytes, p: Bytes, f: Bytes, e: Bytes, n: int)
    requires s == p + (f + e) && f + e != [] && IntegerIs(p, n)
    requires (f == [] || Fraction(f)) && (e == [] || Exponent(e))
    ensures FloatText(s)
  {
    var i, j := |p|, |p| + |f|;
    assert s[..i] == p && s[i..j] == f && s[j..] == e;
    assert FloatAt(s, i, j, n);
  }

  /** An integer is read as what its digits stand for. */
  lemma IntReads(p: Bytes, n: int, k: Bytes)
    requires IntegerIs(p, n) && Delimited(k)
    ensures ParseNumber(p + k) == Some(Parsed(JInt(n), k))
  {
    IntegerReads(p, n, k);
  }

  lemma IntSound(s: Bytes) returns (p: Bytes)
    requires ParseNumber(s).Some? && ParseNumber(s).value.value.JInt?
    ensures s == p + ParseNumber(s).value.rest && IntegerIs(p, ParseNumber(s).value.value.n)
  {
    p := IntegerSound(s);
  }
}
