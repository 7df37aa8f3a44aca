/** Exactly which values survive printing and parsing, and that the printer forgets nothing else. */

module JsonExact {
  import opened Outcomes
  import opened Text
  import opened Json
  import opened JsonProofs

  // ------------------------------------------- the parser never splits a pair

  lemma {:induction false} ParsedCharsAreWhole(s: Bytes)
    requires ParseChars(s).Some?
    ensures Whole(ParseChars(s).value.value)
    ensures var t := ParseChars(s).value.value;
            t != [] && Low(t[0]) ==> PeekUnit(s) == Some(t[0])
    decreases |s|
  {
    if s[0] != 34 {
      var first := ParseChar(s).value;
      ParsedCharsAreWhole(first.rest);
      var t, more := ParseChars(s).value.value, ParseChars(first.rest).value.value;
      assert t == [first.value] + more;
      ParsedChar(s);
      forall i: nat | i < |t| ensures !SplitAt(t, i) {
        if i > 0 { assert !SplitAt(more, i - 1); }
      }
    }
  }

  /** A parsed character is a low surrogate only if written as one unit, and a high one only if no low one follows. */
  lemma ParsedChar(s: Bytes)
    requires ParseChar(s).Some?
    ensures var first := ParseChar(s).value;
            && (Low(first.value) ==> PeekUnit(s) == Some(first.value))
            && (High(first.value) ==>
                  var next := PeekUnit(first.rest);
                  next.Some? ==> !Low(next.value))
  {
  }

  predicate Suffix(k: Bytes, s: Bytes) { |k| <= |s| && s[|s| - |k|..] == k }

  lemma SuffixOf(k: Bytes, m: Bytes, s: Bytes)
    requires Suffix(k, m) && Suffix(m, s)
    ensures Suffix(k, s)
  {
    assert s[|s| - |m|..][|m| - |k|..] == s[|s| - |k|..];
  }

  lemma {:induction false} DigitsSuffix(s: Bytes, acc: nat)
    ensures Suffix(ParseDigits(s, acc).rest, s)
    decreases |s|
  {
    if StartsDigit(s) {
      DigitsSuffix(s[1..], acc * 10 + (s[0] - 48));
      SuffixOf(ParseDigits(s, acc).rest, s[1..], s);
    }
  }

  lemma FractionSuffix(s: Bytes)
    ensures Suffix(SkipFraction(s), s)
  {
    if s != [] {
      DigitsSuffix(s[1..], 0);
      SuffixOf(ParseDigits(s[1..], 0).rest, s[1..], s);
    }
  }

  lemma ExponentSuffix(s: Bytes)
    ensures Suffix(SkipExponent(s), s)
  {
    if s != [] {
      DigitsSuffix(ExponentDigits(s), 0);
      SuffixOf(ParseDigits(ExponentDigits(s), 0).rest, ExponentDigits(s), s);
    }
  }

  lemma NumberSuffix(body: Bytes)
    requires StartsDigit(body)
    ensures Suffix(AfterNumber(body), body)
  {
    DigitsSuffix(body, 0);
    var whole := ParseWhole(body).rest;
    FractionSuffix(whole);
    ExponentSuffix(SkipFraction(whole));
    SuffixOf(AfterNumber(body), SkipFraction(whole), whole);
    SuffixOf(AfterNumber(body), whole, body);
  }

  lemma {:induction false} NumberRest(s: Bytes)
    requires ParseNumber(s).Some?
    ensures StartsDigit(Unsigned(s)) && ParseNumber(s).value.rest == AfterNumber(Unsigned(s))
    ensures Suffix(ParseNumber(s).value.rest, s) && |ParseNumber(s).value.rest| < |Unsigned(s)|
  {
    NumberSuffix(Unsigned(s));
    SuffixOf(AfterNumber(Unsigned(s)), Unsigned(s), s);
  }

  lemma {:induction false} ParsedNumber(s: Bytes, b: Bytes, k: Bytes)
    requires ParseNumber(s) == Some(Parsed(JFloat(b), k)) && b == s[..|s| - |k|]
    ensures FloatLexeme(b)
  {
    NumberRest(s);
    SplitAtSuffix(k, s);
    UnsignedBefore(b, k);
    DigitFirst(Unsigned(b), k);
    FloatNumberBefore(b, k);
  }

  lemma DigitFirst(s: Bytes, k: Bytes)
    requires s != [] && StartsDigit(s + k)
    ensures StartsDigit(s)
  {
    assert (s + k)[0] == s[0];
  }

  lemma SplitAtSuffix(k: Bytes, s: Bytes)
    requires Suffix(k, s)
    ensures s == s[..|s| - |k|] + k
  {
  }

  lemma {:induction false} UnsignedBefore(b: Bytes, k: Bytes)
    requires |k| < |Unsigned(b + k)|
    ensures Unsigned(b) != [] && Unsigned(b + k) == Unsigned(b) + k
  {
    assert |b + k| == |b| + |k|;
    if b != [] { assert (b + k)[1..] == b[1..] + k; }
  }

  lemma ParsedConstant(s: Bytes)
    requires ParseConstant(s).Some?
    ensures Printable(ParseConstant(s).value.value)
  {
    assert |s| >= 3 ==> |s[..3]| == 3;
    if ParseConstant(s).value.value.JFloat? {
      var n := |ParseConstant(s).value.value.lexeme|;
      assert n in {3, 8, 9};
      if n == 3 { assert s[..3] == [78, 97, 78]; }
      else if n == 8 { assert s[..8] == [73, 110, 102, 105, 110, 105, 116, 121]; }
      else { assert s[..9] == [45, 73, 110, 102, 105, 110, 105, 116, 121]; }
    }
  }

  lemma {:induction false} ParsedScalar(s: Bytes)
    requires ParseValue(s).Some? && s[0] != 34 && s[0] != 91 && s[0] != 123
    ensures WholeValue(ParseValue(s).value.value) && Printable(ParseValue(s).value.value)
  {
    if ParseConstant(s).Some? {
      ParsedConstant(s);
    } else {
      var v, k := ParseNumber(s).value.value, ParseNumber(s).value.rest;
      if v.JFloat? { ParsedNumber(s, v.lexeme, k); }
    }
  }

  lemma {:induction false} ParsedValueIsWhole(s: Bytes)
    requires ParseValue(s).Some?
    ensures WholeValue(ParseValue(s).value.value) && Printable(ParseValue(s).value.value)
    decreases |s|, 4
  {
    if s[0] == 34 {
      ParsedCharsAreWhole(s[1..]);
    } else if s[0] == 91 {
      var body := SkipSpace(s[1..]);
      if body == [] || body[0] != 93 { ParsedItemsAreWhole(body); }
    } else if s[0] == 123 {
      var body := SkipSpace(s[1..]);
      if body == [] || body[0] != 125 { ParsedMembersAreWhole(body); }
    } else {
      ParsedScalar(s);
    }
  }

  lemma {:induction false} ParsedItemsAreWhole(s: Bytes)
    requires ParseItems(s).Some?
    ensures var items := ParseItems(s).value.value;
            forall i :: 0 <= i < |items| ==> WholeValue(items[i]) && Printable(items[i])
    decreases |s|, 5
  {
    ParsedValueIsWhole(s);
    var after := SkipSpace(ParseValue(s).value.rest);
    if after[0] == 44 { ParsedItemsAreWhole(SkipSpace(after[1..])); }
  }

  lemma {:induction false} ParsedMembersAreWhole(s: Bytes)
    requires ParseMembers(s).Some?
    ensures var fields := ParseMembers(s).value.value;
            forall key :: key in fields ==> Whole(key) && WholeValue(fields[key]) && Printable(fields[key])
    decreases |s|, 5
  {
    var key := ParseKey(s).value;
    ParsedCharsAreWhole(s[1..]);
    ParsedValueIsWhole(key.rest);
    var after := SkipSpace(ParseMember(s).value.rest);
    if after[0] == 44 { ParsedMembersAreWhole(SkipSpace(after[1..])); }
  }

  /** What is parsed from ASCII data holds no split pairs, and only lexemes of the grammar. */
  lemma ParsedIsWhole(data: Bytes)
    requires Parse(data).Some?
    ensures WholeValue(Parse(data).value) && Printable(Parse(data).value)
  {
    ParsedValueIsWhole(SkipSpace(data));
  }

  // ------------------------------------------------------------ main results

  /** A value is read back exactly when none of its strings spells one character as two. */
  lemma RoundTripsExactly(v: Json)
    requires Printable(v)
    ensures Parse(Canonical(v)) == Some(v) <==> WholeValue(v)
  {
    if WholeValue(v) {
      WholeValueIsJoined(v);
      ParseCanonical(v);
    } else if Parse(Canonical(v)) == Some(v) {
      ParsedIsWhole(Canonical(v));
    }
  }

  /** Whatever was parsed is read back from its canonical form. */
  lemma ReprintedReadsBack(data: Bytes)
    requires Parse(data).Some?
    ensures Parse(Canonical(Parse(data).value)) == Parse(data)
  {
    ParsedIsWhole(data);
    RoundTripsExactly(Parse(data).value);
  }

  /** Values print alike exactly when JSON delivers them alike. */
  lemma PrintedAlikeExactly(v: Json, w: Json)
    requires Printable(v) && Printable(w) && WholeKeys(v) && WholeKeys(w)
    ensures Canonical(v) == Canonical(w) <==> JoinedValue(v) == JoinedValue(w)
  {
    ParseCanonical(v);
    ParseCanonical(w);
    JoinedValuePrintsAlike(v, []);
    JoinedValuePrintsAlike(w, []);
  }

  /** Equal canonical bytes mean equal values. */
  lemma CanonicalIsInjective(v: Json, w: Json)
    requires Printable(v) && Printable(w) && WholeValue(v) && WholeValue(w)
    requires Canonical(v) == Canonical(w)
    ensures v == w
  {
    RoundTripsExactly(v);
    RoundTripsExactly(w);
  }

  /** U+1F600 and its two surrogates are different strings with the same canonical bytes. */
  lemma SplitPairsCollide()
    ensures JString([0x1F600]) != JString([0xD83D, 0xDE00])
    ensures Canonical(JString([0x1F600])) == Canonical(JString([0xD83D, 0xDE00]))
  {
    assert Joined([0xD83D, 0xDE00]) == [0x1F600] by {
      assert Joined([0xD83D, 0xDE00]) == [Combine(0xD83D, 0xDE00)] + Joined([0xD83D, 0xDE00][2..]);
      assert [0xD83D, 0xDE00][2..] == [];
    }
    JoinedValuePrintsAlike(JString([0xD83D, 0xDE00]), []);
  }

  // -------------------------------------------------- joining changes no byte

  lemma PairPrintsAlike(high: CodePoint, low: CodePoint, k: Bytes)
    requires High(high) && Low(low)
    ensures EmitChar(Combine(high, low), k) == EmitChar(high, EmitChar(low, k))
  {
    assert (Combine(high, low) - 0x1_0000) / 1024 == high - 0xD800;
    assert (Combine(high, low) - 0x1_0000) % 1024 == low - 0xDC00;
  }

  lemma PrintedPair(t: Text, k: Bytes)
    requires |t| >= 2
    ensures EmitChars(t, k) == EmitChar(t[0], EmitChar(t[1], EmitChars(t[2..], k)))
  {
    assert t[1..][1..] == t[2..];
  }

  lemma PrintedFirst(c: CodePoint, t: Text, k: Bytes)
    ensures EmitChars([c] + t, k) == EmitChar(c, EmitChars(t, k))
  {
    assert ([c] + t)[1..] == t;
  }

  lemma {:induction false} JoinedPrintsAlike(t: Text, k: Bytes)
    ensures EmitChars(Joined(t), k) == EmitChars(t, k)
    decreases |t|
  {
    if t == [] {
    } else if SplitAt(t, 0) {
      JoinedPrintsAlike(t[2..], k);
      PrintedFirst(Combine(t[0], t[1]), Joined(t[2..]), k);
      PairPrintsAlike(t[0], t[1], EmitChars(t[2..], k));
      PrintedPair(t, k);
    } else {
      JoinedPrintsAlike(t[1..], k);
      PrintedFirst(t[0], Joined(t[1..]), k);
    }
  }

  /** A value and its joined form have the same canonical bytes. */
  lemma {:induction false} JoinedValuePrintsAlike(v: Json, k: Bytes)
    ensures Emit(JoinedValue(v), k) == Emit(v, k)
    decreases v, 1, 0
  {
    match v
    case JString(t) => JoinedPrintsAlike(t, [34] + k);
    case JList(items) =>
      if items != [] {
        JoinedItemsPrintAlike(items[1..], k);
        JoinedValuePrintsAlike(items[0], EmitItems(items[1..], k));
        assert JoinedItems(items)[1..] == JoinedItems(items[1..]);
      }
    case JObject(fields) =>
      assert JoinedValue(v).fields.Keys == fields.Keys;
      if Sorted(fields.Keys) != [] { JoinedMembersPrintAlike(v, Sorted(fields.Keys), k); }
    case _ =>
  }

  lemma {:induction false} JoinedItemsPrintAlike(items: seq<Json>, k: Bytes)
    ensures EmitItems(JoinedItems(items), k) == EmitItems(items, k)
    decreases items, 0, 0
  {
    if items != [] {
      JoinedItemsPrintAlike(items[1..], k);
      JoinedValuePrintsAlike(items[0], EmitItems(items[1..], k));
      assert JoinedItems(items)[1..] == JoinedItems(items[1..]);
    }
  }

  lemma {:induction false} JoinedMembersPrintAlike(v: Json, keys: seq<Text>, k: Bytes)
    requires v.JObject? && keys != [] && forall key :: key in keys ==> key in v.fields
    ensures EmitMember(JoinedValue(v), keys, k) == EmitMember(v, keys, k)
    decreases v, 0, |keys|
  {
    var more := if |keys| == 1 then [125] + k else [44] + EmitMember(v, keys[1..], k);
    if |keys| > 1 { JoinedMembersPrintAlike(v, keys[1..], k); }
    JoinedValuePrintsAlike(v.fields[keys[0]], more);
  }
}
