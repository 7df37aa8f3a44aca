/** The canonical printer and the parser undo each other, exactly where they can. */

module JsonProofs {
  import opened Outcomes
  import opened Text
  import opened Json

  // ---------------------------------------------------------------- strings

  /** A high surrogate directly followed by a low one. */
  predicate SplitAt(t: Text, i: nat) {
    i + 1 < |t| && High(t[i]) && Low(t[i + 1])
  }

  /** No character of t is spelled as two code points. */
  predicate Whole(t: Text) {
    forall i: nat :: i < |t| ==> !SplitAt(t, i)
  }

  /** t with every split surrogate pair replaced by the character it spells. */
  function Joined(t: Text): (j: Text)
    ensures |j| <= |t| && (t != [] ==> j != [])
  {
    if t == [] then []
    else if SplitAt(t, 0) then [Combine(t[0], t[1])] + Joined(t[2..])
    else [t[0]] + Joined(t[1..])
  }

  lemma {:induction false} WholeIsJoined(t: Text)
    requires Whole(t)
    ensures Joined(t) == t
  {
    if t != [] {
      assert !SplitAt(t, 0);
      forall i: nat | i < |t| - 1 ensures !SplitAt(t[1..], i) { assert !SplitAt(t, i + 1); }
      WholeIsJoined(t[1..]);
      assert t == [t[0]] + t[1..];
    }
  }

  lemma HexRoundTrip(d: int)
    requires 0 <= d < 16
    ensures HexValue(HexDigit(d)) == Some(d)
  {
  }

  lemma UnitDigits(u: int)
    requires 0 <= u < 0x1_0000
    ensures 0 <= u / 4096 < 16 && ((u / 4096 * 16 + u / 256 % 16) * 16 + u / 16 % 16) * 16 + u % 16 == u
  {
    assert u / 16 == u / 256 * 16 + u / 16 % 16;
    assert u / 256 == u / 4096 * 16 + u / 256 % 16;
  }

  lemma UnitRoundTrip(u: int, k: Bytes)
    requires 0 <= u < 0x1_0000
    ensures PeekUnit(EmitUnit(u, k)) == Some(u)
    ensures EmitUnit(u, k)[6..] == k && |EmitUnit(u, k)| == 6 + |k|
  {
    var s := EmitUnit(u, k);
    var digits := s[2..];
    assert digits[0] == HexDigit(u / 4096) && digits[1] == HexDigit(u / 256 % 16);
    assert digits[2] == HexDigit(u / 16 % 16) && digits[3] == HexDigit(u % 16);
    UnitDigits(u);
    HexRoundTrip(u / 4096);
    HexRoundTrip(u / 256 % 16);
    HexRoundTrip(u / 16 % 16);
    HexRoundTrip(u % 16);
  }

  lemma HighHalf(c: CodePoint)
    requires c >= 0x1_0000
    ensures High(0xD800 + (c - 0x1_0000) / 1024) && Low(0xDC00 + (c - 0x1_0000) % 1024)
    ensures Combine(0xD800 + (c - 0x1_0000) / 1024, 0xDC00 + (c - 0x1_0000) % 1024) == c
  {
  }

  /** The unit that opens a printed character, when it is printed as units. */
  lemma OpeningUnit(c: CodePoint, k: Bytes)
    ensures var unit := PeekUnit(EmitChar(c, k));
            unit.Some? ==> unit.value == c || High(unit.value)
  {
    if Named(c) == 0 && !(32 <= c < 127) {
      if c < 0x1_0000 {
        UnitRoundTrip(c, k);
      } else {
        HighHalf(c);
        UnitRoundTrip(0xD800 + (c - 0x1_0000) / 1024, EmitUnit(0xDC00 + (c - 0x1_0000) % 1024, k));
      }
    }
  }

  /** When a low unit follows, it is the next character of the text. */
  lemma NextUnit(t: Text, k: Bytes)
    ensures var next := PeekUnit(EmitChars(t, [34] + k));
            next.Some? && Low(next.value) ==> t != [] && next.value == t[0]
  {
    if t != [] { OpeningUnit(t[0], EmitChars(t[1..], [34] + k)); }
  }

  lemma EscapeRoundTrip(c: CodePoint, rest: Bytes)
    requires Named(c) != 0 || 32 <= c < 127
    ensures ParseChar(EmitChar(c, rest)) == Some(Parsed(c, rest)) && EmitChar(c, rest)[0] != 34
  {
    var s := EmitChar(c, rest);
    assert if Named(c) != 0 then s[2..] == rest else s[1..] == rest;
  }

  /** A unit is read back alone, unless it is the first half of a pair. */
  lemma SingleUnit(c: int, rest: Bytes)
    requires 0 <= c < 0x1_0000 && (High(c) && PeekUnit(rest).Some? ==> !Low(PeekUnit(rest).value))
    ensures ParseChar(EmitUnit(c, rest)) == Some(Parsed(c, rest)) && EmitUnit(c, rest)[0] != 34
  {
    UnitRoundTrip(c, rest);
  }

  lemma PairOfUnits(high: int, low: int, rest: Bytes)
    requires High(high) && Low(low)
    ensures ParseChar(EmitUnit(high, EmitUnit(low, rest))) == Some(Parsed(Combine(high, low), rest))
    ensures EmitUnit(high, EmitUnit(low, rest))[0] != 34
  {
    var s := EmitUnit(high, EmitUnit(low, rest));
    UnitRoundTrip(low, rest);
    UnitRoundTrip(high, EmitUnit(low, rest));
    assert s[12..] == s[6..][6..];
  }

  /** One printed character is read back, unless it opens a split pair. */
  lemma {:induction false} CharRoundTrip(t: Text, k: Bytes)
    requires t != [] && !SplitAt(t, 0)
    ensures ParseChar(EmitChars(t, [34] + k)) == Some(Parsed(t[0], EmitChars(t[1..], [34] + k)))
    ensures EmitChars(t, [34] + k)[0] != 34
  {
    var c, rest := t[0], EmitChars(t[1..], [34] + k);
    if Named(c) != 0 || 32 <= c < 127 {
      EscapeRoundTrip(c, rest);
    } else if c < 0x1_0000 {
      NextUnit(t[1..], k);
      SingleUnit(c, rest);
    } else {
      HighHalf(c);
      PairOfUnits(0xD800 + (c - 0x1_0000) / 1024, 0xDC00 + (c - 0x1_0000) % 1024, rest);
    }
  }

  /** A split pair is read back as the one character it spells. */
  lemma {:induction false} SplitPairIsJoined(t: Text, k: Bytes)
    requires SplitAt(t, 0)
    ensures ParseChar(EmitChars(t, [34] + k)) == Some(Parsed(Combine(t[0], t[1]), EmitChars(t[2..], [34] + k)))
    ensures EmitChars(t, [34] + k)[0] != 34
  {
    var rest := EmitChars(t[2..], [34] + k);
    assert t[1..][1..] == t[2..];
    PairOfUnits(t[0], t[1], rest);
  }

  lemma {:induction false} CharsRoundTrip(t: Text, k: Bytes)
    ensures ParseChars(EmitChars(t, [34] + k)) == Some(Parsed(Joined(t), k))
    decreases |t|
  {
    if t == [] {
      assert ([34] + k)[1..] == k;
    } else if SplitAt(t, 0) {
      SplitPairIsJoined(t, k);
      CharsRoundTrip(t[2..], k);
    } else {
      CharRoundTrip(t, k);
      CharsRoundTrip(t[1..], k);
    }
  }

  // ---------------------------------------------------------------- numbers

  lemma {:induction false} DigitsRoundTrip(n: nat, k: Bytes)
    ensures ParseDigits(EmitNat(n, k), 0) == ParseDigits(k, n)
    ensures StartsDigit(EmitNat(n, k)) && (EmitNat(n, k)[0] == 48 <==> n == 0)
    ensures n == 0 ==> EmitNat(n, k)[1..] == k
    decreases n
  {
    if n < 10 {
      assert EmitNat(n, k)[1..] == k;
    } else {
      var more: Bytes := [48 + n % 10] + k;
      DigitsRoundTrip(n / 10, more);
      assert more[1..] == k;
    }
  }

  /** What may follow a value: the end, white space, or the punctuation that closes or continues its container. */
  predicate Delimited(k: Bytes) {
    k == [] || k[0] == 44 || k[0] == 93 || k[0] == 125 || Space(k[0])
  }

  lemma NumberRoundTrip(n: int, k: Bytes)
    requires Delimited(k)
    ensures ParseNumber(EmitInt(n, k)) == Some(Parsed(JInt(n), k))
  {
    var m: nat := if n < 0 then -n else n;
    DigitsRoundTrip(m, k);
    if n < 0 { assert EmitInt(n, k)[1..] == EmitNat(m, k); }
  }

  // ----------------------------------------------------------------- floats

  /** `NaN`, `Infinity` and `-Infinity` */
  const CONSTANTS: set<Bytes> := {
    [78, 97, 78], [73, 110, 102, 105, 110, 105, 116, 121], [45, 73, 110, 102, 105, 110, 105, 116, 121]
  }

  predicate FloatLexeme(b: Bytes) {
    b in CONSTANTS || ParseNumber(b) == Some(Parsed(JFloat(b), []))
  }

  /** What a parser leaves of s + k when it does not look into k. */
  predicate Apart(k: Bytes, left: Bytes) { Delimited(k) || |left| >= |k| }

  lemma {:induction false} DigitsBefore(s: Bytes, acc: nat, k: Bytes)
    requires Apart(k, ParseDigits(s + k, acc).rest)
    ensures ParseDigits(s + k, acc) == Parsed(ParseDigits(s, acc).value, ParseDigits(s, acc).rest + k)
    decreases |s|
  {
    if StartsDigit(s) {
      assert (s + k)[1..] == s[1..] + k;
      DigitsBefore(s[1..], acc * 10 + (s[0] - 48), k);
    } else if s == [] {
      assert s + k == k;
    } else {
      assert (s + k)[0] == s[0];
    }
  }

  lemma FractionBefore(s: Bytes, k: Bytes)
    requires Apart(k, SkipFraction(s + k))
    ensures SkipFraction(s + k) == SkipFraction(s) + k
  {
    if s == [] {
      assert s + k == k;
    } else {
      assert (s + k)[0] == s[0] && (s + k)[1..] == s[1..] + k;
      if |s| == 1 && k != [] { assert (s + k)[1] == k[0]; }
      if |s| > 1 && s[0] == 46 && Digit(s[1]) { DigitsBefore(s[1..], 0, k); }
    }
  }

  lemma SignBefore(s: Bytes, k: Bytes)
    requires |s| > 1 || (s != [] && Delimited(k))
    ensures ExponentDigits(s + k) == ExponentDigits(s) + k
  {
    assert (s + k)[1..] == s[1..] + k;
    if |s| > 1 {
      assert (s + k)[1] == s[1] && (s + k)[2..] == s[2..] + k;
    } else if k != [] {
      assert (s + k)[1] == k[0];
    }
  }

  lemma ExponentBefore(s: Bytes, k: Bytes)
    requires Apart(k, SkipExponent(s + k))
    ensures SkipExponent(s + k) == SkipExponent(s) + k
  {
    if s == [] {
      assert s + k == k;
    } else if s[0] != 69 && s[0] != 101 {
      assert (s + k)[0] == s[0];
    } else {
      if |s| > 1 || Delimited(k) {
        SignBefore(s, k);
        if StartsDigit(ExponentDigits(s + k)) { DigitsBefore(ExponentDigits(s), 0, k); }
      } else {
        assert |ExponentDigits(s + k)| <= |k|;
      }
    }
  }

  /** The number after its sign: what follows its whole part, and what follows it. */
  function AfterNumber(body: Bytes): (r: Bytes)
    requires StartsDigit(body)
    ensures |r| <= |ParseWhole(body).rest|
  {
    SkipExponent(SkipFraction(ParseWhole(body).rest))
  }

  lemma WholeBefore(body: Bytes, k: Bytes)
    requires StartsDigit(body) && Apart(k, ParseWhole(body + k).rest)
    ensures ParseWhole(body + k).rest == ParseWhole(body).rest + k
  {
    assert (body + k)[1..] == body[1..] + k;
    if body[0] != 48 { DigitsBefore(body, 0, k); }
  }

  lemma BodyBefore(body: Bytes, k: Bytes)
    requires StartsDigit(body) && Apart(k, AfterNumber(body + k))
    ensures ParseWhole(body + k).rest == ParseWhole(body).rest + k
    ensures AfterNumber(body + k) == AfterNumber(body) + k
  {
    WholeBefore(body, k);
    FractionBefore(ParseWhole(body).rest, k);
    ExponentBefore(SkipFraction(ParseWhole(body).rest), k);
  }

  lemma FloatIs(s: Bytes, b: Bytes, k: Bytes)
    requires s == b + k && StartsDigit(Unsigned(s))
    ensures ParseNumber(s) == Some(Parsed(JFloat(b), k)) <==>
            AfterNumber(Unsigned(s)) == k && ParseWhole(Unsigned(s)).rest != k
  {
    assert s[..|s| - |k|] == b;
  }

  /** A lexeme is read as a float exactly when it is read alone as one, whatever is behind it. */
  lemma FloatNumberBefore(b: Bytes, k: Bytes)
    requires StartsDigit(Unsigned(b)) && Apart(k, AfterNumber(Unsigned(b) + k))
    ensures ParseNumber(b + k) == Some(Parsed(JFloat(b), k)) <==> ParseNumber(b) == Some(Parsed(JFloat(b), []))
  {
    var body := Unsigned(b);
    assert Unsigned(b + k) == body + k;
    BodyBefore(body, k);
    assert b + [] == b;
    FloatIs(b, b, []);
    FloatIs(b + k, b, k);
    Nothing(ParseWhole(body).rest, k);
    Nothing(AfterNumber(body), k);
  }

  lemma Nothing(a: Bytes, k: Bytes)
    ensures a + k == k <==> a == []
  {
    assert |a + k| == |a| + |k|;
    assert [] + k == k;
  }

  lemma FloatNumberRoundTrip(b: Bytes, k: Bytes)
    requires ParseNumber(b) == Some(Parsed(JFloat(b), [])) && Delimited(k)
    ensures ParseNumber(b + k) == Some(Parsed(JFloat(b), k))
  {
    FloatNumberBefore(b, k);
  }

  lemma ConstantRoundTrip(b: Bytes, k: Bytes)
    requires b in CONSTANTS
    ensures ParseConstant(b + k) == Some(Parsed(JFloat(b), k))
  {
    var s := b + k;
    assert s[..|b|] == b && s[|b|..] == k;
    assert s[0] == b[0] && s[1] == b[1] && s[2] == b[2];
  }

  lemma {:induction false} FloatRoundTrip(b: Bytes, k: Bytes)
    requires FloatLexeme(b) && Delimited(k)
    ensures ParseValue(b + k) == Some(Parsed(JFloat(b), k))
  {
    var s := b + k;
    if b in CONSTANTS {
      ConstantRoundTrip(b, k);
    } else {
      FloatNumberRoundTrip(b, k);
      NumberIsNoConstant(b, k);
    }
  }

  lemma {:induction false} NumberIsNoConstant(b: Bytes, k: Bytes)
    requires ParseNumber(b).Some?
    ensures var s := b + k;
            s != [] && s[0] != 34 && s[0] != 91 && s[0] != 123 && ParseConstant(s) == None
  {
    assert (b + k)[0] == b[0];
    if b[0] == 45 { assert Digit(b[1]) && (b + k)[1] == b[1]; } else { assert Digit(b[0]); }
  }

  // ----------------------------------------------------------------- values

  /** Every float in v has a lexeme of the grammar, or is one of the constants that Python adds. */
  predicate Printable(v: Json)
    decreases v
  {
    match v
    case JFloat(lexeme) => FloatLexeme(lexeme)
    case JList(items) => forall i :: 0 <= i < |items| ==> Printable(items[i])
    case JObject(fields) => forall key :: key in fields ==> Printable(fields[key])
    case _ => true
  }

  /** No object key anywhere in v holds a split surrogate pair. */
  predicate WholeKeys(v: Json)
    decreases v
  {
    match v
    case JList(items) => forall i :: 0 <= i < |items| ==> WholeKeys(items[i])
    case JObject(fields) => forall key :: key in fields ==> Whole(key) && WholeKeys(fields[key])
    case _ => true
  }

  /** No string anywhere in v, keys included, holds a split surrogate pair. */
  predicate WholeValue(v: Json)
    decreases v
  {
    match v
    case JString(s) => Whole(s)
    case JList(items) => forall i :: 0 <= i < |items| ==> WholeValue(items[i])
    case JObject(fields) => forall key :: key in fields ==> Whole(key) && WholeValue(fields[key])
    case _ => true
  }

  /** v with the strings among its values joined; what a JSON transport delivers. */
  function JoinedValue(v: Json): Json
    decreases v
  {
    match v
    case JString(s) => JString(Joined(s))
    case JList(items) => JList(seq(|items|, i requires 0 <= i < |items| => JoinedValue(items[i])))
    case JObject(fields) => JObject(map key | key in fields :: JoinedValue(fields[key]))
    case _ => v
  }

  lemma {:induction false} WholeValueIsJoined(v: Json)
    requires WholeValue(v)
    ensures JoinedValue(v) == v && WholeKeys(v)
    decreases v
  {
    match v
    case JString(s) => WholeIsJoined(s);
    case JList(items) => forall i | 0 <= i < |items| { WholeValueIsJoined(items[i]); }
    case JObject(fields) =>
      forall key | key in fields ensures JoinedValue(fields[key]) == fields[key] && WholeKeys(fields[key]) {
        WholeValueIsJoined(fields[key]);
      }
    case _ =>
  }

  lemma {:induction false} EmitHead(v: Json, k: Bytes)
    requires Printable(v)
    ensures Emit(v, k) != []
    ensures !Space(Emit(v, k)[0]) && Emit(v, k)[0] != 93 && Emit(v, k)[0] != 125
  {
    if v.JInt? { DigitsRoundTrip(if v.n < 0 then -v.n else v.n, k); }
  }

  lemma {:induction false} ValueRoundTrip(v: Json, k: Bytes)
    requires Printable(v) && WholeKeys(v) && Delimited(k)
    ensures ParseValue(Emit(v, k)) == Some(Parsed(JoinedValue(v), k))
    decreases v, 2, 0
  {
    match v
    case JList(_) => ListRoundTrip(v, k);
    case JObject(_) => ObjectRoundTrip(v, k);
    case _ => ScalarRoundTrip(v, k);
  }

  lemma ScalarRoundTrip(v: Json, k: Bytes)
    requires Printable(v) && !v.JList? && !v.JObject? && Delimited(k)
    ensures ParseValue(Emit(v, k)) == Some(Parsed(JoinedValue(v), k))
  {
    var s := Emit(v, k);
    match v
    case JNull => assert s[4..] == k;
    case JBool(b) => assert if b then s[4..] == k else s[5..] == k;
    case JInt(n) => NumberRoundTrip(n, k); IntIsNoConstant(n, k);
    case JFloat(lexeme) => FloatRoundTrip(lexeme, k);
    case JString(t) => CharsRoundTrip(t, k); assert s[1..] == EmitChars(t, [34] + k);
  }

  lemma {:induction false} ListRoundTrip(v: Json, k: Bytes)
    requires v.JList? && Printable(v) && WholeKeys(v) && Delimited(k)
    ensures ParseValue(Emit(v, k)) == Some(Parsed(JoinedValue(v), k))
    decreases v, 1, 0
  {
    var items, s := v.items, Emit(v, k);
    if items == [] {
      assert s[1..] == [93] + k && s[1..][1..] == k;
      assert JoinedValue(v).items == [];
    } else {
      var body := Emit(items[0], EmitItems(items[1..], k));
      assert s == [91] + body;
      EmitHead(items[0], EmitItems(items[1..], k));
      ItemsRoundTrip(items, k);
      ListStep(body, JoinedItems(items), k);
      assert JoinedItems(items) == JoinedValue(v).items;
    }
  }

  lemma ListStep(body: Bytes, items: seq<Json>, k: Bytes)
    requires body != [] && !Space(body[0]) && body[0] != 93
    requires ParseItems(body) == Some(Parsed(items, k))
    ensures ParseValue([91] + body) == Some(Parsed(JList(items), k))
  {
    assert ([91] + body)[1..] == body;
    assert ParseList(body) == Some(Parsed(JList(items), k));
  }

  lemma {:induction false} ObjectRoundTrip(v: Json, k: Bytes)
    requires v.JObject? && Printable(v) && WholeKeys(v) && Delimited(k)
    ensures ParseValue(Emit(v, k)) == Some(Parsed(JoinedValue(v), k))
    decreases v, 1, 0
  {
    var keys := Sorted(v.fields.Keys);
    AllMembers(v);
    if keys == [] {
      EmptyObject(v, k);
    } else {
      var body := EmitMember(v, keys, k);
      MembersHead(v, keys, k);
      MembersRoundTrip(v, keys, k);
      ObjectStep(body, JoinedMembers(v, keys), k);
    }
  }

  lemma AllMembers(v: Json)
    requires v.JObject?
    ensures JoinedValue(v) == JObject(JoinedMembers(v, Sorted(v.fields.Keys)))
  {
    assert JoinedValue(v).fields == JoinedMembers(v, Sorted(v.fields.Keys));
  }

  lemma EmptyObject(v: Json, k: Bytes)
    requires v.JObject? && Sorted(v.fields.Keys) == []
    ensures ParseValue(Emit(v, k)) == Some(Parsed(JoinedValue(v), k))
  {
    assert v.fields.Keys == {};
    assert JoinedValue(v).fields == map[];
    var s: Bytes := [123, 125] + k;
    assert s[1..] == [125] + k && s[1..][1..] == k;
    assert ParseObject(s[1..]) == Some(Parsed(JObject(map[]), k));
  }

  lemma ObjectStep(body: Bytes, fields: map<Text, Json>, k: Bytes)
    requires body != [] && body[0] == 34
    requires ParseMembers(body) == Some(Parsed(fields, k))
    ensures ParseValue([123] + body) == Some(Parsed(JObject(fields), k))
  {
    assert ([123] + body)[1..] == body;
    assert ParseObject(body) == Some(Parsed(JObject(fields), k));
  }

  lemma IntIsNoConstant(n: int, k: Bytes)
    ensures var s := EmitInt(n, k);
            s != [] && s[0] != 34 && s[0] != 91 && s[0] != 123 && ParseConstant(s) == None
  {
    var m: nat := if n < 0 then -n else n;
    DigitsRoundTrip(m, k);
    var s := EmitInt(n, k);
    if n < 0 { assert s[1] == EmitNat(m, k)[0]; }
  }

  function JoinedItems(items: seq<Json>): seq<Json> {
    seq(|items|, i requires 0 <= i < |items| => JoinedValue(items[i]))
  }

  lemma {:induction false} ItemsRoundTrip(items: seq<Json>, k: Bytes)
    requires items != [] && forall i :: 0 <= i < |items| ==> Printable(items[i]) && WholeKeys(items[i])
    ensures ParseItems(Emit(items[0], EmitItems(items[1..], k))) == Some(Parsed(JoinedItems(items), k))
    decreases items, 0, 0
  {
    var tail := EmitItems(items[1..], k);
    TailIsDelimited(items[1..], k);
    ValueRoundTrip(items[0], tail);
    if |items| == 1 {
      assert tail == [93] + k;
      LastItem(Emit(items[0], tail), JoinedValue(items[0]), k);
      assert JoinedItems(items) == [JoinedValue(items[0])];
    } else {
      var rest := items[1..];
      var next := Emit(rest[0], EmitItems(rest[1..], k));
      assert tail == [44] + next;
      EmitHead(rest[0], EmitItems(rest[1..], k));
      ItemsRoundTrip(rest, k);
      NextItem(Emit(items[0], tail), JoinedValue(items[0]), next, JoinedItems(rest), k);
      assert JoinedItems(items) == [JoinedValue(items[0])] + JoinedItems(rest);
    }
  }

  lemma TailIsDelimited(items: seq<Json>, k: Bytes)
    ensures Delimited(EmitItems(items, k))
  {
  }

  lemma {:induction false} LastItem(s: Bytes, first: Json, k: Bytes)
    requires ParseValue(s) == Some(Parsed(first, [93] + k))
    ensures ParseItems(s) == Some(Parsed([first], k))
  {
    assert ([93] + k)[1..] == k;
  }

  lemma NextItem(s: Bytes, first: Json, next: Bytes, more: seq<Json>, k: Bytes)
    requires ParseValue(s) == Some(Parsed(first, [44] + next))
    requires next != [] && !Space(next[0])
    requires ParseItems(next) == Some(Parsed(more, k))
    ensures ParseItems(s) == Some(Parsed([first] + more, k))
  {
    assert ([44] + next)[1..] == next;
  }

  function JoinedMembers(v: Json, keys: seq<Text>): map<Text, Json>
    requires v.JObject? && forall key :: key in keys ==> key in v.fields
  {
    map key | key in keys :: JoinedValue(v.fields[key])
  }

  lemma {:induction false} MembersRoundTrip(v: Json, keys: seq<Text>, k: Bytes)
    requires v.JObject? && keys != [] && Ascending(keys) && forall key :: key in keys ==> key in v.fields
    requires Printable(v) && WholeKeys(v)
    ensures ParseMembers(EmitMember(v, keys, k)) == Some(Parsed(JoinedMembers(v, keys), k))
    decreases v, 0, |keys|
  {
    var key, rest := keys[0], keys[1..];
    var more := if |keys| == 1 then [125] + k else [44] + EmitMember(v, rest, k);
    ValueRoundTrip(v.fields[key], more);
    MemberRoundTrip(key, v.fields[key], more);
    if |keys| == 1 {
      LastMember(EmitMember(v, keys, k), key, JoinedValue(v.fields[key]), k);
      assert JoinedMembers(v, keys) == map[key := JoinedValue(v.fields[key])];
    } else {
      var next := EmitMember(v, rest, k);
      MembersHead(v, rest, k);
      RestMembers(v, keys);
      MembersRoundTrip(v, rest, k);
      NextMember(EmitMember(v, keys, k), key, JoinedValue(v.fields[key]), next, JoinedMembers(v, rest), k);
    }
  }

  lemma LastMember(s: Bytes, key: Text, value: Json, k: Bytes)
    requires ParseMember(s) == Some(Parsed((key, value), [125] + k))
    ensures ParseMembers(s) == Some(Parsed(map[key := value], k))
  {
    assert ([125] + k)[1..] == k;
  }

  lemma {:induction false} NextMember(s: Bytes, key: Text, value: Json, next: Bytes, more: map<Text, Json>, k: Bytes)
    requires ParseMember(s) == Some(Parsed((key, value), [44] + next))
    requires next != [] && next[0] == 34
    requires ParseMembers(next) == Some(Parsed(more, k)) && key !in more
    ensures ParseMembers(s) == Some(Parsed(more[key := value], k))
  {
    assert ([44] + next)[1..] == next;
  }

  lemma MembersHead(v: Json, keys: seq<Text>, k: Bytes)
    requires v.JObject? && keys != [] && forall key :: key in keys ==> key in v.fields
    ensures EmitMember(v, keys, k) != [] && EmitMember(v, keys, k)[0] == 34
  {
  }

  lemma MemberRoundTrip(key: Text, value: Json, more: Bytes)
    requires Whole(key) && Printable(value)
    requires ParseValue(Emit(value, more)) == Some(Parsed(JoinedValue(value), more))
    ensures ParseMember(EmitString(key, [58] + Emit(value, more))) == Some(Parsed((key, JoinedValue(value)), more))
  {
    EmitHead(value, more);
    KeyRoundTrip(key, Emit(value, more));
  }

  lemma RestMembers(v: Json, keys: seq<Text>)
    requires v.JObject? && |keys| > 1 && Ascending(keys) && forall key :: key in keys ==> key in v.fields
    ensures Ascending(keys[1..]) && keys[0] !in keys[1..]
    ensures keys[0] !in JoinedMembers(v, keys[1..])
    ensures JoinedMembers(v, keys) == JoinedMembers(v, keys[1..])[keys[0] := JoinedValue(v.fields[keys[0]])]
  {
  }

  lemma KeyRoundTrip(key: Text, value: Bytes)
    requires Whole(key) && value != [] && !Space(value[0])
    ensures ParseKey(EmitString(key, [58] + value)) == Some(Parsed(key, value))
  {
    var colon: Bytes := [58] + value;
    CharsRoundTrip(key, colon);
    WholeIsJoined(key);
    assert EmitString(key, colon)[1..] == EmitChars(key, [34] + colon);
    assert colon[1..] == value;
  }

  /** The printed form of any value with whole keys reads back as that value, joined. */
  lemma ParseCanonical(v: Json)
    requires Printable(v) && WholeKeys(v)
    ensures Parse(Canonical(v)) == Some(JoinedValue(v))
  {
    EmitHead(v, []);
    ValueRoundTrip(v, []);
  }
}
