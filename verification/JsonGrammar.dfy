/**
 * JSON texts and what they denote, as RFC 8259 gives it section by section, without the printer and the parser: the
 * characters are written as characters. Duplicate names are excluded; the three constants that Python adds are not.
 */

module JsonGrammar {
  import opened Text
  import opened Json

  predicate Is(s: Bytes, literal: string) {
    |s| == |literal| && forall i :: 0 <= i < |s| ==> s[i] == literal[i] as int
  }

  predicate Starts(s: Bytes, c: char) { s != [] && s[0] == c as int }

  // --------------------------------------------------- section 7: strings

  /** The two-character escapes: the letter behind the backslash, and the character it stands for. */
  const ESCAPES: map<char, int> := map[
    '"' := 0x22, '\\' := 0x5C, '/' := 0x2F, 'b' := 0x08, 'f' := 0x0C, 'n' := 0x0A, 'r' := 0x0D, 't' := 0x09]

  predicate HexIs(b: Byte, d: int) {
    || ('0' as int <= b <= '9' as int && d == b - '0' as int)
    || ('a' as int <= b <= 'f' as int && d == b - 'a' as int + 10)
    || ('A' as int <= b <= 'F' as int && d == b - 'A' as int + 10)
  }

  ghost predicate FourHex(p: Byte, q: Byte, r: Byte, s: Byte, u: int) {
    exists a, b, c, d :: HexIs(p, a) && HexIs(q, b) && HexIs(r, c) && HexIs(s, d) && u == a * 4096 + b * 256 + c * 16 + d
  }

  /** A backslash, `u` and four hexadecimal digits of the code unit u. */
  ghost predicate UnitIs(s: Bytes, u: int) {
    |s| == 6 && s[0] == '\\' as int && s[1] == 'u' as int && FourHex(s[2], s[3], s[4], s[5], u)
  }

  predicate PlainIs(s: Bytes, c: CodePoint) {
    |s| == 1 && s[0] == c && 0x20 <= c < 0x80 && c != '"' as int && c != '\\' as int
  }

  predicate EscapeIs(s: Bytes, c: CodePoint) {
    |s| == 2 && Starts(s, '\\') && exists letter :: letter in ESCAPES && s[1] == letter as int && ESCAPES[letter] == c
  }

  predicate HighUnit(u: int) { 0xD800 <= u <= 0xDBFF }
  predicate LowUnit(u: int) { 0xDC00 <= u <= 0xDFFF }

  ghost predicate PairIs(s: Bytes, c: CodePoint) { exists high, low :: PairOf(s, c, high, low) }

  ghost predicate PairOf(s: Bytes, c: CodePoint, high: int, low: int) {
    && |s| == 12 && UnitIs(s[..6], high) && UnitIs(s[6..], low) && HighUnit(high) && LowUnit(low)
    && c == 0x1_0000 + (high - 0xD800) * 0x400 + (low - 0xDC00)
  }

  /** s spells the one character c. */
  ghost predicate Piece(s: Bytes, c: CodePoint) { PlainIs(s, c) || EscapeIs(s, c) || UnitIs(s, c) || PairIs(s, c) }

  /** s spells the characters of t, one after the other. */
  ghost predicate Spells(s: Bytes, t: Text)
    decreases |t|, 1
  {
    if t == [] then s == [] else exists n :: SpellsAt(s, t, n)
  }

  ghost predicate SpellsAt(s: Bytes, t: Text, n: nat)
    requires t != []
    decreases |t|, 0
  {
    0 < n <= |s| && Piece(s[..n], t[0]) && Spells(s[n..], t[1..])
  }

  /** Two units that could be a pair are a pair. */
  predicate Paired(t: Text) { forall i :: 0 <= i < |t| - 1 ==> !(HighUnit(t[i]) && LowUnit(t[i + 1])) }

  ghost predicate Quoted(s: Bytes, t: Text) {
    |s| >= 2 && Starts(s, '"') && s[|s| - 1] == '"' as int && Spells(s[1..|s| - 1], t) && Paired(t)
  }

  // --------------------------------------------------- section 6: numbers

  predicate IsDigit(b: Byte) { '0' as int <= b <= '9' as int }

  predicate AllDigits(s: Bytes) { s != [] && forall i :: 0 <= i < |s| ==> IsDigit(s[i]) }

  /** The number that decimal digits stand for. */
  function Decimal(s: Bytes): nat
    requires forall i :: 0 <= i < |s| ==> IsDigit(s[i])
  {
    if s == [] then 0 else
      assert IsDigit(s[|s| - 1]);
      Decimal(s[..|s| - 1]) * 10 + (s[|s| - 1] as int - '0' as int)
  }

  predicate NaturalIs(s: Bytes, n: nat) { AllDigits(s) && (Starts(s, '0') ==> |s| == 1) && Decimal(s) == n }

  predicate IntegerIs(s: Bytes, n: int) {
    if Starts(s, '-') then n <= 0 && NaturalIs(s[1..], -n) else n >= 0 && NaturalIs(s, n)
  }

  predicate Fraction(s: Bytes) { Starts(s, '.') && AllDigits(s[1..]) }

  predicate Exponent(s: Bytes) {
    && (Starts(s, 'e') || Starts(s, 'E'))
    && (AllDigits(s[1..]) || ((Starts(s[1..], '+') || Starts(s[1..], '-')) && AllDigits(s[2..])))
  }

  /** An integer with a fraction, an exponent, or both. */
  ghost predicate FloatText(s: Bytes) { exists i, j, n :: FloatAt(s, i, j, n) }

  predicate FloatAt(s: Bytes, i: nat, j: nat, n: int) {
    && i <= j <= |s| && i < |s| && IntegerIs(s[..i], n)
    && (i == j || Fraction(s[i..j])) && (j == |s| || Exponent(s[j..]))
  }

  // ------------------------------------------ sections 2 to 5: whole texts

  predicate Blank(s: Bytes) {
    forall i :: 0 <= i < |s| ==> s[i] == ' ' as int || s[i] == '\t' as int || s[i] == '\n' as int || s[i] == '\r' as int
  }

  /** s is the value v, with white space around it. */
  ghost predicate Spaced(s: Bytes, v: Json)
    decreases v, 4, 0, 0
  {
    exists i, j :: SpacedAt(s, v, i, j)
  }

  ghost predicate SpacedAt(s: Bytes, v: Json, i: nat, j: nat)
    decreases v, 3, 0, 0
  {
    i <= j <= |s| && Blank(s[..i]) && Blank(s[j..]) && Value(s[i..j], v)
  }

  /** s is the value v. */
  ghost predicate Value(s: Bytes, v: Json)
    decreases v, 2, 0, 0
  {
    match v
    case JNull => Is(s, "null")
    case JBool(b) => Is(s, if b then "true" else "false")
    case JInt(n) => IntegerIs(s, n)
    case JFloat(lexeme) => s == lexeme && (FloatText(s) || Is(s, "NaN") || Is(s, "Infinity") || Is(s, "-Infinity"))
    case JString(t) => Quoted(s, t)
    case JList(items) =>
      && |s| >= 2 && Starts(s, '[') && s[|s| - 1] == ']' as int
      && if items == [] then Blank(s[1..|s| - 1]) else Elements(s[1..|s| - 1], items)
    case JObject(fields) =>
      && |s| >= 2 && Starts(s, '{') && s[|s| - 1] == '}' as int
      && if fields == map[] then Blank(s[1..|s| - 1]) else Members(s[1..|s| - 1], v, fields.Keys)
  }

  /** Values between commas. */
  ghost predicate Elements(s: Bytes, items: seq<Json>)
    requires items != []
    decreases items, 1, 0, 0
  {
    if |items| == 1 then Spaced(s, items[0]) else exists n :: ElementsAt(s, items, n)
  }

  ghost predicate ElementsAt(s: Bytes, items: seq<Json>, n: nat)
    requires |items| > 1
    decreases items, 0, 0, 0
  {
    n < |s| && s[n] == ',' as int && Spaced(s[..n], items[0]) && Elements(s[n + 1..], items[1..])
  }

  /** The members of v under these keys, between commas, in any order. */
  ghost predicate Members(s: Bytes, v: Json, keys: set<Text>)
    requires v.JObject? && keys != {} && keys <= v.fields.Keys
    decreases v, 1, |keys|, 1
  {
    exists key :: key in keys && if keys == {key} then Member(s, v, key) else exists n :: MembersAt(s, v, keys, key, n)
  }

  ghost predicate MembersAt(s: Bytes, v: Json, keys: set<Text>, key: Text, n: nat)
    requires v.JObject? && key in keys && keys <= v.fields.Keys && keys != {key}
    decreases v, 1, |keys|, 0
  {
    n < |s| && s[n] == ',' as int && Member(s[..n], v, key) && Members(s[n + 1..], v, keys - {key})
  }

  ghost predicate Member(s: Bytes, v: Json, key: Text)
    requires v.JObject? && key in v.fields
    decreases v, 0, 0, 1
  {
    exists i, j, c :: MemberAt(s, v, key, i, j, c)
  }

  /** White space, the name, white space, the colon and the value. */
  ghost predicate MemberAt(s: Bytes, v: Json, key: Text, i: nat, j: nat, c: nat)
    requires v.JObject? && key in v.fields
    decreases v, 0, 0, 0
  {
    && i <= j <= c < |s| && Blank(s[..i]) && Quoted(s[i..j], key) && Blank(s[j..c]) && s[c] == ':' as int
    && Spaced(s[c + 1..], v.fields[key])
  }

  // ----------------------------------------------------- the canonical texts

  /** A unit with lower-case digits. */
  ghost predicate LowerUnitIs(s: Bytes, u: int) {
    UnitIs(s, u) && forall i :: 2 <= i < 6 ==> !('A' as int <= s[i] <= 'F' as int)
  }

  /** A two-character escape, of which the one for the slash is not used. */
  predicate ShortIs(s: Bytes, c: CodePoint) { EscapeIs(s, c) && s[1] != '/' as int }

  predicate HasShort(c: CodePoint) { exists letter :: letter in ESCAPES && letter != '/' && ESCAPES[letter] == c }

  /** The one form of a character: a short escape if there is one, itself if it is visible ASCII, or its code units. */
  ghost predicate PrintedChar(s: Bytes, c: CodePoint) {
    if HasShort(c) then ShortIs(s, c)
    else if 0x20 <= c < 0x7F then PlainIs(s, c)
    else if c < 0x1_0000 then LowerUnitIs(s, c)
    else PairIs(s, c) && exists high, low :: LowerUnitIs(s[..6], high) && LowerUnitIs(s[6..], low)
  }

  ghost predicate PrintedText(s: Bytes, t: Text)
    decreases |t|, 1
  {
    if t == [] then s == [] else exists n :: PrintedTextAt(s, t, n)
  }

  ghost predicate PrintedTextAt(s: Bytes, t: Text, n: nat)
    requires t != []
    decreases |t|, 0
  {
    0 < n <= |s| && PrintedChar(s[..n], t[0]) && PrintedText(s[n..], t[1..])
  }

  ghost predicate PrintedString(s: Bytes, t: Text) {
    |s| >= 2 && Starts(s, '"') && s[|s| - 1] == '"' as int && PrintedText(s[1..|s| - 1], t)
  }

  /** Code point by code point, a beginning first. */
  ghost predicate InOrder(a: Text, b: Text) {
    exists i :: 0 <= i <= |a| && i <= |b| && a[..i] == b[..i] && (i == |a| || (i < |b| && a[i] < b[i]))
  }

  /** The names in their order, each once. */
  ghost predicate Arranged(names: seq<Text>, keys: set<Text>) {
    && (forall key :: key in names <==> key in keys)
    && forall i, j :: 0 <= i < j < |names| ==> names[i] != names[j] && InOrder(names[i], names[j])
  }

  /** The one text that is printed for v: no white space, names in order. */
  ghost predicate Printed(s: Bytes, v: Json)
    decreases v, 2, 0, 0
  {
    match v
    case JNull => Is(s, "null")
    case JBool(b) => Is(s, if b then "true" else "false")
    case JInt(n) => IntegerIs(s, n) && !Is(s, "-0")
    case JFloat(lexeme) => s == lexeme
    case JString(t) => PrintedString(s, t)
    case JList(items) =>
      if items == [] then Is(s, "[]") else
        |s| >= 2 && Starts(s, '[') && s[|s| - 1] == ']' as int && PrintedItems(s[1..|s| - 1], items)
    case JObject(fields) =>
      if fields == map[] then Is(s, "{}") else exists names :: PrintedObject(s, v, names)
  }

  ghost predicate PrintedItems(s: Bytes, items: seq<Json>)
    requires items != []
    decreases items, 1, 0, 0
  {
    if |items| == 1 then Printed(s, items[0]) else exists n :: PrintedItemsAt(s, items, n)
  }

  ghost predicate PrintedItemsAt(s: Bytes, items: seq<Json>, n: nat)
    requires |items| > 1
    decreases items, 0, 0, 0
  {
    n < |s| && s[n] == ',' as int && Printed(s[..n], items[0]) && PrintedItems(s[n + 1..], items[1..])
  }

  ghost predicate PrintedObject(s: Bytes, v: Json, names: seq<Text>)
    requires v.JObject? && v.fields != map[]
    decreases v, 1, 0, 0
  {
    && |s| >= 2 && Starts(s, '{') && s[|s| - 1] == '}' as int
    && names != [] && Arranged(names, v.fields.Keys) && PrintedMembers(s[1..|s| - 1], v, names)
  }

  ghost predicate PrintedMembers(s: Bytes, v: Json, names: seq<Text>)
    requires v.JObject? && names != [] && forall key :: key in names ==> key in v.fields
    decreases v, 0, |names|, 1
  {
    if |names| == 1 then PrintedMember(s, v, names[0]) else exists n :: PrintedMembersAt(s, v, names, n)
  }

  ghost predicate PrintedMembersAt(s: Bytes, v: Json, names: seq<Text>, n: nat)
    requires v.JObject? && |names| > 1 && forall key :: key in names ==> key in v.fields
    decreases v, 0, |names|, 0
  {
    n < |s| && s[n] == ',' as int && PrintedMember(s[..n], v, names[0]) && PrintedMembers(s[n + 1..], v, names[1..])
  }

  ghost predicate PrintedMember(s: Bytes, v: Json, key: Text)
    requires v.JObject? && key in v.fields
    decreases v, 0, 0, 1
  {
    exists n :: PrintedMemberAt(s, v, key, n)
  }

  ghost predicate PrintedMemberAt(s: Bytes, v: Json, key: Text, n: nat)
    requires v.JObject? && key in v.fields
    decreases v, 0, 0, 0
  {
    n < |s| && s[n] == ':' as int && PrintedString(s[..n], key) && Printed(s[n + 1..], v.fields[key])
  }
}
