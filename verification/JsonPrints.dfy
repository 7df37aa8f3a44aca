/** What the printer prints: the canonical text of the grammar. */

module JsonPrints {
  import opened Text
  import opened Json
  import opened JsonProofs
  import opened JsonGrammar
  import opened JsonReads

  // -------------------------------------------------------------- characters

  lemma DigitPrints(d: int)
    requires 0 <= d < 16
    ensures HexIs(HexDigit(d), d) && !('A' as int <= HexDigit(d) <= 'F' as int)
  {
    HexRoundTrip(d);
    HexReads(HexDigit(d), d);
  }

  lemma UnitPrints(u: int, k: Bytes) returns (s: Bytes)
    requires 0 <= u < 0x1_0000
    ensures EmitUnit(u, k) == s + k && LowerUnitIs(s, u)
  {
    UnitDigits(u);
    DigitPrints(u / 4096);
    DigitPrints(u / 256 % 16);
    DigitPrints(u / 16 % 16);
    DigitPrints(u % 16);
    s := [92, 117, HexDigit(u / 4096), HexDigit(u / 256 % 16), HexDigit(u / 16 % 16), HexDigit(u % 16)];
  }

  lemma ShortPrints(c: CodePoint)
    ensures Named(c) != 0 <==> HasShort(c)
    ensures Named(c) != 0 ==> ShortIs([92, Named(c)], c)
  {
    if Named(c) != 0 {
      var letter := Named(c) as char;
      assert letter in ESCAPES && letter != '/' && ESCAPES[letter] == c;
      assert [92, Named(c)][1] == letter as int;
    }
  }

  lemma CharPrints(c: CodePoint, k: Bytes) returns (s: Bytes)
    ensures EmitChar(c, k) == s + k && s != [] && PrintedChar(s, c)
  {
    ShortPrints(c);
    if Named(c) != 0 {
      s := [92, Named(c)];
    } else if 32 <= c < 127 {
      s := [c];
    } else if c < 0x1_0000 {
      s := UnitPrints(c, k);
    } else {
      s := PairPrints(c, k);
    }
  }

  lemma PairPrints(c: CodePoint, k: Bytes) returns (s: Bytes)
    requires c >= 0x1_0000
    ensures EmitUnit(0xD800 + (c - 0x1_0000) / 1024, EmitUnit(0xDC00 + (c - 0x1_0000) % 1024, k)) == s + k
    ensures PairIs(s, c) && exists high, low :: LowerUnitIs(s[..6], high) && LowerUnitIs(s[6..], low)
  {
    HighHalf(c);
    s := HalvesPrint(0xD800 + (c - 0x1_0000) / 1024, 0xDC00 + (c - 0x1_0000) % 1024, k);
  }

  lemma HalvesPrint(high: int, low: int, k: Bytes) returns (s: Bytes)
    requires High(high) && Low(low)
    ensures EmitUnit(high, EmitUnit(low, k)) == s + k && PairIs(s, Combine(high, low))
    ensures exists h, l :: LowerUnitIs(s[..6], h) && LowerUnitIs(s[6..], l)
  {
    var q := UnitPrints(low, k);
    var p := UnitPrints(high, EmitUnit(low, k));
    JoinPieces(p, q, high, low);
    LowerHalves(p, q, high, low);
    s := p + q;
    Regrouped(p, q, k);
  }

  lemma Regrouped(p: Bytes, q: Bytes, k: Bytes)
    ensures p + (q + k) == (p + q) + k
  {
  }

  lemma LowerHalves(p: Bytes, q: Bytes, high: int, low: int)
    requires LowerUnitIs(p, high) && LowerUnitIs(q, low)
    ensures exists h, l :: LowerUnitIs((p + q)[..6], h) && LowerUnitIs((p + q)[6..], l)
  {
    assert (p + q)[..6] == p && (p + q)[6..] == q;
  }

  lemma TextMore(p: Bytes, c: CodePoint, s: Bytes, t: Text)
    requires p != [] && PrintedChar(p, c) && PrintedText(s, t)
    ensures PrintedText(p + s, [c] + t)
  {
    assert (p + s)[..|p|] == p && (p + s)[|p|..] == s && ([c] + t)[1..] == t;
    assert PrintedTextAt(p + s, [c] + t, |p|);
  }

  lemma {:induction false} TextPrints(t: Text, k: Bytes) returns (s: Bytes)
    ensures EmitChars(t, k) == s + k && PrintedText(s, t)
    decreases |t|
  {
    if t == [] {
      s := [];
    } else {
      var more := TextPrints(t[1..], k);
      var p := CharPrints(t[0], EmitChars(t[1..], k));
      TextMore(p, t[0], more, t[1..]);
      assert [t[0]] + t[1..] == t;
      s := p + more;
      Regrouped(p, more, k);
    }
  }

  lemma StringPrints(t: Text, k: Bytes) returns (s: Bytes)
    ensures EmitString(t, k) == s + k && PrintedString(s, t)
  {
    var body := TextPrints(t, [34] + k);
    s := [34] + body + [34];
    assert s[1..|s| - 1] == body;
  }

  // ----------------------------------------------------------------- numbers

  lemma {:induction false} NatPrints(n: nat, k: Bytes) returns (s: Bytes)
    ensures EmitNat(n, k) == s + k && AllDigits(s) && Decimal(s) == n && (s[0] == 48 <==> n == 0) && (n < 10 ==> |s| == 1)
    decreases n
  {
    if n < 10 {
      s := [48 + n];
      assert s[..0] == [];
    } else {
      var head := NatPrints(n / 10, [48 + n % 10] + k);
      s := head + [48 + n % 10];
      assert s[..|s| - 1] == head;
    }
  }

  lemma IntPrints(n: int, k: Bytes) returns (s: Bytes)
    ensures EmitInt(n, k) == s + k && IntegerIs(s, n) && !Is(s, "-0")
  {
    if n < 0 {
      var digits := NatPrints(-n, k);
      s := [45] + digits;
      assert s[1..] == digits;
    } else {
      s := NatPrints(n, k);
    }
  }

  // ----------------------------------------------------------------- order

  lemma {:induction false} LeqIsInOrder(a: Text, b: Text)
    ensures Leq(a, b) <==> InOrder(a, b)
    decreases |a|
  {
    if Leq(a, b) {
      var i := InOrderAt(a, b);
    }
    if i :| 0 <= i <= |a| && i <= |b| && a[..i] == b[..i] && (i == |a| || (i < |b| && a[i] < b[i])) {
      LeqFrom(a, b, i);
    }
  }

  lemma {:induction false} InOrderAt(a: Text, b: Text) returns (i: nat)
    requires Leq(a, b)
    ensures i <= |a| && i <= |b| && a[..i] == b[..i] && (i == |a| || (i < |b| && a[i] < b[i]))
    decreases |a|
  {
    if a == [] || a[0] < b[0] {
      i := 0;
    } else {
      var j := InOrderAt(a[1..], b[1..]);
      i := j + 1;
      assert a[..i] == [a[0]] + a[1..][..j] && b[..i] == [b[0]] + b[1..][..j];
    }
  }

  lemma {:induction false} LeqFrom(a: Text, b: Text, i: nat)
    requires i <= |a| && i <= |b| && a[..i] == b[..i] && (i == |a| || (i < |b| && a[i] < b[i]))
    ensures Leq(a, b)
    decreases i
  {
    if i > 0 {
      assert a[..i][0] == a[0] && b[..i][0] == b[0];
      assert a[1..][..i - 1] == a[..i][1..] && b[1..][..i - 1] == b[..i][1..];
      LeqFrom(a[1..], b[1..], i - 1);
    }
  }

  lemma SortedIsArranged(keys: set<Text>)
    ensures Arranged(Sorted(keys), keys)
  {
    var names := Sorted(keys);
    forall i, j | 0 <= i < j < |names| ensures names[i] != names[j] && InOrder(names[i], names[j]) {
      LeqIsInOrder(names[i], names[j]);
    }
  }

  // ----------------------------------------------------------------- values

  lemma {:induction false} ValuePrints(v: Json, k: Bytes) returns (s: Bytes)
    ensures Emit(v, k) == s + k && Printed(s, v)
    decreases v, 2, 0
  {
    match v
    case JNull => s := [110, 117, 108, 108];
    case JBool(b) => s := if b then [116, 114, 117, 101] else [102, 97, 108, 115, 101];
    case JInt(n) => s := IntPrints(n, k);
    case JFloat(lexeme) => s := lexeme;
    case JString(t) => s := StringPrints(t, k);
    case JList(items) => s := ListPrints(v, k);
    case JObject(fields) => s := ObjectPrints(v, k);
  }

  lemma {:induction false} ListPrints(v: Json, k: Bytes) returns (s: Bytes)
    requires v.JList?
    ensures Emit(v, k) == s + k && Printed(s, v)
    decreases v, 1, 1
  {
    if v.items == [] {
      s := [91, 93];
    } else {
      var e := ItemsPrint(v.items, [93] + k);
      s := Enclosed(91, e, 93);
      ItemsEmit(v.items, k);
      Around(91, e, 93, k);
    }
  }

  lemma {:induction false} ObjectPrints(v: Json, k: Bytes) returns (s: Bytes)
    requires v.JObject?
    ensures Emit(v, k) == s + k && Printed(s, v)
    decreases v, 1, |v.fields.Keys| + 1
  {
    var names := Sorted(v.fields.Keys);
    if names == [] {
      assert v.fields.Keys == {};
      s := [123, 125];
    } else {
      assert names[0] in v.fields;
      var e := MembersPrint(v, names, k);
      s := Enclosed(123, e, 125);
      SortedIsArranged(v.fields.Keys);
      assert PrintedObject(s, v, names);
      Around(123, e, 125, k);
    }
  }

  lemma Enclosed(open: Byte, e: Bytes, close: Byte) returns (s: Bytes)
    ensures s == [open] + e + [close] && s[1..|s| - 1] == e
  {
    s := [open] + e + [close];
  }

  lemma Around(open: Byte, e: Bytes, close: Byte, k: Bytes)
    ensures [open] + (e + ([close] + k)) == ([open] + e + [close]) + k
  {
  }

  /** The items between the brackets, in front of the closing one. */
  function EmitInner(items: seq<Json>, k: Bytes): Bytes
    requires items != []
    decreases items
  {
    if |items| == 1 then Emit(items[0], k) else Emit(items[0], [44] + EmitInner(items[1..], k))
  }

  lemma {:induction false} ItemsEmit(items: seq<Json>, k: Bytes)
    requires items != []
    ensures Emit(items[0], EmitItems(items[1..], k)) == EmitInner(items, [93] + k)
    decreases items
  {
    if |items| > 1 { ItemsEmit(items[1..], k); }
  }

  lemma {:induction false} ItemsPrint(items: seq<Json>, k: Bytes) returns (s: Bytes)
    requires items != []
    ensures EmitInner(items, k) == s + k && PrintedItems(s, items)
    decreases items, 1, 0
  {
    if |items| == 1 {
      s := ValuePrints(items[0], k);
    } else {
      var y := ItemsPrint(items[1..], k);
      var x := ValuePrints(items[0], [44] + (y + k));
      s := x + ([44] + y);
      Separated(x, 44, y, k);
      assert PrintedItemsAt(s, items, |x|);
    }
  }

  /** Two parts and the character between them. */
  lemma Separated(x: Bytes, c: Byte, y: Bytes, k: Bytes)
    ensures var s := x + ([c] + y);
            s[..|x|] == x && s[|x|] == c && s[|x| + 1..] == y && x + ([c] + (y + k)) == s + k
  {
  }

  lemma {:induction false} MembersPrint(v: Json, names: seq<Text>, k: Bytes) returns (s: Bytes)
    requires v.JObject? && names != [] && forall key :: key in names ==> key in v.fields
    ensures EmitMember(v, names, k) == s + ([125] + k) && PrintedMembers(s, v, names)
    decreases v, 1, |names|
  {
    if |names| == 1 {
      s := MemberPrints(v, names[0], [125] + k);
    } else {
      var y := MembersPrint(v, names[1..], k);
      var x := MemberPrints(v, names[0], [44] + (y + ([125] + k)));
      s := x + ([44] + y);
      Separated(x, 44, y, [125] + k);
      assert PrintedMembersAt(s, v, names, |x|);
    }
  }

  lemma {:induction false} MemberPrints(v: Json, key: Text, k: Bytes) returns (s: Bytes)
    requires v.JObject? && key in v.fields
    ensures EmitString(key, [58] + Emit(v.fields[key], k)) == s + k && PrintedMember(s, v, key)
    decreases v, 0, 0
  {
    var value := ValuePrints(v.fields[key], k);
    var name := StringPrints(key, [58] + (value + k));
    s := name + ([58] + value);
    Separated(name, 58, value, k);
    assert PrintedMemberAt(s, v, key, |name|);
  }

  // ------------------------------------------------------------- main result

  /** `canonical` gives the canonical text of the value. */
  lemma CanonicalIsPrinted(v: Json)
    ensures Printed(Canonical(v), v)
  {
    var s := ValuePrints(v, []);
    assert s + [] == s;
  }
}
