/** The parser accepts exactly the texts of the grammar, and returns what they denote. */

module JsonLanguage {
  import opened Outcomes
  import opened Text
  import opened Json
  import opened JsonProofs
  import opened JsonExact
  import opened JsonGrammar
  import opened JsonReads
  import opened JsonNumbers

  // ------------------------------------------------------------- white space

  /** What may stand behind a value and its white space. */
  predicate Closed(k: Bytes) { k == [] || k[0] == 44 || k[0] == 93 || k[0] == 125 }

  lemma {:induction false} SkipBlank(w: Bytes, k: Bytes)
    requires Blank(w) && (k == [] || !Space(k[0]))
    ensures SkipSpace(w + k) == k
    decreases |w|
  {
    if w == [] {
      assert w + k == k;
    } else {
      assert (w + k)[0] == w[0] && (w + k)[1..] == w[1..] + k;
      SkipBlank(w[1..], k);
    }
  }

  lemma {:induction false} SkipSound(s: Bytes) returns (w: Bytes)
    ensures Blank(w) && s == w + SkipSpace(s)
    decreases |s|
  {
    if s != [] && Space(s[0]) {
      var rest := SkipSound(s[1..]);
      w := [s[0]] + rest;
    } else {
      w := [];
    }
  }

  lemma BlankBefore(w: Bytes, k: Bytes)
    requires Blank(w) && Closed(k)
    ensures Delimited(w + k) && SkipSpace(w + k) == k
  {
    SkipBlank(w, k);
    if w == [] { assert w + k == k; }
  }

  /** The parts of a value with white space. */
  lemma SpacedParts(s: Bytes, v: Json) returns (w: Bytes, p: Bytes, x: Bytes)
    requires Spaced(s, v)
    ensures s == w + (p + x) && Blank(w) && Blank(x) && Value(p, v)
  {
    var i: nat, j: nat :| SpacedAt(s, v, i, j);
    w, p, x := s[..i], s[i..j], s[j..];
  }

  lemma IsSpaced(w: Bytes, p: Bytes, x: Bytes, v: Json)
    requires Blank(w) && Blank(x) && Value(p, v)
    ensures Spaced(w + (p + x), v)
  {
    var s := w + (p + x);
    var i, j := |w|, |w| + |p|;
    assert s[..i] == w && s[i..j] == p && s[j..] == x;
    assert SpacedAt(s, v, i, j);
  }

  // ---------------------------------------------------- the parser is complete

  lemma IntegerHead(p: Bytes, n: int)
    requires IntegerIs(p, n)
    ensures p != [] && (p[0] == 45 || IsDigit(p[0]))
  {
  }

  lemma FloatHead(p: Bytes)
    requires FloatText(p)
    ensures p != [] && (p[0] == 45 || IsDigit(p[0]))
  {
    var a, f, e, n := FloatPieces(p);
    IntegerHead(a, n);
  }

  /** How a value can begin. */
  lemma ValueHead(p: Bytes, v: Json)
    requires Value(p, v)
    ensures p != [] && !Space(p[0]) && p[0] != 93 && p[0] != 125
  {
    match v
    case JInt(n) => IntegerHead(p, n);
    case JFloat(_) => if FloatText(p) { FloatHead(p); }
    case _ =>
  }

  lemma {:induction false} ScalarComplete(p: Bytes, v: Json, k: Bytes)
    requires Value(p, v) && !v.JList? && !v.JObject? && !v.JString? && Delimited(k)
    ensures ParseValue(p + k) == Some(Parsed(v, k))
  {
    match v
    case JNull => LiteralComplete(p, v, k);
    case JBool(_) => LiteralComplete(p, v, k);
    case JInt(n) =>
      IntReads(p, n, k);
      IntReads(p, n, []);
      assert p + [] == p;
      NumberIsNoConstant(p, k);
    case JFloat(_) =>
      if FloatText(p) { FloatReads(p); } else { ConstantIs(p); }
      FloatRoundTrip(p, k);
  }

  lemma LiteralComplete(p: Bytes, v: Json, k: Bytes)
    requires Value(p, v) && (v.JNull? || v.JBool?)
    ensures ParseValue(p + k) == Some(Parsed(v, k))
  {
    assert (p + k)[..|p|] == p && (p + k)[|p|..] == k;
    match v
    case JNull => assert p == [110, 117, 108, 108];
    case JBool(b) => assert p == if b then [116, 114, 117, 101] else [102, 97, 108, 115, 101];
  }

  lemma ConstantIs(p: Bytes)
    requires Is(p, "NaN") || Is(p, "Infinity") || Is(p, "-Infinity")
    ensures p in CONSTANTS
  {
    assert p == [78, 97, 78] || p == [73, 110, 102, 105, 110, 105, 116, 121]
        || p == [45, 73, 110, 102, 105, 110, 105, 116, 121];
  }

  lemma {:induction false} StringComplete(p: Bytes, t: Text, k: Bytes)
    requires Quoted(p, t)
    ensures ParseValue(p + k) == Some(Parsed(JString(t), k))
  {
    QuotedReads(p, t, k);
    assert (p + k)[0] == p[0];
  }

  lemma {:induction false} ValueComplete(p: Bytes, v: Json, k: Bytes)
    requires Value(p, v) && Delimited(k)
    ensures ParseValue(p + k) == Some(Parsed(v, k))
    decreases v, 2, 0
  {
    match v
    case JString(t) => StringComplete(p, t, k);
    case JList(items) =>
      var inner := p[1..|p| - 1];
      Bracketed(p, 91, 93, k);
      if items == [] { SkipBlank(inner, [93] + k); EmptyList(p + k, inner, k); }
      else { ElementsComplete(inner, items, k); FullList(p + k, inner, items, k); }
    case JObject(fields) =>
      var inner := p[1..|p| - 1];
      Bracketed(p, 123, 125, k);
      if fields == map[] { SkipBlank(inner, [125] + k); EmptyObject(p + k, inner, k); }
      else { MembersComplete(inner, v, fields.Keys, k); FullObject(p + k, inner, v, k); }
    case _ => ScalarComplete(p, v, k);
  }

  lemma Bracketed(p: Bytes, open: Byte, close: Byte, k: Bytes)
    requires |p| >= 2 && p[0] == open && p[|p| - 1] == close
    ensures (p + k)[0] == open && (p + k)[1..] == p[1..|p| - 1] + ([close] + k)
  {
  }

  lemma EmptyList(s: Bytes, inner: Bytes, k: Bytes)
    requires s != [] && s[0] == 91 && s[1..] == inner + ([93] + k) && SkipSpace(inner + ([93] + k)) == [93] + k
    ensures ParseValue(s) == Some(Parsed(JList([]), k))
  {
    assert ([93] + k)[1..] == k;
  }

  lemma FullList(s: Bytes, inner: Bytes, items: seq<Json>, k: Bytes)
    requires s != [] && s[0] == 91 && s[1..] == inner + ([93] + k)
    requires var body := SkipSpace(inner + ([93] + k));
             body != [] && body[0] != 93 && ParseItems(body) == Some(Parsed(items, k))
    ensures ParseValue(s) == Some(Parsed(JList(items), k))
  {
  }

  lemma EmptyObject(s: Bytes, inner: Bytes, k: Bytes)
    requires s != [] && s[0] == 123 && s[1..] == inner + ([125] + k) && SkipSpace(inner + ([125] + k)) == [125] + k
    ensures ParseValue(s) == Some(Parsed(JObject(map[]), k))
  {
    assert ([125] + k)[1..] == k;
  }

  lemma FullObject(s: Bytes, inner: Bytes, v: Json, k: Bytes)
    requires v.JObject? && s != [] && s[0] == 123 && s[1..] == inner + ([125] + k)
    requires var body := SkipSpace(inner + ([125] + k));
             body != [] && body[0] != 125 && ParseMembers(body) == Some(Parsed(Under(v, v.fields.Keys), k))
    ensures ParseValue(s) == Some(Parsed(v, k))
  {
    assert Under(v, v.fields.Keys) == v.fields;
  }

  /** The fields of v under these keys. */
  function Under(v: Json, keys: set<Text>): map<Text, Json>
    requires v.JObject? && keys <= v.fields.Keys
  {
    map key | key in keys :: v.fields[key]
  }

  /** A value with white space is read, and so is the white space behind it. */
  lemma {:induction false} SpacedComplete(s: Bytes, v: Json, k: Bytes)
    requires Spaced(s, v) && Closed(k)
    ensures var body := SkipSpace(s + k);
            && body != [] && body[0] != 93 && body[0] != 125
            && ParseValue(body).Some? && ParseValue(body).value.value == v && SkipSpace(ParseValue(body).value.rest) == k
    decreases v, 3, 0
  {
    var w, p, x := SpacedParts(s, v);
    ValueHead(p, v);
    BlankBefore(x, k);
    ValueComplete(p, v, x + k);
    Unspaced(s, w, p, x, k);
  }

  lemma Unspaced(s: Bytes, w: Bytes, p: Bytes, x: Bytes, k: Bytes)
    requires s == w + (p + x) && Blank(w) && p != [] && !Space(p[0])
    ensures SkipSpace(s + k) == p + (x + k) && (p + (x + k))[0] == p[0]
  {
    assert s + k == w + (p + (x + k));
    assert (p + (x + k))[0] == p[0];
    SkipBlank(w, p + (x + k));
  }

  lemma {:induction false} ElementsComplete(s: Bytes, items: seq<Json>, k: Bytes)
    requires items != [] && Elements(s, items)
    ensures var body := SkipSpace(s + ([93] + k));
            body != [] && body[0] != 93 && ParseItems(body) == Some(Parsed(items, k))
    decreases items, 1, 0
  {
    if |items| == 1 {
      SpacedComplete(s, items[0], [93] + k);
      LastRead(SkipSpace(s + ([93] + k)), items[0], k);
      assert items == [items[0]];
    } else {
      var x, y := ElementsParts(s, items);
      SpacedComplete(x, items[0], [44] + (y + ([93] + k)));
      ElementsComplete(y, items[1..], k);
      Regrouped(x, y, [93] + k);
      NextRead(SkipSpace(s + ([93] + k)), items[0], y + ([93] + k), items[1..], k);
      assert items == [items[0]] + items[1..];
    }
  }

  lemma Regrouped(x: Bytes, y: Bytes, k: Bytes)
    ensures x + ([44] + y) + k == x + ([44] + (y + k))
  {
  }

  lemma ElementsParts(s: Bytes, items: seq<Json>) returns (x: Bytes, y: Bytes)
    requires |items| > 1 && Elements(s, items)
    ensures s == x + ([44] + y) && Spaced(x, items[0]) && Elements(y, items[1..])
  {
    var n: nat :| ElementsAt(s, items, n);
    x, y := s[..n], s[n + 1..];
  }

  lemma LastRead(s: Bytes, first: Json, k: Bytes)
    requires ParseValue(s).Some? && ParseValue(s).value.value == first && SkipSpace(ParseValue(s).value.rest) == [93] + k
    ensures ParseItems(s) == Some(Parsed([first], k))
  {
    assert ([93] + k)[1..] == k;
  }

  lemma NextRead(s: Bytes, first: Json, more: Bytes, items: seq<Json>, k: Bytes)
    requires ParseValue(s).Some? && ParseValue(s).value.value == first
    requires SkipSpace(ParseValue(s).value.rest) == [44] + more
    requires ParseItems(SkipSpace(more)) == Some(Parsed(items, k))
    ensures ParseItems(s) == Some(Parsed([first] + items, k))
  {
    assert ([44] + more)[1..] == more;
  }

  lemma {:induction false} MembersComplete(s: Bytes, v: Json, keys: set<Text>, k: Bytes)
    requires v.JObject? && keys != {} && keys <= v.fields.Keys && Members(s, v, keys)
    ensures var body := SkipSpace(s + ([125] + k));
            body != [] && body[0] != 125 && ParseMembers(body) == Some(Parsed(Under(v, keys), k))
    decreases v, 1, |keys|
  {
    var key, x, y := MembersParts(s, v, keys);
    if keys == {key} {
      MemberComplete(s, v, key, [125] + k);
      LastMemberRead(SkipSpace(s + ([125] + k)), key, v.fields[key], k);
      UnderFirst(v, keys, key);
    } else {
      MemberComplete(x, v, key, [44] + (y + ([125] + k)));
      MembersComplete(y, v, keys - {key}, k);
      Regrouped(x, y, [125] + k);
      NextMemberRead(SkipSpace(s + ([125] + k)), key, v.fields[key], y + ([125] + k), Under(v, keys - {key}), k);
      UnderFirst(v, keys, key);
    }
  }

  lemma UnderFirst(v: Json, keys: set<Text>, key: Text)
    requires v.JObject? && key in keys && keys <= v.fields.Keys
    ensures Under(v, keys) == Under(v, keys - {key})[key := v.fields[key]]
    ensures keys == {key} ==> Under(v, keys) == map[key := v.fields[key]]
  {
  }

  lemma MembersParts(s: Bytes, v: Json, keys: set<Text>) returns (key: Text, x: Bytes, y: Bytes)
    requires v.JObject? && keys != {} && keys <= v.fields.Keys && Members(s, v, keys)
    ensures key in keys && (keys == {key} ==> Member(s, v, key))
    ensures keys != {key} ==>
              keys - {key} != {} && s == x + ([44] + y) && Member(x, v, key) && Members(y, v, keys - {key})
  {
    key :| key in keys && if keys == {key} then Member(s, v, key) else exists n :: MembersAt(s, v, keys, key, n);
    x, y := [], [];
    if keys != {key} {
      var n: nat :| MembersAt(s, v, keys, key, n);
      x, y := s[..n], s[n + 1..];
    }
  }

  lemma LastMemberRead(s: Bytes, key: Text, value: Json, k: Bytes)
    requires ParseMember(s).Some? && ParseMember(s).value.value == (key, value)
    requires SkipSpace(ParseMember(s).value.rest) == [125] + k
    ensures ParseMembers(s) == Some(Parsed(map[key := value], k))
  {
    assert ([125] + k)[1..] == k;
  }

  lemma NextMemberRead(s: Bytes, key: Text, value: Json, more: Bytes, fields: map<Text, Json>, k: Bytes)
    requires ParseMember(s).Some? && ParseMember(s).value.value == (key, value) && key !in fields
    requires SkipSpace(ParseMember(s).value.rest) == [44] + more
    requires ParseMembers(SkipSpace(more)) == Some(Parsed(fields, k))
    ensures ParseMembers(s) == Some(Parsed(fields[key := value], k))
  {
    assert ([44] + more)[1..] == more;
  }

  /** The parts of a member: the white space, the name, and what is behind the colon. */
  lemma MemberParts(s: Bytes, v: Json, key: Text) returns (w: Bytes, q: Bytes, x: Bytes, e: Bytes)
    requires v.JObject? && key in v.fields && Member(s, v, key)
    ensures s == w + (q + (x + ([58] + e))) && Blank(w) && Quoted(q, key) && Blank(x) && Spaced(e, v.fields[key])
  {
    var i: nat, j: nat, c: nat :| MemberAt(s, v, key, i, j, c);
    Slices(s, i, j, c);
    w, q, x, e := s[..i], s[i..j], s[j..c], s[c + 1..];
  }

  lemma Slices(s: Bytes, i: nat, j: nat, c: nat)
    requires i <= j <= c < |s|
    ensures s == s[..i] + (s[i..j] + (s[j..c] + ([s[c]] + s[c + 1..])))
  {
    assert s[c..] == [s[c]] + s[c + 1..] && s[j..] == s[j..c] + s[c..] && s[i..] == s[i..j] + s[j..];
  }

  lemma {:induction false} MemberComplete(s: Bytes, v: Json, key: Text, k: Bytes)
    requires v.JObject? && key in v.fields && Member(s, v, key) && Closed(k)
    ensures var body := SkipSpace(s + k);
            && body != [] && body[0] == 34
            && ParseMember(body).Some? && ParseMember(body).value.value == (key, v.fields[key])
            && SkipSpace(ParseMember(body).value.rest) == k
    decreases v, 0, 0
  {
    var w, q, x, e := MemberParts(s, v, key);
    var tail := x + ([58] + (e + k));
    QuotedReads(q, key, tail);
    SkipBlank(x, [58] + (e + k));
    SpacedComplete(e, v.fields[key], k);
    KeyRead(q + tail, key, tail, e + k);
    Untitled(s, w, q, x, e, k);
  }

  lemma Untitled(s: Bytes, w: Bytes, q: Bytes, x: Bytes, e: Bytes, k: Bytes)
    requires s == w + (q + (x + ([58] + e))) && Blank(w) && q != [] && q[0] == 34
    ensures SkipSpace(s + k) == q + (x + ([58] + (e + k))) && (q + (x + ([58] + (e + k))))[0] == 34
  {
    assert s + k == w + (q + (x + ([58] + (e + k))));
    SkipBlank(w, q + (x + ([58] + (e + k))));
  }

  lemma KeyRead(s: Bytes, key: Text, tail: Bytes, more: Bytes)
    requires s != [] && s[0] == 34 && ParseChars(s[1..]) == Some(Parsed(key, tail)) && SkipSpace(tail) == [58] + more
    ensures ParseKey(s) == Some(Parsed(key, SkipSpace(more)))
  {
    assert ([58] + more)[1..] == more;
  }

  // ------------------------------------------------------ the parser is sound

  /** More white space in front. */
  lemma SpacedAfter(w: Bytes, s: Bytes, v: Json)
    requires Blank(w) && Spaced(s, v)
    ensures Spaced(w + s, v)
  {
    var u, p, x := SpacedParts(s, v);
    IsSpaced(w + u, p, x, v);
    assert (w + u) + (p + x) == w + s;
  }

  lemma ElementsFrom(x: Bytes, y: Bytes, items: seq<Json>)
    requires |items| > 1 && Spaced(x, items[0]) && Elements(y, items[1..])
    ensures Elements(x + ([44] + y), items)
  {
    var s := x + ([44] + y);
    assert s[..|x|] == x && s[|x| + 1..] == y;
    assert ElementsAt(s, items, |x|);
  }

  lemma ElementsAfter(w: Bytes, s: Bytes, items: seq<Json>)
    requires items != [] && Blank(w) && Elements(s, items)
    ensures Elements(w + s, items)
  {
    if |items| == 1 {
      SpacedAfter(w, s, items[0]);
    } else {
      var x, y := ElementsParts(s, items);
      SpacedAfter(w, x, items[0]);
      ElementsFrom(w + x, y, items);
      assert (w + x) + ([44] + y) == w + s;
    }
  }

  lemma MemberFrom(w: Bytes, q: Bytes, x: Bytes, e: Bytes, v: Json, key: Text)
    requires v.JObject? && key in v.fields && Blank(w) && Quoted(q, key) && Blank(x) && Spaced(e, v.fields[key])
    ensures Member(w + (q + (x + ([58] + e))), v, key)
  {
    var s := w + (q + (x + ([58] + e)));
    var i, j, c := |w|, |w| + |q|, |w| + |q| + |x|;
    Sliced(w, q, x, e);
    assert MemberAt(s, v, key, i, j, c);
  }

  lemma Sliced(w: Bytes, q: Bytes, x: Bytes, e: Bytes)
    ensures var s := w + (q + (x + ([58] + e)));
            var i, j, c := |w|, |w| + |q|, |w| + |q| + |x|;
            s[..i] == w && s[i..j] == q && s[j..c] == x && s[c] == 58 && s[c + 1..] == e
  {
    var s := w + (q + (x + ([58] + e)));
    assert s[|w|..] == q + (x + ([58] + e));
    assert s[|w| + |q|..] == x + ([58] + e);
    assert s[|w| + |q| + |x|..] == [58] + e;
  }

  lemma MemberAfter(w: Bytes, s: Bytes, v: Json, key: Text)
    requires v.JObject? && key in v.fields && Blank(w) && Member(s, v, key)
    ensures Member(w + s, v, key)
  {
    var u, q, x, e := MemberParts(s, v, key);
    MemberFrom(w + u, q, x, e, v, key);
    InFront(w, u, q + (x + ([58] + e)));
  }

  lemma InFront(w: Bytes, u: Bytes, r: Bytes)
    ensures (w + u) + r == w + (u + r)
  {
  }

  /** White space may also stand behind a member. */
  lemma MemberBefore(s: Bytes, y: Bytes, v: Json, key: Text)
    requires v.JObject? && key in v.fields && Blank(y) && Member(s, v, key)
    ensures Member(s + y, v, key)
  {
    var w, q, x, e := MemberParts(s, v, key);
    SpacedBefore(e, y, v.fields[key]);
    MemberFrom(w, q, x, e + y, v, key);
    AtTheEnd(w, q, x, e, y);
  }

  lemma AtTheEnd(w: Bytes, q: Bytes, x: Bytes, e: Bytes, y: Bytes)
    ensures (w + (q + (x + ([58] + e)))) + y == w + (q + (x + ([58] + (e + y))))
  {
  }

  lemma SpacedBefore(s: Bytes, x: Bytes, v: Json)
    requires Blank(x) && Spaced(s, v)
    ensures Spaced(s + x, v)
  {
    var w, p, y := SpacedParts(s, v);
    IsSpaced(w, p, y + x, v);
    assert w + (p + (y + x)) == s + x;
  }

  lemma MembersFrom(x: Bytes, y: Bytes, v: Json, key: Text, keys: set<Text>)
    requires v.JObject? && key in keys && keys != {key} && keys <= v.fields.Keys && keys - {key} != {}
    requires Member(x, v, key) && Members(y, v, keys - {key})
    ensures Members(x + ([44] + y), v, keys)
  {
    var s := x + ([44] + y);
    assert s[..|x|] == x && s[|x| + 1..] == y;
    assert MembersAt(s, v, keys, key, |x|);
  }

  lemma MembersAfter(w: Bytes, s: Bytes, v: Json, keys: set<Text>)
    requires v.JObject? && keys != {} && keys <= v.fields.Keys && Blank(w) && Members(s, v, keys)
    ensures Members(w + s, v, keys)
  {
    var key, x, y := MembersParts(s, v, keys);
    if keys == {key} {
      MemberAfter(w, s, v, key);
    } else {
      MemberAfter(w, x, v, key);
      MembersFrom(w + x, y, v, key, keys);
      InFront(w, x, [44] + y);
    }
  }

  /** Members are judged by the fields under their own keys only. */
  lemma MemberAlike(s: Bytes, v: Json, u: Json, key: Text)
    requires v.JObject? && u.JObject? && key in v.fields && key in u.fields && v.fields[key] == u.fields[key]
    requires Member(s, v, key)
    ensures Member(s, u, key)
  {
    var i: nat, j: nat, c: nat :| MemberAt(s, v, key, i, j, c);
    assert MemberAt(s, u, key, i, j, c);
  }

  lemma {:induction false} MembersAlike(s: Bytes, v: Json, u: Json, keys: set<Text>)
    requires v.JObject? && u.JObject? && keys != {} && keys <= v.fields.Keys && keys <= u.fields.Keys
    requires (forall key :: key in keys ==> v.fields[key] == u.fields[key]) && Members(s, v, keys)
    ensures Members(s, u, keys)
    decreases |keys|
  {
    var key, x, y := MembersParts(s, v, keys);
    if keys == {key} {
      MemberAlike(s, v, u, key);
    } else {
      MemberAlike(x, v, u, key);
      MembersAlike(y, v, u, keys - {key});
      MembersFrom(x, y, u, key, keys);
    }
  }

  lemma ConstantSound(s: Bytes) returns (p: Bytes)
    requires ParseConstant(s).Some?
    ensures s == p + ParseConstant(s).value.rest && Value(p, ParseConstant(s).value.value)
  {
    p := ConstantRead(s);
    ConstantValue(p, ParseConstant(s).value.value);
    ReadConstant(s, p);
  }

  /** The constants, letter by letter. */
  predicate IsConstant(p: Bytes, v: Json) {
    match v
    case JNull => p == [110, 117, 108, 108]
    case JBool(b) => p == if b then [116, 114, 117, 101] else [102, 97, 108, 115, 101]
    case JFloat(lexeme) => p == lexeme && p in CONSTANTS
    case _ => false
  }

  lemma ConstantValue(p: Bytes, v: Json)
    requires IsConstant(p, v)
    ensures Value(p, v)
  {
  }

  lemma ConstantRead(s: Bytes) returns (p: Bytes)
    requires ParseConstant(s).Some?
    ensures p <= s && IsConstant(p, ParseConstant(s).value.value) && ParseConstant(s).value.rest == s[|p|..]
  {
    p := if [110, 117, 108, 108] <= s then [110, 117, 108, 108]
         else if [116, 114, 117, 101] <= s then [116, 114, 117, 101]
         else if [102, 97, 108, 115, 101] <= s then [102, 97, 108, 115, 101]
         else if [78, 97, 78] <= s then [78, 97, 78]
         else if [73, 110, 102, 105, 110, 105, 116, 121] <= s then [73, 110, 102, 105, 110, 105, 116, 121]
         else [45, 73, 110, 102, 105, 110, 105, 116, 121];
    ReadConstant(s, p);
  }

  lemma ReadConstant(s: Bytes, p: Bytes)
    requires p <= s
    ensures s == p + s[|p|..] && s[..|p|] == p
  {
  }

  lemma {:induction false} ScalarSound(s: Bytes) returns (p: Bytes)
    requires ParseValue(s).Some? && s[0] != 91 && s[0] != 123
    ensures s == p + ParseValue(s).value.rest && Value(p, ParseValue(s).value.value)
  {
    if s[0] == 34 {
      p := QuotedSound(s);
    } else if ParseConstant(s).Some? {
      p := ConstantSound(s);
    } else if ParseNumber(s).value.value.JInt? {
      p := IntSound(s);
    } else {
      var b, k := ParseNumber(s).value.value.lexeme, ParseNumber(s).value.rest;
      NumberRest(s);
      SplitAtSuffix(k, s);
      ParsedNumberAlone(s, b, k);
      FloatSound(b);
      p := b;
    }
  }

  lemma ParsedNumberAlone(s: Bytes, b: Bytes, k: Bytes)
    requires ParseNumber(s) == Some(Parsed(JFloat(b), k)) && s == b + k
    ensures ParseNumber(b) == Some(Parsed(JFloat(b), []))
  {
    NumberRest(s);
    UnsignedBefore(b, k);
    DigitFirst(Unsigned(b), k);
    FloatNumberBefore(b, k);
  }

  lemma Ended(s: Bytes, p: Bytes, r: Bytes, x: Bytes, after: Bytes)
    requires s == p + r && r == x + after && after != []
    ensures s == (p + x) + ([after[0]] + after[1..])
  {
    assert after == [after[0]] + after[1..];
  }

  lemma Continued(s: Bytes, p: Bytes, r: Bytes, x: Bytes, after: Bytes, w: Bytes, u: Bytes, more: Bytes, tail: Bytes)
    requires s == p + r && r == x + after && after != [] && after[0] == 44 && after[1..] == w + u && u == more + tail
    ensures s == ((p + x) + ([44] + (w + more))) + tail
  {
    assert after == [44] + (w + (more + tail));
  }

  lemma {:induction false} ValueSound(s: Bytes) returns (p: Bytes)
    requires ParseValue(s).Some?
    ensures s == p + ParseValue(s).value.rest && Value(p, ParseValue(s).value.value)
    decreases |s|, 4
  {
    if s[0] == 91 {
      p := ListSound(s);
    } else if s[0] == 123 {
      p := ObjectSound(s);
    } else {
      p := ScalarSound(s);
    }
  }

  lemma {:induction false} ListSound(s: Bytes) returns (p: Bytes)
    requires ParseValue(s).Some? && s[0] == 91
    ensures s == p + ParseValue(s).value.rest && Value(p, ParseValue(s).value.value)
    decreases |s|, 3
  {
    var w := SkipSound(s[1..]);
    var body := SkipSpace(s[1..]);
    if body[0] == 93 {
      p := EmptyFrom(91, w, 93, JList([]));
      Opened(s, w, body, [], body[1..], 93);
    } else {
      var e := ItemsSound(body);
      p := ListFrom(w, e, ParseItems(body).value.value);
      Opened(s, w, body, e, ParseItems(body).value.rest, 93);
    }
  }

  lemma {:induction false} ObjectSound(s: Bytes) returns (p: Bytes)
    requires ParseValue(s).Some? && s[0] == 123
    ensures s == p + ParseValue(s).value.rest && Value(p, ParseValue(s).value.value)
    decreases |s|, 3
  {
    var w := SkipSound(s[1..]);
    var body := SkipSpace(s[1..]);
    if body[0] == 125 {
      p := EmptyFrom(123, w, 125, JObject(map[]));
      Opened(s, w, body, [], body[1..], 125);
    } else {
      var e := MembersSound(body);
      p := ObjectFrom(w, e, ParseMembers(body).value.value);
      Opened(s, w, body, e, ParseMembers(body).value.rest, 125);
    }
  }

  lemma EmptyFrom(open: Byte, w: Bytes, close: Byte, v: Json) returns (p: Bytes)
    requires Blank(w) && ((open == 91 && close == 93 && v == JList([])) || (open == 123 && close == 125 && v == JObject(map[])))
    ensures p == [open] + (w + ([] + [close])) && Value(p, v)
  {
    p := [open] + (w + ([] + [close]));
    assert p[1..|p| - 1] == w;
  }

  lemma Opened(s: Bytes, w: Bytes, body: Bytes, e: Bytes, rest: Bytes, close: Byte)
    requires s != [] && s[1..] == w + body && body == e + ([close] + rest)
    ensures s == ([s[0]] + (w + (e + [close]))) + rest
  {
    assert s == [s[0]] + s[1..];
  }

  lemma ListFrom(w: Bytes, e: Bytes, items: seq<Json>) returns (p: Bytes)
    requires items != [] && Blank(w) && Elements(e, items)
    ensures p == [91] + (w + (e + [93])) && Value(p, JList(items))
  {
    ElementsAfter(w, e, items);
    p := [91] + (w + (e + [93]));
    assert p[1..|p| - 1] == w + e;
  }

  lemma ObjectFrom(w: Bytes, e: Bytes, fields: map<Text, Json>) returns (p: Bytes)
    requires fields != map[] && Blank(w) && Members(e, JObject(fields), fields.Keys)
    ensures p == [123] + (w + (e + [125])) && Value(p, JObject(fields))
  {
    MembersAfter(w, e, JObject(fields), fields.Keys);
    p := [123] + (w + (e + [125]));
    assert p[1..|p| - 1] == w + e;
  }

  lemma {:induction false} ItemsSound(s: Bytes) returns (e: Bytes)
    requires ParseItems(s).Some?
    ensures s == e + ([93] + ParseItems(s).value.rest) && ParseItems(s).value.value != []
    ensures Elements(e, ParseItems(s).value.value)
    decreases |s|, 5
  {
    var first := ParseValue(s).value;
    var p := ValueSound(s);
    var x := SkipSound(first.rest);
    var after := SkipSpace(first.rest);
    IsSpaced([], p, x, first.value);
    assert [] + (p + x) == p + x;
    e := p + x;
    if after[0] == 44 {
      var u := SkipSpace(after[1..]);
      var w := SkipSound(after[1..]);
      var more := ItemsSound(u);
      e := MoreItems(p + x, first.value, w, more, ParseItems(u).value.value);
      Continued(s, p, first.rest, x, after, w, u, more, [93] + ParseItems(u).value.rest);
    } else {
      Ended(s, p, first.rest, x, after);
    }
  }

  lemma MoreItems(x: Bytes, first: Json, w: Bytes, more: Bytes, items: seq<Json>) returns (e: Bytes)
    requires items != [] && Spaced(x, first) && Blank(w) && Elements(more, items)
    ensures e == x + ([44] + (w + more)) && Elements(e, [first] + items)
  {
    ElementsAfter(w, more, items);
    e := x + ([44] + (w + more));
    assert ([first] + items)[1..] == items;
    ElementsFrom(x, w + more, [first] + items);
  }

  lemma {:induction false} MembersSound(s: Bytes) returns (e: Bytes)
    requires ParseMembers(s).Some?
    ensures var fields := ParseMembers(s).value.value;
            && s == e + ([125] + ParseMembers(s).value.rest) && fields != map[]
            && Members(e, JObject(fields), fields.Keys)
    decreases |s|, 6
  {
    var first := ParseMember(s).value;
    var (key, value) := first.value;
    var m := MemberSound(s);
    var x := SkipSound(first.rest);
    var after := SkipSpace(first.rest);
    MemberBefore(m, x, JObject(map[key := value]), key);
    e := m + x;
    if after[0] == 44 {
      var u := SkipSpace(after[1..]);
      var w := SkipSound(after[1..]);
      var more := MembersSound(u);
      e := MoreMembers(m + x, key, value, w, more, ParseMembers(u).value.value);
      Continued(s, m, first.rest, x, after, w, u, more, [125] + ParseMembers(u).value.rest);
    } else {
      Ended(s, m, first.rest, x, after);
    }
  }

  lemma MoreMembers(x: Bytes, key: Text, value: Json, w: Bytes, more: Bytes, fields: map<Text, Json>) returns (e: Bytes)
    requires Member(x, JObject(map[key := value]), key) && key !in fields && fields != map[]
    requires Blank(w) && Members(more, JObject(fields), fields.Keys)
    ensures e == x + ([44] + (w + more))
    ensures Members(e, JObject(fields[key := value]), fields[key := value].Keys)
  {
    var all := JObject(fields[key := value]);
    MemberAlike(x, JObject(map[key := value]), all, key);
    MembersAlike(more, JObject(fields), all, fields.Keys);
    MembersAfter(w, more, all, fields.Keys);
    assert all.fields.Keys - {key} == fields.Keys;
    MembersFrom(x, w + more, all, key, all.fields.Keys);
    e := x + ([44] + (w + more));
  }

  lemma {:induction false} MemberSound(s: Bytes) returns (m: Bytes)
    requires ParseMember(s).Some?
    ensures var (key, value) := ParseMember(s).value.value;
            s == m + ParseMember(s).value.rest && Member(m, JObject(map[key := value]), key)
    decreases |s|, 5
  {
    MemberRest(s);
    var key := ParseKey(s).value;
    var n := NameSound(s);
    var p := ValueSound(key.rest);
    m := NamedFrom(n, key.value, p, ParseValue(key.rest).value.value);
    Together(s, n, key.rest, p, ParseValue(key.rest).value.rest);
  }

  /** What a name and its colon are read from. */
  ghost predicate Named(n: Bytes, key: Text) {
    exists q, x, w :: NamedBy(n, key, q, x, w)
  }

  ghost predicate NamedBy(n: Bytes, key: Text, q: Bytes, x: Bytes, w: Bytes) {
    n == q + (x + ([58] + w)) && Quoted(q, key) && Blank(x) && Blank(w)
  }

  lemma NameSound(s: Bytes) returns (n: Bytes)
    requires ParseKey(s).Some?
    ensures s == n + ParseKey(s).value.rest && Named(n, ParseKey(s).value.value)
  {
    var chars := ParseChars(s[1..]).value;
    var q := QuotedSound(s);
    var x := SkipSound(chars.rest);
    var after := SkipSpace(chars.rest);
    var w := SkipSound(after[1..]);
    n := q + (x + ([58] + w));
    assert NamedBy(n, chars.value, q, x, w);
    Coloned(s, q, x, after, w, SkipSpace(after[1..]));
  }

  lemma Coloned(s: Bytes, q: Bytes, x: Bytes, after: Bytes, w: Bytes, rest: Bytes)
    requires s == q + (x + after) && after != [] && after[0] == 58 && after[1..] == w + rest
    ensures s == (q + (x + ([58] + w))) + rest
  {
    assert after == [58] + (w + rest);
  }

  lemma NamedFrom(n: Bytes, key: Text, p: Bytes, value: Json) returns (m: Bytes)
    requires Named(n, key) && Value(p, value)
    ensures m == n + p && Member(m, JObject(map[key := value]), key)
  {
    var q, x, w :| NamedBy(n, key, q, x, w);
    IsSpaced(w, p, [], value);
    assert w + (p + []) == w + p;
    MemberFrom([], q, x, w + p, JObject(map[key := value]), key);
    assert [] + (q + (x + ([58] + (w + p)))) == q + (x + ([58] + (w + p)));
    m := n + p;
    Attached(q, x, w, p);
  }

  lemma Attached(q: Bytes, x: Bytes, w: Bytes, p: Bytes)
    ensures q + (x + ([58] + w)) + p == q + (x + ([58] + (w + p)))
  {
  }

  lemma Together(s: Bytes, n: Bytes, r: Bytes, p: Bytes, rest: Bytes)
    requires s == n + r && r == p + rest
    ensures s == (n + p) + rest
  {
  }

  lemma MemberRest(s: Bytes)
    requires ParseMember(s).Some?
    ensures ParseKey(s).Some? && ParseValue(ParseKey(s).value.rest).Some?
    ensures var key, value := ParseKey(s).value, ParseValue(ParseKey(s).value.rest).value;
            ParseMember(s) == Some(Parsed((key.value, value.value), value.rest))
  {
  }

  // ------------------------------------------------------------- main result

  /** Data is parsed as a value exactly when the grammar says that it is that value. */
  lemma ParsesExactly(data: Bytes, v: Json)
    ensures Parse(data) == Some(v) <==> Spaced(data, v)
  {
    if Parse(data) == Some(v) {
      var w := SkipSound(data);
      var p := ValueSound(SkipSpace(data));
      var x := SkipSound(ParseValue(SkipSpace(data)).value.rest);
      IsSpaced(w, p, x, v);
      assert x + [] == x;
    }
    if Spaced(data, v) {
      SpacedComplete(data, v, []);
      assert data + [] == data;
    }
  }
}
