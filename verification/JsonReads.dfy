/** The parser accepts exactly the texts of the grammar, and reads them as what they denote. */

module JsonReads {
  import opened Outcomes
  import opened Text
  import opened Json
  import opened JsonProofs
  import opened JsonExact
  import opened JsonGrammar

  // -------------------------------------------------------------- characters

  lemma HexReads(b: Byte, d: int)
    ensures HexIs(b, d) <==> HexValue(b) == Some(d)
  {
  }

  lemma HexRead(b: Byte)
    ensures HexValue(b).Some? ==> HexIs(b, HexValue(b).value)
  {
    if HexValue(b).Some? { HexReads(b, HexValue(b).value); }
  }

  /** The unit that four digits stand for. */
  function UnitOf(p: Byte, q: Byte, r: Byte, s: Byte): Option<int> {
    match (HexValue(p), HexValue(q), HexValue(r), HexValue(s))
    case (Some(a), Some(b), Some(c), Some(d)) => Some(a * 4096 + b * 256 + c * 16 + d)
    case _ => None
  }

  lemma FourHexReads(p: Byte, q: Byte, r: Byte, s: Byte, u: int)
    ensures FourHex(p, q, r, s, u) <==> UnitOf(p, q, r, s) == Some(u)
  {
    if UnitOf(p, q, r, s) == Some(u) {
      HexRead(p);
      HexRead(q);
      HexRead(r);
      HexRead(s);
    }
    if a, b, c, d :| HexIs(p, a) && HexIs(q, b) && HexIs(r, c) && HexIs(s, d) && u == a * 4096 + b * 256 + c * 16 + d {
      HexReads(p, a);
      HexReads(q, b);
      HexReads(r, c);
      HexReads(s, d);
    }
  }

  lemma PeekIsUnit(s: Bytes)
    requires |s| >= 6
    ensures PeekUnit(s) == if s[0] == 92 && s[1] == 117 then UnitOf(s[2], s[3], s[4], s[5]) else None
  {
    var t := s[2..];
    assert t[0] == s[2] && t[1] == s[3] && t[2] == s[4] && t[3] == s[5];
  }

  /** A unit is read exactly where one is written. */
  lemma UnitReads(p: Bytes, k: Bytes, u: int)
    requires |p| == 6
    ensures PeekUnit(p + k) == Some(u) <==> UnitIs(p, u)
  {
    var s := p + k;
    assert forall i :: 0 <= i < 6 ==> s[i] == p[i];
    PeekIsUnit(s);
    FourHexReads(p[2], p[3], p[4], p[5], u);
  }

  lemma UnitRead(s: Bytes) returns (p: Bytes)
    requires PeekUnit(s).Some?
    ensures s == p + s[6..] && UnitIs(p, PeekUnit(s).value)
  {
    p := s[..6];
    assert s == p + s[6..];
    UnitReads(p, s[6..], PeekUnit(s).value);
  }

  lemma EscapeReads(letter: Byte, c: CodePoint)
    ensures Unnamed(letter) == Some(c) <==> EscapeIs([92, letter], c)
    ensures Unnamed(letter) == Some(c) ==> letter != 117
  {
    if Unnamed(letter) == Some(c) {
      var l: char := letter as char;
      assert l in ESCAPES && [92, letter][1] == l as int && ESCAPES[l] == c;
    }
  }

  /** What is read as a character spells it. */
  lemma CharSound(s: Bytes) returns (p: Bytes)
    requires ParseChar(s).Some?
    ensures p != [] && s == p + ParseChar(s).value.rest && Piece(p, ParseChar(s).value.value)
  {
    var c := ParseChar(s).value.value;
    if s[0] != 92 {
      p := [s[0]];
      assert PlainIs(p, c);
    } else if s[1] != 117 {
      EscapeReads(s[1], c);
      p := [92, s[1]];
    } else {
      p := UnitsSound(s);
    }
  }

  lemma {:induction false} UnitsSound(s: Bytes) returns (p: Bytes)
    requires ParseChar(s).Some? && |s| >= 2 && s[0] == 92 && s[1] == 117
    ensures p != [] && s == p + ParseChar(s).value.rest && Piece(p, ParseChar(s).value.value)
  {
    var u, next := PeekUnit(s).value, PeekUnit(s[6..]);
    p := UnitRead(s);
    if High(u) && next.Some? && Low(next.value) { p := PairSound(s); }
  }

  lemma PairSound(s: Bytes) returns (p: Bytes)
    requires PeekUnit(s).Some? && PeekUnit(s[6..]).Some?
    requires High(PeekUnit(s).value) && Low(PeekUnit(s[6..]).value)
    ensures |s| >= 12 && s == p + s[12..] && PairIs(p, Combine(PeekUnit(s).value, PeekUnit(s[6..]).value))
  {
    var a := UnitRead(s);
    var b := UnitRead(s[6..]);
    JoinPieces(a, b, PeekUnit(s).value, PeekUnit(s[6..]).value);
    p := a + b;
    assert s[6..][6..] == s[12..];
  }

  lemma JoinPieces(p: Bytes, q: Bytes, high: int, low: int)
    requires UnitIs(p, high) && UnitIs(q, low) && High(high) && Low(low)
    ensures PairIs(p + q, Combine(high, low))
  {
    assert (p + q)[..6] == p && (p + q)[6..] == q;
    assert PairOf(p + q, Combine(high, low), high, low);
  }

  /** A character that is spelled is read, unless it is the first half of a pair. */
  lemma CharComplete(p: Bytes, c: CodePoint, k: Bytes)
    requires Piece(p, c)
    requires High(c) && PeekUnit(k).Some? ==> !Low(PeekUnit(k).value)
    ensures ParseChar(p + k) == Some(Parsed(c, k)) && p != [] && p[0] != 34
  {
    if PlainIs(p, c) {
      assert (p + k)[1..] == k;
    } else if EscapeIs(p, c) {
      assert p == [92, p[1]] && (p + k)[2..] == k;
      EscapeReads(p[1], c);
    } else if UnitIs(p, c) {
      assert (p + k)[6..] == k;
      UnitReads(p, k, c);
    } else {
      PairComplete(p, c, k);
    }
  }

  lemma PairComplete(p: Bytes, c: CodePoint, k: Bytes)
    requires PairIs(p, c)
    ensures ParseChar(p + k) == Some(Parsed(c, k)) && p != [] && p[0] != 34
  {
    var high, low :| PairOf(p, c, high, low);
    PairReads(p[..6], p[6..], high, low, k);
    Halved(p, k);
  }

  lemma Halved(p: Bytes, k: Bytes)
    requires |p| >= 6
    ensures p + k == p[..6] + (p[6..] + k) && p != [] && p[0] == p[..6][0]
  {
    assert p == p[..6] + p[6..];
  }

  lemma PairReads(p: Bytes, q: Bytes, high: int, low: int, k: Bytes)
    requires UnitIs(p, high) && UnitIs(q, low) && High(high) && Low(low)
    ensures ParseChar(p + (q + k)) == Some(Parsed(Combine(high, low), k))
  {
    var s := p + (q + k);
    UnitReads(p, q + k, high);
    UnitReads(q, k, low);
    assert s[6..] == q + k && s[12..] == k;
  }

  // ------------------------------------------------------------------ strings

  lemma SpellsMore(p: Bytes, c: CodePoint, s: Bytes, t: Text)
    requires p != [] && Piece(p, c) && Spells(s, t)
    ensures Spells(p + s, [c] + t)
  {
    assert (p + s)[..|p|] == p && (p + s)[|p|..] == s && ([c] + t)[1..] == t;
    assert SpellsAt(p + s, [c] + t, |p|);
  }

  lemma FirstPiece(s: Bytes, t: Text) returns (p: Bytes, more: Bytes)
    requires t != [] && Spells(s, t)
    ensures s == p + more && p != [] && Piece(p, t[0]) && Spells(more, t[1..])
  {
    var n: nat :| SpellsAt(s, t, n);
    p, more := s[..n], s[n..];
  }

  lemma {:induction false} CharsSound(s: Bytes) returns (body: Bytes)
    requires ParseChars(s).Some?
    ensures s == body + [34] + ParseChars(s).value.rest && Spells(body, ParseChars(s).value.value)
    decreases |s|
  {
    if s[0] == 34 {
      body := [];
    } else {
      var first := ParseChar(s).value;
      var p := CharSound(s);
      var more := CharsSound(first.rest);
      body := p + more;
      Behind(p, more, ParseChars(s).value.rest);
      SpellsMore(p, first.value, more, ParseChars(first.rest).value.value);
    }
  }

  lemma NoUnit(k: Bytes)
    ensures PeekUnit([] + [34] + k) == None
  {
    assert ([] + [34] + k)[0] == 34;
  }

  lemma Behind(p: Bytes, more: Bytes, k: Bytes)
    ensures p + more + [34] + k == p + (more + [34] + k)
  {
  }

  /** Where a low unit is read at the head of a body, it is its first character. */
  lemma {:induction false} HeadUnit(s: Bytes, t: Text, k: Bytes, all: Bytes)
    requires all == s + [34] + k && Spells(s, t) && PeekUnit(all).Some? && Low(PeekUnit(all).value)
    ensures t != [] && t[0] == PeekUnit(all).value
  {
    NoUnit(k);
    if t != [] {
      var p, more := FirstPiece(s, t);
      Behind(p, more, k);
      HeadPiece(p, t[0], more + [34] + k, all);
    }
  }

  lemma HeadPiece(p: Bytes, c: CodePoint, k: Bytes, all: Bytes)
    requires all == p + k && Piece(p, c) && PeekUnit(all).Some? && Low(PeekUnit(all).value)
    ensures c == PeekUnit(all).value
  {
    if UnitIs(p, c) {
      UnitReads(p, k, c);
    } else if PairIs(p, c) {
      HeadPair(p, c, k, all);
    } else if EscapeIs(p, c) {
      HeadEscape(p, c, k, all);
    }
  }

  lemma HeadEscape(p: Bytes, c: CodePoint, k: Bytes, all: Bytes)
    requires all == p + k && EscapeIs(p, c)
    ensures PeekUnit(all).None?
  {
    assert p == [92, p[1]] && all[1] == p[1];
    EscapeReads(p[1], c);
  }

  lemma HeadPair(p: Bytes, c: CodePoint, k: Bytes, all: Bytes)
    requires all == p + k && PairIs(p, c)
    ensures PeekUnit(all).Some? && High(PeekUnit(all).value)
  {
    var high, low :| PairOf(p, c, high, low);
    Halved(p, k);
    UnitReads(p[..6], p[6..] + k, high);
  }

  lemma {:induction false} CharsComplete(s: Bytes, t: Text, k: Bytes)
    requires Spells(s, t) && Paired(t)
    ensures ParseChars(s + [34] + k) == Some(Parsed(t, k))
    decreases |t|
  {
    if t == [] {
      assert (s + [34] + k)[1..] == k;
    } else {
      var p, more := FirstPiece(s, t);
      NextIsNoHalf(more, t, k);
      CharsComplete(more, t[1..], k);
      CharsStep(p, t[0], more + [34] + k, t[1..], k);
      Behind(p, more, k);
      assert t == [t[0]] + t[1..];
    }
  }

  lemma {:induction false} CharsStep(p: Bytes, c: CodePoint, more: Bytes, t: Text, k: Bytes)
    requires Piece(p, c) && (High(c) && PeekUnit(more).Some? ==> !Low(PeekUnit(more).value))
    requires ParseChars(more) == Some(Parsed(t, k))
    ensures ParseChars(p + more) == Some(Parsed([c] + t, k))
  {
    CharComplete(p, c, more);
  }

  lemma {:induction false} NextIsNoHalf(s: Bytes, t: Text, k: Bytes)
    requires t != [] && Paired(t) && Spells(s, t[1..])
    ensures High(t[0]) && PeekUnit(s + [34] + k).Some? ==> !Low(PeekUnit(s + [34] + k).value)
    ensures Paired(t[1..])
  {
    if PeekUnit(s + [34] + k).Some? && Low(PeekUnit(s + [34] + k).value) { HeadUnit(s, t[1..], k, s + [34] + k); }
  }

  lemma WholeIsPaired(t: Text)
    ensures Whole(t) <==> Paired(t)
  {
    if Whole(t) {
      forall i | 0 <= i < |t| - 1 ensures !(HighUnit(t[i]) && LowUnit(t[i + 1])) { assert !SplitAt(t, i); }
    }
  }

  /** A quoted text is read, and what is read behind a quotation mark was quoted. */
  lemma QuotedReads(p: Bytes, t: Text, k: Bytes)
    requires Quoted(p, t)
    ensures p != [] && p[0] == 34 && ParseChars((p + k)[1..]) == Some(Parsed(t, k))
  {
    var body := p[1..|p| - 1];
    CharsComplete(body, t, k);
    assert (p + k)[1..] == body + [34] + k;
  }

  lemma QuotedSound(s: Bytes) returns (p: Bytes)
    requires s != [] && s[0] == 34 && ParseChars(s[1..]).Some?
    ensures s == p + ParseChars(s[1..]).value.rest && Quoted(p, ParseChars(s[1..]).value.value)
  {
    var body := CharsSound(s[1..]);
    p := [34] + body + [34];
    Enclosed(s, body, ParseChars(s[1..]).value.rest);
    ParsedCharsAreWhole(s[1..]);
    WholeIsPaired(ParseChars(s[1..]).value.value);
  }

  lemma Enclosed(s: Bytes, body: Bytes, rest: Bytes)
    requires s != [] && s[0] == 34 && s[1..] == body + [34] + rest
    ensures var p := [34] + body + [34]; s == p + rest && p[1..|p| - 1] == body
  {
    assert s == [34] + s[1..];
  }
}
