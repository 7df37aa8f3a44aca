/** Base64 as section 4 of RFC 4648 gives it: the alphabet, and groups of 24 bits in both alphabets. */

module Base64Alphabet {
  import opened Outcomes
  import opened Text
  import Base64

  const ALPHABET := "ABCDEFGHIJKLMNOPQRSTUVWXYZ" + "abcdefghijklmnopqrstuvwxyz" + "0123456789+/"

  /** c is character number i of the alphabet. */
  predicate Stands(c: CodePoint, i: int) { 0 <= i < 64 && c == ALPHABET[i] as int }

  /** Four characters for three bytes, most significant first. */
  ghost predicate Group(t: Text, x: int, y: int, z: int) { exists p, q, r, s :: GroupOf(t, x, y, z, p, q, r, s) }

  predicate GroupOf(t: Text, x: int, y: int, z: int, p: int, q: int, r: int, s: int) {
    && |t| == 4 && Stands(t[0], p) && Stands(t[1], q) && Stands(t[2], r) && Stands(t[3], s)
    && p * 0x4_0000 + q * 0x1000 + r * 0x40 + s == x * 0x1_0000 + y * 0x100 + z
  }

  /** Three characters and a padding for two bytes; spare is what the two bits behind them hold. */
  ghost predicate Group2(t: Text, x: int, y: int, spare: int) { exists p, q, r :: Group2Of(t, x, y, spare, p, q, r) }

  predicate Group2Of(t: Text, x: int, y: int, spare: int, p: int, q: int, r: int) {
    && |t| == 4 && Stands(t[0], p) && Stands(t[1], q) && Stands(t[2], r) && t[3] == '=' as int
    && p * 0x1000 + q * 0x40 + r == (x * 0x100 + y) * 4 + spare
  }

  /** Two characters and two paddings for one byte; spare is what the four bits behind it hold. */
  ghost predicate Group1(t: Text, x: int, spare: int) { exists p, q :: Group1Of(t, x, spare, p, q) }

  predicate Group1Of(t: Text, x: int, spare: int, p: int, q: int) {
    && |t| == 4 && Stands(t[0], p) && Stands(t[1], q) && t[2] == '=' as int && t[3] == '=' as int
    && p * 0x40 + q == x * 0x10 + spare
  }

  /** t is the encoding of b. */
  ghost predicate Encodes(t: Text, b: Bytes)
    decreases |b|
  {
    if b == [] then t == []
    else if |b| == 1 then Group1(t, b[0], 0)
    else if |b| == 2 then Group2(t, b[0], b[1], 0)
    else |t| >= 4 && Group(t[..4], b[0], b[1], b[2]) && Encodes(t[4..], b[3..])
  }

  ghost predicate Loose2(t: Text, x: int, y: int) { exists spare :: 0 <= spare < 4 && Group2(t, x, y, spare) }

  ghost predicate Loose1(t: Text, x: int) { exists spare :: 0 <= spare < 16 && Group1(t, x, spare) }

  /** t is read as b: spare bits are ignored, and so is padding behind complete groups. */
  ghost predicate ReadsAs(t: Text, b: Bytes)
    decreases |b|
  {
    if b == [] then forall i :: 0 <= i < |t| ==> t[i] == '=' as int
    else if |b| == 1 then Loose1(t, b[0])
    else if |b| == 2 then Loose2(t, b[0], b[1])
    else |t| >= 4 && Group(t[..4], b[0], b[1], b[2]) && ReadsAs(t[4..], b[3..])
  }

  // ------------------------------------------------------------------ symbols

  lemma SymbolStands(i: int)
    requires 0 <= i < 64
    ensures Stands(Base64.Symbol(i), i)
  {
    Runs();
    if i < 26 {
      assert ALPHABET[i] == ALPHABET[..26][i];
    } else if i < 52 {
      assert ALPHABET[i] == ALPHABET[26..52][i - 26];
    } else {
      assert ALPHABET[i] == ALPHABET[52..][i - 52];
    }
  }

  /** The alphabet by its runs of letters and digits. */
  lemma Runs()
    ensures ALPHABET[..26] == "ABCDEFGHIJKLMNOPQRSTUVWXYZ"
    ensures ALPHABET[26..52] == "abcdefghijklmnopqrstuvwxyz"
    ensures ALPHABET[52..] == "0123456789+/"
  {
  }

  /** A character is read as its number in the alphabet. */
  lemma SextetStands(c: CodePoint, i: int)
    ensures Base64.Sextet(c) == Some(i) <==> Stands(c, i)
  {
    if 0 <= i < 64 {
      SymbolStands(i);
      Base64.SymbolRoundTrip(i);
    }
    if Base64.Sextet(c) == Some(i) { assert c == Base64.Symbol(i); }
  }

  // ------------------------------------------------------------------- groups

  /** What three bytes are as four numbers below 64. */
  lemma Cut(x: Byte, y: Byte, z: Byte)
    ensures var p, q, r, s := x / 4, x % 4 * 16 + y / 16, y % 16 * 4 + z / 64, z % 64;
            && 0 <= p < 64 && 0 <= q < 64 && 0 <= r < 64 && 0 <= s < 64
            && p * 0x4_0000 + q * 0x1000 + r * 0x40 + s == x * 0x1_0000 + y * 0x100 + z
  {
  }

  /** Only these four numbers have their 24 bits. */
  lemma CutOnce(p: int, q: int, r: int, s: int, x: Byte, y: Byte, z: Byte)
    requires 0 <= p < 64 && 0 <= q < 64 && 0 <= r < 64 && 0 <= s < 64
    requires p * 0x4_0000 + q * 0x1000 + r * 0x40 + s == x * 0x1_0000 + y * 0x100 + z
    ensures p == x / 4 && q == x % 4 * 16 + y / 16 && r == y % 16 * 4 + z / 64 && s == z % 64
    ensures x == p * 4 + q / 16 && y == q % 16 * 16 + r / 4 && z == r % 4 * 64 + s
  {
    Cut(x, y, z);
  }

  lemma Cut2(x: Byte, y: Byte)
    ensures var p, q, r := x / 4, x % 4 * 16 + y / 16, y % 16 * 4;
            && 0 <= p < 64 && 0 <= q < 64 && 0 <= r < 64 && p * 0x1000 + q * 0x40 + r == (x * 0x100 + y) * 4
  {
  }

  lemma CutOnce2(p: int, q: int, r: int, x: Byte, y: Byte)
    requires 0 <= p < 64 && 0 <= q < 64 && 0 <= r < 64 && p * 0x1000 + q * 0x40 + r == (x * 0x100 + y) * 4
    ensures p == x / 4 && q == x % 4 * 16 + y / 16 && r == y % 16 * 4
  {
    Cut2(x, y);
  }

  lemma Cut1(x: Byte)
    ensures 0 <= x / 4 < 64 && 0 <= x % 4 * 16 < 64 && x / 4 * 0x40 + x % 4 * 16 == x * 0x10
  {
  }

  lemma CutOnce1(p: int, q: int, x: Byte)
    requires 0 <= p < 64 && 0 <= q < 64 && p * 0x40 + q == x * 0x10
    ensures p == x / 4 && q == x % 4 * 16
  {
    Cut1(x);
  }

  /** The bytes that four numbers have the bits of. */
  lemma Glued(p: int, q: int, r: int, s: int)
    requires 0 <= p < 64 && 0 <= q < 64 && 0 <= r < 64 && 0 <= s < 64
    ensures var x, y, z := p * 4 + q / 16, q % 16 * 16 + r / 4, r % 4 * 64 + s;
            && 0 <= x < 256 && 0 <= y < 256 && 0 <= z < 256
            && p * 0x4_0000 + q * 0x1000 + r * 0x40 + s == x * 0x1_0000 + y * 0x100 + z
  {
  }

  lemma GroupEncodes(x: Byte, y: Byte, z: Byte, t: Text)
    ensures Group(t, x, y, z) <==>
            t == [Base64.Symbol(x / 4), Base64.Symbol(x % 4 * 16 + y / 16), Base64.Symbol(y % 16 * 4 + z / 64), Base64.Symbol(z % 64)]
  {
    var a, b, c, d := x / 4, x % 4 * 16 + y / 16, y % 16 * 4 + z / 64, z % 64;
    Cut(x, y, z);
    SymbolStands(a);
    SymbolStands(b);
    SymbolStands(c);
    SymbolStands(d);
    if Group(t, x, y, z) {
      var p, q, r, s :| GroupOf(t, x, y, z, p, q, r, s);
      CutOnce(p, q, r, s, x, y, z);
      assert t == [t[0], t[1], t[2], t[3]];
    }
    if t == [Base64.Symbol(a), Base64.Symbol(b), Base64.Symbol(c), Base64.Symbol(d)] {
      assert GroupOf(t, x, y, z, a, b, c, d);
    }
  }

  lemma Group2Encodes(x: Byte, y: Byte, t: Text)
    ensures Group2(t, x, y, 0) <==>
            t == [Base64.Symbol(x / 4), Base64.Symbol(x % 4 * 16 + y / 16), Base64.Symbol(y % 16 * 4), Base64.PAD]
  {
    var a, b, c := x / 4, x % 4 * 16 + y / 16, y % 16 * 4;
    Cut2(x, y);
    SymbolStands(a);
    SymbolStands(b);
    SymbolStands(c);
    if Group2(t, x, y, 0) {
      var p, q, r :| Group2Of(t, x, y, 0, p, q, r);
      CutOnce2(p, q, r, x, y);
      assert t == [t[0], t[1], t[2], t[3]];
    }
    if t == [Base64.Symbol(a), Base64.Symbol(b), Base64.Symbol(c), Base64.PAD] {
      assert Group2Of(t, x, y, 0, a, b, c);
    }
  }

  lemma Group1Encodes(x: Byte, t: Text)
    ensures Group1(t, x, 0) <==> t == [Base64.Symbol(x / 4), Base64.Symbol(x % 4 * 16), Base64.PAD, Base64.PAD]
  {
    var a, b := x / 4, x % 4 * 16;
    Cut1(x);
    SymbolStands(a);
    SymbolStands(b);
    if Group1(t, x, 0) {
      var p, q :| Group1Of(t, x, 0, p, q);
      CutOnce1(p, q, x);
      assert t == [t[0], t[1], t[2], t[3]];
    }
    if t == [Base64.Symbol(a), Base64.Symbol(b), Base64.PAD, Base64.PAD] {
      assert Group1Of(t, x, 0, a, b);
    }
  }

  /** `b64encode` gives the encoding, and there is only one. */
  lemma {:induction false} EncodesExactly(t: Text, b: Bytes)
    ensures Encodes(t, b) <==> t == Base64.Encode(b)
    decreases |b|
  {
    if |b| == 1 {
      Group1Encodes(b[0], t);
    } else if |b| == 2 {
      Group2Encodes(b[0], b[1], t);
    } else if b != [] {
      if |t| >= 4 { EncodesExactly(t[4..], b[3..]); }
      QuadEncodes(t, b);
    }
  }

  lemma {:induction false} QuadEncodes(t: Text, b: Bytes)
    requires |b| >= 3
    ensures |t| >= 4 && Group(t[..4], b[0], b[1], b[2]) && t[4..] == Base64.Encode(b[3..]) <==> t == Base64.Encode(b)
  {
    Quads(b);
    var e := Base64.Encode(b);
    SameHalves(t, e);
    if |t| >= 4 { GroupEncodes(b[0], b[1], b[2], t[..4]); }
  }

  lemma SameHalves(t: Text, e: Text)
    requires |e| >= 4
    ensures t == e <==> |t| >= 4 && t[..4] == e[..4] && t[4..] == e[4..]
  {
    if |t| >= 4 && t[..4] == e[..4] && t[4..] == e[4..] { assert t == t[..4] + t[4..] && e == e[..4] + e[4..]; }
  }

  lemma {:induction false} Quads(b: Bytes)
    requires |b| >= 3
    ensures |Base64.Encode(b)| >= 4 && Base64.Encode(b)[4..] == Base64.Encode(b[3..])
    ensures Base64.Encode(b)[..4] ==
            [Base64.Symbol(b[0] / 4), Base64.Symbol(b[0] % 4 * 16 + b[1] / 16), Base64.Symbol(b[1] % 16 * 4 + b[2] / 64),
             Base64.Symbol(b[2] % 64)]
  {
  }

  // ----------------------------------------------------------------- decoding

  /** Its four characters all stand for numbers. */
  predicate Full(t: Text) {
    && |t| >= 4 && Base64.Sextet(t[0]).Some? && Base64.Sextet(t[1]).Some?
    && Base64.Sextet(t[2]).Some? && Base64.Sextet(t[3]).Some?
  }

  lemma GroupReads(t: Text, x: Byte, y: Byte, z: Byte)
    requires |t| >= 4 && Group(t[..4], x, y, z)
    ensures Full(t)
    ensures var p, q, r, s := Base64.Sextet(t[0]).value, Base64.Sextet(t[1]).value, Base64.Sextet(t[2]).value,
                              Base64.Sextet(t[3]).value;
            x == p * 4 + q / 16 && y == q % 16 * 16 + r / 4 && z == r % 4 * 64 + s
  {
    var p, q, r, s :| GroupOf(t[..4], x, y, z, p, q, r, s);
    CutOnce(p, q, r, s, x, y, z);
    SextetStands(t[0], p);
    SextetStands(t[1], q);
    SextetStands(t[2], r);
    SextetStands(t[3], s);
  }

  lemma ReadsGroup(t: Text)
    requires Full(t)
    ensures var p, q, r, s := Base64.Sextet(t[0]).value, Base64.Sextet(t[1]).value, Base64.Sextet(t[2]).value,
                              Base64.Sextet(t[3]).value;
            Group(t[..4], p * 4 + q / 16, q % 16 * 16 + r / 4, r % 4 * 64 + s)
  {
    Known(t[0]);
    Known(t[1]);
    Known(t[2]);
    Known(t[3]);
    var p, q, r, s := Base64.Sextet(t[0]).value, Base64.Sextet(t[1]).value, Base64.Sextet(t[2]).value, Base64.Sextet(t[3]).value;
    Glued(p, q, r, s);
    assert GroupOf(t[..4], p * 4 + q / 16, q % 16 * 16 + r / 4, r % 4 * 64 + s, p, q, r, s);
  }

  lemma Known(c: CodePoint)
    requires Base64.Sextet(c).Some?
    ensures Stands(c, Base64.Sextet(c).value)
  {
    SextetStands(c, Base64.Sextet(c).value);
  }

  lemma Unknown(c: CodePoint)
    requires Base64.Sextet(c).None?
    ensures forall i :: !Stands(c, i)
  {
    forall i ensures !Stands(c, i) { SextetStands(c, i); }
  }

  /** The last group with one padding is read as its two bytes. */
  lemma Loose2Reads(t: Text, x: Byte, y: Byte)
    requires Loose2(t, x, y)
    ensures |t| == 4 && t[3] == Base64.PAD
    ensures Base64.Sextet(t[0]).Some? && Base64.Sextet(t[1]).Some? && Base64.Sextet(t[2]).Some?
    ensures var p, q, r := Base64.Sextet(t[0]).value, Base64.Sextet(t[1]).value, Base64.Sextet(t[2]).value;
            x == p * 4 + q / 16 && y == q % 16 * 16 + r / 4
  {
    var spare :| 0 <= spare < 4 && Group2(t, x, y, spare);
    var p, q, r :| Group2Of(t, x, y, spare, p, q, r);
    SextetStands(t[0], p);
    SextetStands(t[1], q);
    SextetStands(t[2], r);
    CutOnce(p, q, r, 0, x, y, spare * 64);
  }

  lemma ReadsLoose2(t: Text)
    requires |t| == 4 && t[3] == Base64.PAD
    requires Base64.Sextet(t[0]).Some? && Base64.Sextet(t[1]).Some? && Base64.Sextet(t[2]).Some?
    ensures var p, q, r := Base64.Sextet(t[0]).value, Base64.Sextet(t[1]).value, Base64.Sextet(t[2]).value;
            Loose2(t, p * 4 + q / 16, q % 16 * 16 + r / 4)
  {
    var p, q, r := Base64.Sextet(t[0]).value, Base64.Sextet(t[1]).value, Base64.Sextet(t[2]).value;
    Known(t[0]);
    Known(t[1]);
    Known(t[2]);
    Glued(p, q, r, 0);
    assert Group2Of(t, p * 4 + q / 16, q % 16 * 16 + r / 4, r % 4, p, q, r);
    assert Group2(t, p * 4 + q / 16, q % 16 * 16 + r / 4, r % 4);
  }

  /** The last group with two paddings is read as its byte. */
  lemma Loose1Reads(t: Text, x: Byte)
    requires Loose1(t, x)
    ensures |t| == 4 && t[2] == Base64.PAD && t[3] == Base64.PAD
    ensures Base64.Sextet(t[0]).Some? && Base64.Sextet(t[1]).Some?
    ensures x == Base64.Sextet(t[0]).value * 4 + Base64.Sextet(t[1]).value / 16
  {
    var spare :| 0 <= spare < 16 && Group1(t, x, spare);
    var p, q :| Group1Of(t, x, spare, p, q);
    SextetStands(t[0], p);
    SextetStands(t[1], q);
    CutOnce(p, q, 0, 0, x, spare * 16, 0);
  }

  lemma ReadsLoose1(t: Text)
    requires |t| == 4 && t[2] == Base64.PAD && t[3] == Base64.PAD
    requires Base64.Sextet(t[0]).Some? && Base64.Sextet(t[1]).Some?
    ensures Loose1(t, Base64.Sextet(t[0]).value * 4 + Base64.Sextet(t[1]).value / 16)
  {
    var p, q := Base64.Sextet(t[0]).value, Base64.Sextet(t[1]).value;
    Known(t[0]);
    Known(t[1]);
    Glued(p, q, 0, 0);
    assert Group1Of(t, p * 4 + q / 16, q % 16, p, q);
    assert Group1(t, p * 4 + q / 16, q % 16);
  }

  predicate AllPads(t: Text) { forall i :: 0 <= i < |t| ==> t[i] == Base64.PAD }

  lemma NoSymbol()
    ensures Base64.Sextet(Base64.PAD).None?
  {
  }

  /** Groups are decoded as the bytes they are read as. */
  lemma {:induction false} GroupsSound(t: Text)
    requires Base64.DecodeGroups(t).Ok?
    ensures ReadsAs(t, Base64.DecodeGroups(t).value)
    decreases |t|
  {
    if !AllPads(t) {
      DecodedParts(t);
      if Base64.Sextet(t[2]).None? {
        ReadsLoose1(t);
      } else if Base64.Sextet(t[3]).None? {
        ReadsLoose2(t);
      } else {
        GroupsSound(t[4..]);
        ReadsGroup(t);
        ReadsMore(t, Base64.DecodeGroups(t).value);
      }
    }
  }

  lemma {:induction false} ReadsMore(t: Text, b: Bytes)
    requires |b| >= 3 && |t| >= 4
    ensures ReadsAs(t, b) <==> Group(t[..4], b[0], b[1], b[2]) && ReadsAs(t[4..], b[3..])
  {
  }

  lemma {:induction false} GroupsComplete(t: Text, b: Bytes)
    requires ReadsAs(t, b)
    ensures Base64.DecodeGroups(t) == Ok(b)
    decreases |t|
  {
    if AllPads(t) {
      PadsReadAsNothing(t, b);
    } else if |b| == 1 {
      OneComplete(t, b[0]);
      Spelled(b);
    } else if |b| == 2 {
      TwoComplete(t, b[0], b[1]);
      Spelled(b);
    } else {
      ReadsMore(t, b);
      GroupsComplete(t[4..], b[3..]);
      MoreComplete(t, b[0], b[1], b[2], b[3..]);
      assert b == [b[0], b[1], b[2]] + b[3..];
    }
  }

  lemma {:induction false} OneComplete(t: Text, x: Byte)
    requires Loose1(t, x)
    ensures Base64.DecodeGroups(t) == Ok([x])
  {
    NoSymbol();
    Loose1Reads(t, x);
    Decoded1(t, Base64.Sextet(t[0]).value, Base64.Sextet(t[1]).value, x);
  }

  lemma {:induction false} Decoded1(t: Text, p: int, q: int, x: Byte)
    requires |t| == 4 && Base64.Sextet(t[0]) == Some(p) && Base64.Sextet(t[1]) == Some(q)
    requires t[2] == Base64.PAD && t[3] == Base64.PAD && x == p * 4 + q / 16
    ensures Base64.DecodeGroups(t) == Ok([x])
  {
    assert t[0] != Base64.PAD;
  }

  lemma {:induction false} TwoComplete(t: Text, x: Byte, y: Byte)
    requires Loose2(t, x, y)
    ensures Base64.DecodeGroups(t) == Ok([x, y])
  {
    NoSymbol();
    Loose2Reads(t, x, y);
    Decoded2(t, Base64.Sextet(t[0]).value, Base64.Sextet(t[1]).value, Base64.Sextet(t[2]).value, x, y);
  }

  lemma {:induction false} Decoded2(t: Text, p: int, q: int, r: int, x: Byte, y: Byte)
    requires |t| == 4 && Base64.Sextet(t[0]) == Some(p) && Base64.Sextet(t[1]) == Some(q) && Base64.Sextet(t[2]) == Some(r)
    requires t[3] == Base64.PAD && x == p * 4 + q / 16 && y == q % 16 * 16 + r / 4
    ensures Base64.DecodeGroups(t) == Ok([x, y])
  {
    assert t[0] != Base64.PAD;
  }

  lemma {:induction false} MoreComplete(t: Text, x: Byte, y: Byte, z: Byte, more: Bytes)
    requires |t| >= 4 && Group(t[..4], x, y, z) && Base64.DecodeGroups(t[4..]) == Ok(more)
    ensures Base64.DecodeGroups(t) == Ok([x, y, z] + more)
  {
    GroupReads(t, x, y, z);
    Decoded4(t, Base64.Sextet(t[0]).value, Base64.Sextet(t[1]).value, Base64.Sextet(t[2]).value, Base64.Sextet(t[3]).value,
             x, y, z, more);
  }

  lemma {:induction false} Decoded4(t: Text, p: int, q: int, r: int, s: int, x: Byte, y: Byte, z: Byte, more: Bytes)
    requires |t| >= 4 && Base64.Sextet(t[0]) == Some(p) && Base64.Sextet(t[1]) == Some(q)
    requires Base64.Sextet(t[2]) == Some(r) && Base64.Sextet(t[3]) == Some(s)
    requires x == p * 4 + q / 16 && y == q % 16 * 16 + r / 4 && z == r % 4 * 64 + s && Base64.DecodeGroups(t[4..]) == Ok(more)
    ensures Base64.DecodeGroups(t) == Ok([x, y, z] + more)
  {
    assert t[0] != Base64.PAD;
  }

  lemma Spelled(b: Bytes)
    ensures |b| == 1 ==> b == [b[0]]
    ensures |b| == 2 ==> b == [b[0], b[1]]
  {
  }

  lemma PadsReadAsNothing(t: Text, b: Bytes)
    requires AllPads(t)
    ensures ReadsAs(t, b) <==> b == []
  {
    NoSymbol();
    if t != [] { Unknown(t[0]); }
  }

  /** How decoding goes on behind the first group. */
  lemma {:induction false} DecodedParts(t: Text)
    requires |t| >= 4 && !AllPads(t)
    ensures Base64.DecodeGroups(t) ==
            match (Base64.Sextet(t[0]), Base64.Sextet(t[1]), Base64.Sextet(t[2]), Base64.Sextet(t[3]))
            case (Some(p), Some(q), Some(r), Some(s)) =>
              (match Base64.DecodeGroups(t[4..])
               case Ok(more) => Ok([p * 4 + q / 16, q % 16 * 16 + r / 4, r % 4 * 64 + s] + more)
               case Raised => Raised)
            case (Some(p), Some(q), Some(r), None) =>
              if |t| == 4 && t[3] == Base64.PAD then Ok([p * 4 + q / 16, q % 16 * 16 + r / 4]) else Raised
            case (Some(p), Some(q), None, None) =>
              if |t| == 4 && t[2] == Base64.PAD && t[3] == Base64.PAD then Ok([p * 4 + q / 16]) else Raised
            case _ => Raised
  {
  }

  /** `b64decode` gives exactly the bytes that the text is read as, and refuses padding at its beginning. */
  lemma DecodesExactly(t: Text, b: Bytes)
    ensures Base64.Decode(t) == Ok(b) <==> ReadsAs(t, b) && (t != [] ==> t[0] != '=' as int)
  {
    if Base64.Decode(t) == Ok(b) { GroupsSound(t); }
    if ReadsAs(t, b) { GroupsComplete(t, b); }
  }
}
