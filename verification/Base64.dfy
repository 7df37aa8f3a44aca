/** `base64.b64encode(...).decode("ascii")` and `base64.b64decode(..., validate=True)` (section 4 of RFC 4648). */

module Base64 {
  import opened Outcomes
  import opened Text

  function Symbol(i: int): (c: CodePoint)
    requires 0 <= i < 64
    ensures c < 128 && c != 61
  {
    if i < 26 then 65 + i
    else if i < 52 then 71 + i
    else if i < 62 then i - 4
    else if i == 62 then 43 else 47
  }

  function Sextet(c: CodePoint): (r: Option<int>)
    ensures r.Some? ==> 0 <= r.value < 64
  {
    if 65 <= c <= 90 then Some(c - 65)
    else if 97 <= c <= 122 then Some(c - 71)
    else if 48 <= c <= 57 then Some(c + 4)
    else if c == 43 then Some(62)
    else if c == 47 then Some(63)
    else None
  }

  const PAD: CodePoint := 61

  function Encode(b: Bytes): Text {
    if b == [] then []
    else if |b| == 1 then [Symbol(b[0] / 4), Symbol(b[0] % 4 * 16), PAD, PAD]
    else if |b| == 2 then
      [Symbol(b[0] / 4), Symbol(b[0] % 4 * 16 + b[1] / 16), Symbol(b[1] % 16 * 4), PAD]
    else
      [Symbol(b[0] / 4), Symbol(b[0] % 4 * 16 + b[1] / 16), Symbol(b[1] % 16 * 4 + b[2] / 64), Symbol(b[2] % 64)]
      + Encode(b[3..])
  }

  /**
   * Strict decoding, as `binascii.a2b_base64` of Python 3.11 does it: padding is needed only behind an open group and is
   * superfluous, but allowed, behind complete ones; the bits under the padding are not inspected.
   */
  function Decode(t: Text): Result<Bytes> {
    if t != [] && t[0] == PAD then Raised else DecodeGroups(t)
  }

  function DecodeGroups(t: Text): Result<Bytes> {
    if forall i :: 0 <= i < |t| ==> t[i] == PAD then Ok([])
    else if |t| < 4 then Raised
    else
      match (Sextet(t[0]), Sextet(t[1]), Sextet(t[2]), Sextet(t[3]))
      case (Some(a), Some(b), Some(c), Some(d)) =>
        (match DecodeGroups(t[4..])
         case Ok(more) => Ok([a * 4 + b / 16, b % 16 * 16 + c / 4, c % 4 * 64 + d] + more)
         case Raised => Raised)
      case (Some(a), Some(b), Some(c), None) =>
        if |t| == 4 && t[3] == PAD then Ok([a * 4 + b / 16, b % 16 * 16 + c / 4]) else Raised
      case (Some(a), Some(b), None, None) =>
        if |t| == 4 && t[2] == PAD && t[3] == PAD then Ok([a * 4 + b / 16]) else Raised
      case _ => Raised
  }

  lemma SymbolRoundTrip(i: int)
    requires 0 <= i < 64
    ensures Sextet(Symbol(i)) == Some(i)
  {
  }

  /** Three bytes cut into sextets and put back together. */
  lemma Regrouped(x: Byte, y: Byte, z: Byte)
    ensures x / 4 * 4 + (x % 4 * 16 + y / 16) / 16 == x
    ensures (x % 4 * 16 + y / 16) % 16 * 16 + (y % 16 * 4 + z / 64) / 4 == y
    ensures (y % 16 * 4 + z / 64) % 4 * 64 + z % 64 == z
  {
    assert (x % 4 * 16 + y / 16) / 16 == x % 4 && (x % 4 * 16 + y / 16) % 16 == y / 16;
    assert (y % 16 * 4 + z / 64) / 4 == y % 16 && (y % 16 * 4 + z / 64) % 4 == z / 64;
  }

  lemma QuadRoundTrip(x: Byte, y: Byte, z: Byte, t: Text, more: Bytes)
    requires DecodeGroups(t) == Ok(more)
    ensures DecodeGroups([Symbol(x / 4), Symbol(x % 4 * 16 + y / 16), Symbol(y % 16 * 4 + z / 64), Symbol(z % 64)] + t)
         == Ok([x, y, z] + more)
  {
    Regrouped(x, y, z);
    var quad := [Symbol(x / 4), Symbol(x % 4 * 16 + y / 16), Symbol(y % 16 * 4 + z / 64), Symbol(z % 64)];
    SymbolRoundTrip(x / 4);
    SymbolRoundTrip(x % 4 * 16 + y / 16);
    SymbolRoundTrip(y % 16 * 4 + z / 64);
    SymbolRoundTrip(z % 64);
    assert (quad + t)[4..] == t;
  }

  lemma OneByteRoundTrip(x: Byte)
    ensures DecodeGroups(Encode([x])) == Ok([x])
  {
    var t := [Symbol(x / 4), Symbol(x % 4 * 16), PAD, PAD];
    assert Encode([x]) == t;
    SymbolRoundTrip(x / 4);
    SymbolRoundTrip(x % 4 * 16);
    Regrouped(x, 0, 0);
  }

  lemma TwoByteRoundTrip(x: Byte, y: Byte)
    ensures DecodeGroups(Encode([x, y])) == Ok([x, y])
  {
    var t := [Symbol(x / 4), Symbol(x % 4 * 16 + y / 16), Symbol(y % 16 * 4), PAD];
    assert Encode([x, y]) == t;
    SymbolRoundTrip(x / 4);
    SymbolRoundTrip(x % 4 * 16 + y / 16);
    SymbolRoundTrip(y % 16 * 4);
    Regrouped(x, y, 0);
  }

  lemma {:induction false} GroupsRoundTrip(b: Bytes)
    ensures DecodeGroups(Encode(b)) == Ok(b)
  {
    if |b| == 1 {
      OneByteRoundTrip(b[0]);
      assert b == [b[0]];
    } else if |b| == 2 {
      TwoByteRoundTrip(b[0], b[1]);
      assert b == [b[0], b[1]];
    } else if b != [] {
      GroupsRoundTrip(b[3..]);
      QuadRoundTrip(b[0], b[1], b[2], Encode(b[3..]), b[3..]);
      assert b == [b[0], b[1], b[2]] + b[3..];
    }
  }

  lemma RoundTrip(b: Bytes)
    ensures Decode(Encode(b)) == Ok(b)
  {
    GroupsRoundTrip(b);
    StartsWithSymbol(b);
  }

  lemma StartsWithSymbol(b: Bytes)
    ensures b == [] <==> Encode(b) == []
    ensures b != [] ==> Encode(b)[0] != PAD
  {
  }

  lemma {:induction false} EncodedLength(b: Bytes)
    ensures |Encode(b)| == (|b| + 2) / 3 * 4 && AllAscii(Encode(b))
  {
    if |b| >= 3 { EncodedLength(b[3..]); }
  }
}
