/** Code points, bytes, and the orders and literals built on them. */

module Outcomes {

  datatype Option<+T> = None | Some(value: T)

  /** A call that returned normally, or raised one of the source's errors. */
  datatype Result<+T> = Ok(value: T) | Raised
}

module Text {

  /** Python strings are sequences of code points, lone surrogates included. */
  type CodePoint = c: int | 0 <= c < 0x11_0000
  type Text = seq<CodePoint>

  type Byte = b: int | 0 <= b < 256
  type Bytes = seq<Byte>

  /** An ASCII literal as text; any other character would become a question mark. */
  function S(literal: string): (t: Text)
    ensures |t| == |literal| && AllAscii(t)
    ensures forall i :: 0 <= i < |t| ==> literal[i] as int < 128 ==> t[i] == literal[i] as int
  {
    seq(|literal|, i requires 0 <= i < |literal| => if literal[i] as int < 128 then literal[i] as int else 63)
  }

  predicate IsAscii(b: Bytes) {
    forall i :: 0 <= i < |b| ==> b[i] < 128
  }

  /** `bytes.decode("ascii")` on bytes that are ASCII. */
  function Decoded(b: Bytes): (t: Text)
    ensures |t| == |b| && forall i :: 0 <= i < |b| ==> t[i] == b[i]
  {
    seq(|b|, i requires 0 <= i < |b| => b[i])
  }

  predicate AllAscii(t: Text) {
    forall i :: 0 <= i < |t| ==> t[i] < 128
  }

  /** `str.encode("ascii")`, on text it does not raise for. */
  function Encoded(t: Text): (b: Bytes)
    requires AllAscii(t)
    ensures IsAscii(b) && Decoded(b) == t
  {
    seq(|t|, i requires 0 <= i < |t| => t[i])
  }

  /** Python's order on `str`: code point by code point, a prefix first. */
  predicate Leq(a: Text, b: Text) {
    if a == [] then true
    else if b == [] then false
    else a[0] < b[0] || (a[0] == b[0] && Leq(a[1..], b[1..]))
  }

  lemma LeqReflexive(a: Text)
    ensures Leq(a, a)
  {
  }

  lemma {:induction false} LeqTotal(a: Text, b: Text)
    ensures Leq(a, b) || Leq(b, a)
  {
    if a != [] && b != [] && a[0] == b[0] {
      LeqTotal(a[1..], b[1..]);
    }
  }

  lemma {:induction false} LeqAntisymmetric(a: Text, b: Text)
    requires Leq(a, b) && Leq(b, a)
    ensures a == b
  {
    if a != [] {
      LeqAntisymmetric(a[1..], b[1..]);
      assert a == [a[0]] + a[1..] && b == [b[0]] + b[1..];
    }
  }

  lemma {:induction false} LeqTransitive(a: Text, b: Text, c: Text)
    requires Leq(a, b) && Leq(b, c)
    ensures Leq(a, c)
  {
    if a != [] && a[0] == b[0] && b[0] == c[0] {
      LeqTransitive(a[1..], b[1..], c[1..]);
    }
  }

  lemma {:induction false} LeastExists(s: set<Text>) returns (k: Text)
    requires s != {}
    ensures k in s && forall j :: j in s ==> Leq(k, j)
  {
    var x :| x in s;
    var rest := s - {x};
    if rest == {} {
      k := x;
      assert s == {x};
      LeqReflexive(x);
    } else {
      var y := LeastExists(rest);
      LeqTotal(x, y);
      k := if Leq(x, y) then x else y;
      forall j | j in s ensures Leq(k, j) {
        if j == x {
          LeqReflexive(x);
        } else if k == x {
          assert j in rest;
          LeqTransitive(x, y, j);
        }
      }
    }
  }

  lemma LeastIsUnique(s: set<Text>)
    ensures forall k, j | k in s && j in s && Leq(k, j) && Leq(j, k) :: k == j
  {
    forall k, j | k in s && j in s && Leq(k, j) && Leq(j, k) ensures k == j {
      LeqAntisymmetric(k, j);
    }
  }

  predicate IsLeast(k: Text, s: set<Text>) {
    k in s && forall j | j in s :: Leq(k, j)
  }

  function Least(s: set<Text>): (k: Text)
    requires s != {}
    ensures IsLeast(k, s)
  {
    assert exists k :: IsLeast(k, s) by { var k := LeastExists(s); assert IsLeast(k, s); }
    LeastIsUnique(s);
    var k :| IsLeast(k, s);
    k
  }

  predicate Ascending(ks: seq<Text>) {
    forall i, j :: 0 <= i < j < |ks| ==> ks[i] != ks[j] && Leq(ks[i], ks[j])
  }

  /** `sorted` on the keys of a mapping. */
  function Sorted(s: set<Text>): (ks: seq<Text>)
    ensures Ascending(ks)
    ensures forall k :: k in ks <==> k in s
    ensures |ks| == |s|
  {
    if s == {} then [] else
      var k := Least(s);
      var rest := Sorted(s - {k});
      assert forall j :: j in rest ==> j in s - {k};
      [k] + rest
  }
}
