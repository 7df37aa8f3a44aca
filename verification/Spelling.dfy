/** The character classes of the validated fields, spelled out. */

module Spelling {
  import opened Text
  import opened Package
  import opened Approvals
  import Controllers

  const DIGITS := "0123456789"
  const CAPITALS := "ABCDEFGHIJKLMNOPQRSTUVWXYZ"
  const LETTERS := "abcdefghijklmnopqrstuvwxyz"
  const HEX := "0123456789abcdef"

  /** The character is one of these. */
  predicate In(c: CodePoint, symbols: string) { exists j :: 0 <= j < |symbols| && c == symbols[j] as int }

  predicate Over(t: Text, symbols: string) { forall i :: 0 <= i < |t| ==> In(t[i], symbols) }

  predicate IsWordCharacter(c: CodePoint) { In(c, DIGITS) || In(c, CAPITALS) || In(c, LETTERS) }

  /** Letters, digits and these other characters, with a letter or digit first. */
  predicate Word(t: Text, others: string, most: nat) {
    1 <= |t| <= most && IsWordCharacter(t[0]) && forall i :: 0 <= i < |t| ==> IsWordCharacter(t[i]) || In(t[i], others)
  }

  /** A run of characters, from the first on. */
  lemma InRun(c: CodePoint, symbols: string, first: int, n: nat)
    requires |symbols| == n && forall j :: 0 <= j < n ==> symbols[j] as int == first + j
    ensures In(c, symbols) <==> first <= c < first + n
  {
    if first <= c < first + n { assert symbols[c - first] as int == c; }
  }

  lemma DigitsAre(c: CodePoint)
    ensures In(c, DIGITS) <==> 48 <= c <= 57
  {
    InRun(c, DIGITS, 48, 10);
  }

  lemma CapitalsAre(c: CodePoint)
    ensures In(c, CAPITALS) <==> 65 <= c <= 90
  {
    InRun(c, CAPITALS, 65, 26);
  }

  lemma LettersAre(c: CodePoint)
    ensures In(c, LETTERS) <==> 97 <= c <= 122
  {
    InRun(c, LETTERS, 97, 26);
  }

  lemma InBoth(c: CodePoint, s: string, t: string)
    ensures In(c, s + t) <==> In(c, s) || In(c, t)
  {
    if In(c, s) {
      var j :| 0 <= j < |s| && c == s[j] as int;
      assert (s + t)[j] == s[j];
    }
    if In(c, t) {
      var j :| 0 <= j < |t| && c == t[j] as int;
      assert (s + t)[|s| + j] == t[j];
    }
  }

  lemma HexAre(c: CodePoint)
    ensures In(c, HEX) <==> LowerHex(c)
  {
    assert HEX == DIGITS + "abcdef";
    InBoth(c, DIGITS, "abcdef");
    DigitsAre(c);
    InRun(c, "abcdef", 97, 6);
  }

  lemma WordCharactersAre(c: CodePoint)
    ensures IsWordCharacter(c) <==> Alphanumeric(c)
  {
    DigitsAre(c);
    CapitalsAre(c);
    LettersAre(c);
  }

  // --------------------------------------------------------------------- texts

  lemma HexExactly(t: Text, n: nat)
    ensures Hex(t, n) <==> |t| == n && Over(t, HEX)
  {
    forall i | 0 <= i < |t| ensures In(t[i], HEX) <==> LowerHex(t[i]) { HexAre(t[i]); }
  }

  lemma WordsExactly(t: Text, others: string, most: nat, codes: set<CodePoint>)
    requires forall c :: In(c, others) <==> c in codes
    ensures Word(t, others, most) <==> Named(t, codes, most)
  {
    forall i | 0 <= i < |t| ensures IsWordCharacter(t[i]) <==> Alphanumeric(t[i]) { WordCharactersAre(t[i]); }
  }

  /** The code points of a literal of four or five characters. */
  lemma CodesOf(others: string)
    requires |others| == 3 || |others| == 4 || |others| == 5
    requires forall j :: 0 <= j < |others| ==> others[j] as int < 128
    ensures |others| == 3 ==> forall c :: In(c, others) <==> c in {others[0] as int, others[1] as int, others[2] as int}
    ensures |others| == 4 ==> forall c :: In(c, others) <==>
              c in {others[0] as int, others[1] as int, others[2] as int, others[3] as int}
    ensures |others| == 5 ==> forall c :: In(c, others) <==>
              c in {others[0] as int, others[1] as int, others[2] as int, others[3] as int, others[4] as int}
  {
  }

  lemma NamesExactly(t: Text)
    ensures ExecutionId(t) <==> Word(t, "._:-", 128)
    ensures AuthorityName(t) <==> Word(t, "._@+-", 128)
    ensures Repository(t) <==> Word(t, "._/-", 128)
    ensures SubjectName(t) <==> Word(t, "._-", 253)
  {
    CodesOf("._:-");
    WordsExactly(t, "._:-", 128, {46, 95, 58, 45});
    CodesOf("._@+-");
    WordsExactly(t, "._@+-", 128, {46, 95, 64, 43, 45});
    CodesOf("._/-");
    WordsExactly(t, "._/-", 128, {46, 95, 47, 45});
    CodesOf("._-");
    WordsExactly(t, "._-", 253, {46, 95, 45});
  }

  lemma SafeIdExactly(t: Text)
    ensures Controllers.SafeId(t) <==> |t| == 26 && forall i :: 0 <= i < 26 ==> In(t[i], DIGITS) || In(t[i], LETTERS)
  {
    forall i | 0 <= i < |t| ensures (In(t[i], DIGITS) || In(t[i], LETTERS)) <==> 48 <= t[i] <= 57 || 97 <= t[i] <= 122 {
      DigitsAre(t[i]);
      LettersAre(t[i]);
    }
  }

  /** Hexadecimal digits in groups of 8, 4, 4, 4 and 12, with a minus sign between them. */
  predicate Grouped(t: Text) {
    && |t| == 36 && Over(t[..8], HEX) && t[8] == '-' as int && Over(t[9..13], HEX) && t[13] == '-' as int
    && Over(t[14..18], HEX) && t[18] == '-' as int && Over(t[19..23], HEX) && t[23] == '-' as int && Over(t[24..], HEX)
  }

  lemma UuidExactly(t: Text)
    ensures CanonicalUuid(t) <==> Grouped(t)
  {
    if |t| == 36 {
      forall i | 0 <= i < 36 ensures In(t[i], HEX) <==> LowerHex(t[i]) { HexAre(t[i]); }
      if Grouped(t) {
        forall i | 0 <= i < 36
          ensures if i == 8 || i == 13 || i == 18 || i == 23 then t[i] == 45 else LowerHex(t[i])
        {
          if i < 8 { assert t[..8][i] == t[i]; }
          else if 8 < i < 13 { assert t[9..13][i - 9] == t[i]; }
          else if 13 < i < 18 { assert t[14..18][i - 14] == t[i]; }
          else if 18 < i < 23 { assert t[19..23][i - 19] == t[i]; }
          else if 23 < i { assert t[24..][i - 24] == t[i]; }
        }
      }
    }
  }
}
