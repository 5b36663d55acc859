/** ASCII text: case, white space, decimal digits, substrings and fields. */
module Text {

  function ToLower(c: char): char {
    if 'A' <= c <= 'Z' then (c as int + 32) as char else c
  }

  function Lower(s: string): (r: string)
    ensures |r| == |s| && forall i | 0 <= i < |s| :: r[i] == ToLower(s[i])
  {
    seq(|s|, i requires 0 <= i < |s| => ToLower(s[i]))
  }

  lemma LowerTwice(s: string)
    ensures Lower(Lower(s)) == Lower(s)
  {
  }

  predicate IsLetterPair(c: char, d: char) {
    'A' <= c <= 'Z' && 'a' <= d <= 'z' && c as int - 'A' as int == d as int - 'a' as int
  }

  /** Folding identifies the two cases of each letter and nothing else. */
  lemma FoldsOnlyCase(c: char, d: char)
    ensures ToLower(c) == ToLower(d) <==> c == d || IsLetterPair(c, d) || IsLetterPair(d, c)
    ensures IsLetterPair(c, d) ==> ToLower(c) == d
  {
  }

  predicate OccursAt(needle: string, hay: string, i: nat) {
    i + |needle| <= |hay| && hay[i..i + |needle|] == needle
  }

  predicate Contains(needle: string, hay: string) {
    exists i: nat | i <= |hay| :: OccursAt(needle, hay, i)
  }

  /** Two texts that contain the same needles are equal. */
  lemma ContainsEachOther(s: string, t: string)
    requires Contains(s, t) && Contains(t, s)
    ensures s == t
  {
  }

  lemma ContainsItself(s: string)
    ensures Contains(s, s)
  {
    assert OccursAt(s, s, 0);
  }

  predicate IsSpace(c: char) {
    c == ' ' || '\t' <= c <= '\r' || 28 as char <= c <= 31 as char
  }

  /** Blank, the five control characters of C's isspace, and the four separators that Python adds. */
  lemma SpaceCharacters(c: char)
    ensures IsSpace(c) <==> c in {' ', '\t', '\n', '\r'} || c as int in {11, 12, 28, 29, 30, 31}
  {
  }

  function TrimLeft(s: string): string {
    if s != "" && IsSpace(s[0]) then TrimLeft(s[1..]) else s
  }

  function TrimRight(s: string): string {
    if s != "" && IsSpace(s[|s| - 1]) then TrimRight(s[..|s| - 1]) else s
  }

  /** Python's str.strip() on ASCII text. */
  function Strip(s: string): string {
    TrimRight(TrimLeft(s))
  }

  predicate AllSpaces(s: string) { forall i | 0 <= i < |s| :: IsSpace(s[i]) }

  predicate NoOuterSpace(s: string) { s != "" ==> !IsSpace(s[0]) && !IsSpace(s[|s| - 1]) }

  lemma {:induction false} TrimLeftParts(s: string) returns (front: string)
    ensures s == front + TrimLeft(s) && AllSpaces(front)
    ensures TrimLeft(s) != "" ==> !IsSpace(TrimLeft(s)[0])
  {
    front := "";
    if s != "" && IsSpace(s[0]) {
      var rest := TrimLeftParts(s[1..]);
      front := [s[0]] + rest;
    }
  }

  lemma {:induction false} TrimRightParts(s: string) returns (back: string)
    ensures s == TrimRight(s) + back && AllSpaces(back)
    ensures TrimRight(s) != "" ==> !IsSpace(TrimRight(s)[|TrimRight(s)| - 1])
  {
    back := "";
    if s != "" && IsSpace(s[|s| - 1]) {
      var rest := TrimRightParts(s[..|s| - 1]);
      back := rest + [s[|s| - 1]];
    }
  }

  /** Stripping removes white space at both ends and nothing else. */
  lemma StripParts(s: string) returns (front: string, back: string)
    ensures s == front + Strip(s) + back && AllSpaces(front) && AllSpaces(back) && NoOuterSpace(Strip(s))
  {
    front := TrimLeftParts(s);
    back := TrimRightParts(TrimLeft(s));
    assert Strip(s) != "" ==> Strip(s)[0] == TrimLeft(s)[0];
  }

  predicate IsDigit(c: char) { '0' <= c <= '9' }

  predicate AllDigits(s: string) { s != "" && forall i | 0 <= i < |s| :: IsDigit(s[i]) }

  predicate NoSpaces(s: string) { forall i | 0 <= i < |s| :: !IsSpace(s[i]) }

  // ---------------------------------------------------------------------
  // Decimal numbers
  // ---------------------------------------------------------------------

  function Digit(d: nat): char
    requires d < 10
  {
    ('0' as int + d) as char
  }

  /** The usual decimal numeral, without leading zeros. */
  function Digits(n: nat): (s: string)
    ensures AllDigits(s)
  {
    if n < 10 then [Digit(n)] else Digits(n / 10) + [Digit(n % 10)]
  }

  function DigitValue(c: char): nat
    requires IsDigit(c)
  {
    c as int - '0' as int
  }

  function Value(s: string): nat
    requires forall i | 0 <= i < |s| :: IsDigit(s[i])
  {
    if s == "" then 0 else 10 * Value(s[..|s| - 1]) + DigitValue(s[|s| - 1])
  }

  lemma {:induction false} ValueOfDigits(n: nat)
    ensures Value(Digits(n)) == n
  {
    if n >= 10 {
      ValueOfDigits(n / 10);
      var front := Digits(n / 10);
      assert Digits(n)[..|Digits(n)| - 1] == front;
    } else {
      assert Digits(n)[..0] == "";
    }
  }

  function Pow10(k: nat): (p: nat)
    ensures p > 0
  {
    if k == 0 then 1 else 10 * Pow10(k - 1)
  }

  lemma {:induction false} Pow10Splits(j: nat, k: nat)
    ensures Pow10(j + k) == Pow10(j) * Pow10(k)
  {
    if j > 0 {
      Pow10Splits(j - 1, k);
      assert Pow10(j + k) == 10 * (Pow10(j - 1) * Pow10(k));
    }
  }

  lemma {:induction false} DigitsLength(n: nat, k: nat)
    requires k > 0 && n < Pow10(k)
    ensures |Digits(n)| <= k
  {
    if n >= 10 {
      DigitsLength(n / 10, k - 1);
    }
  }

  // ---------------------------------------------------------------------
  // Fields
  // ---------------------------------------------------------------------

  /** The leading characters before the first white space. */
  function Word(s: string): (w: string)
    ensures w <= s && NoSpaces(w)
    ensures |w| < |s| ==> IsSpace(s[|w|])
  {
    if s == "" || IsSpace(s[0]) then "" else [s[0]] + Word(s[1..])
  }

  /** Python's str.split(). */
  function Fields(s: string): seq<string> {
    if s == "" then []
    else if IsSpace(s[0]) then Fields(s[1..])
    else [Word(s)] + Fields(s[|Word(s)|..])
  }

  lemma {:induction false} WordOf(w: string, rest: string)
    requires NoSpaces(w) && (rest == "" || IsSpace(rest[0]))
    ensures Word(w + rest) == w
  {
    if w == "" {
      assert w + rest == rest;
    } else {
      WordOf(w[1..], rest);
      assert (w + rest)[1..] == w[1..] + rest;
    }
  }

  lemma FieldsCons(w: string, rest: string)
    requires w != "" && NoSpaces(w) && (rest == "" || IsSpace(rest[0]))
    ensures Fields(w + rest) == [w] + Fields(rest)
  {
    WordOf(w, rest);
    assert (w + rest)[|w|..] == rest;
  }

  lemma {:induction false} FieldsOfSpaces(s: string)
    requires forall i | 0 <= i < |s| :: IsSpace(s[i])
    ensures Fields(s) == []
  {
    if s != "" {
      FieldsOfSpaces(s[1..]);
    }
  }

  lemma {:induction false} FieldsIgnoreLeading(s: string)
    ensures Fields(TrimLeft(s)) == Fields(s)
  {
    if s != "" && IsSpace(s[0]) {
      FieldsIgnoreLeading(s[1..]);
    }
  }

  lemma {:induction false} FieldsIgnoreLast(s: string, c: char)
    requires IsSpace(c)
    ensures Fields(s + [c]) == Fields(s)
    decreases |s|
  {
    if s == "" {
      FieldsOfSpaces(s + [c]);
    } else if IsSpace(s[0]) {
      FieldsIgnoreLast(s[1..], c);
      assert (s + [c])[1..] == s[1..] + [c];
    } else {
      var w := Word(s);
      var rest := s[|w|..];
      assert s == w + rest && s + [c] == w + (rest + [c]);
      FieldsCons(w, rest);
      FieldsCons(w, rest + [c]);
      FieldsIgnoreLast(rest, c);
    }
  }

  lemma {:induction false} FieldsIgnoreTrailing(s: string)
    ensures Fields(TrimRight(s)) == Fields(s)
  {
    if s != "" && IsSpace(s[|s| - 1]) {
      FieldsIgnoreTrailing(s[..|s| - 1]);
      FieldsIgnoreLast(s[..|s| - 1], s[|s| - 1]);
      assert s == s[..|s| - 1] + [s[|s| - 1]];
    }
  }

  lemma FieldsOfStripped(s: string)
    ensures Fields(Strip(s)) == Fields(s)
  {
    FieldsIgnoreLeading(s);
    FieldsIgnoreTrailing(TrimLeft(s));
  }
}
