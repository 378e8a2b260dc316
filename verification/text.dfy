/** ASCII text: case, blanks, substrings and character-by-character order. */
module Text {
  import opened Options

  // ---- Case ---------------------------------------------------------------------------

  function UpperChar(c: char): char {
    if 'a' <= c <= 'z' then ((c as int) - 32) as char else c
  }

  function LowerChar(c: char): char {
    if 'A' <= c <= 'Z' then ((c as int) + 32) as char else c
  }

  function Upper(s: string): (r: string)
    ensures |r| == |s|
    ensures forall i :: 0 <= i < |s| ==> r[i] == UpperChar(s[i])
  {
    seq(|s|, i requires 0 <= i < |s| => UpperChar(s[i]))
  }

  function Lower(s: string): (r: string)
    ensures |r| == |s|
    ensures forall i :: 0 <= i < |s| ==> r[i] == LowerChar(s[i])
  {
    seq(|s|, i requires 0 <= i < |s| => LowerChar(s[i]))
  }

  const LOWER_LETTERS := "abcdefghijklmnopqrstuvwxyz"
  const UPPER_LETTERS := "ABCDEFGHIJKLMNOPQRSTUVWXYZ"

  lemma LetterCodes(k: nat)
    requires k < 26
    ensures LOWER_LETTERS[k] as int == 97 + k && UPPER_LETTERS[k] as int == 65 + k
  {}

  /** Case goes letter by letter through the alphabet. */
  lemma CaseTable(k: nat)
    requires k < 26
    ensures UpperChar(LOWER_LETTERS[k]) == UPPER_LETTERS[k] && LowerChar(UPPER_LETTERS[k]) == LOWER_LETTERS[k]
  {
    LetterCodes(k);
  }

  /** All other characters stay as they are. */
  lemma CaselessCharacters(c: char)
    ensures c !in LOWER_LETTERS ==> UpperChar(c) == c
    ensures c !in UPPER_LETTERS ==> LowerChar(c) == c
  {
    if 'a' <= c <= 'z' { LetterCodes(c as int - 97); }
    if 'A' <= c <= 'Z' { LetterCodes(c as int - 65); }
  }

  // ---- Characters ------------------------------------------------------------------------

  const NUL: char := 0 as char

  /** The digit character of a decimal digit. */
  function DigitChar(k: nat): char
    requires k < 10
  {
    (('0' as int) + k) as char
  }

  /** Whitespace in C and C++. */
  predicate CSpace(c: char) { c in " \t\n\r" || c as int in {11, 12} }

  /** ASCII whitespace in Python. */
  predicate PySpace(c: char) { CSpace(c) || 28 <= c as int <= 31 }

  /** Space and the codes 9 to 13, in Python also 28 to 31. */
  lemma SpaceCodes(c: char)
    ensures CSpace(c) <==> c as int == 32 || 9 <= c as int <= 13
    ensures PySpace(c) <==> CSpace(c) || 28 <= c as int <= 31
  {}

  const IS_C_SPACE: char -> bool := c => CSpace(c)
  const IS_PY_SPACE: char -> bool := c => PySpace(c)
  const IS_BLANK: char -> bool := c => c == ' '

  // ---- Trimming ----------------------------------------------------------------------------

  function StripLeft(s: string, drop: char -> bool): string {
    if s != [] && drop(s[0]) then StripLeft(s[1..], drop) else s
  }

  function StripRight(s: string, drop: char -> bool): string {
    if s != [] && drop(s[|s| - 1]) then StripRight(s[..|s| - 1], drop) else s
  }

  /** A text without the characters at its ends that a test drops. */
  function Strip(s: string, drop: char -> bool): string { StripRight(StripLeft(s, drop), drop) }

  lemma {:induction false} StripLeftStart(s: string, drop: char -> bool)
    ensures var t := StripLeft(s, drop); |t| <= |s| && (t != [] ==> !drop(t[0]))
  {
    if s != [] && drop(s[0]) { StripLeftStart(s[1..], drop); }
  }

  lemma {:induction false} StripRightEnd(s: string, drop: char -> bool)
    ensures var t := StripRight(s, drop); |t| <= |s| && t == s[..|t|] && (t != [] ==> !drop(t[|t| - 1]))
  {
    if s != [] && drop(s[|s| - 1]) { StripRightEnd(s[..|s| - 1], drop); }
  }

  /** What stripping the right leaves is a prefix that ends in a kept character, with only
      dropped ones behind it. */
  lemma {:induction false} StripRightIff(s: string, drop: char -> bool, k: nat)
    requires k <= |s|
    ensures StripRight(s, drop) == s[..k]
            <==> (k > 0 ==> !drop(s[k - 1])) && forall i :: k <= i < |s| ==> drop(s[i])
  {
    StripRightEnd(s, drop);
    if s == [] || !drop(s[|s| - 1]) {
      assert s[..|s|] == s;
    } else if k == |s| {
    } else {
      StripRightIff(s[..|s| - 1], drop, k);
      assert s[..|s| - 1][..k] == s[..k];
    }
  }

  /** What is left of a text without the dropped characters at its ends, however found. */
  ghost predicate Trimmed(s: string, t: string, drop: char -> bool) {
    exists i, j :: TrimmedTo(s, t, drop, i, j)
  }

  ghost predicate TrimmedTo(s: string, t: string, drop: char -> bool, i: int, j: int) {
    && 0 <= i <= j <= |s| && t == s[i..j]
    && (forall k :: 0 <= k < i || j <= k < |s| ==> drop(s[k]))
    && (t != [] ==> !drop(t[0]) && !drop(t[|t| - 1]))
  }

  lemma {:induction false} StripLeftIs(s: string, drop: char -> bool)
    ensures var i := |s| - |StripLeft(s, drop)|;
            0 <= i <= |s| && StripLeft(s, drop) == s[i..] && forall k :: 0 <= k < i ==> drop(s[k])
  {
    if s != [] && drop(s[0]) {
      StripLeftIs(s[1..], drop);
      var i := |s| - |StripLeft(s, drop)|;
      assert s[1..][i - 1..] == s[i..];
      forall k | 0 < k < i ensures drop(s[k]) { assert s[1..][k - 1] == s[k]; }
    }
  }

  /** Stripping finds it, and there is only one answer. */
  lemma StripIs(s: string, t: string, drop: char -> bool)
    ensures Trimmed(s, t, drop) <==> t == Strip(s, drop)
  {
    var l, r := StripLeft(s, drop), Strip(s, drop);
    StripLeftIs(s, drop);
    StripLeftStart(s, drop);
    StripRightEnd(l, drop);
    StripRightIff(l, drop, |r|);
    var i := |s| - |l|;
    assert forall k :: 0 <= k < |l| ==> l[k] == s[i + k];
    assert TrimmedTo(s, r, drop, i, i + |r|);
    if Trimmed(s, t, drop) {
      var i', j' :| TrimmedTo(s, t, drop, i', j');
      TrimmedOnce(s, t, i', j', r, i, i + |r|, drop);
    }
  }

  lemma TrimmedOnce(s: string, t: string, i: int, j: int, t': string, i': int, j': int, drop: char -> bool)
    requires TrimmedTo(s, t, drop, i, j) && TrimmedTo(s, t', drop, i', j')
    ensures t == t'
  {
    if t != [] { assert t[0] == s[i] && t[|t| - 1] == s[j - 1]; }
    if t' != [] { assert t'[0] == s[i'] && t'[|t'| - 1] == s[j' - 1]; }
  }

  // ---- Decimal numbers ------------------------------------------------------------------

  predicate AllDigits(s: string) { forall i :: 0 <= i < |s| ==> '0' <= s[i] <= '9' }

  /** `std::to_string` of a number that is not negative. */
  function Decimal(n: nat): (s: string)
    ensures s != [] && AllDigits(s)
  {
    if n < 10 then [DigitChar(n)] else Decimal(n / 10) + [DigitChar(n % 10)]
  }

  /** `atoi` of digits. */
  function NumberOf(s: string): nat
    requires AllDigits(s)
  {
    if s == [] then 0 else 10 * NumberOf(s[..|s| - 1]) + (s[|s| - 1] as int - '0' as int)
  }

  lemma DigitTable(k: nat)
    requires k < 10
    ensures DigitChar(k) == "0123456789"[k]
  {}

  /** Reading undoes printing, leading zeros count for nothing, and so every text of digits
      reads as a number it is the print of, but for leading zeros. */
  lemma {:induction false} NumberOfDecimal(n: nat)
    ensures NumberOf(Decimal(n)) == n
  {
    if n >= 10 {
      NumberOfDecimal(n / 10);
      assert Decimal(n)[..|Decimal(n)| - 1] == Decimal(n / 10);
    }
  }

  lemma {:induction false} LeadingZero(s: string)
    requires AllDigits(s)
    ensures AllDigits("0" + s) && NumberOf("0" + s) == NumberOf(s)
  {
    if s == [] {
      assert ("0" + s)[..0] == [];
    } else {
      LeadingZero(s[..|s| - 1]);
      assert ("0" + s)[..|s|] == "0" + s[..|s| - 1];
    }
  }

  lemma {:induction false} DecimalOfNumber(s: string)
    requires AllDigits(s) && s != [] && (s[0] != '0' || |s| == 1)
    ensures Decimal(NumberOf(s)) == s
    ensures s[0] != '0' ==> NumberOf(s) > 0
  {
    var init := s[..|s| - 1];
    if |s| == 1 {
      assert init == [];
    } else {
      DecimalOfNumber(init);
      assert s == init + [s[|s| - 1]];
    }
  }

  lemma Regroup<T>(a: seq<T>, b: seq<T>, c: seq<T>)
    ensures (a + b) + c == a + (b + c)
  {}

  // ---- Substrings -----------------------------------------------------------------------

  predicate OccursAt(s: string, pat: string, i: nat) {
    i + |pat| <= |s| && s[i..i + |pat|] == pat
  }

  ghost predicate Contains(s: string, pat: string) {
    exists i: nat :: OccursAt(s, pat, i)
  }

  lemma CharOfOccurrence(s: string, pat: string, i: nat, k: nat)
    requires OccursAt(s, pat, i) && k < |pat|
    ensures s[i + k] == pat[k]
  {
    assert s[i..i + |pat|][k] == s[i + k];
  }

  /** An occurrence inside a slice is an occurrence in the whole, moved. */
  lemma OccurrenceInSlice(s: string, pat: string, from: nat, to: nat, i: nat)
    requires from <= to <= |s| && i + |pat| <= to - from
    ensures OccursAt(s[from..to], pat, i) <==> OccursAt(s, pat, from + i)
  {
    var t, n := s[from..to], |pat|;
    var a, b := t[i..i + n], s[from + i..from + i + n];
    forall k | 0 <= k < n ensures a[k] == b[k] { assert a[k] == t[i + k] == s[from + i + k]; }
    assert a == b;
  }

  /** The first occurrence of a pattern at or after a position, as `std::string::find`. */
  function Find(s: string, pat: string, from: nat): (r: Option<nat>)
    ensures r.Some? ==> from <= r.value && OccursAt(s, pat, r.value)
    ensures r.Some? ==> forall i: nat :: from <= i < r.value ==> !OccursAt(s, pat, i)
    ensures r.None? ==> forall i: nat :: from <= i ==> !OccursAt(s, pat, i)
    decreases |s| - from
  {
    if OccursAt(s, pat, from) then Some(from)
    else if from >= |s| then None
    else Find(s, pat, from + 1)
  }

  // ---- Order ------------------------------------------------------------------------------

  /** The usual order of strings: the first differing character decides. */
  predicate LexLess(a: string, b: string) {
    if b == [] then false
    else if a == [] then true
    else a[0] < b[0] || (a[0] == b[0] && LexLess(a[1..], b[1..]))
  }

  /** Heads of equal length are compared before tails. */
  lemma {:induction false} LexLessOfConcat(a: string, b: string, a': string, b': string)
    requires |a| == |a'|
    ensures LexLess(a + b, a' + b') <==> LexLess(a, a') || (a == a' && LexLess(b, b'))
  {
    if a == [] {
      assert a + b == b && a' + b' == b';
    } else {
      assert (a + b)[1..] == a[1..] + b && (a' + b')[1..] == a'[1..] + b';
      LexLessOfConcat(a[1..], b, a'[1..], b');
      assert a == [a[0]] + a[1..] && a' == [a'[0]] + a'[1..];
    }
  }
}
