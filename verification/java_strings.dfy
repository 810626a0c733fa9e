/**
 * The few java.lang.String operations the task manager relies on:
 * `contains`, `toLowerCase`, `equalsIgnoreCase` and the decimal text of a
 * `Long` (string concatenation `"..." + id`).
 */
module JavaStrings {

  /** `prefix` is an initial segment of `s` (Java's `startsWith`). */
  predicate StartsWith(s: string, prefix: string) {
    |prefix| <= |s| && s[..|prefix|] == prefix
  }

  /**
   * Java's `s.contains(needle)`, scanning from the left. The empty needle
   * is in every string, and a needle longer than `s` is in none.
   */
  predicate Contains(s: string, needle: string): (r: bool)
    ensures needle == [] ==> r
    ensures r ==> |needle| <= |s|
    decreases |s|
  {
    StartsWith(s, needle) || (|s| > 0 && Contains(s[1..], needle))
  }

  /** Reference definition of an occurrence: `needle` sits in `s` at index `i`. */
  ghost predicate OccursAt(s: string, needle: string, i: int) {
    0 <= i && i + |needle| <= |s| && s[i..i + |needle|] == needle
  }

  /** Any occurrence is found by the scan. */
  lemma {:induction false} OccursImpliesContains(s: string, needle: string, i: int)
    requires OccursAt(s, needle, i)
    ensures Contains(s, needle)
    decreases i
  {
    if i == 0 {
      assert s[..|needle|] == s[0..|needle|];
    } else {
      assert s[1..][i - 1..i - 1 + |needle|] == s[i..i + |needle|];
      OccursImpliesContains(s[1..], needle, i - 1);
    }
  }

  /** The scan only succeeds on an actual occurrence. */
  lemma {:induction false} ContainsImpliesOccurs(s: string, needle: string)
    requires Contains(s, needle)
    ensures exists i :: OccursAt(s, needle, i)
    decreases |s|
  {
    if StartsWith(s, needle) {
      assert OccursAt(s, needle, 0);
    } else {
      ContainsImpliesOccurs(s[1..], needle);
      var i :| OccursAt(s[1..], needle, i);
      assert s[1..][i..i + |needle|] == s[i + 1..i + 1 + |needle|];
      assert OccursAt(s, needle, i + 1);
    }
  }

  /** A needle holding a character that `s` lacks never occurs in `s`. */
  lemma MissingCharExcludes(s: string, needle: string, j: int)
    requires 0 <= j < |needle|
    requires forall k :: 0 <= k < |s| ==> s[k] != needle[j]
    ensures !Contains(s, needle)
  {
    if Contains(s, needle) {
      ContainsImpliesOccurs(s, needle);
      assert false;
    }
  }

  /** An occurrence inside `mid` is an occurrence inside `pre + mid + post`. */
  lemma ContainsInMiddle(pre: string, mid: string, post: string, needle: string)
    requires Contains(mid, needle)
    ensures Contains(pre + mid + post, needle)
  {
    ContainsImpliesOccurs(mid, needle);
    var i :| OccursAt(mid, needle, i);
    var s := pre + mid + post;
    assert s[|pre| + i..|pre| + i + |needle|] == mid[i..i + |needle|];
    OccursImpliesContains(s, needle, |pre| + i);
  }

  /** Java's `Character.toLowerCase` restricted to ASCII letters. */
  function LowerChar(c: char): char {
    if 'A' <= c <= 'Z' then (c as int - 'A' as int + 'a' as int) as char else c
  }

  /** Java's `String.toLowerCase`, on ASCII letters, character by character. */
  function ToLowerCase(s: string): (r: string)
    ensures |r| == |s|
    ensures forall i :: 0 <= i < |s| ==> r[i] == LowerChar(s[i])
    decreases |s|
  {
    if s == [] then [] else [LowerChar(s[0])] + ToLowerCase(s[1..])
  }

  /** Case-insensitive matching: an occurrence survives lower-casing. */
  lemma ContainsLower(s: string, needle: string)
    requires Contains(s, needle)
    ensures Contains(ToLowerCase(s), ToLowerCase(needle))
  {
    ContainsImpliesOccurs(s, needle);
    var i :| OccursAt(s, needle, i);
    var ls, ln := ToLowerCase(s), ToLowerCase(needle);
    forall k | 0 <= k < |ln| ensures ls[i..i + |ln|][k] == ln[k] {
      assert s[i..i + |needle|][k] == needle[k];
    }
    assert ls[i..i + |ln|] == ln;
    OccursImpliesContains(ls, ln, i);
  }

  /** Text without upper-case letters is its own lower case. */
  lemma LowerCaseFixed(s: string)
    requires forall c :: c in s ==> !('A' <= c <= 'Z')
    ensures ToLowerCase(s) == s
  {
    assert forall k :: 0 <= k < |s| ==> s[k] in s;
  }

  /** A phrase inside a message, in whatever case, is found after lower-casing both. */
  lemma ContainsIgnoringCase(message: string, pre: string, phrase: string, post: string)
    requires message == pre + phrase + post
    ensures Contains(ToLowerCase(message), ToLowerCase(phrase))
  {
    OccursImpliesContains(phrase, phrase, 0);
    ContainsInMiddle(pre, phrase, post, phrase);
    ContainsLower(message, phrase);
  }

  /**
   * Java's `a.equalsIgnoreCase(b)`, on ASCII letters: equal strings match,
   * and matching strings have the same length.
   */
  predicate EqualsIgnoreCase(a: string, b: string): (r: bool)
    ensures a == b ==> r
    ensures r ==> |a| == |b|
  {
    ToLowerCase(a) == ToLowerCase(b)
  }

  /** The eight spellings that equal "asc" ignoring case, and nothing else. */
  lemma EqualsIgnoreCaseAsc(s: string)
    ensures EqualsIgnoreCase(s, "asc") <==>
      |s| == 3 && (s[0] == 'a' || s[0] == 'A') && (s[1] == 's' || s[1] == 'S') && (s[2] == 'c' || s[2] == 'C')
  {
    var asc := ToLowerCase("asc");
    assert asc == "asc" by {
      assert asc[0] == LowerChar('a') && asc[1] == LowerChar('s') && asc[2] == LowerChar('c');
    }
    if |s| == 3 {
      var l := ToLowerCase(s);
      assert l == [l[0], l[1], l[2]];
    }
  }

  predicate IsDigit(c: char) {
    '0' <= c <= '9'
  }

  function DigitChar(d: int): (c: char)
    requires 0 <= d < 10
    ensures IsDigit(c)
  {
    ('0' as int + d) as char
  }

  /** Decimal text of a natural number, most significant digit first. */
  function NatToString(n: nat): (s: string)
    ensures |s| > 0
    ensures forall i :: 0 <= i < |s| ==> IsDigit(s[i])
    decreases n
  {
    if n < 10 then [DigitChar(n)] else NatToString(n / 10) + [DigitChar(n % 10)]
  }

  /** Reference reading of a digit string back into its value. */
  function DigitsValue(s: string): int
    requires forall i :: 0 <= i < |s| ==> IsDigit(s[i])
    decreases |s|
  {
    if s == [] then 0 else DigitsValue(s[..|s| - 1]) * 10 + (s[|s| - 1] as int - '0' as int)
  }

  lemma {:induction false} NatToStringRoundTrip(n: nat)
    ensures DigitsValue(NatToString(n)) == n
    decreases n
  {
    if n >= 10 {
      var s := NatToString(n);
      assert s[..|s| - 1] == NatToString(n / 10);
      NatToStringRoundTrip(n / 10);
    }
  }

  /** Java's `Long.toString` (what `"..." + id` appends): optional minus sign, then digits. */
  function IntToString(x: int): (s: string)
    ensures |s| > 0
    ensures forall i :: 0 <= i < |s| ==> IsDigit(s[i]) || s[i] == '-'
    ensures s[0] == '-' <==> x < 0
  {
    if x < 0 then "-" + NatToString(-x) else NatToString(x)
  }

  /** Text `Long.parseLong` accepts: an optional minus sign, then at least one digit. */
  predicate IsIntText(s: string) {
    && |s| > 0
    && (IsDigit(s[0]) || s[0] == '-')
    && (forall i :: 1 <= i < |s| ==> IsDigit(s[i]))
    && (s[0] == '-' ==> |s| > 1)
  }

  /** Reading the text back as Java's `Long.parseLong` would. */
  function ParseInt(s: string): int
    requires IsIntText(s)
  {
    if s[0] == '-' then -DigitsValue(s[1..]) else DigitsValue(s)
  }

  /** The decimal text of an id names that id and no other. */
  lemma IntToStringRoundTrip(x: int)
    ensures IsIntText(IntToString(x))
    ensures ParseInt(IntToString(x)) == x
  {
    if x < 0 {
      assert IntToString(x)[1..] == NatToString(-x);
      NatToStringRoundTrip(-x);
    } else {
      NatToStringRoundTrip(x);
    }
  }
}
