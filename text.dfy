/**
 * String primitives shared by the model: substring search (`String.prototype.includes`,
 * `indexOf`), ASCII case folding, decimal digits (`parseInt(_, 10)` on a run of digits)
 * and decimal printing of integers (template-literal interpolation of a number).
 */
module Text {
  import opened Wrappers

  /** `pat` occurs in `s` starting at index `i`. */
  predicate OccursAt(s: string, pat: string, i: nat) {
    i + |pat| <= |s| && s[i..i + |pat|] == pat
  }

  /** `s.includes(pat)`. */
  predicate Contains(s: string, pat: string) {
    exists i: nat | i <= |s| :: OccursAt(s, pat, i)
  }

  /** `s.indexOf(pat, from)`: the first index at or after `from` where `pat` occurs. */
  function FindFrom(s: string, pat: string, from: nat): Option<nat>
    decreases |s| - from
  {
    if from + |pat| > |s| then None
    else if OccursAt(s, pat, from) then Some(from)
    else FindFrom(s, pat, from + 1)
  }

  /** The scan finds the first occurrence at or after `from`, and finds none only when there is none. */
  lemma {:induction false} FindFromLeftmost(s: string, pat: string, from: nat)
    ensures var r := FindFrom(s, pat, from);
            (r.Some? ==> from <= r.value && OccursAt(s, pat, r.value)) &&
            (r.Some? ==> forall j: nat :: from <= j < r.value ==> !OccursAt(s, pat, j)) &&
            (r.None? ==> forall j: nat :: from <= j ==> !OccursAt(s, pat, j))
    decreases |s| - from
  {
    if from + |pat| <= |s| && !OccursAt(s, pat, from) {
      FindFromLeftmost(s, pat, from + 1);
    }
  }

  /** `s.indexOf(pat)`. */
  function Find(s: string, pat: string): Option<nat> {
    FindFrom(s, pat, 0)
  }

  /** `indexOf` answers `-1` exactly when `includes` answers false, and otherwise the first occurrence. */
  lemma FindSpec(s: string, pat: string)
    ensures var r := Find(s, pat);
            (r.None? <==> !Contains(s, pat)) &&
            (r.Some? ==> OccursAt(s, pat, r.value) && r.value <= |s| && forall j: nat :: j < r.value ==> !OccursAt(s, pat, j))
  {
    FindFromLeftmost(s, pat, 0);
  }

  /** An occurrence inside a prefix of `s` is an occurrence in `s`. */
  lemma OccursInPrefix(s: string, n: nat, pat: string, i: nat)
    requires n <= |s| && OccursAt(s[..n], pat, i)
    ensures OccursAt(s, pat, i)
  {
    assert s[..n][i..i + |pat|] == s[i..i + |pat|];
  }

  /** An occurrence inside a suffix of `s` is an occurrence in `s`, shifted. */
  lemma OccursInSuffix(s: string, n: nat, pat: string, i: nat)
    requires n <= |s| && OccursAt(s[n..], pat, i)
    ensures OccursAt(s, pat, n + i)
  {
    assert s[n..][i..i + |pat|] == s[n + i..n + i + |pat|];
  }

  // ----- ASCII case folding -----

  /** `toLowerCase` restricted to ASCII: A-Z map to a-z, every other character is kept. */
  function LowerChar(c: char): (r: char)
    ensures 'A' <= c <= 'Z' ==> r as int == c as int + 32
    ensures !('A' <= c <= 'Z') ==> r == c
  {
    if 'A' <= c <= 'Z' then (c as int + 32) as char else c
  }

  function Lower(s: string): (r: string)
    ensures |r| == |s|
    ensures forall i :: 0 <= i < |s| ==> r[i] == LowerChar(s[i])
  {
    seq(|s|, i requires 0 <= i < |s| => LowerChar(s[i]))
  }

  lemma LowerIdempotent(s: string)
    ensures Lower(Lower(s)) == Lower(s)
  {
  }

  // ----- decimal digits -----

  predicate IsDigit(c: char) {
    '0' <= c <= '9'
  }

  predicate AllDigits(s: string) {
    forall i :: 0 <= i < |s| ==> IsDigit(s[i])
  }

  function DigitValue(c: char): (d: nat)
    requires IsDigit(c)
    ensures d < 10
  {
    c as int - '0' as int
  }

  function DigitChar(d: nat): (c: char)
    requires d < 10
    ensures IsDigit(c) && DigitValue(c) == d
  {
    ('0' as int + d) as char
  }

  /** `parseInt(s, 10)` of a string made only of decimal digits, read left to right. */
  function DecimalValue(s: string): (v: nat)
    requires AllDigits(s)
    decreases |s|
  {
    if s == [] then 0 else 10 * DecimalValue(s[..|s| - 1]) + DigitValue(s[|s| - 1])
  }

  /** The shortest decimal spelling of a natural number (no leading zeros). */
  function NatToString(n: nat): (s: string)
    ensures |s| >= 1 && AllDigits(s)
    ensures |s| > 1 ==> s[0] != '0'
    decreases n
  {
    if n < 10 then [DigitChar(n)] else NatToString(n / 10) + [DigitChar(n % 10)]
  }

  /**
   * How JavaScript prints an integral number: the shortest decimal spelling of its
   * magnitude, after a minus sign for negatives.
   */
  function IntToString(n: int): (s: string)
    ensures n >= 0 ==> AllDigits(s) && DecimalValue(s) == n && (|s| > 1 ==> s[0] != '0')
    ensures n < 0 ==> |s| >= 2 && s[0] == '-' && AllDigits(s[1..]) && DecimalValue(s[1..]) == -n && s[1] != '0'
  {
    if n >= 0 then
      DecimalOfNatToString(n);
      NatToString(n)
    else
      var m := NatToString(-n);
      DecimalOfNatToString(-n);
      assert ("-" + m)[1..] == m;
      "-" + m
  }

  /** Reading back a printed natural number gives the number: `parseInt(String(n), 10) == n`. */
  lemma {:induction false} DecimalOfNatToString(n: nat)
    ensures DecimalValue(NatToString(n)) == n
    decreases n
  {
    var s := NatToString(n);
    if n >= 10 {
      DecimalOfNatToString(n / 10);
      assert s[..|s| - 1] == NatToString(n / 10);
    }
  }
}
