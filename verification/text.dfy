/** String helpers shared by the model: ASCII lower-casing, substring search
    and decimal rendering of integers. */
module Text {

  /** Lower-cases one character; only the ASCII letters A-Z change. */
  function LowerChar(c: char): (r: char)
    ensures 'A' <= c <= 'Z' ==> 'a' <= r <= 'z' && r as int - c as int == 32
    ensures !('A' <= c <= 'Z') ==> r == c
  {
    if 'A' <= c <= 'Z' then (c as int + 32) as char else c
  }

  /** JavaScript's `toLowerCase`, restricted to ASCII letters. */
  function Lower(s: string): (r: string)
    ensures |r| == |s|
    ensures forall i :: 0 <= i < |s| ==> r[i] == LowerChar(s[i])
  {
    seq(|s|, i requires 0 <= i < |s| => LowerChar(s[i]))
  }

  /** Lower-casing twice is lower-casing once. */
  lemma LowerIdempotent(s: string)
    ensures Lower(Lower(s)) == Lower(s)
  {
  }

  /** Lower-casing distributes over concatenation. */
  lemma LowerAppend(a: string, b: string)
    ensures Lower(a + b) == Lower(a) + Lower(b)
  {
  }

  /** Two strings that agree up to ASCII case have the same lower-case form. */
  predicate SameIgnoringCase(a: string, b: string) {
    |a| == |b| && forall i :: 0 <= i < |a| ==> LowerChar(a[i]) == LowerChar(b[i])
  }

  /** `t` occurs in `s` at position `i`. */
  predicate OccursAt(s: string, t: string, i: int) {
    0 <= i && i + |t| <= |s| && s[i..i + |t|] == t
  }

  /** JavaScript's `s.includes(t)`: is `t` a contiguous substring of `s`? */
  function Includes(s: string, t: string): (r: bool)
    ensures r <==> exists i :: OccursAt(s, t, i)
    decreases |s|
  {
    if |t| > |s| then
      false
    else if t <= s then
      assert OccursAt(s, t, 0);
      true
    else
      IncludesStep(s, t);
      Includes(s[1..], t)
  }

  /** When `t` is not a prefix of `s`, its occurrences in `s` are exactly
      its occurrences in `s[1..]`, shifted by one. */
  lemma IncludesStep(s: string, t: string)
    requires |t| <= |s| && !(t <= s)
    ensures (exists i :: OccursAt(s, t, i)) <==> (exists j :: OccursAt(s[1..], t, j))
  {
    var tail := s[1..];
    if j :| OccursAt(tail, t, j) {
      assert s[j + 1..j + 1 + |t|] == tail[j..j + |t|];
      assert OccursAt(s, t, j + 1);
    }
    if i :| OccursAt(s, t, i) {
      if i == 0 {
        assert false;
      }
      assert tail[i - 1..i - 1 + |t|] == s[i..i + |t|];
      assert OccursAt(tail, t, i - 1);
    }
  }

  /** A substring occurrence survives extending the string on the right. */
  lemma IncludesExtend(s: string, x: string, t: string)
    requires Includes(s, t)
    ensures Includes(s + x, t)
  {
    var i :| OccursAt(s, t, i);
    assert (s + x)[i..i + |t|] == s[i..i + |t|];
    assert OccursAt(s + x, t, i);
  }

  /** `t` occurs in `s` at position `i` up to ASCII case. */
  predicate OccursIgnoringCaseAt(s: string, t: string, i: int) {
    0 <= i && i + |t| <= |s| && SameIgnoringCase(s[i..i + |t|], t)
  }

  /** For a lower-case `t`, searching the lower-cased `s` finds exactly the
      occurrences of `t` in `s` up to ASCII case. */
  lemma IncludesLowerIff(s: string, t: string)
    requires Lower(t) == t
    ensures Includes(Lower(s), t) <==> exists i :: OccursIgnoringCaseAt(s, t, i)
  {
    var ls := Lower(s);
    forall i | 0 <= i && i + |t| <= |s|
      ensures OccursAt(ls, t, i) <==> OccursIgnoringCaseAt(s, t, i)
    {
      if OccursAt(ls, t, i) {
        forall k | 0 <= k < |t|
          ensures LowerChar(s[i..i + |t|][k]) == LowerChar(t[k])
        {
          assert ls[i..i + |t|][k] == ls[i + k];
          assert Lower(t)[k] == LowerChar(t[k]);
        }
      }
      if OccursIgnoringCaseAt(s, t, i) {
        forall k | 0 <= k < |t|
          ensures ls[i..i + |t|][k] == t[k]
        {
          assert LowerChar(s[i..i + |t|][k]) == LowerChar(t[k]);
          assert Lower(t)[k] == LowerChar(t[k]);
        }
        assert ls[i..i + |t|] == t;
      }
    }
    if Includes(ls, t) {
      var i :| OccursAt(ls, t, i);
      assert OccursIgnoringCaseAt(s, t, i);
    }
    if i :| OccursIgnoringCaseAt(s, t, i) {
      assert OccursAt(ls, t, i);
    }
  }

  predicate IsDigit(c: char) {
    '0' <= c <= '9'
  }

  function DigitChar(d: nat): (c: char)
    requires d < 10
    ensures IsDigit(c)
  {
    ('0' as int + d) as char
  }

  function DigitValue(c: char): (d: nat)
    requires IsDigit(c)
    ensures d < 10
  {
    c as int - '0' as int
  }

  /** The decimal rendering of a non-negative integer, as `${n}` prints it. */
  function NatToString(n: nat): (r: string)
    ensures |r| >= 1
    ensures forall i :: 0 <= i < |r| ==> IsDigit(r[i])
    ensures |r| > 1 ==> r[0] != '0'
    decreases n
  {
    if n < 10 then [DigitChar(n)] else NatToString(n / 10) + [DigitChar(n % 10)]
  }

  /** Reads a string of decimal digits back as a number. */
  function DecimalValue(s: string): nat
    requires forall i :: 0 <= i < |s| ==> IsDigit(s[i])
  {
    if |s| == 0 then 0 else 10 * DecimalValue(s[..|s| - 1]) + DigitValue(s[|s| - 1])
  }

  /** Rendering then reading back gives the original number. */
  lemma {:induction false} DecimalRoundTrip(n: nat)
    ensures DecimalValue(NatToString(n)) == n
    decreases n
  {
    var r := NatToString(n);
    if n >= 10 {
      DecimalRoundTrip(n / 10);
      assert r[..|r| - 1] == NatToString(n / 10);
    }
  }

  /** Decimal rendering is injective: different numbers print differently. */
  lemma NatToStringInjective(m: nat, n: nat)
    requires NatToString(m) == NatToString(n)
    ensures m == n
  {
    DecimalRoundTrip(m);
    DecimalRoundTrip(n);
  }

  /** The decimal rendering of any integer, with a leading '-' when negative. */
  function IntToString(n: int): (r: string)
    ensures |r| >= 1
    ensures n >= 0 ==> r == NatToString(n)
    ensures n < 0 ==> r == "-" + NatToString(-n)
  {
    if n >= 0 then NatToString(n) else "-" + NatToString(-n)
  }
}
