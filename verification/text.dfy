/** The string operations the events page relies on: `toLowerCase`, `trim`,
    `includes`, and the decimal rendering of a count in a template literal. */
module Text {

  /** ECMAScript WhiteSpace and LineTerminator code points, the set `trim` strips. */
  predicate IsSpace(c: char) {
    // TAB, LF, VT, FF and CR are the consecutive code points 9 to 13.
    || ('\t' <= c <= '\r') || c == ' ' || c == '\U{00A0}' || c == '\U{1680}'
    || ('\U{2000}' <= c <= '\U{200A}')
    || c == '\U{2028}' || c == '\U{2029}' || c == '\U{202F}' || c == '\U{205F}'
    || c == '\U{3000}' || c == '\U{FEFF}'
  }

  predicate AllSpace(s: string) {
    forall i :: 0 <= i < |s| ==> IsSpace(s[i])
  }

  predicate IsUpper(c: char) {
    'A' <= c <= 'Z'
  }

  /** Lower-cases one character; only the ASCII letters are folded. */
  function LowerChar(c: char): (r: char)
    ensures !IsUpper(r)
    ensures IsSpace(r) <==> IsSpace(c)
  {
    if IsUpper(c) then (c as int + 32) as char else c
  }

  /** The fold is the ASCII one: `A`..`Z` become `a`..`z` letter for letter,
      and every other character is kept. */
  lemma LowerCharFolds(c: char)
    ensures IsUpper(c) ==> 'a' <= LowerChar(c) <= 'z'
    ensures IsUpper(c) ==> LowerChar(c) as int - 'a' as int == c as int - 'A' as int
    ensures !IsUpper(c) ==> LowerChar(c) == c
  {
  }

  /** `s.toLowerCase()`, restricted to ASCII case folding. */
  function Lower(s: string): (r: string)
    ensures |r| == |s|
    ensures forall i :: 0 <= i < |s| ==> r[i] == LowerChar(s[i])
  {
    if |s| == 0 then [] else [LowerChar(s[0])] + Lower(s[1..])
  }

  /** Lower-casing twice is lower-casing once. */
  lemma LowerIdempotent(s: string)
    ensures Lower(Lower(s)) == Lower(s)
  {
    forall i | 0 <= i < |s|
      ensures Lower(Lower(s))[i] == Lower(s)[i]
    {
      assert !IsUpper(Lower(s)[i]);
    }
  }

  /** A string without upper-case ASCII letters is its own lower-cased form. */
  lemma LowerOfLowerCase(s: string)
    requires forall i :: 0 <= i < |s| ==> !IsUpper(s[i])
    ensures Lower(s) == s
  {
  }

  /** Lower-casing keeps white space where it was. */
  lemma LowerKeepsSpace(s: string)
    ensures AllSpace(Lower(s)) <==> AllSpace(s)
  {
    if AllSpace(s) {
      forall i | 0 <= i < |s| ensures IsSpace(Lower(s)[i]) {
        assert IsSpace(s[i]);
      }
    }
    if AllSpace(Lower(s)) {
      forall i | 0 <= i < |s| ensures IsSpace(s[i]) {
        assert IsSpace(Lower(s)[i]);
      }
    }
  }

  /** The first index at or after `i` that does not hold white space. */
  function SpaceRunFrom(s: string, i: nat): (k: nat)
    requires i <= |s|
    ensures i <= k <= |s|
    ensures forall j :: i <= j < k ==> IsSpace(s[j])
    ensures k < |s| ==> !IsSpace(s[k])
    decreases |s| - i
  {
    if i < |s| && IsSpace(s[i]) then SpaceRunFrom(s, i + 1) else i
  }

  /** The end of `s[..hi]` once the white space after index `lo` is dropped. */
  function SpaceRunBack(s: string, lo: nat, hi: nat): (k: nat)
    requires lo <= hi <= |s|
    ensures lo <= k <= hi
    ensures forall j :: k <= j < hi ==> IsSpace(s[j])
    ensures k > lo ==> !IsSpace(s[k - 1])
    decreases hi
  {
    if hi > lo && IsSpace(s[hi - 1]) then SpaceRunBack(s, lo, hi - 1) else hi
  }

  /** Where the trimmed string starts in `s`. */
  function TrimOffset(s: string): nat
    ensures TrimOffset(s) <= |s|
  {
    SpaceRunFrom(s, 0)
  }

  /** `s` is white space, then `r` from offset `o`, then white space, and `r`
      neither starts nor ends with white space. */
  predicate Framed(s: string, o: nat, r: string) {
    && o + |r| <= |s|
    && r == s[o..o + |r|]
    && (forall j :: 0 <= j < o ==> IsSpace(s[j]))
    && (forall j :: o + |r| <= j < |s| ==> IsSpace(s[j]))
    && (r == [] || (!IsSpace(r[0]) && !IsSpace(r[|r| - 1])))
  }

  /** `s.trim()`: `s` is white space, then the result, then white space, and
      the result neither starts nor ends with white space. */
  function Trim(s: string): (r: string)
    ensures TrimOffset(s) + |r| <= |s|
    ensures r == s[TrimOffset(s)..TrimOffset(s) + |r|]
    ensures forall j :: 0 <= j < TrimOffset(s) ==> IsSpace(s[j])
    ensures forall j :: TrimOffset(s) + |r| <= j < |s| ==> IsSpace(s[j])
    ensures r == [] || (!IsSpace(r[0]) && !IsSpace(r[|r| - 1]))
  {
    var lo := SpaceRunFrom(s, 0);
    var hi := SpaceRunBack(s, lo, |s|);
    s[lo..hi]
  }

  /** The trimmed string sits in its input as `Framed` describes. */
  lemma TrimFramed(s: string)
    ensures Framed(s, TrimOffset(s), Trim(s))
  {
  }

  /** Trimming leaves nothing exactly when the input is all white space. */
  lemma TrimEmptyIffAllSpace(s: string)
    ensures Trim(s) == [] <==> AllSpace(s)
  {
    var r := Trim(s);
    if r != [] {
      assert s[TrimOffset(s)] == r[0];
    }
  }

  /** Trimming is idempotent. */
  lemma TrimIdempotent(s: string)
    ensures Trim(Trim(s)) == Trim(s)
  {
    var r := Trim(s);
    assert SpaceRunFrom(r, 0) == 0;
    assert SpaceRunBack(r, 0, |r|) == |r|;
  }

  /** `p` is a prefix of `s`. */
  predicate IsPrefix(p: string, s: string) {
    |p| <= |s| && s[..|p|] == p
  }

  /** `s.includes(q)`: some suffix of `s` starts with `q`. */
  predicate Contains(s: string, q: string): (b: bool)
    ensures b ==> |q| <= |s|
    ensures |q| == 0 ==> b
    decreases |s|
  {
    IsPrefix(q, s) || (|s| > 0 && Contains(s[1..], q))
  }

  /** `q` occurs in `s` at index `i`. */
  predicate OccursAt(s: string, q: string, i: int) {
    0 <= i && i + |q| <= |s| && s[i..i + |q|] == q
  }

  /** The recursive `Contains` agrees with the positional definition of a
      substring occurrence, in both directions. */
  lemma {:induction false} ContainsIffOccurs(s: string, q: string)
    ensures Contains(s, q) <==> exists i :: OccursAt(s, q, i)
    decreases |s|
  {
    if IsPrefix(q, s) {
      assert OccursAt(s, q, 0);
    } else if |s| > 0 {
      ContainsIffOccurs(s[1..], q);
      if Contains(s[1..], q) {
        var i :| OccursAt(s[1..], q, i);
        assert s[i + 1..i + 1 + |q|] == s[1..][i..i + |q|];
        assert OccursAt(s, q, i + 1);
      }
      if exists i :: OccursAt(s, q, i) {
        var i :| OccursAt(s, q, i);
        assert i != 0;
        assert s[1..][i - 1..i - 1 + |q|] == s[i..i + |q|];
        assert OccursAt(s[1..], q, i - 1);
      }
    }
  }

  /** A string never includes a longer one. */
  lemma {:induction false} NotContainsLonger(s: string, q: string)
    requires |s| < |q|
    ensures !Contains(s, q)
    decreases |s|
  {
    if |s| > 0 {
      NotContainsLonger(s[1..], q);
    }
  }

  /** Every string includes itself framed by anything. */
  lemma ContainsInfix(a: string, q: string, b: string)
    ensures Contains(a + q + b, q)
  {
    var s := a + q + b;
    assert s[|a|..|a| + |q|] == q;
    assert OccursAt(s, q, |a|);
    ContainsIffOccurs(s, q);
  }

  // ---------------------------------------------------------------------
  // Decimal numerals: how a count is spelled inside a template literal.

  predicate IsDigit(c: char) {
    '0' <= c <= '9'
  }

  function Digit(d: nat): (c: char)
    requires d < 10
    ensures IsDigit(c)
  {
    ('0' as int + d) as char
  }

  function DigitValue(c: char): nat
    requires IsDigit(c)
  {
    c as int - '0' as int
  }

  /** The decimal spelling of `n`, as `String(n)` gives it for a count. */
  function Decimal(n: nat): (r: string)
    ensures |r| >= 1
    ensures forall i :: 0 <= i < |r| ==> IsDigit(r[i])
    ensures |r| > 1 ==> r[0] != '0'
  {
    if n < 10 then [Digit(n)] else Decimal(n / 10) + [Digit(n % 10)]
  }

  /** Reads a string of digits back as a number. */
  function ParseDecimal(s: string): nat
    requires forall i :: 0 <= i < |s| ==> IsDigit(s[i])
  {
    if |s| == 0 then 0
    else 10 * ParseDecimal(s[..|s| - 1]) + DigitValue(s[|s| - 1])
  }

  /** Reading back the spelling of a number gives the number. */
  lemma {:induction false} ParseDecimalOfDecimal(n: nat)
    ensures ParseDecimal(Decimal(n)) == n
  {
    if n >= 10 {
      var d := Decimal(n);
      assert d[..|d| - 1] == Decimal(n / 10);
      ParseDecimalOfDecimal(n / 10);
    }
  }

  /** Two numbers with the same spelling are equal. */
  lemma DecimalInjective(n: nat, m: nat)
    requires Decimal(n) == Decimal(m)
    ensures n == m
  {
    ParseDecimalOfDecimal(n);
    ParseDecimalOfDecimal(m);
  }

  /** The length of the run of digits at the start of `s`. */
  function DigitRun(s: string): (k: nat)
    ensures k <= |s|
    ensures forall i :: 0 <= i < k ==> IsDigit(s[i])
    ensures k < |s| ==> !IsDigit(s[k])
  {
    if |s| > 0 && IsDigit(s[0]) then 1 + DigitRun(s[1..]) else 0
  }

  /** A block of digits followed by a non-digit is exactly the leading run. */
  lemma {:induction false} DigitRunOfDigitsThen(a: string, t: string)
    requires forall i :: 0 <= i < |a| ==> IsDigit(a[i])
    requires |t| > 0 && !IsDigit(t[0])
    ensures DigitRun(a + t) == |a|
    decreases |a|
  {
    if |a| > 0 {
      assert (a + t)[1..] == a[1..] + t;
      DigitRunOfDigitsThen(a[1..], t);
    } else {
      assert a + t == t;
    }
  }
}
