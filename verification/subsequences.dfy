/** Order-preserving selection from a sequence: the model of
    `Array.prototype.filter` with a side-effect-free callback. */
module Subsequences {

  /** `r` can be obtained from `s` by deleting elements, keeping the order of
      the rest. Matching greedily is complete for this relation. */
  predicate IsSubsequence<T(==)>(r: seq<T>, s: seq<T>)
    decreases |s|
  {
    if |r| == 0 then true
    else if |s| == 0 then false
    else if r[0] == s[0] then IsSubsequence(r[1..], s[1..])
    else IsSubsequence(r, s[1..])
  }

  /** Every sequence is a subsequence of itself. */
  lemma {:induction false} SubsequenceReflexive<T>(s: seq<T>)
    ensures IsSubsequence(s, s)
    decreases |s|
  {
    if |s| > 0 {
      SubsequenceReflexive(s[1..]);
    }
  }

  /** `s.filter(p)`: the elements of `s` that satisfy `p`, in their original
      order. Nothing is added and every element that satisfies `p` is kept as
      often as it occurs in `s`. */
  function Keep<T(==,!new)>(s: seq<T>, p: T -> bool): (r: seq<T>)
    ensures |r| <= |s|
    ensures forall i :: 0 <= i < |r| ==> p(r[i])
    ensures forall x :: x in r <==> x in s && p(x)
    ensures forall x :: multiset(r)[x] == if p(x) then multiset(s)[x] else 0
    ensures (forall i :: 0 <= i < |s| ==> p(s[i])) ==> r == s
  {
    if |s| == 0 then []
    else
      var rest := Keep(s[1..], p);
      assert s == [s[0]] + s[1..];
      assert multiset(s) == multiset{s[0]} + multiset(s[1..]);
      if p(s[0]) then
        assert multiset([s[0]] + rest) == multiset{s[0]} + multiset(rest);
        [s[0]] + rest
      else rest
  }

  /** `Keep` decides the first element, then goes on with the rest. */
  lemma KeepCons<T(!new)>(x: T, s: seq<T>, p: T -> bool)
    ensures Keep([x] + s, p) == (if p(x) then [x] else []) + Keep(s, p)
  {
    assert ([x] + s)[1..] == s;
  }

  /** What `Keep` returns is a subsequence of its input. */
  lemma {:induction false} KeepIsSubsequence<T(!new)>(s: seq<T>, p: T -> bool)
    ensures IsSubsequence(Keep(s, p), s)
    decreases |s|
  {
    if |s| > 0 {
      KeepIsSubsequence(s[1..], p);
      var r := Keep(s, p);
      if p(s[0]) {
        assert r[1..] == Keep(s[1..], p);
      } else {
        assert r == Keep(s[1..], p);
        SubsequenceOfTail(r, s);
      }
    }
  }

  /** A subsequence of the tail is a subsequence of the whole. */
  lemma {:induction false} SubsequenceOfTail<T>(r: seq<T>, s: seq<T>)
    requires |s| > 0 && IsSubsequence(r, s[1..])
    ensures IsSubsequence(r, s)
    decreases |r| + |s|
  {
    if |r| > 0 && r[0] == s[0] {
      SubsequenceDropHead(r, s[1..]);
    }
  }

  /** Dropping the first element of a subsequence leaves a subsequence. */
  lemma {:induction false} SubsequenceDropHead<T>(r: seq<T>, s: seq<T>)
    requires |r| > 0 && IsSubsequence(r, s)
    ensures IsSubsequence(r[1..], s)
    decreases |r| + |s|
  {
    if r[0] == s[0] {
      if |s| > 1 {
        SubsequenceOfTail(r[1..], s);
      } else {
        assert |r[1..]| == 0;
      }
    } else {
      SubsequenceDropHead(r, s[1..]);
      SubsequenceOfTail(r[1..], s);
    }
  }

  /** A subsequence is never longer than the sequence it comes from. */
  lemma {:induction false} SubsequenceLength<T>(r: seq<T>, s: seq<T>)
    requires IsSubsequence(r, s)
    ensures |r| <= |s|
    decreases |s|
  {
    if |r| > 0 {
      if r[0] == s[0] {
        SubsequenceLength(r[1..], s[1..]);
      } else {
        SubsequenceLength(r, s[1..]);
      }
    }
  }

  /** A subsequence of `s` made only of elements satisfying `p` is a
      subsequence of `Keep(s, p)`. */
  lemma {:induction false} SubsequenceOfKeep<T(!new)>(r: seq<T>, s: seq<T>, p: T -> bool)
    requires IsSubsequence(r, s)
    requires forall i :: 0 <= i < |r| ==> p(r[i])
    ensures IsSubsequence(r, Keep(s, p))
    decreases |s|
  {
    if |r| > 0 {
      var k := Keep(s, p);
      if r[0] == s[0] {
        assert p(r[0]);
        SubsequenceOfKeep(r[1..], s[1..], p);
        assert k[0] == s[0] && k[1..] == Keep(s[1..], p);
      } else {
        SubsequenceOfKeep(r, s[1..], p);
        if p(s[0]) {
          assert k[1..] == Keep(s[1..], p);
          SubsequenceOfTail(r, k);
        } else {
          assert k == Keep(s[1..], p);
        }
      }
    }
  }

  /** `Keep(s, p)` is the ONLY subsequence of `s` whose elements all satisfy
      `p` and that is at least as long: the selection is exactly determined. */
  lemma KeepUnique<T(!new)>(r: seq<T>, s: seq<T>, p: T -> bool)
    requires IsSubsequence(r, s)
    requires forall i :: 0 <= i < |r| ==> p(r[i])
    requires |r| >= |Keep(s, p)|
    ensures r == Keep(s, p)
  {
    SubsequenceOfKeep(r, s, p);
    SubsequenceEqualLength(r, Keep(s, p));
  }

  /** A subsequence as long as the sequence is the sequence itself. */
  lemma {:induction false} SubsequenceEqualLength<T>(r: seq<T>, s: seq<T>)
    requires IsSubsequence(r, s) && |r| >= |s|
    ensures r == s
    decreases |s|
  {
    if |r| > 0 {
      if r[0] == s[0] {
        SubsequenceEqualLength(r[1..], s[1..]);
        assert r == [r[0]] + r[1..];
      } else {
        SubsequenceLength(r, s[1..]);
        assert false;
      }
    }
  }
}
