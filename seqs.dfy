/** Generic sequence operations that the components use: `Array.prototype.filter`
    and the "order-preserving subsequence" relation that filtering and removal establish. */
module Seqs {

  /** `s.filter(keep)`: the elements of `s` that satisfy `keep`, in their original order. */
  function Filter<T(!new)>(s: seq<T>, keep: T -> bool): (r: seq<T>)
    ensures |r| <= |s|
    ensures forall x :: x in r <==> x in s && keep(x)
  {
    if s == [] then []
    else if keep(s[0]) then [s[0]] + Filter(s[1..], keep)
    else Filter(s[1..], keep)
  }

  /** `sub` can be obtained from `s` by deleting elements, without reordering. */
  predicate IsSubsequence<T(==)>(sub: seq<T>, s: seq<T>)
    decreases |s|
  {
    if sub == [] then true
    else if s == [] then false
    else if sub[0] == s[0] then IsSubsequence(sub[1..], s[1..])
    else IsSubsequence(sub, s[1..])
  }

  lemma {:induction false} SubsequenceOfSelf<T>(s: seq<T>)
    ensures IsSubsequence(s, s)
  {
    if s != [] {
      SubsequenceOfSelf(s[1..]);
    }
  }

  /** Filtering keeps the survivors in their original relative order. */
  lemma {:induction false} FilterIsSubsequence<T(!new)>(s: seq<T>, keep: T -> bool)
    ensures IsSubsequence(Filter(s, keep), s)
  {
    if s != [] {
      FilterIsSubsequence(s[1..], keep);
      var rest := Filter(s[1..], keep);
      if !keep(s[0]) {
        SkipHeadPreservesSubsequence(rest, s);
      }
    }
  }

  /** If `sub` is a subsequence of the tail of `s`, it is a subsequence of `s`. */
  lemma {:induction false} SkipHeadPreservesSubsequence<T>(sub: seq<T>, s: seq<T>)
    requires s != [] && IsSubsequence(sub, s[1..])
    ensures IsSubsequence(sub, s)
    decreases |s|, 0
  {
    if sub != [] && sub[0] == s[0] {
      // match sub[0] with s[0]; the rest of sub is then a subsequence of s[1..]
      DropHeadOfSubsequence(sub, s[1..]);
    }
  }

  /** Dropping the first element of a subsequence keeps it a subsequence. */
  lemma {:induction false} DropHeadOfSubsequence<T>(sub: seq<T>, s: seq<T>)
    requires sub != [] && IsSubsequence(sub, s)
    ensures IsSubsequence(sub[1..], s)
    decreases |s|, 1
  {
    if sub[0] == s[0] {
      SkipHeadPreservesSubsequence(sub[1..], s);
    } else {
      DropHeadOfSubsequence(sub, s[1..]);
      SkipHeadPreservesSubsequence(sub[1..], s);
    }
  }

  /** Filtering twice is filtering once with the conjunction of the two tests. */
  lemma {:induction false} FilterTwice<T(!new)>(s: seq<T>, first: T -> bool, second: T -> bool)
    ensures Filter(Filter(s, first), second) == Filter(s, x => first(x) && second(x))
  {
    if s != [] {
      FilterTwice(s[1..], first, second);
    }
  }

  /** Two tests that agree on every element of `s` select the same elements. */
  lemma {:induction false} FilterSameTest<T(!new)>(s: seq<T>, first: T -> bool, second: T -> bool)
    requires forall x :: x in s ==> first(x) == second(x)
    ensures Filter(s, first) == Filter(s, second)
  {
    if s != [] {
      FilterSameTest(s[1..], first, second);
    }
  }

  /** A test that every element passes leaves the sequence unchanged. */
  lemma {:induction false} FilterAllPass<T(!new)>(s: seq<T>, keep: T -> bool)
    requires forall x :: x in s ==> keep(x)
    ensures Filter(s, keep) == s
  {
    if s != [] {
      FilterAllPass(s[1..], keep);
    }
  }

  /** Deleting elements twice is deleting elements once. */
  lemma {:induction false} SubsequenceTransitive<T>(a: seq<T>, b: seq<T>, c: seq<T>)
    requires IsSubsequence(a, b) && IsSubsequence(b, c)
    ensures IsSubsequence(a, c)
    decreases |c|
  {
    if a != [] && b != [] && c != [] {
      if b[0] == c[0] {
        if a[0] == b[0] {
          SubsequenceTransitive(a[1..], b[1..], c[1..]);
        } else {
          SubsequenceTransitive(a, b[1..], c[1..]);
          SkipHeadPreservesSubsequence(a, c);
        }
      } else {
        SubsequenceTransitive(a, b, c[1..]);
        SkipHeadPreservesSubsequence(a, c);
      }
    }
  }

  /** A subsequence of a suffix is a subsequence of the whole. */
  lemma {:induction false} SubsequenceOfSuffix<T>(sub: seq<T>, s: seq<T>, k: nat)
    requires k <= |s| && IsSubsequence(sub, s[k..])
    ensures IsSubsequence(sub, s)
    decreases k
  {
    if k > 0 {
      assert s[k..] == s[1..][k - 1..];
      SubsequenceOfSuffix(sub, s[1..], k - 1);
      SkipHeadPreservesSubsequence(sub, s);
    }
  }

  /** Keeping a common first element keeps the subsequence relation. */
  lemma KeepHead<T>(x: T, sub: seq<T>, s: seq<T>)
    requires s != [] && s[0] == x && IsSubsequence(sub, s[1..])
    ensures IsSubsequence([x] + sub, s)
  {
    assert ([x] + sub)[1..] == sub;
  }
}
