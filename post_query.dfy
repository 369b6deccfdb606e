/** The post queries both layouts compute in the same way: the search and tag filter
    effect, the sorted tag list of the tag selector and the slicing of the filtered
    posts into pages. */
module PostQuery {
  import opened Types
  import opened Seqs
  import opened JsString
  import Pagination

  /* ---------------- search and tag filter ---------------- */

  /** The search test: the lower-cased query occurs in the lower-cased title, content
      or author. */
  predicate MatchesQuery(post: BlogPost, query: string) {
    var q := ToLowerAscii(query);
    Includes(ToLowerAscii(post.title), q) ||
    Includes(ToLowerAscii(post.content), q) ||
    Includes(ToLowerAscii(post.author), q)
  }

  /** The tag test: exact membership in the post's tag list. */
  predicate HasTag(post: BlogPost, tag: string) {
    tag in post.tags
  }

  /** The search test as the callback given to `filter`. */
  function QueryTest(searchQuery: string): BlogPost -> bool {
    p => MatchesQuery(p, searchQuery)
  }

  /** The tag test as the callback given to `filter`. */
  function TagTest(selectedTag: string): BlogPost -> bool {
    p => HasTag(p, selectedTag)
  }

  /** The filter effect: the search filter runs only for a non-empty query and the tag
      filter only for a non-empty tag, one after the other. */
  function FilterPosts(posts: seq<BlogPost>, searchQuery: string, selectedTag: string): seq<BlogPost> {
    var byQuery := if searchQuery != "" then Filter(posts, QueryTest(searchQuery)) else posts;
    if selectedTag != "" then Filter(byQuery, TagTest(selectedTag)) else byQuery
  }

  /** Whether one post survives the filter effect. */
  predicate Passes(post: BlogPost, searchQuery: string, selectedTag: string) {
    MatchesQuery(post, searchQuery) && (selectedTag == "" || HasTag(post, selectedTag))
  }

  /** `Passes` as a test. */
  function PassTest(searchQuery: string, selectedTag: string): BlogPost -> bool {
    p => Passes(p, searchQuery, selectedTag)
  }

  /** The empty query is found in every post. */
  lemma EmptyQueryMatches(post: BlogPost)
    ensures MatchesQuery(post, "")
  {
    assert OccursAt(ToLowerAscii(post.title), ToLowerAscii(""), 0);
  }

  /** The two filters amount to one selection by the conjunction of the search and the
      tag test; so the result keeps the posts' order, and a post passes exactly when
      the query occurs in one of its three fields and, for a non-empty tag, the tag is
      one of its tags. */
  lemma FilterIsSelection(posts: seq<BlogPost>, searchQuery: string, selectedTag: string)
    ensures FilterPosts(posts, searchQuery, selectedTag) == Filter(posts, PassTest(searchQuery, selectedTag))
    ensures IsSubsequence(FilterPosts(posts, searchQuery, selectedTag), posts)
    ensures forall p :: p in FilterPosts(posts, searchQuery, selectedTag) <==>
              p in posts && Passes(p, searchQuery, selectedTag)
  {
    var query := QueryTest(searchQuery);
    var tag := TagTest(selectedTag);
    var passes := PassTest(searchQuery, selectedTag);
    if searchQuery == "" {
      forall p | p in posts ensures query(p) {
        EmptyQueryMatches(p);
      }
      FilterAllPass(posts, query);
    }
    if selectedTag != "" {
      FilterTwice(posts, query, tag);
      FilterSameTest(posts, x => query(x) && tag(x), passes);
    } else {
      FilterSameTest(posts, query, passes);
    }
    FilterIsSubsequence(posts, passes);
  }

  /** With no query and no tag every post is shown, in order. */
  lemma NoCriteriaKeepsAll(posts: seq<BlogPost>)
    ensures FilterPosts(posts, "", "") == posts
  {
  }

  /* ---------------- tag list ---------------- */

  /** `a < b` for strings: lexicographic order by character (Unicode scalar value), a proper
      prefix coming first. */
  predicate Less(a: string, b: string)
    decreases |a|
  {
    if a == [] then b != []
    else if b == [] then false
    else if a[0] != b[0] then a[0] < b[0]
    else Less(a[1..], b[1..])
  }

  lemma {:induction false} LessIrreflexive(a: string)
    ensures !Less(a, a)
  {
    if a != [] {
      LessIrreflexive(a[1..]);
    }
  }

  lemma {:induction false} LessTotal(a: string, b: string)
    requires a != b
    ensures Less(a, b) || Less(b, a)
  {
    if a != [] && b != [] && a[0] == b[0] {
      assert a == [a[0]] + a[1..] && b == [b[0]] + b[1..];
      LessTotal(a[1..], b[1..]);
    }
  }

  lemma {:induction false} LessTransitive(a: string, b: string, c: string)
    requires Less(a, b) && Less(b, c)
    ensures Less(a, c)
  {
    if a != [] && a[0] == b[0] && b[0] == c[0] {
      LessTransitive(a[1..], b[1..], c[1..]);
    }
  }

  /** Sorted in increasing order without repetitions. */
  predicate StrictlySorted(s: seq<string>) {
    forall i, j :: 0 <= i < j < |s| ==> Less(s[i], s[j])
  }

  /** All tags of `posts`, in order (`flatMap(post => post.tags)`). */
  function FlatTags(posts: seq<BlogPost>): (r: seq<string>)
    ensures forall t :: t in r <==> exists p :: p in posts && t in p.tags
  {
    if posts == [] then [] else posts[0].tags + FlatTags(posts[1..])
  }

  /** `Array.from(new Set(s))`: the first occurrence of each element, in order. */
  function Dedupe(s: seq<string>): (r: seq<string>)
    ensures forall t :: t in r <==> t in s
    ensures forall i, j :: 0 <= i < j < |r| ==> r[i] != r[j]
  {
    if s == [] then []
    else
      var rest := Dedupe(s[..|s| - 1]);
      if s[|s| - 1] in rest then rest else rest + [s[|s| - 1]]
  }

  /** Insertion of `x` into a sorted list; a value already present is not repeated. */
  function Insert(x: string, s: seq<string>): (r: seq<string>)
    ensures forall t :: t in r <==> t == x || t in s
  {
    if s == [] then [x]
    else if x == s[0] then s
    else if Less(x, s[0]) then [x] + s
    else [s[0]] + Insert(x, s[1..])
  }

  /** `.sort()` with the default comparison, as an insertion sort. */
  function Sort(s: seq<string>): (r: seq<string>)
    ensures forall t :: t in r <==> t in s
  {
    if s == [] then [] else Insert(s[0], Sort(s[1..]))
  }

  lemma {:induction false} InsertKeepsSorted(x: string, s: seq<string>)
    requires StrictlySorted(s)
    ensures StrictlySorted(Insert(x, s))
    ensures x !in s ==> |Insert(x, s)| == |s| + 1
  {
    if s != [] && x != s[0] && !Less(x, s[0]) {
      var tail := s[1..];
      assert StrictlySorted(tail) by {
        forall i, j | 0 <= i < j < |tail| ensures Less(tail[i], tail[j]) {
          assert tail[i] == s[i + 1] && tail[j] == s[j + 1];
        }
      }
      InsertKeepsSorted(x, tail);
      var rest := Insert(x, tail);
      LessTotal(x, s[0]);
      forall t | t in rest ensures Less(s[0], t) {
        if t != x {
          var k :| 0 <= k < |tail| && tail[k] == t;
          assert s[k + 1] == t;
        }
      }
      var r := [s[0]] + rest;
      forall i, j | 0 <= i < j < |r| ensures Less(r[i], r[j]) {
        if i > 0 {
          assert r[i] == rest[i - 1] && r[j] == rest[j - 1];
        } else {
          assert r[j] == rest[j - 1];
        }
      }
    } else if s != [] && x != s[0] {
      var r := [x] + s;
      forall i, j | 0 <= i < j < |r| ensures Less(r[i], r[j]) {
        if i == 0 {
          assert r[j] == s[j - 1];
          if j > 1 {
            LessTransitive(x, s[0], s[j - 1]);
          }
        } else {
          assert r[i] == s[i - 1] && r[j] == s[j - 1];
        }
      }
    }
  }

  /** Sorting yields an increasing list with the same elements, and of the same length
      when the input has no repetitions, so a permutation of it. */
  lemma {:induction false} SortIsStrictlySorted(s: seq<string>)
    ensures StrictlySorted(Sort(s))
    ensures (forall i, j :: 0 <= i < j < |s| ==> s[i] != s[j]) ==> |Sort(s)| == |s|
  {
    if s != [] {
      SortIsStrictlySorted(s[1..]);
      InsertKeepsSorted(s[0], Sort(s[1..]));
      if forall i, j :: 0 <= i < j < |s| ==> s[i] != s[j] {
        assert forall i, j :: 0 <= i < j < |s[1..]| ==> s[1..][i] != s[1..][j] by {
          forall i, j | 0 <= i < j < |s[1..]| ensures s[1..][i] != s[1..][j] {
            assert s[1..][i] == s[i + 1] && s[1..][j] == s[j + 1];
          }
        }
        assert s[0] !in s[1..] by {
          forall k | 0 <= k < |s[1..]| ensures s[1..][k] != s[0] {
            assert s[1..][k] == s[k + 1];
          }
        }
      }
    }
  }

  /** `allTags`: every tag of every post given, once each, in increasing order. */
  function AllTags(posts: seq<BlogPost>): seq<string> {
    Sort(Dedupe(FlatTags(posts)))
  }

  /** The tag selector offers each tag that some post carries, exactly once, sorted. */
  lemma AllTagsSortedUnion(posts: seq<BlogPost>)
    ensures StrictlySorted(AllTags(posts))
    ensures |AllTags(posts)| == |Dedupe(FlatTags(posts))|
    ensures forall t :: t in AllTags(posts) <==> exists p :: p in posts && t in p.tags
    ensures forall i, j :: 0 <= i < j < |AllTags(posts)| ==> AllTags(posts)[i] != AllTags(posts)[j]
  {
    SortIsStrictlySorted(Dedupe(FlatTags(posts)));
    StrictlySortedDistinct(AllTags(posts));
  }

  /** A strictly sorted list has no repetitions. */
  lemma StrictlySortedDistinct(s: seq<string>)
    requires StrictlySorted(s)
    ensures forall i, j :: 0 <= i < j < |s| ==> s[i] != s[j]
  {
    forall i, j | 0 <= i < j < |s| ensures s[i] != s[j] {
      LessIrreflexive(s[i]);
    }
  }

  /* ---------------- paging ---------------- */

  /** `Math.ceil(n / size)` for a non-negative count and a positive page size. */
  function PageCount(n: nat, itemsPerPage: nat): nat
    requires itemsPerPage > 0
  {
    (n + itemsPerPage - 1) / itemsPerPage
  }

  /** `Array.prototype.slice(start, end)`: negative bounds count from the end, bounds
      are clamped to the list, and crossed bounds give the empty list. */
  function Slice<T>(s: seq<T>, start: int, end: int): (r: seq<T>)
    ensures |r| <= |s|
  {
    var from := if start < 0 then Pagination.Max(|s| + start, 0) else Pagination.Min(start, |s|);
    var to := if end < 0 then Pagination.Max(|s| + end, 0) else Pagination.Min(end, |s|);
    if from < to then s[from..to] else []
  }

  /** `currentPosts`: the slice from `(currentPage - 1) * size` of length `size`. */
  function PageSlice<T>(items: seq<T>, currentPage: int, itemsPerPage: nat): seq<T> {
    var startIndex := (currentPage - 1) * itemsPerPage;
    Slice(items, startIndex, startIndex + itemsPerPage)
  }

  /** A page never holds more than the page size. */
  lemma PageSliceBounded<T>(items: seq<T>, currentPage: int, itemsPerPage: nat)
    ensures |PageSlice(items, currentPage, itemsPerPage)| <= itemsPerPage
  {
  }

  /** A page holds only items of the list it is cut from. */
  lemma PageSliceMembers<T>(items: seq<T>, currentPage: int, itemsPerPage: nat)
    ensures forall x :: x in PageSlice(items, currentPage, itemsPerPage) ==> x in items
  {
    var startIndex := (currentPage - 1) * itemsPerPage;
    var from, to := SliceBounds(items, startIndex, startIndex + itemsPerPage);
    var page := PageSlice(items, currentPage, itemsPerPage);
    forall x | x in page ensures x in items {
      var k :| 0 <= k < |page| && page[k] == x;
      assert page[k] == items[from + k];
    }
  }

  /** Every slice is a stretch of the list. */
  lemma SliceBounds<T>(s: seq<T>, start: int, end: int) returns (from: nat, to: nat)
    ensures from <= to <= |s| && Slice(s, start, end) == s[from..to]
  {
    var f := if start < 0 then Pagination.Max(|s| + start, 0) else Pagination.Min(start, |s|);
    var t := if end < 0 then Pagination.Max(|s| + end, 0) else Pagination.Min(end, |s|);
    if f < t {
      from, to := f, t;
    } else {
      from, to := 0, 0;
    }
  }

  /** The page count is the least number of pages of the given size that hold `n` items. */
  lemma PageCountIsCeiling(n: nat, itemsPerPage: nat)
    requires itemsPerPage > 0
    ensures PageCount(n, itemsPerPage) * itemsPerPage >= n
    ensures n > 0 ==> (PageCount(n, itemsPerPage) - 1) * itemsPerPage < n
    ensures PageCount(n, itemsPerPage) == 0 <==> n == 0
  {
    var c := PageCount(n, itemsPerPage);
    var r := (n + itemsPerPage - 1) % itemsPerPage;
    assert n + itemsPerPage - 1 == c * itemsPerPage + r;
    assert (c - 1) * itemsPerPage == c * itemsPerPage - itemsPerPage;
  }

  /** Pages `1..k` laid end to end. */
  function FirstPages<T>(items: seq<T>, k: nat, itemsPerPage: nat): seq<T> {
    if k == 0 then [] else FirstPages(items, k - 1, itemsPerPage) + PageSlice(items, k, itemsPerPage)
  }

  /** Where page `k` ends, counted by adding one page size per page. */
  function PagesEnd(k: nat, itemsPerPage: nat): nat {
    if k == 0 then 0 else PagesEnd(k - 1, itemsPerPage) + itemsPerPage
  }

  lemma {:induction false} PagesEndIsProduct(k: nat, itemsPerPage: nat)
    ensures PagesEnd(k, itemsPerPage) == k * itemsPerPage
  {
    if k > 0 {
      PagesEndIsProduct(k - 1, itemsPerPage);
      assert (k - 1) * itemsPerPage + itemsPerPage == k * itemsPerPage;
    }
  }

  /** The first `k` pages are the first `k * size` items. */
  lemma FirstPagesArePrefix<T>(items: seq<T>, k: nat, itemsPerPage: nat)
    ensures FirstPages(items, k, itemsPerPage) == items[..Pagination.Min(k * itemsPerPage, |items|)]
  {
    FirstPagesUpToEnd(items, k, itemsPerPage);
    PagesEndIsProduct(k, itemsPerPage);
  }

  lemma {:induction false} FirstPagesUpToEnd<T>(items: seq<T>, k: nat, itemsPerPage: nat)
    ensures FirstPages(items, k, itemsPerPage) == items[..Pagination.Min(PagesEnd(k, itemsPerPage), |items|)]
  {
    if k > 0 {
      FirstPagesUpToEnd(items, k - 1, itemsPerPage);
      var a := Pagination.Min(PagesEnd(k - 1, itemsPerPage), |items|);
      var b := Pagination.Min(PagesEnd(k, itemsPerPage), |items|);
      PageSliceOfPage(items, k, itemsPerPage);
      PrefixThenStretch(items, a, b, FirstPages(items, k - 1, itemsPerPage), PageSlice(items, k, itemsPerPage));
    }
  }

  /** A prefix followed by the stretch after it is the longer prefix. */
  lemma PrefixThenStretch<T>(items: seq<T>, a: nat, b: nat, prefix: seq<T>, stretch: seq<T>)
    requires a <= b <= |items| && prefix == items[..a] && stretch == items[a..b]
    ensures prefix + stretch == items[..b]
  {
    assert items[..b] == items[..a] + items[a..b];
  }

  /** Page `k` is the stretch between the ends of pages `k - 1` and `k`, clamped to the list. */
  lemma PageSliceOfPage<T>(items: seq<T>, k: nat, itemsPerPage: nat)
    requires k >= 1
    ensures Pagination.Min(PagesEnd(k - 1, itemsPerPage), |items|) <= Pagination.Min(PagesEnd(k, itemsPerPage), |items|)
    ensures PageSlice(items, k, itemsPerPage) ==
            items[Pagination.Min(PagesEnd(k - 1, itemsPerPage), |items|)..Pagination.Min(PagesEnd(k, itemsPerPage), |items|)]
  {
    PagesEndIsProduct(k - 1, itemsPerPage);
    SliceWithin(items, PagesEnd(k - 1, itemsPerPage), itemsPerPage);
  }

  /** The slice from a non-negative index, clamped to the list. */
  lemma SliceWithin<T>(items: seq<T>, startIndex: int, itemsPerPage: nat)
    requires startIndex >= 0
    ensures Slice(items, startIndex, startIndex + itemsPerPage) ==
            items[Pagination.Min(startIndex, |items|)..Pagination.Min(startIndex + itemsPerPage, |items|)]
  {
  }

  /** Pages `1..PageCount` laid end to end give back every item, in order. */
  lemma PagesCoverItems<T>(items: seq<T>, itemsPerPage: nat)
    requires itemsPerPage > 0
    ensures FirstPages(items, PageCount(|items|, itemsPerPage), itemsPerPage) == items
  {
    PageCountIsCeiling(|items|, itemsPerPage);
    FirstPagesArePrefix(items, PageCount(|items|, itemsPerPage), itemsPerPage);
  }

  /** On a page that exists, "Showing a-b of n" names exactly the posts the page shows:
      `a` and `b` are the 1-based positions of its first and last post, and
      `1 <= a <= b <= n`. */
  lemma ShowingRangeMatchesPage<T>(items: seq<T>, currentPage: int, itemsPerPage: nat)
    requires itemsPerPage > 0
    requires 1 <= currentPage <= PageCount(|items|, itemsPerPage)
    ensures var a := Pagination.StartItem(currentPage, itemsPerPage);
            var b := Pagination.EndItem(currentPage, itemsPerPage, |items|);
            1 <= a <= b <= |items| &&
            PageSlice(items, currentPage, itemsPerPage) == items[a - 1..b]
  {
    var startIndex := PageStartBelowCount(|items|, currentPage, itemsPerPage);
    SliceFrom(items, startIndex, itemsPerPage);
  }

  /** The first index of an existing page lies inside the list. */
  lemma PageStartBelowCount(n: nat, currentPage: int, itemsPerPage: nat) returns (startIndex: nat)
    requires itemsPerPage > 0
    requires 1 <= currentPage <= PageCount(n, itemsPerPage)
    ensures startIndex == (currentPage - 1) * itemsPerPage < n
    ensures currentPage * itemsPerPage == startIndex + itemsPerPage
  {
    PageCountIsCeiling(n, itemsPerPage);
    MultiplyMonotonic(currentPage - 1, PageCount(n, itemsPerPage) - 1, itemsPerPage);
    startIndex := (currentPage - 1) * itemsPerPage;
  }

  /** The slice from an index inside the list. */
  lemma SliceFrom<T>(items: seq<T>, startIndex: nat, itemsPerPage: nat)
    requires startIndex < |items|
    ensures Slice(items, startIndex, startIndex + itemsPerPage) ==
            items[startIndex..Pagination.Min(startIndex + itemsPerPage, |items|)]
  {
  }

  lemma MultiplyMonotonic(a: int, b: int, m: nat)
    requires a <= b
    ensures a * m <= b * m
  {
  }
}
