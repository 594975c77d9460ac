/** The page arithmetic every list handler repeats: the page number read
    from the query, the skip, `Math.ceil(total / perPage)` and the two
    navigation flags. */
module Paging {
  import opened Base
  import opened Sorting

  /** `MAX_ITEMS_PER_PAGE` of the messages, jobs and (intended) notifications
      handlers, and the fixed limit of the users list. */
  const MaxItemsPerPage: int := 30

  /** `parseInt(q) || 1`: the parsed number unless it is NaN (`None`) or 0. */
  function PageOrOne(parsed: Option<int>): (p: int)
    ensures p != 0
    ensures parsed.Some? && parsed.value != 0 ==> p == parsed.value
    ensures parsed.None? || parsed.value == 0 ==> p == 1
  {
    if parsed.Some? && parsed.value != 0 then parsed.value else 1
  }

  /** `Math.max(1, parseInt(q) || 1)`. */
  function ClampedPage(parsed: Option<int>): (p: int)
    ensures p >= 1
    ensures parsed.Some? && parsed.value >= 1 ==> p == parsed.value
    ensures parsed.None? || parsed.value < 1 ==> p == 1
  {
    var p := PageOrOne(parsed);
    if p < 1 then 1 else p
  }

  /** `Math.ceil(a / b)` for a non-negative count and a non-zero divisor,
      characterised by the defining inequalities of the ceiling. */
  function CeilDiv(a: nat, b: int): (r: int)
    requires b != 0
    ensures b > 0 ==> (r - 1) * b < a <= r * b
    ensures b < 0 ==> r * b <= a < (r - 1) * b
  {
    if b > 0 then (a + b - 1) / b else -(a / -b)
  }

  /** The `pagination` object of a list response. */
  datatype PageInfo = PageInfo(
    currentPage: int,
    totalPages: int,
    total: nat,
    perPage: int,
    hasNextPage: bool,
    hasPrevPage: bool)

  function Info(page: int, total: nat, perPage: int): (r: PageInfo)
    requires perPage != 0
    ensures r.currentPage == page && r.total == total && r.perPage == perPage
    ensures perPage > 0 ==> (r.totalPages - 1) * perPage < total <= r.totalPages * perPage
    ensures r.hasNextPage <==> page < r.totalPages
    ensures r.hasPrevPage <==> page > 1
  {
    var totalPages := CeilDiv(total, perPage);
    PageInfo(page, totalPages, total, perPage, page < totalPages, page > 1)
  }

  /** `(page - 1) * perPage`. */
  function SkipFor(page: int, perPage: int): int {
    (page - 1) * perPage
  }

  /** The `$skip` of a page of the fixed size: `(page - 1) * MAX_ITEMS_PER_PAGE`. */
  function PageSkip(page: int): (n: nat)
    requires page >= 1
    ensures n == (page - 1) * MaxItemsPerPage
  {
    MulLe(1, page, MaxItemsPerPage);
    (page - 1) * MaxItemsPerPage
  }

  /** `$skip` then `$limit`: at most `limit` elements starting at `skip`. */
  function Window<T>(s: seq<T>, skip: nat, limit: nat): (w: seq<T>)
    ensures |w| <= limit
    ensures skip >= |s| ==> w == []
    ensures skip < |s| ==> |w| == if skip + limit <= |s| then limit else |s| - skip
    ensures forall i :: 0 <= i < |w| ==> w[i] == s[skip + i]
  {
    if skip >= |s| then [] else if skip + limit <= |s| then s[skip..skip + limit] else s[skip..]
  }

  /** The concatenation of pages 1..k of a listing of `s`. */
  function Pages<T>(s: seq<T>, perPage: nat, k: nat): seq<T>
    requires perPage > 0
  {
    if k == 0 then [] else Pages(s, perPage, k - 1) + Window(s, (k - 1) * perPage, perPage)
  }

  lemma {:induction false} PagesPrefix<T>(s: seq<T>, perPage: nat, k: nat)
    requires perPage > 0
    ensures Pages(s, perPage, k) == s[..if k * perPage <= |s| then k * perPage else |s|]
  {
    if k > 0 {
      PagesPrefix(s, perPage, k - 1);
      var lo := (k - 1) * perPage;
      var hi := k * perPage;
      assert hi == lo + perPage;
      var w := Window(s, lo, perPage);
      assert Pages(s, perPage, k) == Pages(s, perPage, k - 1) + w;
      if lo < |s| {
        var end := if hi <= |s| then hi else |s|;
        assert w == s[lo..end];
        assert s[..lo] + s[lo..end] == s[..end];
      } else {
        assert w == [];
      }
    }
  }

  /** Pagination consistency: walking pages 1..totalPages with a fixed page
      size returns every element exactly once and in order, so the page sizes
      sum to the reported total. */
  lemma PagesCoverAll<T>(s: seq<T>, perPage: nat)
    requires perPage > 0
    ensures var info := Info(1, |s|, perPage);
            info.totalPages >= 0 && Pages(s, perPage, info.totalPages) == s
  {
    var t := CeilDiv(|s|, perPage);
    PagesPrefix(s, perPage, t);
  }

  /** `hasNextPage` is true exactly when the following page is non-empty. */
  lemma HasNextIffMore<T>(s: seq<T>, page: int, perPage: nat)
    requires page >= 1 && perPage > 0
    ensures Info(page, |s|, perPage).hasNextPage <==> Window(s, page * perPage, perPage) != []
  {
    var t := Info(page, |s|, perPage).totalPages;
    assert (t - 1) * perPage < |s| <= t * perPage;
    if page < t {
      MulLe(page, t - 1, perPage);
      assert page * perPage < |s|;
    } else {
      MulLe(t, page, perPage);
      assert page * perPage >= |s|;
    }
  }

  /** Multiplying by a natural number keeps the order. */
  lemma {:induction false} MulLe(a: int, b: int, c: nat)
    requires a <= b
    ensures a * c <= b * c
  {
    if c > 0 {
      MulLe(a, b, c - 1);
      assert a * c == a * (c - 1) + a;
      assert b * c == b * (c - 1) + b;
    }
  }

  /** A page of a newest-first listing is itself newest first. */
  lemma WindowKeepsOrder<T>(s: seq<T>, skip: nat, limit: nat, key: T -> int)
    requires SortedDesc(s, key)
    ensures SortedDesc(Window(s, skip, limit), key)
  {
    var w := Window(s, skip, limit);
    forall i, j | 0 <= i < j < |w| ensures key(w[i]) >= key(w[j]) {
      assert w[i] == s[skip + i] && w[j] == s[skip + j];
    }
  }

  /** Every element of a page is an element of the listing. */
  lemma WindowWithin<T>(s: seq<T>, skip: nat, limit: nat)
    ensures forall x :: x in Window(s, skip, limit) ==> x in s
  {
    var w := Window(s, skip, limit);
    forall x | x in w ensures x in s {
      var i :| 0 <= i < |w| && w[i] == x;
      assert s[skip + i] == x;
    }
  }
}
