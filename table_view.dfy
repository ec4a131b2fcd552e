/**
 * The list machinery the employee roster and the submission triage pages both
 * run over their tables: the sort state and what a click on a column header
 * does to it, the in-place sort of the displayed array, filtering a list,
 * and the page arithmetic (page count, page slice, the "showing x to y" range,
 * and the two page-number bars).
 */
module TableView {
  import opened Text


  function Min(a: int, b: int): int { if a <= b then a else b }
  function Max(a: int, b: int): int { if a >= b then a else b }

  // ---------------------------------------------------------------------------
  // Sort state and header clicks
  // ---------------------------------------------------------------------------

  datatype Direction = Asc | Desc

  /** Which column the table is sorted on (the `data-sort` name of its header) and in which direction. */
  datatype SortState = SortState(column: string, direction: Direction)

  /** A click on a column header: the sorted column flips its direction, any other column becomes the sorted one, ascending. */
  function ClickHeader(s: SortState, column: string): (r: SortState)
    ensures r.column == column
    ensures s.column == column ==> r.direction != s.direction
    ensures s.column != column ==> r.direction == Asc
  {
    if s.column == column then
      SortState(column, if s.direction == Asc then Desc else Asc)
    else
      SortState(column, Asc)
  }

  /** Two clicks on the sorted column give back the sort state it had. */
  lemma ClickHeaderTwice(s: SortState)
    ensures ClickHeader(ClickHeader(s, s.column), s.column) == s
  {
  }

  /**
   * The comparator's last step on two sort keys, given `aVal < bVal` (`lt`)
   * and `aVal > bVal` (`gt`): `lt ? -1 : gt ? 1 : 0` ascending and
   * `gt ? -1 : lt ? 1 : 0` descending.
   */
  function Ternary(lt: bool, gt: bool, d: Direction): int {
    if d == Asc then (if lt then -1 else if gt then 1 else 0)
    else (if gt then -1 else if lt then 1 else 0)
  }

  /** "Not before" on text is transitive, in either direction. */
  lemma TextNotBeforeTransitive(x: string, y: string, z: string, d: Direction)
    requires Ternary(StrLess(x, y), StrLess(y, x), d) >= 0 && Ternary(StrLess(y, z), StrLess(z, y), d) >= 0
    ensures Ternary(StrLess(x, z), StrLess(z, x), d) >= 0
  {
    if d == Asc {
      StrLessNotTransitive(x, y, z);
    } else {
      StrLessNotTransitive(z, y, x);
    }
  }

  // ---------------------------------------------------------------------------
  // Sorting in place
  // ---------------------------------------------------------------------------

  /**
   * `less(x, y)` says that the comparator puts `x` strictly before `y`. A sort
   * is well defined when that relation is asymmetric and "not before" is
   * transitive (a strict weak order).
   */
  ghost predicate StrictWeakOrder<T(!new)>(less: (T, T) -> bool) {
    && (forall x, y :: less(x, y) ==> !less(y, x))
    && (forall x, y, z :: !less(x, y) && !less(y, z) ==> !less(x, z))
  }

  /** No element of `s` should come before one to its left. */
  ghost predicate SortedBy<T>(s: seq<T>, less: (T, T) -> bool) {
    forall p, q :: 0 <= p < q < |s| ==> !less(s[q], s[p])
  }

  /**
   * `array.sort(comparator)`: reorders the elements of `a` in place so that no
   * element comes before one to its left, keeping the same elements.
   */
  method SortInPlace<T(!new)>(a: array<T>, less: (T, T) -> bool)
    requires StrictWeakOrder(less)
    modifies a
    ensures SortedBy(a[..], less)
    ensures multiset(a[..]) == old(multiset(a[..]))
  {
    if a.Length == 0 { return; }
    var i := 1;
    while i < a.Length
      invariant 1 <= i <= a.Length
      invariant SortedBy(a[..i], less)
      invariant multiset(a[..]) == old(multiset(a[..]))
    {
      InsertLast(a, i, less);
      i := i + 1;
    }
    assert a[..a.Length] == a[..];
  }

  /** One step of insertion sort: moves `a[i]` left past every element it comes before, so that `a[..i + 1]` is sorted. */
  method InsertLast<T(!new)>(a: array<T>, i: int, less: (T, T) -> bool)
    requires StrictWeakOrder(less)
    requires 1 <= i < a.Length && SortedBy(a[..i], less)
    modifies a
    ensures SortedBy(a[..i + 1], less)
    ensures multiset(a[..]) == old(multiset(a[..]))
  {
    var j := i;
    InsertionStart(a[..], i, less);
    while j > 0 && less(a[j], a[j - 1])
      invariant Inserting(a[..], i, j, less)
      invariant multiset(a[..]) == old(multiset(a[..]))
    {
      ghost var s := a[..];
      a[j - 1], a[j] := a[j], a[j - 1];
      assert a[..] == s[j - 1 := s[j]][j := s[j - 1]];
      InsertionStep(s, i, j, less);
      j := j - 1;
    }
    InsertionDone(a[..], i, j, less);
  }

  /**
   * Halfway through inserting the element now at `j` into the sorted prefix
   * `s[..i + 1]`: apart from that element the prefix is in order, and it comes
   * before everything to its right.
   */
  ghost predicate Inserting<T>(s: seq<T>, i: int, j: int, less: (T, T) -> bool) {
    && 0 <= j <= i < |s|
    && (forall p, q :: 0 <= p < q <= i && p != j && q != j ==> !less(s[q], s[p]))
    && (forall q :: j < q <= i ==> less(s[j], s[q]))
  }

  lemma InsertionStart<T>(s: seq<T>, i: int, less: (T, T) -> bool)
    requires 1 <= i < |s| && SortedBy(s[..i], less)
    ensures Inserting(s, i, i, less)
  {
    forall p, q | 0 <= p < q <= i && p != i && q != i ensures !less(s[q], s[p]) {
      assert s[..i][q] == s[q] && s[..i][p] == s[p];
    }
  }

  /** Swapping the inserted element with a left neighbour it comes before keeps the insertion going. */
  lemma InsertionStep<T>(s: seq<T>, i: int, j: int, less: (T, T) -> bool)
    requires Inserting(s, i, j, less) && j > 0 && less(s[j], s[j - 1])
    ensures Inserting(s[j - 1 := s[j]][j := s[j - 1]], i, j - 1, less)
  {
  }

  /** Once the inserted element does not come before its left neighbour, the prefix is sorted. */
  lemma InsertionDone<T(!new)>(s: seq<T>, i: int, j: int, less: (T, T) -> bool)
    requires StrictWeakOrder(less)
    requires Inserting(s, i, j, less) && (j == 0 || !less(s[j], s[j - 1]))
    ensures SortedBy(s[..i + 1], less)
  {
    forall p, q | 0 <= p < q <= i ensures !less(s[q], s[p]) {
      if q == j && p < j - 1 {
        assert !less(s[j - 1], s[p]);
      } else if p == j {
        assert less(s[j], s[q]);
      }
    }
  }

  // ---------------------------------------------------------------------------
  // Filtering
  // ---------------------------------------------------------------------------

  /** A fresh array holding `s`, in order: the list a handler assigns before sorting it in place. */
  method ToArray<T>(s: seq<T>) returns (a: array<T>)
    ensures fresh(a) && a[..] == s
  {
    a := new T[|s|](k requires 0 <= k < |s| => s[k]);
  }

  /** `s.filter(keep)`: the elements that pass, in their original order. */
  function Filter<T>(s: seq<T>, keep: T -> bool): (r: seq<T>)
    ensures |r| <= |s|
  {
    if s == [] then []
    else (if keep(s[0]) then [s[0]] else []) + Filter(s[1..], keep)
  }

  /** An element is kept exactly when it is in the input and passes the test. */
  lemma {:induction false} FilterMembers<T>(s: seq<T>, keep: T -> bool)
    ensures forall x :: x in Filter(s, keep) <==> x in s && keep(x)
  {
    if s != [] {
      FilterMembers(s[1..], keep);
      assert s == [s[0]] + s[1..];
    }
  }

  /** A filter keeps every passing element as many times as it occurs, and nothing else. */
  lemma {:induction false} FilterMultiset<T>(s: seq<T>, keep: T -> bool)
    ensures forall x :: multiset(Filter(s, keep))[x] == if keep(x) then multiset(s)[x] else 0
  {
    if s != [] {
      FilterMultiset(s[1..], keep);
      assert s == [s[0]] + s[1..];
    }
  }

  /** What a filter keeps is a sub-multiset of its input: filtering only removes. */
  lemma FilterOnlyRemoves<T>(s: seq<T>, keep: T -> bool)
    ensures multiset(Filter(s, keep)) <= multiset(s)
  {
    FilterMultiset(s, keep);
  }

  /** Two filters in a row are one filter by the conjunction of their tests. */
  lemma {:induction false} FilterFilter<T>(s: seq<T>, p: T -> bool, q: T -> bool)
    ensures Filter(Filter(s, p), q) == Filter(s, x => p(x) && q(x))
  {
    if s != [] {
      FilterFilter(s[1..], p, q);
      var rest := Filter(s[1..], p);
      if p(s[0]) {
        assert Filter(s, p) == [s[0]] + rest;
        assert ([s[0]] + rest)[1..] == rest;
      } else {
        assert Filter(s, p) == rest;
      }
    }
  }

  /** A filter that every element passes changes nothing. */
  lemma {:induction false} FilterKeepsAll<T>(s: seq<T>, keep: T -> bool)
    requires forall x :: x in s ==> keep(x)
    ensures Filter(s, keep) == s
  {
    if s != [] {
      FilterKeepsAll(s[1..], keep);
      assert s == [s[0]] + s[1..];
    }
  }

  /** Filtering with two tests that agree on every element of the list gives the same list. */
  lemma {:induction false} FilterExt<T>(s: seq<T>, p: T -> bool, q: T -> bool)
    requires forall x :: x in s ==> p(x) == q(x)
    ensures Filter(s, p) == Filter(s, q)
  {
    if s != [] {
      FilterExt(s[1..], p, q);
    }
  }

  /** Filtering by `p` and then by `q` keeps what one filter by their conjunction `pq` keeps. */
  lemma {:induction false} FilterStage<T>(s: seq<T>, p: T -> bool, q: T -> bool, pq: T -> bool)
    requires forall x :: x in s ==> pq(x) == (p(x) && q(x))
    ensures Filter(Filter(s, p), q) == Filter(s, pq)
  {
    if s != [] {
      FilterStage(s[1..], p, q, pq);
      var rest := Filter(s[1..], p);
      if p(s[0]) {
        assert Filter(s, p) == [s[0]] + rest;
        assert ([s[0]] + rest)[1..] == rest;
      } else {
        assert Filter(s, p) == rest;
      }
    }
  }

  /**
   * A date field of a filter form: left empty, holding text that `new Date`
   * cannot read (NaN, so every comparison with it is false), or a date as
   * epoch milliseconds.
   */
  datatype DateBound = Unset | Unparsable | At(ms: int)

  /** A test and its negation split a list into two parts that hold every element exactly once between them. */
  lemma {:induction false} FilterPartition<T>(s: seq<T>, keep: T -> bool, drop: T -> bool)
    requires forall x :: drop(x) == !keep(x)
    ensures multiset(Filter(s, keep)) + multiset(Filter(s, drop)) == multiset(s)
    ensures |Filter(s, keep)| + |Filter(s, drop)| == |s|
  {
    if s != [] {
      FilterPartition(s[1..], keep, drop);
      assert s == [s[0]] + s[1..];
    }
  }

  // ---------------------------------------------------------------------------
  // Pages
  // ---------------------------------------------------------------------------

  /** `Math.ceil(n / perPage)`. */
  function TotalPages(n: nat, perPage: nat): (t: nat)
    requires perPage > 0
    ensures (t - 1) * perPage < n <= t * perPage || (n == 0 && t == 0)
  {
    var t := (n + perPage - 1) / perPage;
    assert t * perPage <= n + perPage - 1 < (t + 1) * perPage;
    t
  }

  /** The index of the first row of `page` (pages count from 1). */
  function PageStart(page: int, perPage: nat): int {
    (page - 1) * perPage
  }

  /** `list.slice(start, start + perPage)` for the current page: the rows it displays. */
  function PageSlice<T>(s: seq<T>, page: int, perPage: nat): (r: seq<T>)
    requires page >= 1
    ensures |r| <= perPage
    ensures forall k :: 0 <= k < |r| ==> 0 <= PageStart(page, perPage) + k < |s| && r[k] == s[PageStart(page, perPage) + k]
  {
    var start := PageStart(page, perPage);
    if start >= |s| then [] else s[start..Min(start + perPage, |s|)]
  }

  /** Every row is displayed on exactly one page: row `k` is row `k % perPage` of page `k / perPage + 1`. */
  lemma RowOnItsPage<T>(s: seq<T>, perPage: nat, k: nat)
    requires perPage > 0 && k < |s|
    ensures 1 <= k / perPage + 1 <= TotalPages(|s|, perPage)
    ensures var page := PageSlice(s, k / perPage + 1, perPage);
      k % perPage < |page| && page[k % perPage] == s[k]
  {
    var p, r := k / perPage, k % perPage;
    var start := p * perPage;
    DivMod(k, perPage);
    assert PageStart(p + 1, perPage) == start;
    var t := TotalPages(|s|, perPage);
    if t <= p {
      MulMono(t, p, perPage);
      assert false;
    }
    var page := PageSlice(s, p + 1, perPage);
    assert page == s[start..Min(start + perPage, |s|)];
    assert page[r] == s[start + r];
  }

  lemma DivMod(k: nat, d: nat)
    requires d > 0
    ensures k == (k / d) * d + k % d && 0 <= k % d < d && k / d >= 0
  {
  }

  lemma MulMono(a: nat, b: nat, c: nat)
    requires a <= b
    ensures a * c <= b * c
  {
  }

  /** The "showing from" and "showing to" numbers under the table: `from` is 0 for an empty list. */
  function ShowingRange(n: nat, page: int, perPage: nat): (r: (int, int))
  {
    var start := PageStart(page, perPage);
    (if n > 0 then start + 1 else 0, Min(start + perPage, n))
  }

  /** On a page that exists, "showing from .. to" counts exactly the rows of the page slice. */
  lemma ShowingMatchesSlice<T>(s: seq<T>, page: int, perPage: nat)
    requires perPage > 0 && 1 <= page <= TotalPages(|s|, perPage)
    ensures var (from, to) := ShowingRange(|s|, page, perPage);
      from == PageStart(page, perPage) + 1 && to - from + 1 == |PageSlice(s, page, perPage)| >= 1
  {
    var t := TotalPages(|s|, perPage);
    assert (page - 1) * perPage <= (t - 1) * perPage by { MulMono(page - 1, t - 1, perPage); }
  }

  // ---------------------------------------------------------------------------
  // Page-number bars
  // ---------------------------------------------------------------------------

  /** The first and last page numbers of the roster's bar of at most five buttons around `current`. */
  function PageWindow(current: int, total: nat): (int, int) {
    var start := Max(1, current - 2);
    var end := Min(total, start + 4);
    if end - start < 4 then (Max(1, end - 4), end) else (start, end)
  }

  /** For a current page that exists, the window lies inside the pages, holds `current`, and is five pages wide, or all pages when there are fewer. */
  lemma PageWindowFits(current: int, total: nat)
    requires 1 <= current <= total
    ensures var (lo, hi) := PageWindow(current, total);
      1 <= lo <= current <= hi <= total && hi - lo + 1 == Min(5, total)
  {
  }

  /**
   * The loop that creates the roster's page-number buttons, from the first to
   * the last page of the window: consecutive page numbers, at most five.
   */
  method PageButtons(current: int, total: nat) returns (pages: seq<int>)
    ensures var (lo, hi) := PageWindow(current, total);
      |pages| == Max(0, hi - lo + 1) && forall k :: 0 <= k < |pages| ==> pages[k] == lo + k
    ensures total == 0 ==> pages == []
    ensures 1 <= current <= total ==>
      |pages| == Min(5, total) && current in pages && forall p :: p in pages ==> 1 <= p <= total
  {
    var (lo, hi) := PageWindow(current, total);
    pages := [];
    var i := lo;
    while i <= hi
      invariant lo <= i <= Max(lo, hi + 1)
      invariant |pages| == i - lo && forall k :: 0 <= k < |pages| ==> pages[k] == lo + k
    {
      pages := pages + [i];
      i := i + 1;
    }
    if 1 <= current <= total {
      PageWindowFits(current, total);
      assert pages[current - lo] == current;
    }
  }

  /** One entry of the submissions page bar: a page button or an ellipsis. */
  datatype PageItem = PageButton(page: int) | Ellipsis

  /** Page `i` gets a button when it is the first, the last, or next to the current page. */
  predicate ShowsButton(i: int, current: int, total: int) {
    i == 1 || i == total || (current - 1 <= i <= current + 1)
  }

  /** What the submissions page bar shows for page `i`: a button, an ellipsis two pages away from the current one, or nothing. */
  function ItemFor(i: int, current: int, total: int): seq<PageItem> {
    if ShowsButton(i, current, total) then [PageButton(i)]
    else if i == current - 2 || i == current + 2 then [Ellipsis]
    else []
  }

  /** The bar entries for pages 1 to `k`, in order. */
  function ItemsThrough(k: int, current: int, total: int): seq<PageItem>
    decreases k
  {
    if k <= 0 then [] else ItemsThrough(k - 1, current, total) + ItemFor(k, current, total)
  }

  /** The loop over pages 1 to `total` that builds the submissions page bar. */
  method PageItems(current: int, total: nat) returns (items: seq<PageItem>)
    ensures items == ItemsThrough(total, current, total)
  {
    items := [];
    var i := 1;
    while i <= total
      invariant 1 <= i <= total + 1
      invariant items == ItemsThrough(i - 1, current, total)
    {
      if i == 1 || i == total || (i >= current - 1 && i <= current + 1) {
        items := items + [PageButton(i)];
      } else if i == current - 2 || i == current + 2 {
        items := items + [Ellipsis];
      }
      i := i + 1;
    }
  }

  /** Page `i` has a button in the bar exactly when it is a page and the first, the last, or within one of the current page. */
  lemma {:induction false} ButtonIffShown(k: int, current: int, total: int, i: int)
    ensures PageButton(i) in ItemsThrough(k, current, total) <==> 1 <= i <= k && ShowsButton(i, current, total)
    decreases k
  {
    if k > 0 {
      ButtonIffShown(k - 1, current, total, i);
    }
  }

  /** The page buttons of a bar come in increasing page order. */
  predicate ButtonsIncreasing(items: seq<PageItem>) {
    forall x, y :: 0 <= x < y < |items| && items[x].PageButton? && items[y].PageButton? ==> items[x].page < items[y].page
  }

  /** The submissions page bar lists its page buttons in increasing page order. */
  lemma {:induction false} ItemsInOrder(k: int, current: int, total: int)
    ensures ButtonsIncreasing(ItemsThrough(k, current, total))
    decreases k
  {
    if k > 0 {
      ItemsInOrder(k - 1, current, total);
      var prefix := ItemsThrough(k - 1, current, total);
      var items := ItemsThrough(k, current, total);
      assert items == prefix + ItemFor(k, current, total);
      forall x, y | 0 <= x < y < |items| && items[x].PageButton? && items[y].PageButton?
        ensures items[x].page < items[y].page
      {
        assert items[x] == prefix[x];
        if y < |prefix| {
          assert items[y] == prefix[y];
          assert prefix[x].page < prefix[y].page;
        } else {
          assert y == |prefix| && items[y] == ItemFor(k, current, total)[0];
          assert items[y].page == k;
          assert PageButton(prefix[x].page) in prefix by { assert prefix[x] == PageButton(prefix[x].page); }
          ButtonIffShown(k - 1, current, total, prefix[x].page);
          assert prefix[x].page <= k - 1;
        }
      }
    }
  }

  /** The bar holds an ellipsis exactly when a page two away from the current one is a page without a button. */
  lemma {:induction false} EllipsisIff(k: int, current: int, total: int)
    ensures Ellipsis in ItemsThrough(k, current, total) <==>
      exists j :: (j == current - 2 || j == current + 2) && 1 <= j <= k && !ShowsButton(j, current, total)
    decreases k
  {
    if k > 0 {
      EllipsisIff(k - 1, current, total);
      if ItemFor(k, current, total) == [Ellipsis] {
        assert (k == current - 2 || k == current + 2) && 1 <= k <= k && !ShowsButton(k, current, total);
      }
    }
  }

  predicate IsEllipsis(x: PageItem) {
    x.Ellipsis?
  }

  /** The bar shows at most two ellipses, one on each side of the current page. */
  lemma {:induction false} AtMostTwoEllipses(k: int, current: int, total: int)
    ensures |Filter(ItemsThrough(k, current, total), IsEllipsis)| <= 2
    ensures k < current + 2 ==> |Filter(ItemsThrough(k, current, total), IsEllipsis)| <= 1
    ensures k < current - 2 ==> |Filter(ItemsThrough(k, current, total), IsEllipsis)| == 0
    decreases k
  {
    if k > 0 {
      AtMostTwoEllipses(k - 1, current, total);
      FilterAppend(ItemsThrough(k - 1, current, total), ItemFor(k, current, total), IsEllipsis);
    }
  }

  /** Filtering a concatenation filters each part. */
  lemma {:induction false} FilterAppend<T>(s: seq<T>, t: seq<T>, keep: T -> bool)
    ensures Filter(s + t, keep) == Filter(s, keep) + Filter(t, keep)
  {
    if s == [] {
      assert s + t == t;
    } else {
      FilterAppend(s[1..], t, keep);
      var head := if keep(s[0]) then [s[0]] else [];
      assert (s + t)[0] == s[0];
      assert (s + t)[1..] == s[1..] + t;
      calc {
        Filter(s + t, keep);
        head + Filter(s[1..] + t, keep);
        head + (Filter(s[1..], keep) + Filter(t, keep));
        (head + Filter(s[1..], keep)) + Filter(t, keep);
        Filter(s, keep) + Filter(t, keep);
      }
    }
  }
}
