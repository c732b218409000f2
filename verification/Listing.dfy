/** Filtering and paging of listings, on both backends. */
module Listing {
  import opened Model
  import opened Search

  function Filter<T>(s: seq<T>, p: T -> bool): seq<T> {
    if s == [] then []
    else
      var n := |s| - 1;
      Filter(s[..n], p) + if p(s[n]) then [s[n]] else []
  }

  lemma {:induction false} FilterOfConcat<T>(s: seq<T>, t: seq<T>, p: T -> bool)
    ensures Filter(s + t, p) == Filter(s, p) + Filter(t, p)
    decreases |t|
  {
    if t == [] {
      assert s + t == s;
    } else {
      var n := |t| - 1;
      assert (s + t)[..|s| + n] == s + t[..n];
      FilterOfConcat(s, t[..n], p);
    }
  }

  lemma {:induction false} FilterCounts<T>(s: seq<T>, p: T -> bool, x: T)
    ensures multiset(Filter(s, p))[x] == if p(x) then multiset(s)[x] else 0
  {
    if s == [] {
    } else {
      var n := |s| - 1;
      FilterCounts(s[..n], p, x);
      CountAppended(s[..n], s[n], x);
      CountAppended(Filter(s[..n], p), s[n], x);
      assert s == s[..n] + [s[n]] && Filter(s[..n], p) + [] == Filter(s[..n], p);
    }
  }

  lemma CountAppended<T>(s: seq<T>, x: T, y: T)
    ensures multiset(s + [x])[y] == multiset(s)[y] + if x == y then 1 else 0
  {
  }

  /** What filtering is: every kept element as often as before, nothing else, and in the order of the source, since
      filtering the parts of a sequence filters the whole. */
  lemma FilterLaws<T>(s: seq<T>, t: seq<T>, p: T -> bool)
    ensures Filter(s + t, p) == Filter(s, p) + Filter(t, p)
    ensures forall x :: multiset(Filter(s, p))[x] == if p(x) then multiset(s)[x] else 0
    ensures forall x :: Filter([x], p) == if p(x) then [x] else []
  {
    FilterOfConcat(s, t, p);
    forall x ensures multiset(Filter(s, p))[x] == if p(x) then multiset(s)[x] else 0 { FilterCounts(s, p, x); }
    forall x ensures Filter([x], p) == if p(x) then [x] else [] {
      assert [x][..0] == [] && Filter([x][..0], p) == [];
    }
  }

  /** The loop over `all[:0]`: the kept elements overwrite the front of the array they are read from. */
  method FilterInPlace<T>(all: array<T>, p: T -> bool) returns (n: nat)
    modifies all
    ensures n <= all.Length && all[..n] == Filter(old(all[..]), p)
  {
    n := 0;
    for i := 0 to all.Length
      invariant n <= i
      invariant all[..n] == Filter(old(all[..])[..i], p)
      invariant forall k | i <= k < all.Length :: all[k] == old(all[..])[k]
    {
      var a := all[i];
      assert old(all[..])[..i + 1][..i] == old(all[..])[..i];
      if p(a) {
        var kept := all[..n];
        all[n] := a;
        n := n + 1;
        assert all[..n] == kept + [a];
      }
    }
    assert old(all[..])[..all.Length] == old(all[..]);
  }

  /** The number of rows that match the search. */
  function Count(f: char -> char, rows: seq<Article>, search: string): nat {
    if rows == [] then 0 else Count(f, rows[1..], search) + if Matches(f, search, rows[0]) then 1 else 0
  }

  lemma {:induction false} CountOfConcat(f: char -> char, s: seq<Article>, t: seq<Article>, search: string)
    ensures Count(f, s + t, search) == Count(f, s, search) + Count(f, t, search)
  {
    if s == [] {
      assert s + t == t;
    } else {
      assert (s + t)[1..] == s[1..] + t;
      CountOfConcat(f, s[1..], t, search);
    }
  }

  lemma {:induction false} TotalIsCount(f: char -> char, rows: seq<Article>, search: string)
    ensures |Found(f, rows, search)| == Count(f, rows, search)
  {
    if rows == [] {
    } else {
      var n := |rows| - 1;
      TotalIsCount(f, rows[..n], search);
      CountOfConcat(f, rows[..n], [rows[n]], search);
      assert rows == rows[..n] + [rows[n]] && [rows[n]][1..] == [];
    }
  }

  /** The Redis article listing once the documents are loaded, newest first. */
  method ListLoaded(f: char -> char, all: array<Article>, search: string, limit: int, offset: nat)
    returns (page: seq<Article>, total: nat)
    modifies all
    ensures (page, total) == RedisList(f, old(all[..]), search, limit, offset)
    ensures total == Count(f, old(all[..]), search)
    ensures forall a | a in page :: a in old(all[..]) && Matches(f, search, a)
  {
    ghost var rows := all[..];
    TotalIsCount(f, rows, search);
    var n := all.Length;
    if search != "" {
      n := FilterInPlace(all, (a: Article) => ContainsFolded(f, a.name, search));
    }
    total := n;
    if offset >= total { return [], total; }
    page := all[offset..n];
    if 0 < limit < |page| { page := page[..limit]; }
    assert page == RedisPage(all[..n], limit, offset);
    assert all[..all.Length] == all[..];
    forall a | a in page ensures a in rows && Matches(f, search, a) {
      assert a in Found(f, rows, search);
      FoundCounts(f, rows, search, a);
    }
  }

  function RedisPage<T>(rows: seq<T>, limit: int, offset: nat): seq<T> {
    if offset >= |rows| then []
    else if 0 < limit < |rows| - offset then rows[offset..offset + limit]
    else rows[offset..]
  }

  function RedisList(f: char -> char, rows: seq<Article>, search: string, limit: int, offset: nat)
    : (seq<Article>, nat)
  {
    (RedisPage(Found(f, rows, search), limit, offset), |Found(f, rows, search)|)
  }

  /** The rows the search selects, in the order of the listing. */
  function Found(f: char -> char, rows: seq<Article>, search: string): seq<Article> {
    if search == "" then rows else Filter(rows, (a: Article) => ContainsFolded(f, a.name, search))
  }

  /** SQL: LIMIT and OFFSET. */
  function LimitOffset<T>(rows: seq<T>, limit: nat, offset: nat): seq<T> {
    var rest := if offset <= |rows| then rows[offset..] else [];
    if limit <= |rest| then rest[..limit] else rest
  }

  /** buildListQuery leaves both clauses out unless the limit is positive. */
  function PgList(f: char -> char, rows: seq<Article>, search: string, limit: int, offset: nat): (seq<Article>, nat) {
    var found := if search == "" then rows else Filter(rows, (a: Article) => ILike(f, SearchPattern(search), a.name));
    (if limit > 0 then LimitOffset(found, limit, offset) else found, |found|)
  }

  lemma FilterSame<T>(s: seq<T>, p: T -> bool, q: T -> bool)
    requires forall x | x in s :: p(x) == q(x)
    ensures Filter(s, p) == Filter(s, q)
  {
  }

  /** The search selects a row: an empty search selects all. */
  predicate Matches(f: char -> char, search: string, a: Article) {
    search == "" || ContainsFolded(f, a.name, search)
  }

  lemma {:induction false} FilterEmptyIff<T>(s: seq<T>, p: T -> bool)
    ensures Filter(s, p) == [] <==> forall x | x in s :: !p(x)
  {
    if s == [] {
    } else {
      var n := |s| - 1;
      FilterEmptyIff(s[..n], p);
      LastOrBefore(s);
    }
  }

  lemma LastOrBefore<T>(s: seq<T>)
    requires s != []
    ensures forall x :: x in s <==> x in s[..|s| - 1] || x == s[|s| - 1]
  {
    assert s == s[..|s| - 1] + [s[|s| - 1]];
  }

  /** The two article listings always return the same total, and the same page exactly when the limit is positive, the
      offset zero, or no row matches: without a limit PostgreSQL ignores the offset and Redis does not. */
  lemma ArticleListsAgree(f: char -> char, rows: seq<Article>, search: string, limit: int, offset: nat)
    requires KeepsMeta(f)
    ensures RedisList(f, rows, search, limit, offset).1 == PgList(f, rows, search, limit, offset).1
    ensures RedisList(f, rows, search, limit, offset) == PgList(f, rows, search, limit, offset) <==>
      limit > 0 || offset == 0 || forall a | a in rows :: !Matches(f, search, a)
  {
    forall a: Article ensures ILike(f, SearchPattern(search), a.name) <==> ContainsFolded(f, a.name, search) {
      BackendsSearchAlike(f, search, a.name);
    }
    FilterSame(rows, (a: Article) => ContainsFolded(f, a.name, search),
      (a: Article) => ILike(f, SearchPattern(search), a.name));
    FilterEmptyIff(rows, (a: Article) => ContainsFolded(f, a.name, search));
    var found := if search == "" then rows else Filter(rows, (a: Article) => ContainsFolded(f, a.name, search));
    if search == "" && rows != [] { assert rows[0] in rows && Matches(f, search, rows[0]); }
    if limit > 0 {
      assert RedisPage(found, limit, offset) == LimitOffset(found, limit, offset);
    } else if offset == 0 {
      assert RedisPage(found, limit, offset) == found;
    } else if found != [] {
      assert |RedisPage(found, limit, offset)| < |found|;
    }
  }

  /** Every matching row is in the selection as often as it was listed, and no other row is. */
  lemma FoundCounts(f: char -> char, rows: seq<Article>, search: string, a: Article)
    ensures multiset(Found(f, rows, search))[a] == if Matches(f, search, a) then multiset(rows)[a] else 0
  {
    if search != "" { FilterCounts(rows, (x: Article) => ContainsFolded(f, x.name, search), a); }
  }

  // ---------- pages ----------

  /** A page is the run of rows from its offset on, as many as the limit and the rows left allow; without a positive
      limit, all of them. */
  lemma PageIsSlice<T>(rows: seq<T>, limit: int, offset: nat)
    ensures var left := if offset <= |rows| then |rows| - offset else 0; var page := RedisPage(rows, limit, offset);
      && |page| == (if 0 < limit < left then limit else left)
      && forall k | 0 <= k < |page| :: offset + k < |rows| && page[k] == rows[offset + k]
  {
  }

  /** Search and pages together: over the pages of one listing, every row that matches the search is shown exactly as
      often as it was listed, and no other row ever is. */
  lemma PagesShowMatches(f: char -> char, rows: seq<Article>, search: string, limit: nat, k: nat, a: Article)
    requires limit >= 1 && k * limit >= Count(f, rows, search)
    ensures multiset(Pages(Found(f, rows, search), limit, k))[a] ==
      if Matches(f, search, a) then multiset(rows)[a] else 0
  {
    TotalIsCount(f, rows, search);
    PagesCover(Found(f, rows, search), limit, k);
    FoundCounts(f, rows, search, a);
  }

  function Pages<T>(rows: seq<T>, limit: nat, k: nat): seq<T> {
    if k == 0 then [] else Pages(rows, limit, k - 1) + RedisPage(rows, limit, (k - 1) * limit)
  }

  /** The first k pages are the first k * limit rows: nothing is repeated or skipped, until all rows are shown. */
  lemma {:induction false} PagesCover<T>(rows: seq<T>, limit: nat, k: nat)
    requires limit >= 1
    ensures Pages(rows, limit, k) == Front(rows, k * limit)
    ensures k * limit >= |rows| ==> Pages(rows, limit, k) == rows
  {
    if k == 0 {
    } else {
      PagesCover(rows, limit, k - 1);
      PageExtends(rows, limit, (k - 1) * limit);
      assert k * limit == (k - 1) * limit + limit;
    }
  }

  function Front<T>(rows: seq<T>, n: nat): seq<T> {
    if n <= |rows| then rows[..n] else rows
  }

  lemma PageExtends<T>(rows: seq<T>, limit: nat, from: nat)
    requires limit >= 1
    ensures Front(rows, from) + RedisPage(rows, limit, from) == Front(rows, from + limit)
  {
  }

  /** ZREVRANGE start stop on an ordered listing: both ends inclusive, negative indexes count from the end. */
  function ZRange<T>(rows: seq<T>, start: int, stop: int): seq<T> {
    var from := if start < 0 then start + |rows| else start;
    var to := if stop < 0 then stop + |rows| else stop;
    var lo := if from < 0 then 0 else from;
    var hi := if to >= |rows| then |rows| - 1 else to;
    if lo > hi then [] else rows[lo..hi + 1]
  }

  /** Negative indexes count from the end. */
  lemma ZRangeFromEnd<T>(rows: seq<T>, i: nat, j: nat)
    requires i < |rows| && j < |rows|
    ensures ZRange(rows, i - |rows|, j - |rows|) == ZRange(rows, i, j) == if i <= j then rows[i..j + 1] else []
    ensures ZRange(rows, 0, -1) == rows
  {
  }

  /** The index range the orders listing asks for. */
  function OrdersPage<T>(rows: seq<T>, limit: int, offset: int): seq<T> {
    var from := if offset < 0 then 0 else offset;
    var stop := if limit <= 0 then -1 else from + limit - 1;
    ZRange(rows, from, stop)
  }

  /** The inclusive stop index gives the SQL page exactly when the limit is positive or nothing is left after the
      offset. */
  lemma OrderListsAgree<T>(rows: seq<T>, limit: nat, offset: nat)
    ensures OrdersPage(rows, limit, offset) == LimitOffset(rows, limit, offset) <==> limit > 0 || offset >= |rows|
    ensures limit > 0 ==> OrdersPage(rows, limit, offset) == RedisPage(rows, limit, offset)
  {
    if limit == 0 && offset < |rows| {
      assert OrdersPage(rows, limit, offset) == rows[offset..];
    }
  }

  /** The orders listing asks for the rows from its offset on, and a negative offset counts as none. */
  lemma OrdersPageIsSlice<T>(rows: seq<T>, limit: int, offset: int)
    ensures OrdersPage(rows, limit, offset) == RedisPage(rows, limit, if offset < 0 then 0 else offset)
  {
  }

  /** The first k pages of the orders listing. */
  function OrdersPages<T>(rows: seq<T>, limit: nat, k: nat): seq<T> {
    if k == 0 then [] else OrdersPages(rows, limit, k - 1) + OrdersPage(rows, limit, (k - 1) * limit)
  }

  lemma {:induction false} OrdersPagesCover<T>(rows: seq<T>, limit: nat, k: nat)
    requires limit >= 1
    ensures OrdersPages(rows, limit, k) == Pages(rows, limit, k)
    ensures k * limit >= |rows| ==> OrdersPages(rows, limit, k) == rows
  {
    if k == 0 {
    } else {
      OrdersPagesCover(rows, limit, k - 1);
      OrderListsAgree(rows, limit, (k - 1) * limit);
      PagesCover(rows, limit, k);
    }
  }
}
