/** Keyset paging over results that may change between pages. */
module Paging {
  import opened Prelude

  /** UUIDs, by their order; the result of a query is an increasing sequence of them. */
  type Uuid = nat

  datatype Page = Page(uuids: seq<Uuid>, next: Option<Uuid>)

  function After(rows: seq<Uuid>, cursor: Option<Uuid>): seq<Uuid> {
    if cursor.None? || rows == [] then rows
    else if rows[0] > cursor.value then [rows[0]] + After(rows[1..], cursor)
    else After(rows[1..], cursor)
  }

  function Take(s: seq<Uuid>, n: nat): seq<Uuid> { if n <= |s| then s[..n] else s }

  /** Fetches one row more than asked for, to see whether there is another page. */
  function Paginate(rows: seq<Uuid>, limit: Option<nat>, cursor: Option<Uuid>): Page {
    var after := After(rows, cursor);
    var uuids := if limit.None? then after else Take(after, limit.value + 1);
    var page := if limit.None? then uuids else Take(uuids, limit.value);
    if page != [] && |uuids| > |page| then Page(page, Some(page[|page| - 1])) else Page(page, None)
  }

  lemma IncreasingCons(x: Uuid, rest: seq<Uuid>)
    requires Increasing(rest) && forall y :: y in rest ==> x < y
    ensures Increasing([x] + rest)
  {
    assert forall i :: 0 <= i < |rest| ==> rest[i] in rest;
  }

  lemma {:induction false} AfterIs(rows: seq<Uuid>, cursor: Option<Uuid>)
    requires Increasing(rows)
    ensures Increasing(After(rows, cursor))
    ensures forall x :: x in After(rows, cursor) <==> x in rows && (cursor.Some? ==> x > cursor.value)
  {
    if rows != [] && cursor.Some? {
      AfterIs(rows[1..], cursor);
      assert forall x :: x in rows[1..] ==> rows[0] < x;
      assert rows == [rows[0]] + rows[1..];
      IncreasingCons(rows[0], After(rows[1..], cursor));
    }
  }

  /** The page is the start of what comes after the cursor, and has a next cursor,
      its last UUID, exactly if more comes. */
  lemma PageIs(rows: seq<Uuid>, limit: nat, cursor: Option<Uuid>)
    requires limit >= 1
    ensures var after, p := After(rows, cursor), Paginate(rows, Some(limit), cursor);
            && p.uuids == Take(after, limit)
            && p.next == if |after| > limit then Some(after[limit - 1]) else None
  {}

  /** Without a limit everything after the cursor is one page. A limit of zero gives an
      empty page and no next cursor, so that iteration ends whatever there is. */
  lemma PageAtExtremes(rows: seq<Uuid>, cursor: Option<Uuid>)
    ensures Paginate(rows, None, cursor) == Page(After(rows, cursor), None)
    ensures Paginate(rows, Some(0), cursor) == Page([], None)
  {}

  /** What a page promises: increasing, past the cursor, and complete up to the next. */
  ghost predicate Fits(rows: seq<Uuid>, cursor: Option<Uuid>, p: Page) {
    && Increasing(p.uuids)
    && (forall x :: x in p.uuids ==> x in rows && (cursor.Some? ==> x > cursor.value))
    && (p.next.Some? ==> p.next.value in p.uuids && forall x :: x in p.uuids ==> x <= p.next.value)
    && (forall x :: x in rows && (cursor.Some? ==> x > cursor.value) && (p.next.Some? ==> x <= p.next.value) ==> x in p.uuids)
  }

  lemma PageFits(rows: seq<Uuid>, limit: nat, cursor: Option<Uuid>)
    requires Increasing(rows) && limit >= 1
    ensures Fits(rows, cursor, Paginate(rows, Some(limit), cursor))
  {
    PageIs(rows, limit, cursor);
    AfterIs(rows, cursor);
    var after, p := After(rows, cursor), Paginate(rows, Some(limit), cursor);
    TakeFits(after, limit);
    assert forall x :: x in p.uuids ==> x in after;
    if p.next.Some? {
      assert p.uuids[limit - 1] == p.next.value;
    }
  }

  lemma TakeFits(after: seq<Uuid>, limit: nat)
    requires Increasing(after) && limit >= 1
    ensures Increasing(Take(after, limit)) && forall x :: x in Take(after, limit) ==> x in after
    ensures |after| > limit ==> forall x :: x in after ==> (x in Take(after, limit) <==> x <= after[limit - 1])
  {
    if |after| > limit {
      forall x | x in after
        ensures x in Take(after, limit) <==> x <= after[limit - 1]
      {
        var i :| 0 <= i < |after| && after[i] == x;
        if i < limit {
          assert after[..limit][i] == x;
        }
      }
    }
  }

  // ---- Following the cursors -----------------------------------------------

  /** A client's iteration: page by page, each requested with the cursor of the one
      before, against whatever the result is at that moment. */
  ghost predicate IsIteration(results: seq<seq<Uuid>>, limit: nat, pages: seq<Page>) {
    && |pages| == |results| && pages != []
    && forall i: nat :: i < |pages| ==> PageAt(results, limit, pages, i)
  }

  ghost predicate PageAt(results: seq<seq<Uuid>>, limit: nat, pages: seq<Page>, i: nat)
    requires i < |pages| == |results|
  {
    && Increasing(results[i])
    && pages[i] == Paginate(results[i], Some(limit), CursorAt(pages, i))
    && (i + 1 < |pages| ==> pages[i].next.Some?)
  }

  function CursorAt(pages: seq<Page>, i: nat): Option<Uuid>
    requires i <= |pages|
  {
    if i == 0 then None else pages[i - 1].next
  }

  function Returned(pages: seq<Page>): seq<Uuid> {
    if pages == [] then [] else Returned(pages[..|pages| - 1]) + pages[|pages| - 1].uuids
  }

  lemma IterationInit(results: seq<seq<Uuid>>, limit: nat, pages: seq<Page>)
    requires IsIteration(results, limit, pages) && |pages| > 1
    ensures IsIteration(results[..|pages| - 1], limit, pages[..|pages| - 1])
  {
    var init, rows := pages[..|pages| - 1], results[..|pages| - 1];
    forall i: nat | i < |init|
      ensures PageAt(rows, limit, init, i)
    {
      assert PageAt(results, limit, pages, i);
      assert CursorAt(init, i) == CursorAt(pages, i);
    }
  }

  /** The last page and the one before it. */
  lemma IterationLast(results: seq<seq<Uuid>>, limit: nat, pages: seq<Page>)
    requires IsIteration(results, limit, pages)
    ensures var n := |pages| - 1;
            && Increasing(results[n]) && pages[n] == Paginate(results[n], Some(limit), CursorAt(pages, n))
            && (n > 0 ==> pages[n - 1].next.Some? && CursorAt(pages, n) == pages[n - 1].next)
  {
    var n := |pages| - 1;
    assert PageAt(results, limit, pages, n);
    if n > 0 {
      assert PageAt(results, limit, pages, n - 1);
    }
  }

  ghost predicate AlwaysThere(results: seq<seq<Uuid>>, x: Uuid) { forall i :: 0 <= i < |results| ==> x in results[i] }

  ghost predicate SomewhereThere(results: seq<seq<Uuid>>, x: Uuid) { exists i :: 0 <= i < |results| && x in results[i] }

  /** Whatever rows come and go: the UUIDs returned so far are strictly increasing, so
      none comes twice; each was there once; the next cursor is the last of them; and
      up to it none is missing that was always there. */
  ghost predicate Kept(results: seq<seq<Uuid>>, returned: seq<Uuid>, next: Option<Uuid>) {
    && Increasing(returned)
    && (forall x :: x in returned ==> SomewhereThere(results, x))
    && (next.Some? ==> next.value in returned && forall x :: x in returned ==> x <= next.value)
    && (forall x: Uuid :: AlwaysThere(results, x) && (next.Some? ==> x <= next.value) ==> x in returned)
  }

  lemma KeptFirst(rows: seq<Uuid>, p: Page)
    requires Fits(rows, None, p)
    ensures Kept([rows], p.uuids, p.next)
  {
    assert [rows][0] == rows;
    forall x | x in p.uuids
      ensures SomewhereThere([rows], x)
    {
      assert x in [rows][0];
    }
  }

  lemma KeptNext(results: seq<seq<Uuid>>, returned: seq<Uuid>, cursor: Uuid, rows: seq<Uuid>, p: Page)
    requires Kept(results, returned, Some(cursor)) && Fits(rows, Some(cursor), p)
    ensures Kept(results + [rows], returned + p.uuids, p.next)
  {
    LastPageFits(returned, p.uuids, cursor);
    var more := results + [rows];
    forall x | x in returned + p.uuids
      ensures SomewhereThere(more, x)
    {
      if x in returned {
        var i :| 0 <= i < |results| && x in results[i];
        assert x in more[i];
      } else {
        assert x in more[|results|];
      }
    }
    forall x: Uuid | AlwaysThere(more, x) && (p.next.Some? ==> x <= p.next.value)
      ensures x in returned + p.uuids
    {
      assert forall i :: 0 <= i < |results| ==> more[i] == results[i];
      assert x in more[|results|];
      assert AlwaysThere(results, x);
    }
  }

  lemma {:induction false} IterationKeeps(results: seq<seq<Uuid>>, limit: nat, pages: seq<Page>)
    requires IsIteration(results, limit, pages) && limit >= 1
    ensures Kept(results, Returned(pages), pages[|pages| - 1].next)
  {
    var n := |pages| - 1;
    IterationLast(results, limit, pages);
    PageFits(results[n], limit, CursorAt(pages, n));
    if n == 0 {
      KeptFirst(results[0], pages[0]);
      assert results == [results[0]] && Returned(pages) == pages[0].uuids;
    } else {
      IterationInit(results, limit, pages);
      IterationKeeps(results[..n], limit, pages[..n]);
      KeptNext(results[..n], Returned(pages[..n]), pages[n - 1].next.value, results[n], pages[n]);
      assert results == results[..n] + [results[n]];
    }
  }

  lemma LastPageFits(before: seq<Uuid>, page: seq<Uuid>, cursor: Uuid)
    requires Increasing(before) && Increasing(page)
    requires forall x :: x in before ==> x <= cursor
    requires forall x :: x in page ==> x > cursor
    ensures Increasing(before + page)
  {
    assert forall i :: 0 <= i < |before| ==> before[i] in before;
    assert forall i :: 0 <= i < |page| ==> page[i] in page;
  }

  /** Paging under change: when the iteration has ended, every UUID that matched at
      every request was returned exactly once. */
  lemma CompleteUnderChange(results: seq<seq<Uuid>>, limit: nat, pages: seq<Page>, x: Uuid)
    requires IsIteration(results, limit, pages) && limit >= 1 && pages[|pages| - 1].next.None?
    requires AlwaysThere(results, x)
    ensures x in Returned(pages) && Increasing(Returned(pages))
  {
    IterationKeeps(results, limit, pages);
  }

  // ---- On an unchanging result ----------------------------------------------

  lemma {:induction false} AfterPrefix(rows: seq<Uuid>, k: nat)
    requires Increasing(rows) && 0 < k <= |rows|
    ensures After(rows, Some(rows[k - 1])) == rows[k..]
  {
    if k == 1 {
      AfterAll(rows[1..], rows[0]);
    } else {
      assert rows[0] < rows[k - 1];
      AfterPrefix(rows[1..], k - 1);
      assert rows[1..][k - 1..] == rows[k..];
    }
  }

  lemma {:induction false} AfterAll(rows: seq<Uuid>, c: Uuid)
    requires forall i :: 0 <= i < |rows| ==> rows[i] > c
    ensures After(rows, Some(c)) == rows
  {
    if rows != [] {
      AfterAll(rows[1..], c);
    }
  }

  /** The state after `n` pages of an unchanging result. */
  ghost predicate AtPage(rows: seq<Uuid>, returned: seq<Uuid>, next: Option<Uuid>, count: nat) {
    && returned == Take(rows, count) && count > 0
    && next == if count < |rows| then Some(rows[count - 1]) else None
  }

  lemma TakeMore(rows: seq<Uuid>, count: nat, limit: nat)
    requires count <= |rows|
    ensures Take(rows, count) + Take(rows[count..], limit) == Take(rows, count + limit)
  {}

  lemma UnchangingNext(rows: seq<Uuid>, returned: seq<Uuid>, cursor: Uuid, count: nat, limit: nat)
    requires Increasing(rows) && limit >= 1 && AtPage(rows, returned, Some(cursor), count)
    ensures var p := Paginate(rows, Some(limit), Some(cursor));
            AtPage(rows, returned + p.uuids, p.next, count + limit)
  {
    assert count < |rows| && cursor == rows[count - 1];
    AfterPrefix(rows, count);
    assert After(rows, Some(cursor)) == rows[count..];
    PageIs(rows, limit, Some(cursor));
    TakeMore(rows, count, limit);
  }

  /** As many rows as `n` full pages hold. */
  function FullPages(n: nat, limit: nat): nat { if n == 0 then 0 else FullPages(n - 1, limit) + limit }

  lemma {:induction false} FullPagesIs(n: nat, limit: nat)
    ensures FullPages(n, limit) == n * limit
  {
    if n > 0 {
      FullPagesIs(n - 1, limit);
      assert n * limit == (n - 1) * limit + limit;
    }
  }

  lemma UnchangingFirst(rows: seq<Uuid>, limit: nat, pages: seq<Page>)
    requires |pages| == 1 && pages[0] == Paginate(rows, Some(limit), None) && limit >= 1
    ensures AtPage(rows, Returned(pages), pages[0].next, FullPages(1, limit))
  {
    PageIs(rows, limit, None);
    assert Returned(pages[..0]) == [];
    assert FullPages(1, limit) == FullPages(0, limit) + limit;
  }

  lemma {:induction false} UnchangingPages(rows: seq<Uuid>, results: seq<seq<Uuid>>, limit: nat, pages: seq<Page>)
    requires IsIteration(results, limit, pages) && limit >= 1
    requires forall i :: 0 <= i < |results| ==> results[i] == rows
    ensures AtPage(rows, Returned(pages), pages[|pages| - 1].next, FullPages(|pages|, limit))
  {
    var n := |pages|;
    IterationLast(results, limit, pages);
    if n == 1 {
      UnchangingFirst(rows, limit, pages);
    } else {
      IterationInit(results, limit, pages);
      UnchangingPages(rows, results[..n - 1], limit, pages[..n - 1]);
      UnchangingNext(rows, Returned(pages[..n - 1]), pages[n - 2].next.value, FullPages(n - 1, limit), limit);
    }
  }

  /** On an unchanging result the pages concatenate to all of it, and their number is
      the count divided by the limit, rounded up, but at least one. */
  lemma CompleteUnchanging(rows: seq<Uuid>, results: seq<seq<Uuid>>, limit: nat, pages: seq<Page>)
    requires IsIteration(results, limit, pages) && limit >= 1 && pages[|pages| - 1].next.None?
    requires forall i :: 0 <= i < |results| ==> results[i] == rows
    ensures Returned(pages) == rows
    ensures |pages| == Max(1, (|rows| + limit - 1) / limit)
  {
    var n := |pages|;
    UnchangingPages(rows, results, limit, pages);
    if n > 1 {
      IterationInit(results, limit, pages);
      IterationLast(results, limit, pages);
      UnchangingPages(rows, results[..n - 1], limit, pages[..n - 1]);
    }
    FullPagesIs(n, limit);
    FullPagesIs(n - 1, limit);
    RoundedUp(|rows|, limit, n);
  }

  lemma {:induction false} TimesMonotone(a: nat, b: nat, limit: nat)
    requires a <= b
    ensures a * limit <= b * limit
  {
    if a < b {
      TimesMonotone(a, b - 1, limit);
    }
  }

  lemma RoundedUp(count: nat, limit: nat, n: nat)
    requires limit >= 1 && n >= 1 && count <= n * limit && (n > 1 ==> (n - 1) * limit < count)
    ensures n == Max(1, (count + limit - 1) / limit)
  {
    var q := (count + limit - 1) / limit;
    assert q * limit <= count + limit - 1 < q * limit + limit;
    if n > 1 && q < n {
      TimesMonotone(q, n - 1, limit);
    }
    if n < q {
      TimesMonotone(n + 1, q, limit);
    }
  }
}
