/** Paging through the flow list by cursor, while rows come and go. */
module FlowPages {
  import opened Common
  import opened Flows

  /** The place of a row in the list: newest first, and among equal times the larger id first. */
  datatype Cursor = Cursor(start: int, id: int)

  function CursorOf(f: Flow): Cursor {
    Cursor(f.start, f.id)
  }

  predicate Below(a: Cursor, b: Cursor) {
    a.start < b.start || (a.start == b.start && a.id < b.id)
  }

  /** The condition that a cursor adds to the query. */
  predicate Past(f: Flow, cursor: Option<Cursor>) {
    cursor.Some? ==> Below(CursorOf(f), cursor.value)
  }

  predicate Descending(s: seq<Flow>) {
    forall i, j :: 0 <= i < j < |s| ==> Below(CursorOf(s[j]), CursorOf(s[i]))
  }

  predicate DistinctIds(table: seq<Flow>) {
    forall i, j :: 0 <= i < j < |table| ==> table[i].id != table[j].id
  }

  /** Puts a row at its place in the list. */
  function Placed(s: seq<Flow>, f: Flow): (r: seq<Flow>)
    requires Descending(s) && forall g :: g in s ==> g.id != f.id
    ensures Descending(r) && forall g :: g in r <==> g == f || g in s
    decreases |s|
  {
    if s == [] then [f]
    else
      var n := |s| - 1;
      assert s == s[..n] + [s[n]];
      assert s[n] in s;
      if Below(CursorOf(f), CursorOf(s[n])) then s + [f]
      else
        var front := Placed(s[..n], f);
        assert forall i :: 0 <= i < |front| ==> front[i] in front;
        assert Descending(front + [s[n]]) by {
          forall i | 0 <= i < |front| ensures Below(CursorOf(s[n]), CursorOf(front[i])) {
            assert front[i] == f || front[i] in s[..n];
          }
        }
        front + [s[n]]
  }

  /** The rows of the table that are wanted and lie past the cursor, in the order of the list. */
  function Selected(table: seq<Flow>, wanted: Flow -> bool, cursor: Option<Cursor>): (r: seq<Flow>)
    requires DistinctIds(table)
    ensures Descending(r) && forall f :: f in r <==> f in table && wanted(f) && Past(f, cursor)
  {
    if table == [] then []
    else
      var n := |table| - 1;
      var rest := Selected(table[..n], wanted, cursor);
      assert table == table[..n] + [table[n]];
      if wanted(table[n]) && Past(table[n], cursor) then
        assert forall g :: g in rest ==> g.id != table[n].id;
        Placed(rest, table[n])
      else rest
  }

  datatype Page = Page(items: seq<Flow>, next: Option<Cursor>)

  /** One row more than the page holds is read, to see whether there is a next page. */
  function FlowsPage(table: seq<Flow>, wanted: Flow -> bool, cursor: Option<Cursor>, limit: nat): Page
    requires DistinctIds(table) && limit > 0
  {
    var all := Selected(table, wanted, cursor);
    var rows := all[..Min(limit + 1, |all|)];
    var items := rows[..Min(limit, |rows|)];
    Page(items, if |rows| > limit then Some(CursorOf(items[|items| - 1])) else None)
  }

  predicate Candidate(f: Flow, table: seq<Flow>, wanted: Flow -> bool, cursor: Option<Cursor>) {
    f in table && wanted(f) && Past(f, cursor)
  }

  lemma LaterNotEarlier(s: seq<Flow>, k: nat)
    requires Descending(s) && k < |s|
    ensures s[k] !in s[..k]
  {
  }

  /** The rows of a list come after those of its front. */
  lemma FrontAndRest(s: seq<Flow>, k: nat)
    requires Descending(s) && k <= |s|
    ensures Descending(s[..k]) && forall f :: f in s[..k] ==> f in s
    ensures forall f :: f in s && f !in s[..k] ==> k < |s| && (k > 0 ==> Below(CursorOf(f), CursorOf(s[k - 1])))
    ensures k < |s| ==> s[k] !in s[..k]
  {
    if k < |s| {
      LaterNotEarlier(s, k);
    }
    assert forall j :: 0 <= j < k ==> s[j] == s[..k][j];
    forall f | f in s && f !in s[..k] ensures k < |s| && (k > 0 ==> Below(CursorOf(f), CursorOf(s[k - 1]))) {
      var i :| 0 <= i < |s| && s[i] == f;
    }
  }

  /**
   * A page holds the first rows past the cursor, at most `limit`, in order; the next cursor is its last row's
   * place, and is missing exactly when nothing wanted lies past the page.
   */
  lemma PageMeans(table: seq<Flow>, wanted: Flow -> bool, cursor: Option<Cursor>, limit: nat)
    requires DistinctIds(table) && limit > 0
    ensures var p := FlowsPage(table, wanted, cursor, limit);
            && |p.items| <= limit && Descending(p.items)
            && (forall f :: f in p.items ==> Candidate(f, table, wanted, cursor))
            && (p.next.None? <==> forall f :: Candidate(f, table, wanted, cursor) ==> f in p.items)
            && (p.next.Some? ==> |p.items| == limit && p.next.value == CursorOf(p.items[limit - 1]))
            && (forall f :: Candidate(f, table, wanted, cursor) && f !in p.items ==> p.next.Some? && Past(f, p.next))
  {
    var all, p := Selected(table, wanted, cursor), FlowsPage(table, wanted, cursor, limit);
    hide Selected, Below;
    var k := |p.items|;
    assert p.items == all[..k] && (p.next.Some? <==> k < |all|);
    FrontAndRest(all, k);
    assert p.next.Some? ==> all[k] in all;
  }

  lemma NotBelowNext(p: Page, f: Flow)
    requires Descending(p.items) && f in p.items && p.items != []
    ensures f == p.items[|p.items| - 1] || Below(CursorOf(p.items[|p.items| - 1]), CursorOf(f))
  {
  }

  /** Later, or at the same time with the larger id. */
  predicate Newer(f: Flow, g: Flow) {
    f.start > g.start || (f.start == g.start && f.id > g.id)
  }

  predicate OlderThan(f: Flow, cursor: Cursor) {
    f.start < cursor.start || (f.start == cursor.start && f.id < cursor.id)
  }

  /** A row that is wanted and older than the cursor. */
  predicate Ahead(f: Flow, table: seq<Flow>, wanted: Flow -> bool, cursor: Option<Cursor>) {
    f in table && wanted(f) && (cursor.Some? ==> OlderThan(f, cursor.value))
  }

  /**
   * Pages run from new to old: on each page the newer rows come first, all are older than the cursor that was given,
   * and whatever is wanted and older than it, but not on the page, is older than every row of the page.
   */
  lemma NewestFirst(table: seq<Flow>, wanted: Flow -> bool, cursor: Option<Cursor>, limit: nat)
    requires DistinctIds(table) && limit > 0
    ensures var page := FlowsPage(table, wanted, cursor, limit);
            var items, next := page.items, page.next;
            && (forall i, j :: 0 <= i < j < |items| ==> Newer(items[i], items[j]))
            && (forall f :: f in items ==> Ahead(f, table, wanted, cursor))
            && (forall f, i :: Ahead(f, table, wanted, cursor) && f !in items && 0 <= i < |items| ==>
                  Newer(items[i], f))
            && (next.Some? ==> items != [] && next.value == Cursor(items[|items| - 1].start, items[|items| - 1].id))
  {
    var p := FlowsPage(table, wanted, cursor, limit);
    PageMeans(table, wanted, cursor, limit);
    hide FlowsPage, DistinctIds, Selected;
    forall f ensures Ahead(f, table, wanted, cursor) <==> Candidate(f, table, wanted, cursor) {
    }
    hide Ahead, Candidate;
    forall f, i | Ahead(f, table, wanted, cursor) && f !in p.items && 0 <= i < |p.items|
      ensures Newer(p.items[i], f)
    {
      NotBelowNext(p, p.items[i]);
    }
  }

  // ----- walking from page to page

  /** What one request finds: the table, the filters (the time window moves with the clock) and the page size. */
  datatype Request = Request(table: seq<Flow>, wanted: Flow -> bool, limit: nat)

  function CursorAt(pages: seq<Page>, i: nat): Option<Cursor>
    requires i <= |pages|
  {
    if i == 0 then None else pages[i - 1].next
  }

  /** The `i`-th page answers a request with the cursor of the page before it. */
  ghost predicate Follows(requests: seq<Request>, pages: seq<Page>, i: nat)
    requires i < |requests| == |pages|
  {
    && DistinctIds(requests[i].table) && requests[i].limit > 0
    && (i > 0 ==> pages[i - 1].next.Some?)
    && pages[i] == FlowsPage(requests[i].table, requests[i].wanted, CursorAt(pages, i), requests[i].limit)
  }

  ghost predicate Walk(requests: seq<Request>, pages: seq<Page>) {
    |requests| == |pages| > 0 && forall i :: 0 <= i < |requests| ==> Follows(requests, pages, i)
  }

  lemma PageOfWalk(requests: seq<Request>, pages: seq<Page>, i: nat)
    requires Walk(requests, pages) && i < |pages|
    ensures |requests| == |pages| && (i > 0 ==> pages[i - 1].next.Some?)
    ensures Descending(pages[i].items) && |pages[i].items| <= requests[i].limit
    ensures forall f :: f in pages[i].items ==> Candidate(f, requests[i].table, requests[i].wanted, CursorAt(pages, i))
    ensures pages[i].next.None? <==>
            forall f :: Candidate(f, requests[i].table, requests[i].wanted, CursorAt(pages, i)) ==> f in pages[i].items
    ensures pages[i].next.Some? ==>
              pages[i].items != [] && pages[i].next.value == CursorOf(pages[i].items[|pages[i].items| - 1])
    ensures forall f :: Candidate(f, requests[i].table, requests[i].wanted, CursorAt(pages, i)) && f !in pages[i].items
              ==> pages[i].next.Some? && Past(f, pages[i].next)
  {
    assert Follows(requests, pages, i);
    hide Descending, Candidate, FlowsPage, CursorAt, Past, DistinctIds;
    PageMeans(requests[i].table, requests[i].wanted, CursorAt(pages, i), requests[i].limit);
  }

  /** The cursor moves strictly down the list with every page. */
  lemma {:induction false} CursorsDecrease(requests: seq<Request>, pages: seq<Page>, i: nat, j: nat)
    requires Walk(requests, pages) && i < j < |pages|
    ensures pages[i].next.Some? && (pages[j].next.Some? ==> Below(pages[j].next.value, pages[i].next.value))
    ensures forall f :: f in pages[j].items ==> Below(CursorOf(f), pages[i].next.value)
    decreases j
  {
    hide Walk, Descending;
    PageOfWalk(requests, pages, j);
    if i < j - 1 {
      CursorsDecrease(requests, pages, i, j - 1);
    }
    assert CursorAt(pages, j) == pages[j - 1].next;
    forall f | f in pages[j].items ensures Below(CursorOf(f), pages[i].next.value) {
      assert Past(f, pages[j - 1].next);
    }
  }

  /**
   * Whatever happens to the table between the requests, the pages together list rows in strictly descending order, so
   * none comes twice.
   */
  lemma NoRowTwice(requests: seq<Request>, pages: seq<Page>, i: nat, j: nat, f: Flow, g: Flow)
    requires Walk(requests, pages) && i < j < |pages| && f in pages[i].items && g in pages[j].items
    ensures Below(CursorOf(g), CursorOf(f)) && f != g
  {
    hide Walk, Descending, Candidate;
    PageOfWalk(requests, pages, i);
    CursorsDecrease(requests, pages, i, j);
    NotBelowNext(pages[i], f);
  }

  /** A row that every request could see and wants is returned before the walk passes it. */
  lemma {:induction false} SeenOrAhead(requests: seq<Request>, pages: seq<Page>, n: nat, f: Flow)
    requires Walk(requests, pages) && n <= |pages|
    requires forall i :: 0 <= i < |requests| ==> f in requests[i].table && requests[i].wanted(f)
    ensures (exists i :: 0 <= i < n && f in pages[i].items) || Past(f, CursorAt(pages, n))
    ensures n == |pages| && pages[n - 1].next.None? ==> exists i :: 0 <= i < n && f in pages[i].items
  {
    assert |pages| > 0;
    hide Walk, Descending;
    if n > 0 {
      SeenOrAhead(requests, pages, n - 1, f);
      if !exists i :: 0 <= i < n - 1 && f in pages[i].items {
        PageOfWalk(requests, pages, n - 1);
        assert Candidate(f, requests[n - 1].table, requests[n - 1].wanted, CursorAt(pages, n - 1));
      }
    }
  }

  /** A finished walk returns every row that was there and wanted at every request exactly once. */
  lemma FinishedWalkReturnsOnce(requests: seq<Request>, pages: seq<Page>, f: Flow) returns (i: nat, k: nat)
    requires Walk(requests, pages) && pages[|pages| - 1].next.None?
    requires forall i :: 0 <= i < |requests| ==> f in requests[i].table && requests[i].wanted(f)
    ensures i < |pages| && k < |pages[i].items| && pages[i].items[k] == f
    ensures forall j, m :: 0 <= j < |pages| && 0 <= m < |pages[j].items| && pages[j].items[m] == f ==> j == i && m == k
  {
    hide Walk, Candidate, Past;
    SeenOrAhead(requests, pages, |pages|, f);
    i :| i < |pages| && f in pages[i].items;
    k :| k < |pages[i].items| && pages[i].items[k] == f;
    forall j, m | 0 <= j < |pages| && 0 <= m < |pages[j].items| && pages[j].items[m] == f ensures j == i && m == k {
      if j < i {
        NoRowTwice(requests, pages, j, i, f, f);
      } else if i < j {
        NoRowTwice(requests, pages, i, j, f, f);
      } else {
        PageOfWalk(requests, pages, i);
      }
    }
  }
}
