/** `FleetCatalogClient.list_all`: reading one snapshot page by page from a server that may do anything. */
module FleetCatalog {
  import opened Basics

  datatype Row = Row(name: string, id: string)
  datatype Cursor = Cursor(afterName: string, afterId: string)
  datatype Identity = Identity(digest: string, total: int)
  datatype Page = Page(identity: Identity, rows: seq<Row>, next: Option<Cursor>)

  /** The page the server gives for the `n`-th request, which names a cursor or none. */
  type Server = (nat, Option<Cursor>) -> Page

  datatype Listing = Complete(rows: seq<Row>) | SnapshotChanged | RepeatedRow | RepeatedCursor | WrongTotal

  /** The reader between two requests. */
  datatype Reader = Reader(
    calls: nat, cursor: Option<Cursor>, identity: Option<Identity>, rows: seq<Row>, seenIds: set<string>,
    seenCursors: set<Cursor>)

  const START := Reader(0, None, None, [], {}, {})

  /** `_append_unique`, as a whole. */
  ghost predicate Fresh(rows: seq<Row>, seen: set<string>)
  {
    && (forall i :: 0 <= i < |rows| ==> rows[i].id !in seen)
    && forall i, j :: 0 <= i < j < |rows| ==> rows[i].id != rows[j].id
  }

  ghost function Ids(rows: seq<Row>): set<string> { set r | r in rows :: r.id }

  ghost predicate Within(server: Server, space: set<Cursor>)
  {
    forall n: nat, c :: server(n, c).next.Some? ==> server(n, c).next.value in space
  }

  /** The whole read from one request on, as the checks order it. */
  ghost function Read(server: Server, space: set<Cursor>, r: Reader): Listing
    requires Within(server, space)
    decreases |space - r.seenCursors|
  {
    var page := server(r.calls, r.cursor);
    if r.identity.Some? && r.identity.value != page.identity then SnapshotChanged
    else if !Fresh(page.rows, r.seenIds) then RepeatedRow
    else
      var rows := r.rows + page.rows;
      if page.next.None? then (if |rows| != page.identity.total then WrongTotal else Complete(rows))
      else if page.next.value in r.seenCursors then RepeatedCursor
      else
        Shrinks(space, r.seenCursors, page.next.value);
        Read(server, space, Next(r, page))
  }

  ghost function Next(r: Reader, page: Page): Reader
    requires page.next.Some?
  {
    Reader(r.calls + 1, page.next, Some(page.identity), r.rows + page.rows, r.seenIds + Ids(page.rows),
           r.seenCursors + {page.next.value})
  }

  lemma Shrinks(space: set<Cursor>, seen: set<Cursor>, c: Cursor)
    requires c in space && c !in seen
    ensures |space - (seen + {c})| < |space - seen|
  {
    assert space - seen == (space - (seen + {c})) + {c};
  }

  // ------------------------------------------------------------------------ the reader

  method AppendUnique(rows: seq<Row>, seenIds: set<string>, pageRows: seq<Row>)
    returns (ok: bool, all: seq<Row>, seen: set<string>)
    ensures ok <==> Fresh(pageRows, seenIds)
    ensures ok ==> all == rows + pageRows && seen == seenIds + Ids(pageRows)
  {
    all, seen := rows, seenIds;
    for i := 0 to |pageRows|
      invariant all == rows + pageRows[..i]
      invariant seen == seenIds + Ids(pageRows[..i])
      invariant Fresh(pageRows[..i], seenIds)
    {
      var row := pageRows[i];
      assert pageRows[..i + 1] == pageRows[..i] + [row];
      if row.id in seen {
        if row.id !in seenIds {
          var k :| 0 <= k < i && pageRows[k].id == row.id;
        }
        return false, all, seen;
      }
      forall k | 0 <= k < i ensures pageRows[k].id != row.id { assert pageRows[k] in pageRows[..i]; }
      seen := seen + {row.id};
      all := all + [row];
    }
    assert pageRows[..|pageRows|] == pageRows;
    ok := true;
  }

  /** One turn of the loop: a request, the checks on its page, and the reader after it. */
  method Turn(server: Server, ghost space: set<Cursor>, r: Reader) returns (done: bool, res: Listing, next: Reader)
    requires Within(server, space)
    ensures done ==> res == Read(server, space, r)
    ensures !done ==> Read(server, space, r) == Read(server, space, next)
    ensures !done ==> |space - next.seenCursors| < |space - r.seenCursors|
  {
    next := r;
    var page := server(r.calls, r.cursor);
    if r.identity.Some? && r.identity.value != page.identity {
      return true, SnapshotChanged, r;
    }
    var ok, all, seen := AppendUnique(r.rows, r.seenIds, page.rows);
    if !ok {
      return true, RepeatedRow, r;
    }
    if page.next.None? {
      return true, if |all| != page.identity.total then WrongTotal else Complete(all), r;
    }
    if page.next.value in r.seenCursors {
      return true, RepeatedCursor, r;
    }
    next := Reader(r.calls + 1, page.next, Some(page.identity), all, seen, r.seenCursors + {page.next.value});
    assert next == Next(r, page);
    GoodStep(server, space, r);
    return false, WrongTotal, next;
  }

  /** `list_all`; it ends because a cursor that comes back is refused and there are finitely many. */
  method ListAll(server: Server, ghost space: set<Cursor>) returns (res: Listing)
    requires Within(server, space)
    ensures res == Read(server, space, START)
  {
    var r := START;
    ghost var outcome := Read(server, space, START);
    while true
      invariant Read(server, space, r) == outcome
      decreases |space - r.seenCursors|
    {
      var done, listing, next := Turn(server, space, r);
      if done {
        return listing;
      }
      r := next;
    }
  }

  // --------------------------------------------------------- what a finished read means

  ghost function RowsOf(pages: seq<Page>): seq<Row>
  {
    if pages == [] then [] else pages[0].rows + RowsOf(pages[1..])
  }

  ghost predicate SameIdentity(pages: seq<Page>, id: Identity)
  {
    forall i :: 0 <= i < |pages| ==> pages[i].identity == id
  }

  ghost predicate Consistent(r: Reader) { r.seenIds == Ids(r.rows) && Fresh(r.rows, {}) }

  lemma FreshAppend(rows: seq<Row>, more: seq<Row>)
    requires Fresh(rows, {}) && Fresh(more, Ids(rows))
    ensures Fresh(rows + more, {}) && Ids(rows + more) == Ids(rows) + Ids(more)
  {
    var all := rows + more;
    assert forall i :: 0 <= i < |rows| ==> rows[i] in rows && rows[i].id in Ids(rows);
  }

  /** One turn of a read that goes on to return rows. */
  lemma CompleteStep(server: Server, space: set<Cursor>, r: Reader)
    requires Within(server, space) && Read(server, space, r).Complete?
    ensures var page := server(r.calls, r.cursor);
      && (r.identity.Some? ==> r.identity.value == page.identity) && Fresh(page.rows, r.seenIds)
      && (page.next.None? ==>
            Read(server, space, r).rows == r.rows + page.rows && |r.rows + page.rows| == page.identity.total)
      && (page.next.Some? ==> Read(server, space, r) == Read(server, space, Next(r, page))
                              && |space - Next(r, page).seenCursors| < |space - r.seenCursors|)
  {
    var page := server(r.calls, r.cursor);
    if page.next.Some? { Shrinks(space, r.seenCursors, page.next.value); }
  }

  lemma PrependPage(page: Page, rest: seq<Page>, rows: seq<Row>)
    ensures RowsOf([page] + rest) == page.rows + RowsOf(rest)
    ensures (rows + page.rows) + RowsOf(rest) == rows + RowsOf([page] + rest)
  {
    assert ([page] + rest)[1..] == rest;
    assert (rows + page.rows) + RowsOf(rest) == rows + (page.rows + RowsOf(rest));
  }

  /** From `r` on the server gives these pages, and no check finds anything wrong with them. */
  ghost predicate GoodRun(server: Server, r: Reader, pages: seq<Page>)
    decreases |pages|
  {
    && pages != [] && pages[0] == server(r.calls, r.cursor)
    && (r.identity.Some? ==> r.identity.value == pages[0].identity) && Fresh(pages[0].rows, r.seenIds)
    && if pages[0].next.None? then |pages| == 1 && |r.rows + pages[0].rows| == pages[0].identity.total
       else pages[0].next.value !in r.seenCursors && GoodRun(server, Next(r, pages[0]), pages[1..])
  }

  lemma {:induction false} CompleteHasRun(server: Server, space: set<Cursor>, r: Reader) returns (pages: seq<Page>)
    requires Within(server, space) && Read(server, space, r).Complete?
    ensures GoodRun(server, r, pages)
    decreases |space - r.seenCursors|
  {
    var page := server(r.calls, r.cursor);
    CompleteStep(server, space, r);
    if page.next.None? {
      pages := [page];
    } else {
      var rest := CompleteHasRun(server, space, Next(r, page));
      pages := [page] + rest;
      assert pages[1..] == rest;
    }
  }

  ghost predicate OneSnapshot(pages: seq<Page>, rows: seq<Row>)
  {
    pages != [] && SameIdentity(pages, pages[0].identity) && Fresh(rows, {}) && |rows| == pages[0].identity.total
  }

  lemma {:induction false} GoodRunIsOneSnapshot(server: Server, r: Reader, pages: seq<Page>)
    requires Consistent(r) && GoodRun(server, r, pages)
    ensures OneSnapshot(pages, r.rows + RowsOf(pages)) && (r.identity.Some? ==> r.identity.value == pages[0].identity)
    decreases |pages|
  {
    FreshAppend(r.rows, pages[0].rows);
    PrependPage(pages[0], pages[1..], r.rows);
    assert pages == [pages[0]] + pages[1..];
    if pages[0].next.Some? {
      GoodRunIsOneSnapshot(server, Next(r, pages[0]), pages[1..]);
    } else {
      assert r.rows + pages[0].rows + [] == r.rows + pages[0].rows;
    }
  }

  /** When the read returns rows they are the rows of the pages served, in order; every page carried one digest
      and one total, no row id occurs twice, and there are as many rows as the total says. */
  lemma CompleteIsOneSnapshot(server: Server, space: set<Cursor>) returns (pages: seq<Page>)
    requires Within(server, space) && Read(server, space, START).Complete?
    ensures GoodRun(server, START, pages) && Read(server, space, START).rows == RowsOf(pages)
    ensures OneSnapshot(pages, RowsOf(pages))
  {
    pages := CompleteHasRun(server, space, START);
    GoodRunReads(server, space, START, pages);
    GoodRunIsOneSnapshot(server, START, pages);
    assert [] + RowsOf(pages) == RowsOf(pages);
  }

  // --------------------------------------------------------------------- honest servers

  function KeyOf(row: Row): Cursor { Cursor(row.name, row.id) }

  /** A page of the snapshot from position `i` on, of any length that makes progress. */
  ghost predicate HonestPage(page: Page, snapshot: seq<Row>, digest: string, i: nat)
  {
    var end := i + |page.rows|;
    && page.identity == Identity(digest, |snapshot|)
    && end <= |snapshot| && page.rows == snapshot[i..end]
    && (page.next.Some? <==> end < |snapshot|)
    && (page.next.Some? ==> page.rows != [] && page.next.value == KeyOf(snapshot[end - 1]))
  }

  /** The cursor that stands for position `i`: none for the start, else the key of the row before it. */
  function CursorAt(snapshot: seq<Row>, i: nat): Option<Cursor>
    requires i <= |snapshot|
  {
    if i == 0 then None else Some(KeyOf(snapshot[i - 1]))
  }

  ghost predicate HonestFrom(server: Server, snapshot: seq<Row>, digest: string, i: nat)
    requires i <= |snapshot|
  {
    forall n: nat :: HonestPage(server(n, CursorAt(snapshot, i)), snapshot, digest, i)
  }

  /** The server pages through one snapshot. */
  ghost predicate Honest(server: Server, snapshot: seq<Row>, digest: string)
  {
    forall i: nat :: i <= |snapshot| ==> HonestFrom(server, snapshot, digest, i)
  }

  /** The reader has taken the first `i` rows, and its cursors lie before `i`. */
  ghost predicate At(r: Reader, snapshot: seq<Row>, digest: string, i: nat)
  {
    && i <= |snapshot| && r.rows == snapshot[..i] && r.seenIds == Ids(snapshot[..i])
    && (r.identity.Some? ==> r.identity.value == Identity(digest, |snapshot|))
    && r.cursor == CursorAt(snapshot, i)
    && r.seenCursors <= KeysOf(snapshot[..i])
  }

  ghost function KeysOf(rows: seq<Row>): set<Cursor> { set r | r in rows :: KeyOf(r) }

  lemma StretchIds(snapshot: seq<Row>, i: nat, end: nat)
    requires Fresh(snapshot, {}) && i <= end <= |snapshot|
    ensures Fresh(snapshot[i..end], Ids(snapshot[..i]))
    ensures Ids(snapshot[..end]) == Ids(snapshot[..i]) + Ids(snapshot[i..end])
  {
    assert snapshot[..i] + snapshot[i..end] == snapshot[..end];
  }

  lemma StretchKeys(snapshot: seq<Row>, i: nat, end: nat)
    requires Fresh(snapshot, {}) && i < end <= |snapshot|
    ensures KeyOf(snapshot[end - 1]) !in KeysOf(snapshot[..i])
    ensures KeysOf(snapshot[..i]) + {KeyOf(snapshot[end - 1])} <= KeysOf(snapshot[..end])
  {
    assert snapshot[end - 1] in snapshot[..end];
    forall r | r in snapshot[..i] ensures r in snapshot[..end] && r.id != snapshot[end - 1].id {
      var k :| 0 <= k < i && snapshot[..i][k] == r;
      assert snapshot[..end][k] == r && snapshot[k] == r;
    }
  }

  lemma HonestRows(page: Page, snapshot: seq<Row>, digest: string, r: Reader, i: nat)
    requires HonestPage(page, snapshot, digest, i) && Fresh(snapshot, {}) && At(r, snapshot, digest, i)
    ensures Fresh(page.rows, r.seenIds) && r.rows + page.rows == snapshot[..i + |page.rows|]
    ensures Ids(snapshot[..i + |page.rows|]) == r.seenIds + Ids(page.rows)
  {
    var end := i + |page.rows|;
    assert snapshot[..i] + snapshot[i..end] == snapshot[..end];
    StretchIds(snapshot, i, end);
  }

  lemma HonestNext(page: Page, snapshot: seq<Row>, digest: string, r: Reader, i: nat)
    requires HonestPage(page, snapshot, digest, i) && At(r, snapshot, digest, i) && page.next.Some?
    requires r.rows + page.rows == snapshot[..i + |page.rows|]
    requires Ids(snapshot[..i + |page.rows|]) == r.seenIds + Ids(page.rows)
    requires KeysOf(snapshot[..i]) + {page.next.value} <= KeysOf(snapshot[..i + |page.rows|])
    ensures At(Next(r, page), snapshot, digest, i + |page.rows|)
  {
  }

  lemma HonestStep(page: Page, snapshot: seq<Row>, digest: string, r: Reader, i: nat)
    requires HonestPage(page, snapshot, digest, i) && Fresh(snapshot, {}) && At(r, snapshot, digest, i)
    ensures Fresh(page.rows, r.seenIds) && r.rows + page.rows == snapshot[..i + |page.rows|]
    ensures page.next.Some? ==>
              page.next.value !in r.seenCursors && At(Next(r, page), snapshot, digest, i + |page.rows|)
  {
    HonestRows(page, snapshot, digest, r, i);
    if page.next.Some? {
      StretchKeys(snapshot, i, i + |page.rows|);
      HonestNext(page, snapshot, digest, r, i);
    }
  }

  lemma HonestReply(server: Server, snapshot: seq<Row>, digest: string, r: Reader, i: nat)
    requires Honest(server, snapshot, digest) && At(r, snapshot, digest, i)
    ensures HonestPage(server(r.calls, r.cursor), snapshot, digest, i)
  {
    assert HonestFrom(server, snapshot, digest, i);
  }

  /** One turn of a read that finds nothing wrong. */
  lemma GoodStep(server: Server, space: set<Cursor>, r: Reader)
    requires Within(server, space)
    requires var page := server(r.calls, r.cursor);
      && (r.identity.Some? ==> r.identity.value == page.identity) && Fresh(page.rows, r.seenIds)
      && (page.next.Some? ==> page.next.value !in r.seenCursors)
    ensures var page := server(r.calls, r.cursor);
      && (page.next.None? && |r.rows + page.rows| == page.identity.total ==>
          Read(server, space, r) == Complete(r.rows + page.rows))
      && (page.next.Some? ==> Read(server, space, r) == Read(server, space, Next(r, page))
                              && |space - Next(r, page).seenCursors| < |space - r.seenCursors|)
  {
    var page := server(r.calls, r.cursor);
    if page.next.Some? { Shrinks(space, r.seenCursors, page.next.value); }
  }

  lemma {:induction false} GoodRunReads(server: Server, space: set<Cursor>, r: Reader, pages: seq<Page>)
    requires Within(server, space) && GoodRun(server, r, pages)
    ensures Read(server, space, r) == Complete(r.rows + RowsOf(pages))
    decreases |pages|
  {
    GoodStep(server, space, r);
    PrependPage(pages[0], pages[1..], r.rows);
    assert pages == [pages[0]] + pages[1..];
    if pages[0].next.Some? {
      GoodRunReads(server, space, Next(r, pages[0]), pages[1..]);
    } else {
      assert r.rows + pages[0].rows + [] == r.rows + pages[0].rows;
    }
  }

  lemma ExtendRun(server: Server, r: Reader, page: Page, rest: seq<Page>)
    requires page == server(r.calls, r.cursor) && (r.identity.Some? ==> r.identity.value == page.identity)
    requires Fresh(page.rows, r.seenIds) && page.next.Some? && page.next.value !in r.seenCursors
    requires GoodRun(server, Next(r, page), rest)
    ensures GoodRun(server, r, [page] + rest)
  {
    assert ([page] + rest)[1..] == rest;
  }

  lemma {:induction false} HonestRun(server: Server, snapshot: seq<Row>, digest: string, r: Reader, i: nat)
    returns (pages: seq<Page>)
    requires Honest(server, snapshot, digest) && Fresh(snapshot, {}) && At(r, snapshot, digest, i)
    ensures GoodRun(server, r, pages) && r.rows + RowsOf(pages) == snapshot
    decreases |snapshot| - i
  {
    var page := server(r.calls, r.cursor);
    HonestReply(server, snapshot, digest, r, i);
    HonestStep(page, snapshot, digest, r, i);
    if page.next.None? {
      pages := [page];
      LastPage(page, r.rows);
      assert snapshot[..|snapshot|] == snapshot;
    } else {
      var rest := HonestRun(server, snapshot, digest, Next(r, page), i + |page.rows|);
      pages := [page] + rest;
      PrependPage(page, rest, r.rows);
      ExtendRun(server, r, page, rest);
    }
  }

  lemma LastPage(page: Page, rows: seq<Row>)
    ensures rows + RowsOf([page]) == rows + page.rows
  {
    assert [page][1..] == [] && page.rows + [] == page.rows;
  }

  /** Against an honest server the read returns exactly the snapshot. */
  lemma HonestServerIsRead(server: Server, space: set<Cursor>, snapshot: seq<Row>, digest: string)
    requires Within(server, space) && Honest(server, snapshot, digest) && Fresh(snapshot, {})
    ensures Read(server, space, START) == Complete(snapshot)
  {
    var pages := HonestRun(server, snapshot, digest, START, 0);
    GoodRunReads(server, space, START, pages);
  }
}
