/**
  Paging shortcuts: reading a page through chunks of ids, skipping rows by rowid instead of OFFSET,
  and filling in artwork a batch at a time, each against the plain query it replaces.
 */
module Paging {
  import opened Prelude

  /** A row of the (possibly joined) result; `columns` stands for everything the sort can look at. */
  datatype Row = Row(id: string, rowid: int, columns: string)

  type Order = (Row, Row) -> bool

  ghost predicate StrictTotal(less: Order) {
    && (forall a :: !less(a, a))
    && (forall a, b, c :: less(a, b) && less(b, c) ==> less(a, c))
    && (forall a, b :: a == b || less(a, b) || less(b, a))
  }

  ghost predicate Ascending(less: Order, s: seq<Row>) { forall i, j :: 0 <= i < j < |s| ==> less(s[i], s[j]) }

  function Elements(s: seq<Row>): set<Row> { set r | r in s }

  ghost predicate IsLeast(less: Order, rows: set<Row>, m: Row) { m in rows && forall r :: r in rows && r != m ==> less(m, r) }

  lemma {:induction false} LeastExists(less: Order, rows: set<Row>) returns (m: Row)
    requires StrictTotal(less) && rows != {}
    ensures IsLeast(less, rows, m)
    decreases |rows|
  {
    m :| m in rows;
    if rows != {m} {
      var rest := rows - {m};
      assert rows == rest + {m};
      var other := LeastExists(less, rest);
      var least := if less(m, other) then m else other;
      forall r | r in rows && r != least ensures less(least, r) {
        assert r == m || r == other || less(other, r);
      }
      m := least;
    }
  }

  /** SELECT ... ORDER BY: the rows in ascending order. */
  ghost function Select(less: Order, rows: set<Row>): (s: seq<Row>)
    requires StrictTotal(less)
    ensures Ascending(less, s) && Elements(s) == rows
    decreases |rows|
  {
    if rows == {} then []
    else
      assert exists m :: IsLeast(less, rows, m) by { var m := LeastExists(less, rows); }
      var m :| IsLeast(less, rows, m);
      var rest := Select(less, rows - {m});
      LeastFirst(less, rows, m, rest);
      [m] + rest
  }

  lemma LeastFirst(less: Order, rows: set<Row>, m: Row, rest: seq<Row>)
    requires IsLeast(less, rows, m) && Ascending(less, rest) && Elements(rest) == rows - {m}
    ensures Ascending(less, [m] + rest) && Elements([m] + rest) == rows
  {
    var s := [m] + rest;
    forall i, j | 0 <= i < j < |s| ensures less(s[i], s[j]) {
      assert s[j] == rest[j - 1] && rest[j - 1] in Elements(rest);
      if i > 0 { assert s[i] == rest[i - 1]; }
    }
    assert forall r :: r in s <==> r == m || r in rest;
    assert forall r :: r in rest <==> r in Elements(rest);
  }

  /** Rows have only one ascending order. */
  lemma {:induction false} AscendingUnique(less: Order, a: seq<Row>, b: seq<Row>)
    requires StrictTotal(less) && Ascending(less, a) && Ascending(less, b) && Elements(a) == Elements(b)
    ensures a == b
  {
    if a == [] || b == [] {
      assert |a| == |b| == 0 by { SameEmptiness(a, b); }
    } else {
      SameFirst(less, a, b);
      TailElements(less, a);
      TailElements(less, b);
      AscendingUnique(less, a[1..], b[1..]);
    }
  }

  lemma SameEmptiness(a: seq<Row>, b: seq<Row>)
    requires Elements(a) == Elements(b)
    ensures a == [] <==> b == []
  {
    assert forall r :: r in a <==> r in Elements(a);
    assert forall r :: r in b <==> r in Elements(b);
    if a != [] { assert a[0] in b; }
    if b != [] { assert b[0] in a; }
  }

  lemma SameFirst(less: Order, a: seq<Row>, b: seq<Row>)
    requires StrictTotal(less) && Ascending(less, a) && Ascending(less, b) && Elements(a) == Elements(b) && a != [] && b != []
    ensures a[0] == b[0]
  {
    assert a[0] in Elements(b) && b[0] in Elements(a);
    var i :| 0 <= i < |b| && b[i] == a[0];
    var j :| 0 <= j < |a| && a[j] == b[0];
  }

  lemma TailElements(less: Order, a: seq<Row>)
    requires StrictTotal(less) && Ascending(less, a) && a != []
    ensures Ascending(less, a[1..]) && Elements(a[1..]) == Elements(a) - {a[0]}
  {
    forall r | r in Elements(a) && r != a[0] ensures r in a[1..] {
      var i :| 0 <= i < |a| && a[i] == r;
      assert a[1..][i - 1] == r;
    }
    forall i | 0 <= i < |a[1..]| ensures a[1..][i] != a[0] && a[1..][i] in a { assert a[1..][i] == a[i + 1] && less(a[0], a[i + 1]); }
  }

  /** LIMIT and OFFSET; no limit when `max` is 0. */
  function Page<T>(s: seq<T>, max: nat, offset: nat): (p: seq<T>)
    ensures |p| <= |s| && (max > 0 ==> |p| <= max)
  {
    var rest := if offset <= |s| then s[offset..] else [];
    if max == 0 || |rest| <= max then rest else rest[..max]
  }

  /** Skip `offset`, then take at most `max`, or all when it is 0. */
  lemma PageIs<T>(s: seq<T>, max: nat, offset: nat)
    ensures var p := Page(s, max, offset);
            && |p| == (if |s| <= offset then 0 else if max == 0 || |s| - offset <= max then |s| - offset else max)
            && forall i :: 0 <= i < |p| ==> offset + i < |s| && p[i] == s[offset + i]
  {
  }

  // ----- streaming by id chunks -------------------------------------------------------------

  const CHUNK_SIZE: nat := 600

  ghost predicate UniqueIds(rows: set<Row>) { forall a, b :: a in rows && b in rows && a.id == b.id ==> a == b }

  function IdsOf(s: seq<Row>): seq<string> { seq(|s|, i requires 0 <= i < |s| => s[i].id) }

  /** The hydrating fetch of one chunk: the same filter and sort, narrowed to the ids. */
  ghost function Fetch(less: Order, rows: set<Row>, ids: seq<string>): seq<Row>
    requires StrictTotal(less)
  {
    Select(less, set r | r in rows && r.id in ids)
  }

  /** Fetching the ids of a stretch of the answer gives that stretch back. */
  lemma FetchIsSlice(less: Order, rows: set<Row>, all: seq<Row>, from: nat, upto: nat)
    requires StrictTotal(less) && UniqueIds(rows) && Ascending(less, all) && Elements(all) <= rows && from <= upto <= |all|
    ensures Fetch(less, rows, IdsOf(all[from..upto])) == all[from..upto]
  {
    var slice := all[from..upto];
    var ids := IdsOf(slice);
    var wanted := set r | r in rows && r.id in ids;
    forall r ensures r in wanted <==> r in slice {
      if r in wanted {
        var i :| 0 <= i < |ids| && ids[i] == r.id;
        assert slice[i].id == r.id && slice[i] in all && slice[i] in Elements(all);
      }
      if r in slice {
        var i :| 0 <= i < |slice| && slice[i] == r;
        assert ids[i] == r.id && r in all && r in Elements(all);
      }
    }
    assert Elements(slice) == wanted;
    assert Ascending(less, slice) by {
      forall i, j | 0 <= i < j < |slice| ensures less(slice[i], slice[j]) {
        assert slice[i] == all[from + i] && slice[j] == all[from + j];
      }
    }
    AscendingUnique(less, slice, Select(less, wanted));
  }

  lemma PageIsSlice(less: Order, s: seq<Row>, max: nat, offset: nat)
    requires Ascending(less, s)
    ensures Ascending(less, Page(s, max, offset)) && Elements(Page(s, max, offset)) <= Elements(s)
  {
    var p := Page(s, max, offset);
    assert p != [] ==> forall i :: 0 <= i < |p| ==> p[i] == s[offset + i];
  }

  /**
    Streams the page whose ids were read first; `fetch` is the caller's query, which fails for the
    chunks in `failing`.  Without failures the rows are those of one query with LIMIT and OFFSET;
    otherwise they are its rows up to the chunk that failed.
   */
  method StreamByIds(ghost less: Order, ghost rows: set<Row>, ghost max: nat, ghost offset: nat, ids: seq<string>,
                     fetch: seq<string> -> seq<Row>, failing: nat -> bool)
    returns (out: seq<Row>, failed: bool)
    requires StrictTotal(less) && UniqueIds(rows)
    requires ids == IdsOf(Page(Select(less, rows), max, offset))
    requires forall chunk :: fetch(chunk) == Fetch(less, rows, chunk)
    ensures !failed ==> out == Page(Select(less, rows), max, offset)
    ensures out <= Page(Select(less, rows), max, offset)
    ensures failed <==> exists k: nat :: k * CHUNK_SIZE < |ids| && failing(k)
    ensures failed ==> |out| % CHUNK_SIZE == 0 && failing(|out| / CHUNK_SIZE)
  {
    hide StrictTotal, UniqueIds, Ascending, Elements, Page, Fetch, IdsOf;
    ghost var page := Page(Select(less, rows), max, offset);
    PageIsSlice(less, Select(less, rows), max, offset);
    IdsOfSlice(page, 0, 0);
    out, failed := [], false;
    var from, k := 0, 0;
    while from < |ids|
      invariant from <= |ids| && out == page[..from]
      invariant from == if k * CHUNK_SIZE <= |ids| then k * CHUNK_SIZE else |ids|
      invariant forall j: nat :: j < k ==> !failing(j)
      decreases |ids| - from
    {
      var upto := if from + CHUNK_SIZE <= |ids| then from + CHUNK_SIZE else |ids|;
      if failing(k) {
        failed := true;
        return;
      }
      IdsOfSlice(page, from, upto);
      FetchIsSlice(less, rows, page, from, upto);
      out := out + fetch(ids[from..upto]);
      assert page[..upto] == page[..from] + page[from..upto];
      from, k := upto, k + 1;
    }
    assert page[..|page|] == page;
  }

  lemma IdsOfSlice(s: seq<Row>, from: nat, upto: nat)
    requires from <= upto <= |s|
    ensures |IdsOf(s)| == |s| && IdsOf(s)[from..upto] == IdsOf(s[from..upto])
  {
  }

  // ----- skipping by rowid ------------------------------------------------------------------

  function RowIds(s: seq<Row>): set<int> { set i | 0 <= i < |s| :: s[i].rowid }

  /** The rows whose rowid is not among those of the first `offset` rows. */
  ghost function Survivors(less: Order, rows: set<Row>, offset: nat): seq<Row>
    requires StrictTotal(less)
  {
    Select(less, KeptRows(less, rows, offset))
  }

  /** The rewritten query: beyond the threshold, rows are skipped by the rowids of the first `offset` rows. */
  ghost function Optimized(less: Order, rows: set<Row>, max: nat, offset: nat, threshold: nat): seq<Row>
    requires StrictTotal(less)
  {
    if offset > threshold then Page(Survivors(less, rows, offset), max, 0)
    else Page(Select(less, rows), max, offset)
  }

  /** No row after the first `offset` repeats a rowid found among them, as the rows of a join might. */
  ghost predicate NoRowidAcross(s: seq<Row>, offset: nat) {
    forall i, j :: 0 <= i < offset <= j < |s| ==> s[i].rowid != s[j].rowid
  }

  function Dropped(s: seq<Row>, offset: nat): seq<Row> { if offset <= |s| then s[offset..] else [] }

  lemma SkippedIds(s: seq<Row>, offset: nat)
    requires offset > 0
    ensures forall j :: 0 <= j < |s| ==> (s[j].rowid in RowIds(Page(s, offset, 0)) <==> RowidBefore(s, offset, s[j].rowid))
  {
    var first := Page(s, offset, 0);
    assert forall i :: 0 <= i < |first| ==> first[i] == s[i];
    assert |first| == if |s| <= offset then |s| else offset;
    forall x | RowidBefore(s, offset, x) ensures x in RowIds(first) {
      var i :| 0 <= i < |s| && i < offset && s[i].rowid == x;
      assert first[i].rowid == x;
    }
  }

  ghost predicate RowidBefore(s: seq<Row>, offset: nat, x: int) {
    exists i :: 0 <= i < |s| && i < offset && s[i].rowid == x
  }

  ghost function KeptRows(less: Order, rows: set<Row>, offset: nat): set<Row>
    requires StrictTotal(less)
  {
    set r | r in rows && r.rowid !in RowIds(Page(Select(less, rows), offset, 0))
  }

  /** A row is kept when no row before the offset has its rowid. */
  lemma KeptIff(less: Order, rows: set<Row>, offset: nat, j: nat)
    requires StrictTotal(less) && offset > 0 && j < |Select(less, rows)|
    ensures var s := Select(less, rows);
            s[j] in KeptRows(less, rows, offset) <==> !RowidBefore(s, offset, s[j].rowid)
  {
    hide Page, RowIds, StrictTotal, RowidBefore, Ascending;
    var s := Select(less, rows);
    SkippedIds(s, offset);
    assert s[j] in Elements(s);
  }

  /** What survives the skip, against what comes after the offset. */
  lemma SurvivorsAre(less: Order, rows: set<Row>, offset: nat)
    requires StrictTotal(less) && offset > 0
    ensures Survivors(less, rows, offset) == Dropped(Select(less, rows), offset) <==> NoRowidAcross(Select(less, rows), offset)
  {
    var s, kept := Select(less, rows), KeptRows(less, rows, offset);
    if NoRowidAcross(s, offset) {
      KeptIsTail(less, rows, offset);
      TailAscends(less, s, offset);
      AscendingUnique(less, Dropped(s, offset), Select(less, kept));
    } else {
      var i: nat, j: nat :| i < offset <= j < |s| && s[i].rowid == s[j].rowid;
      KeptIff(less, rows, offset, j);
      assert RowidBefore(s, offset, s[j].rowid);
      assert s[j] !in Elements(Select(less, kept));
      assert Dropped(s, offset)[j - offset] == s[j];
    }
  }

  lemma TailAscends(less: Order, s: seq<Row>, offset: nat)
    requires Ascending(less, s)
    ensures Ascending(less, Dropped(s, offset))
  {
  }

  lemma KeptIsTail(less: Order, rows: set<Row>, offset: nat)
    requires StrictTotal(less) && offset > 0 && NoRowidAcross(Select(less, rows), offset)
    ensures Elements(Dropped(Select(less, rows), offset)) == KeptRows(less, rows, offset)
  {
    var s, kept := Select(less, rows), KeptRows(less, rows, offset);
    var tail := Dropped(s, offset);
    hide KeptRows, StrictTotal, Ascending;
    forall r | r in kept ensures r in tail {
      KeptAreRows(less, rows, offset, r);
      assert r in Elements(s);
      var j: nat :| j < |s| && s[j] == r;
      KeptIff(less, rows, offset, j);
      assert j >= offset;
      assert tail[j - offset] == r;
    }
    forall r | r in tail ensures r in kept {
      var i :| 0 <= i < |tail| && tail[i] == r;
      assert s[offset + i] == r;
      KeptIff(less, rows, offset, offset + i);
    }
  }

  lemma KeptAreRows(less: Order, rows: set<Row>, offset: nat, r: Row)
    requires StrictTotal(less) && r in KeptRows(less, rows, offset)
    ensures r in rows
  {
  }

  /**
    The rewrite returns what LIMIT and OFFSET return, whatever the limit, exactly when it does not
    apply or no rowid occurs on both sides of the offset.
   */
  lemma RewriteIsExactIff(less: Order, rows: set<Row>, offset: nat, threshold: nat)
    requires StrictTotal(less)
    ensures (forall max: nat :: Optimized(less, rows, max, offset, threshold) == Page(Select(less, rows), max, offset)) <==>
            (offset <= threshold || NoRowidAcross(Select(less, rows), offset))
  {
    if offset > threshold {
      hide Page, StrictTotal, NoRowidAcross, Dropped, Survivors;
      SurvivorsAre(less, rows, offset);
      var s, kept := Select(less, rows), Survivors(less, rows, offset);
      PagesDecide(kept, Dropped(s, offset));
      forall max: nat ensures Page(s, max, offset) == Page(Dropped(s, offset), max, 0) { PageOfDropped(s, max, offset); }
      if kept != Dropped(s, offset) {
        var max: nat :| Page(kept, max, 0) != Page(Dropped(s, offset), max, 0);
        assert Optimized(less, rows, max, offset, threshold) != Page(s, max, offset);
      }
    }
  }

  /** Rows that agree on every page agree. */
  lemma PagesDecide(a: seq<Row>, b: seq<Row>)
    ensures a != b ==> exists max: nat :: Page(a, max, 0) != Page(b, max, 0)
  {
    PageOfAll(a);
    PageOfAll(b);
  }

  lemma PageOfDropped(s: seq<Row>, max: nat, offset: nat)
    ensures Page(s, max, offset) == Page(Dropped(s, offset), max, 0)
  {
    assert Dropped(s, offset)[0..] == Dropped(s, offset);
  }

  lemma PageOfAll(s: seq<Row>)
    ensures Page(s, 0, 0) == s
  {
  }
}

/** Artwork hydration in batches. */
module Hydration {
  import opened Prelude

  datatype Item = Item(id: string, image: string)

  /** Primary artwork by item id. */
  type Artwork = map<string, string>

  const BATCH_SIZE: nat := 200

  function HydrateOne(art: Artwork, it: Item): Item { if it.id in art then it.(image := art[it.id]) else it }

  function HydrateAll(art: Artwork, s: seq<Item>): (r: seq<Item>)
    ensures |r| == |s| && forall i :: 0 <= i < |s| ==> r[i] == HydrateOne(art, s[i])
  {
    seq(|s|, i requires 0 <= i < |s| => HydrateOne(art, s[i]))
  }

  /** The lookup, 200 ids to a query. */
  method InfoForItems(art: Artwork, ids: seq<string>) returns (infos: Artwork)
    ensures infos == map id | id in ids && id in art :: art[id]
  {
    infos := map[];
    var from := 0;
    while from < |ids|
      invariant from <= |ids|
      invariant infos == map id | id in ids[..from] && id in art :: art[id]
    {
      var upto := if from + BATCH_SIZE <= |ids| then from + BATCH_SIZE else |ids|;
      var chunk := ids[from..upto];
      assert ids[..upto] == ids[..from] + chunk;
      infos := infos + map id | id in chunk && id in art :: art[id];
      from := upto;
    }
    assert ids[..|ids|] == ids;
  }

  /** Fills the images in place from one batched lookup; when that fails the items are left alone. */
  method HydrateItems(art: Artwork, lookupOk: bool, items: array<Item>)
    modifies items
    ensures items[..] == if lookupOk then HydrateAll(art, old(items[..])) else old(items[..])
    ensures forall i :: 0 <= i < items.Length ==>
              && items[i].id == old(items[i].id)
              && items[i].image == if lookupOk && items[i].id in art then art[items[i].id] else old(items[i].image)
  {
    ghost var was := items[..];
    var ids := seq(items.Length, i requires 0 <= i < items.Length reads items => items[i].id);
    var infos: Artwork := map[];
    if lookupOk { infos := InfoForItems(art, ids); }
    for i := 0 to items.Length
      invariant forall j :: 0 <= j < i ==> items[j] == if lookupOk then HydrateOne(art, was[j]) else was[j]
      invariant forall j :: i <= j < items.Length ==> items[j] == was[j]
    {
      assert ids[i] == was[i].id;
      if items[i].id in infos { items[i] := items[i].(image := infos[items[i].id]); }
    }
  }

  /** What a cursor delivers: rows, and perhaps an error that ends it. */
  type Cursor = seq<Result<Item>>

  function FirstError(c: Cursor): (k: nat)
    ensures k <= |c| && (forall i :: 0 <= i < k ==> c[i].Ok?) && (k < |c| ==> c[k].Err?)
  {
    if c == [] then 0 else if c[0].Err? then 0 else 1 + FirstError(c[1..])
  }

  function Values(c: Cursor, n: nat): (s: seq<Item>)
    requires n <= FirstError(c)
    ensures |s| == n
  {
    seq(n, i requires 0 <= i < n => c[i].value)
  }

  /** How many rows come out before an error: the rows of full batches. */
  function Delivered(c: Cursor): (n: nat)
    ensures n <= FirstError(c)
  {
    if FirstError(c) == |c| then |c| else FirstError(c) - FirstError(c) % BATCH_SIZE
  }

  /** Rows as they come out of the batches; `lookupOk` says which batches find their artwork. */
  function HydrateBatched(art: Artwork, lookupOk: nat -> bool, s: seq<Item>): (r: seq<Item>)
    ensures |r| == |s|
    ensures forall i :: 0 <= i < |s| ==> r[i] == if lookupOk(i / BATCH_SIZE) then HydrateOne(art, s[i]) else s[i]
  {
    seq(|s|, i requires 0 <= i < |s| => if lookupOk(i / BATCH_SIZE) then HydrateOne(art, s[i]) else s[i])
  }

  method HydrateCursor(art: Artwork, lookupOk: nat -> bool, cursor: Cursor) returns (rows: seq<Item>, failed: bool)
    ensures rows == HydrateBatched(art, lookupOk, Values(cursor, Delivered(cursor)))
    ensures failed <==> FirstError(cursor) < |cursor|
    ensures failed <==> exists i :: 0 <= i < |cursor| && cursor[i].Err?
    ensures |rows| == if failed then FirstError(cursor) - FirstError(cursor) % 200 else |cursor|
  {
    hide HydrateOne, FirstError, HydrateAll, HydrateBatched, Values, Delivered, FlushedAs;
    NothingHydrated(art, lookupOk, cursor);
    rows, failed := [], false;
    var buf: seq<Item> := [];
    ghost var done: nat := 0;
    for i := 0 to |cursor|
      invariant i <= FirstError(cursor) && i == done + |buf| && |buf| < BATCH_SIZE && done == |rows| && done % BATCH_SIZE == 0
      invariant rows == HydrateBatched(art, lookupOk, Values(cursor, done)) && buf == Values(cursor, i)[done..]
    {
      if cursor[i].Err? {
        ErrorIsFirst(cursor, i);
        DeliveredIs(cursor, done);
        return rows, true;
      }
      NextIsOk(cursor, i);
      NextValue(cursor, i);
      buf := buf + [cursor[i].value];
      if |buf| == BATCH_SIZE {
        BatchStep(art, lookupOk, cursor, done, i + 1);
        assert buf == Values(cursor, i + 1)[done..];
        var hydrated := Flush(art, lookupOk(|rows| / BATCH_SIZE), buf);
        rows := rows + hydrated;
        buf, done := [], i + 1;
        assert Values(cursor, i + 1)[done..] == [];
      }
    }
    DeliveredIs(cursor, done);
    if |buf| > 0 {
      BatchStep(art, lookupOk, cursor, done, |cursor|);
      var hydrated := Flush(art, lookupOk(|rows| / BATCH_SIZE), buf);
      rows := rows + hydrated;
    }
  }

  lemma NothingHydrated(art: Artwork, lookupOk: nat -> bool, c: Cursor)
    ensures HydrateBatched(art, lookupOk, Values(c, 0)) == [] && Values(c, 0) == []
  {
  }

  lemma NextValue(c: Cursor, i: nat)
    requires i < FirstError(c)
    ensures Values(c, i + 1) == Values(c, i) + [c[i].value]
  {
  }

  lemma DeliveredIs(c: Cursor, done: nat)
    requires done % BATCH_SIZE == 0 && done <= FirstError(c) < done + BATCH_SIZE
    ensures Delivered(c) == if FirstError(c) == |c| then |c| else done
  {
    hide FirstError;
    RemainderIs(FirstError(c), done);
  }

  lemma RemainderIs(k: nat, done: nat)
    requires done % BATCH_SIZE == 0 && done <= k < done + BATCH_SIZE
    ensures k - k % BATCH_SIZE == done
  {
    var q := done / BATCH_SIZE;
    assert k == BATCH_SIZE * q + (k - done);
  }

  /** One more batch. */
  lemma BatchStep(art: Artwork, lookupOk: nat -> bool, c: Cursor, from: nat, upto: nat)
    requires from <= upto <= FirstError(c) && from % BATCH_SIZE == 0 && upto - from <= BATCH_SIZE
    ensures HydrateBatched(art, lookupOk, Values(c, upto)) ==
            HydrateBatched(art, lookupOk, Values(c, from)) +
            FlushedAs(art, lookupOk(from / BATCH_SIZE), Values(c, upto)[from..])
  {
    hide HydrateOne, FirstError;
    forall i | from <= i < upto ensures i / BATCH_SIZE == from / BATCH_SIZE { }
  }

  function FlushedAs(art: Artwork, ok: bool, buf: seq<Item>): (r: seq<Item>)
    ensures |r| == |buf|
  {
    if ok then HydrateAll(art, buf) else buf
  }

  method Flush(art: Artwork, ok: bool, buf: seq<Item>) returns (hydrated: seq<Item>)
    ensures hydrated == FlushedAs(art, ok, buf)
  {
    var items := new Item[|buf|](i requires 0 <= i < |buf| => buf[i]);
    assert items[..] == buf;
    HydrateItems(art, ok, items);
    hydrated := items[..];
  }

  lemma ErrorIsFirst(c: Cursor, i: nat)
    requires i < |c| && i <= FirstError(c) && c[i].Err?
    ensures FirstError(c) == i
  {
  }

  lemma NextIsOk(c: Cursor, i: nat)
    requires i < |c| && i <= FirstError(c) && c[i].Ok?
    ensures i + 1 <= FirstError(c)
  {
  }

  /** A batch whose lookup fails holds no row that artwork would change. */
  ghost predicate FailuresAreHarmless(art: Artwork, lookupOk: nat -> bool, s: seq<Item>) {
    forall i :: 0 <= i < |s| && !lookupOk(i / BATCH_SIZE) ==> HydrateOne(art, s[i]) == s[i]
  }

  /**
    Batching delivers what row-by-row hydration would, exactly when no error cuts a batch short and no
    failed lookup concerns a row with artwork.
   */
  lemma BatchesAreRowByRowIff(art: Artwork, lookupOk: nat -> bool, c: Cursor)
    ensures HydrateBatched(art, lookupOk, Values(c, Delivered(c))) == HydrateAll(art, Values(c, FirstError(c))) <==>
            (FirstError(c) == |c| || FirstError(c) % BATCH_SIZE == 0) &&
            FailuresAreHarmless(art, lookupOk, Values(c, FirstError(c)))
  {
    hide HydrateOne;
    var all, some := Values(c, FirstError(c)), Values(c, Delivered(c));
    var rows, wanted := HydrateBatched(art, lookupOk, some), HydrateAll(art, all);
    assert |rows| == Delivered(c) && |wanted| == FirstError(c);
    if rows == wanted {
      forall i | 0 <= i < |all| && !lookupOk(i / BATCH_SIZE) ensures HydrateOne(art, all[i]) == all[i] {
        assert rows[i] == some[i] && wanted[i] == HydrateOne(art, all[i]);
      }
    }
  }
}
