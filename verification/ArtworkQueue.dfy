/**
  The artwork_queue table: upserts, insert-if-not-queued, and the two settling operations that act
  only while retry_at still is what the worker saw.
 */
module ArtworkQueue {
  import opened Prelude

  const PRIMARY := "primary"
  const CHUNK_SIZE := 100

  datatype Key = Key(kind: string, id: string, imageType: string)

  datatype Row = Row(priority: int, attempts: nat, retryAt: int, enqueuedAt: int)

  type Table = map<Key, Row>

  datatype Item = Item(kind: string, id: string, imageType: string, priority: int)

  function KeyOf(it: Item): Key { Key(it.kind, it.id, if it.imageType == "" then PRIMARY else it.imageType) }

  function Max(a: int, b: int): int { if a < b then b else a }

  /** How an insert treats a row that is already queued. */
  datatype OnConflict = Reset | KeepBackoff | Skip

  /** One inserted row. */
  function Put(t: Table, mode: OnConflict, it: Item, now: int): Table {
    var k := KeyOf(it);
    if k !in t then t[k := Row(it.priority, 0, now, now)]
    else
      match mode
      case Reset => t[k := Row(Max(t[k].priority, it.priority), 0, now, now)]
      case KeepBackoff => t[k := t[k].(priority := Max(t[k].priority, it.priority))]
      case Skip => t
  }

  function PutAll(t: Table, mode: OnConflict, items: seq<Item>, now: int): Table {
    if items == [] then t
    else Put(PutAll(t, mode, items[..|items| - 1], now), mode, items[|items| - 1], now)
  }

  function MarkedFailed(t: Table, k: Key, seenRetryAt: int, retryAt: int): Table {
    if k in t && t[k].retryAt == seenRetryAt
    then t[k := t[k].(attempts := t[k].attempts + 1, retryAt := retryAt)] else t
  }

  function Deleted(t: Table, k: Key, seenRetryAt: int): Table {
    if k in t && t[k].retryAt == seenRetryAt then t - {k} else t
  }

  // ----- dequeuing ------------------------------------------------------------------------

  predicate Eligible(t: Table, now: int, kinds: set<string>, k: Key) {
    k in t && t[k].retryAt <= now && (kinds == {} || k.kind in kinds)
  }

  /** ORDER BY priority DESC, enqueued_at ASC. */
  predicate Before(a: Row, b: Row) {
    a.priority > b.priority || (a.priority == b.priority && a.enqueuedAt <= b.enqueuedAt)
  }

  function Candidates(t: Table, now: int, kinds: set<string>): set<Key> {
    set k | k in t && Eligible(t, now, kinds, k)
  }

  /** The batch is the first n eligible rows in order, ties broken either way. */
  ghost predicate IsBatch(t: Table, now: int, n: nat, kinds: set<string>, batch: seq<Key>) {
    && (forall i :: 0 <= i < |batch| ==> Eligible(t, now, kinds, batch[i]))
    && (forall i, j :: 0 <= i < j < |batch| ==> batch[i] != batch[j] && Before(t[batch[i]], t[batch[j]]))
    && (forall k, i :: Eligible(t, now, kinds, k) && k !in batch && 0 <= i < |batch| ==> Before(t[batch[i]], t[k]))
    && |batch| == if |Candidates(t, now, kinds)| < n then |Candidates(t, now, kinds)| else n
  }

  lemma {:induction false} FirstCandidate(t: Table, ks: set<Key>)
    requires ks != {} && ks <= t.Keys
    ensures exists k :: k in ks && forall other :: other in ks ==> Before(t[k], t[other])
  {
    var x :| x in ks;
    if ks != {x} {
      var rest := ks - {x};
      assert ks == rest + {x};
      FirstCandidate(t, rest);
      var y :| y in rest && forall other :: other in rest ==> Before(t[y], t[other]);
      var z := if Before(t[x], t[y]) then x else y;
      forall other | other in ks ensures Before(t[z], t[other]) {
        if other != x { assert other in rest; }
      }
    }
  }

  /** `batch` are the first of `all` in order, `left` the others. */
  ghost predicate Taken(t: Table, all: set<Key>, left: set<Key>, batch: seq<Key>) {
    && all <= t.Keys && (forall k :: k in all <==> k in left || k in batch)
    && (forall i :: 0 <= i < |batch| ==> batch[i] !in left)
    && (forall i, j :: 0 <= i < j < |batch| ==> batch[i] != batch[j] && Ahead(t, batch[i], batch[j]))
    && (forall k, i :: k in left && 0 <= i < |batch| ==> Ahead(t, batch[i], k))
  }

  predicate Ahead(t: Table, a: Key, b: Key) { a in t && b in t && Before(t[a], t[b]) }

  lemma TakeNext(t: Table, all: set<Key>, left: set<Key>, batch: seq<Key>, k: Key)
    requires Taken(t, all, left, batch) && k in left && forall other :: other in left ==> other in t && Before(t[k], t[other])
    ensures Taken(t, all, left - {k}, batch + [k])
  {
    hide Before;
    var more := batch + [k];
    assert forall i :: 0 <= i < |batch| ==> more[i] == batch[i];
    forall i, j | 0 <= i < j < |more| ensures more[i] != more[j] && Ahead(t, more[i], more[j]) {
      if j < |batch| { assert Ahead(t, batch[i], batch[j]); } else { assert Ahead(t, batch[i], k); }
    }
  }

  /** Higher priority first, and of equals the one enqueued earlier. */
  predicate Precedes(t: Table, a: Key, b: Key) {
    a in t && b in t &&
    (t[a].priority > t[b].priority || (t[a].priority == t[b].priority && t[a].enqueuedAt <= t[b].enqueuedAt))
  }

  lemma BatchIs(t: Table, now: int, n: nat, kinds: set<string>, batch: seq<Key>)
    requires IsBatch(t, now, n, kinds, batch)
    ensures forall i :: 0 <= i < |batch| ==> batch[i] in t && t[batch[i]].retryAt <= now && (kinds == {} || batch[i].kind in kinds)
    ensures forall i, j :: 0 <= i < j < |batch| ==> Precedes(t, batch[i], batch[j])
    ensures forall k :: k in t && t[k].retryAt <= now && (kinds == {} || k.kind in kinds) && k !in batch ==>
              |batch| == n && forall i :: 0 <= i < n ==> Precedes(t, batch[i], k)
  {
    var taken := set i | 0 <= i < |batch| :: batch[i];
    forall k | k in t && t[k].retryAt <= now && (kinds == {} || k.kind in kinds) && k !in batch ensures |batch| == n {
      assert Eligible(t, now, kinds, k) && k in Candidates(t, now, kinds);
      BatchSize(batch);
      assert taken <= Candidates(t, now, kinds) - {k};
      SubsetSize(taken, Candidates(t, now, kinds) - {k});
    }
  }

  lemma {:induction false} BatchSize(batch: seq<Key>)
    requires forall i, j :: 0 <= i < j < |batch| ==> batch[i] != batch[j]
    ensures |set i | 0 <= i < |batch| :: batch[i]| == |batch|
  {
    if batch != [] {
      var n := |batch| - 1;
      BatchSize(batch[..n]);
      assert (set i | 0 <= i < |batch| :: batch[i]) == (set i | 0 <= i < n :: batch[..n][i]) + {batch[n]};
    }
  }

  lemma {:induction false} SubsetSize(a: set<Key>, b: set<Key>)
    requires a <= b
    ensures |a| <= |b|
  {
    if a != {} {
      var x :| x in a;
      SubsetSize(a - {x}, b - {x});
    }
  }

  lemma TakenIsBatch(t: Table, now: int, n: nat, kinds: set<string>, left: set<Key>, batch: seq<Key>)
    requires Taken(t, Candidates(t, now, kinds), left, batch) && |left| + |batch| == |Candidates(t, now, kinds)|
    requires |batch| <= n && (left == {} || |batch| == n)
    ensures IsBatch(t, now, n, kinds, batch)
  {
    hide Before;
    assert forall i :: 0 <= i < |batch| ==> batch[i] in batch;
    forall k, i | Eligible(t, now, kinds, k) && k !in batch && 0 <= i < |batch| ensures Before(t[batch[i]], t[k]) {
      assert k in Candidates(t, now, kinds) && k in left;
      assert Ahead(t, batch[i], k);
    }
  }

  class Queue {
    var rows: Table

    /** Multi-row inserts of at most CHUNK_SIZE rows, all stamped with the same time. */
    method InsertChunked(mode: OnConflict, items: seq<Item>, now: int)
      modifies this
      ensures rows == PutAll(old(rows), mode, items, now)
    {
      hide Put;
      var next := 0;
      while next < |items|
        invariant 0 <= next <= |items|
        invariant rows == PutAll(old(rows), mode, items[..next], now)
      {
        var chunkEnd := if |items| - next < CHUNK_SIZE then |items| else next + CHUNK_SIZE;
        while next < chunkEnd
          invariant next <= chunkEnd <= |items|
          invariant rows == PutAll(old(rows), mode, items[..next], now)
        {
          assert items[..next + 1][..next] == items[..next];
          rows := Put(rows, mode, items[next], now);
          next := next + 1;
        }
      }
      assert items[..|items|] == items;
    }

    method Enqueue(items: seq<Item>, now: int)
      modifies this
      ensures rows == PutAll(old(rows), Reset, items, now)
      ensures forall k :: InsertedAs(old(rows), rows, Reset, items, now, k)
    {
      hide PutAll, InsertedAs;
      EveryRowInserted(rows, Reset, items, now);
      InsertChunked(Reset, items, now);
    }

    method EnqueuePreservingBackoff(items: seq<Item>, now: int)
      modifies this
      ensures rows == PutAll(old(rows), KeepBackoff, items, now)
      ensures forall k :: InsertedAs(old(rows), rows, KeepBackoff, items, now, k)
    {
      hide PutAll, InsertedAs;
      EveryRowInserted(rows, KeepBackoff, items, now);
      InsertChunked(KeepBackoff, items, now);
    }

    /** The insert-if-not-queued family: candidates with artwork state already resolved are filtered out. */
    method EnqueueIfMissing(items: seq<Item>, resolved: set<Key>, now: int)
      modifies this
      ensures rows == PutAll(old(rows), Skip, Unresolved(items, resolved), now)
      ensures forall k :: k in rows <==> k in old(rows) || (Mentions(items, k) && k !in resolved)
      ensures forall k :: k in old(rows) ==> rows[k] == old(rows)[k]
      ensures forall k :: k in rows && k !in old(rows) ==>
                FirstPriority(items, k) == Some(rows[k].priority) && rows[k] == Row(rows[k].priority, 0, now, now)
    {
      hide PutAll, Mentions, FirstPriority, Unresolved;
      MissingInserted(rows, items, resolved, now);
      InsertChunked(Skip, Unresolved(items, resolved), now);
    }

    method DequeueBatch(n: nat, kinds: set<string>, now: int) returns (batch: seq<Key>)
      ensures IsBatch(rows, now, n, kinds, batch)
      ensures forall i :: 0 <= i < |batch| ==>
                batch[i] in rows && rows[batch[i]].retryAt <= now && (kinds == {} || batch[i].kind in kinds)
      ensures forall i, j :: 0 <= i < j < |batch| ==> Precedes(rows, batch[i], batch[j])
      ensures forall k :: k in rows && rows[k].retryAt <= now && (kinds == {} || k.kind in kinds) && k !in batch ==>
                |batch| == n && forall i :: 0 <= i < n ==> Precedes(rows, batch[i], k)
    {
      hide Eligible, Before;
      batch := [];
      var left := Candidates(rows, now, kinds);
      ghost var all := left;
      while left != {} && |batch| < n
        invariant |left| + |batch| == |all| && |batch| <= n && left <= rows.Keys
        invariant Taken(rows, all, left, batch)
        decreases |left|
      {
        FirstCandidate(rows, left);
        var k :| k in left && forall other :: other in left ==> Before(rows[k], rows[other]);
        TakeNext(rows, all, left, batch, k);
        batch := batch + [k];
        left := left - {k};
      }
      TakenIsBatch(rows, now, n, kinds, left, batch);
      BatchIs(rows, now, n, kinds, batch);
    }

    method MarkFailedIfUnchanged(k: Key, seenRetryAt: int, retryAt: int)
      modifies this
      ensures rows == MarkedFailed(old(rows), k, seenRetryAt, retryAt)
    {
      if k in rows && rows[k].retryAt == seenRetryAt {
        rows := rows[k := rows[k].(attempts := rows[k].attempts + 1, retryAt := retryAt)];
      }
    }

    method DeleteIfUnchanged(k: Key, seenRetryAt: int)
      modifies this
      ensures rows == Deleted(old(rows), k, seenRetryAt)
    {
      if k in rows && rows[k].retryAt == seenRetryAt {
        rows := rows - {k};
      }
    }

    /**
      What a worker does with a row it dequeued.  A row that was given another token meanwhile is left
      alone.  Otherwise a found or definitely absent image, or a retry that would come too late after
      the request, ends the row; any other outcome reschedules it, within its budget, and changes
      nothing else about it.
     */
    method Settle(k: Key, seen: Row, outcome: Outcome, now: int, backoff: nat, giveUpAfter: int)
      modifies this
      ensures !Shows(old(rows), k, seen.retryAt) ==> rows == old(rows)
      ensures forall other :: other != k ==> (other in rows <==> other in old(rows))
      ensures forall other :: other != k && other in rows ==> rows[other] == old(rows)[other]
      ensures Shows(old(rows), k, seen.retryAt) ==>
                (k in rows <==> (outcome.FoundStale? || outcome.Failed?) && now + backoff < seen.enqueuedAt + giveUpAfter)
      ensures Shows(old(rows), k, seen.retryAt) && k in rows ==>
                && rows[k].retryAt == now + backoff && rows[k].attempts == old(rows)[k].attempts + 1
                && rows[k].priority == old(rows)[k].priority && rows[k].enqueuedAt == old(rows)[k].enqueuedAt
    {
      if outcome.Found? || outcome.Absent? {
        DeleteIfUnchanged(k, seen.retryAt);
        return;
      }
      var retryAt := now + backoff;
      if retryAt < seen.enqueuedAt + giveUpAfter {
        MarkFailedIfUnchanged(k, seen.retryAt, retryAt);
      } else {
        DeleteIfUnchanged(k, seen.retryAt);
      }
    }
  }

  /** How an acquisition ends. */
  datatype Outcome = Found | Absent | FoundStale | Failed

  predicate Shows(t: Table, k: Key, token: int) { k in t && t[k].retryAt == token }

  function Unresolved(items: seq<Item>, resolved: set<Key>): seq<Item> {
    if items == [] then []
    else
      Unresolved(items[..|items| - 1], resolved) +
      (if KeyOf(items[|items| - 1]) in resolved then [] else [items[|items| - 1]])
  }

  // ----- what one operation leaves in a row -----------------------------------------------

  ghost predicate Mentions(items: seq<Item>, k: Key) { exists i :: 0 <= i < |items| && KeyOf(items[i]) == k }

  lemma MentionsStep(items: seq<Item>, k: Key)
    requires items != []
    ensures Mentions(items, k) <==> Mentions(items[..|items| - 1], k) || KeyOf(items[|items| - 1]) == k
  {
    var front := items[..|items| - 1];
    if Mentions(front, k) {
      var i :| 0 <= i < |front| && KeyOf(front[i]) == k;
      assert KeyOf(items[i]) == k;
    }
    if Mentions(items, k) {
      var i :| 0 <= i < |items| && KeyOf(items[i]) == k;
      assert i < |front| ==> KeyOf(front[i]) == k;
    }
    assert KeyOf(items[|items| - 1]) == k ==> Mentions(items, k);
  }

  /** What an insert may do to the row of `k`: `asked` says whether it was among the items. */
  ghost predicate RowAfter(t: Table, t2: Table, mode: OnConflict, now: int, k: Key, asked: bool) {
    && (k in t2 <==> k in t || asked)
    && (k in t && (mode == Skip || !asked) ==> t2[k] == t[k])
    && (k in t ==> t2[k].priority >= t[k].priority)
    && (k in t && mode == KeepBackoff ==>
          t2[k].retryAt == t[k].retryAt && t2[k].attempts == t[k].attempts && t2[k].enqueuedAt == t[k].enqueuedAt)
    && (asked && (mode == Reset || k !in t) ==> t2[k].retryAt == now && t2[k].attempts == 0 && t2[k].enqueuedAt == now)
  }

  /** The row of `k` after an insert, in terms of the row before it. */
  lemma {:induction false} PutAllRow(t: Table, mode: OnConflict, items: seq<Item>, now: int, k: Key)
    ensures RowAfter(t, PutAll(t, mode, items, now), mode, now, k, Mentions(items, k))
  {
    if items != [] {
      PutAllRow(t, mode, items[..|items| - 1], now, k);
      MentionsStep(items, k);
    }
  }

  /** `p` is the greatest of the row's own priority, if it is queued, and those asked for. */
  ghost predicate IsGreatest(t: Table, items: seq<Item>, k: Key, p: int) {
    && (k in t ==> t[k].priority <= p)
    && (forall i :: 0 <= i < |items| && KeyOf(items[i]) == k ==> items[i].priority <= p)
    && ((k in t && t[k].priority == p) || exists i :: 0 <= i < |items| && KeyOf(items[i]) == k && items[i].priority == p)
  }

  /** The priority asked for first. */
  function FirstPriority(items: seq<Item>, k: Key): Option<int> {
    if items == [] then None
    else
      var front, last := FirstPriority(items[..|items| - 1], k), items[|items| - 1];
      if front.Some? then front else if KeyOf(last) == k then Some(last.priority) else None
  }

  predicate NoneBefore(items: seq<Item>, k: Key, i: nat) { forall j :: 0 <= j < i && j < |items| ==> KeyOf(items[j]) != k }

  /** Item `i` is the first one of `k`. */
  predicate FirstAt(items: seq<Item>, k: Key, i: nat) { i < |items| && KeyOf(items[i]) == k && NoneBefore(items, k, i) }

  lemma FirstAtStep(items: seq<Item>, k: Key, i: nat)
    requires i < |items|
    requires if i < |items| - 1 then FirstAt(items[..|items| - 1], k, i)
             else KeyOf(items[i]) == k && !Mentions(items[..|items| - 1], k)
    ensures FirstAt(items, k, i)
  {
    var front := items[..|items| - 1];
    assert forall j :: 0 <= j < |front| ==> items[j] == front[j];
  }

  lemma {:induction false} FirstPriorityIs(items: seq<Item>, k: Key)
    ensures FirstPriority(items, k).None? <==> !Mentions(items, k)
    ensures Mentions(items, k) ==> exists i: nat :: FirstAt(items, k, i) && FirstPriority(items, k) == Some(items[i].priority)
  {
    if items != [] {
      var front := items[..|items| - 1];
      FirstPriorityIs(front, k);
      MentionsStep(items, k);
      hide Mentions, NoneBefore;
      if Mentions(front, k) {
        var i: nat :| FirstAt(front, k, i) && FirstPriority(front, k) == Some(front[i].priority);
        FirstAtStep(items, k, i);
      } else if KeyOf(items[|items| - 1]) == k {
        FirstAtStep(items, k, |items| - 1);
      }
    }
  }

  /** The priority of a row after an insert that asked for it. */
  ghost predicate PriorityAfter(t: Table, t2: Table, mode: OnConflict, items: seq<Item>, k: Key) {
    Mentions(items, k) ==>
      && k in t2
      && (mode != Skip ==> IsGreatest(t, items, k, t2[k].priority))
      && (mode == Skip && k !in t ==> FirstPriority(items, k) == Some(t2[k].priority))
  }

  lemma {:induction false} PutAllPriority(t: Table, mode: OnConflict, items: seq<Item>, now: int, k: Key)
    ensures PriorityAfter(t, PutAll(t, mode, items, now), mode, items, k)
  {
    hide IsGreatest, FirstAt;
    if items != [] {
      var front, last := items[..|items| - 1], items[|items| - 1];
      PutAllPriority(t, mode, front, now, k);
      assert front + [last] == items;
      PutAllRow(t, mode, front, now, k);
      MentionsStep(items, k);
      FirstPriorityIs(front, k);
      hide Mentions;
      if Mentions(items, k) && mode != Skip {
        GreatestStep(t, front, last, k, PutAll(t, mode, front, now), PutAll(t, mode, items, now));
      }
    }
  }

  lemma GreatestStep(t: Table, front: seq<Item>, last: Item, k: Key, t1: Table, t2: Table)
    requires Mentions(front, k) ==> k in t1 && IsGreatest(t, front, k, t1[k].priority)
    requires !Mentions(front, k) ==> (k in t1 <==> k in t) && (k in t ==> t1[k] == t[k])
    requires Mentions(front + [last], k) && k in t2
    requires KeyOf(last) == k ==> t2[k].priority == if k in t1 then Max(t1[k].priority, last.priority) else last.priority
    requires KeyOf(last) != k ==> k in t1 && t2[k].priority == t1[k].priority
    ensures IsGreatest(t, front + [last], k, t2[k].priority)
  {
    var items, p := front + [last], t2[k].priority;
    assert items[..|front|] == front && items[|front|] == last;
    forall i | 0 <= i < |items| && KeyOf(items[i]) == k ensures items[i].priority <= p {
      if i < |front| { assert items[i] == front[i] && Mentions(front, k); }
    }
    if !(k in t && t[k].priority == p) {
      if KeyOf(last) == k && last.priority == p {
        assert KeyOf(items[|front|]) == k;
      } else {
        assert Mentions(front, k);
        var i :| 0 <= i < |front| && KeyOf(front[i]) == k && front[i].priority == p;
        assert items[i] == front[i];
      }
    }
  }

  /** An item without an image type is the primary one's. */
  lemma KeyIs(kind: string, id: string, imageType: string, priority: int)
    ensures KeyOf(Item(kind, id, imageType, priority)) == Key(kind, id, if imageType == "" then "primary" else imageType)
  {
  }

  /** Exactly the resolved items are left out, and the order stays. */
  lemma {:induction false} UnresolvedIs(items: seq<Item>, resolved: set<Key>, k: Key)
    ensures Mentions(Unresolved(items, resolved), k) <==> Mentions(items, k) && k !in resolved
    ensures k !in resolved ==> FirstPriority(Unresolved(items, resolved), k) == FirstPriority(items, k)
  {
    if items != [] {
      var front, last := items[..|items| - 1], items[|items| - 1];
      UnresolvedIs(front, resolved, k);
      MentionsStep(items, k);
      if KeyOf(last) !in resolved {
        var kept := Unresolved(front, resolved) + [last];
        assert kept[..|kept| - 1] == Unresolved(front, resolved);
        MentionsStep(kept, k);
      } else {
        assert Unresolved(front, resolved) + [] == Unresolved(front, resolved);
      }
    }
  }

  /** What an insert of the items leaves in the row of `k`. */
  ghost predicate InsertedAs(t: Table, t2: Table, mode: OnConflict, items: seq<Item>, now: int, k: Key) {
    RowAfter(t, t2, mode, now, k, Mentions(items, k)) && PriorityAfter(t, t2, mode, items, k)
  }

  lemma EveryRowInserted(t: Table, mode: OnConflict, items: seq<Item>, now: int)
    ensures forall k :: InsertedAs(t, PutAll(t, mode, items, now), mode, items, now, k)
  {
    forall k ensures InsertedAs(t, PutAll(t, mode, items, now), mode, items, now, k) {
      PutAllRow(t, mode, items, now, k);
      PutAllPriority(t, mode, items, now, k);
    }
  }

  lemma MissingInserted(t: Table, items: seq<Item>, resolved: set<Key>, now: int)
    ensures var t2 := PutAll(t, Skip, Unresolved(items, resolved), now);
            && (forall k :: k in t2 <==> k in t || (Mentions(items, k) && k !in resolved))
            && (forall k :: k in t ==> k in t2 && t2[k] == t[k])
            && (forall k :: k in t2 && k !in t ==>
                  FirstPriority(items, k) == Some(t2[k].priority) && t2[k] == Row(t2[k].priority, 0, now, now))
  {
    hide PutAll, Mentions, FirstPriority, Unresolved;
    var left := Unresolved(items, resolved);
    var t2 := PutAll(t, Skip, left, now);
    forall k
      ensures k in t2 <==> k in t || (Mentions(items, k) && k !in resolved)
      ensures k in t ==> k in t2 && t2[k] == t[k]
      ensures k in t2 && k !in t ==> FirstPriority(items, k) == Some(t2[k].priority) && t2[k] == Row(t2[k].priority, 0, now, now)
    {
      PutAllRow(t, Skip, left, now, k);
      PutAllPriority(t, Skip, left, now, k);
      UnresolvedIs(items, resolved, k);
    }
  }

  /** A queued row asked for again carries the highest priority ever asked for. */
  lemma {:induction false} ResetTakesMaxPriority(t: Table, items: seq<Item>, now: int, i: nat)
    requires i < |items|
    ensures KeyOf(items[i]) in PutAll(t, Reset, items, now)
    ensures PutAll(t, Reset, items, now)[KeyOf(items[i])].priority >= items[i].priority
  {
    if i < |items| - 1 {
      ResetTakesMaxPriority(t, items[..|items| - 1], now, i);
    }
  }

  /** The token works exactly as far as the clock separates the two instants. */
  lemma SettlingSparesIff(t: Table, items: seq<Item>, now: int, k: Key, seen: int, retryAt: int)
    requires Mentions(items, k)
    ensures k in Deleted(PutAll(t, Reset, items, now), k, seen) <==> now != seen
    ensures MarkedFailed(PutAll(t, Reset, items, now), k, seen, retryAt) == PutAll(t, Reset, items, now) <==> now != seen
  {
    PutAllRow(t, Reset, items, now, k);
  }

  /** A request that keeps the backoff keeps the token too, so settling still removes the row. */
  lemma PreservingRequestIsSettled(t: Table, items: seq<Item>, now: int, k: Key)
    requires k in t
    ensures k !in Deleted(PutAll(t, KeepBackoff, items, now), k, t[k].retryAt)
  {
    PutAllRow(t, KeepBackoff, items, now, k);
  }
}

/**
  Workers and producers sharing the queue.  Every statement is a step of its own, at its own instant
  of a strictly increasing clock: a producer reads the clock once and then writes chunk after chunk,
  and a worker may settle what it dequeued at any later time.
 */
module ArtworkWorkers {
  import opened Prelude
  import opened ArtworkQueue

  /** What a worker remembers of a row it dequeued. */
  datatype Ticket = Ticket(key: Key, seenRetryAt: int)

  /**
    A call that inserts: one clock reading, then statements of CHUNK_SIZE rows, or a single one that selects
    its rows itself; written up to `next`.
   */
  datatype Request = Request(mode: OnConflict, items: seq<Item>, single: bool, stamp: int, next: nat)

  datatype Event =
    | Issue(id: nat, mode: OnConflict, items: seq<Item>, single: bool)
    | WriteChunk(id: nat, resolved: set<Key>)
    | Dequeue(n: nat, kinds: set<string>, at: int, batch: seq<Key>)
    | Fail(ticket: Ticket, retryAt: int)
    | Done(ticket: Ticket)
    | Purge(keys: set<Key>)

  datatype State = State(table: Table, now: int, held: set<Ticket>, requests: map<nat, Request>)

  function ChunkEnd(q: Request): nat { if !q.single && q.next + CHUNK_SIZE <= |q.items| then q.next + CHUNK_SIZE else |q.items| }

  /** The rows of the next statement; insert-if-not-queued leaves out what is resolved by then. */
  function ChunkOf(q: Request, resolved: set<Key>): seq<Item>
    requires q.next <= |q.items|
  {
    var chunk := q.items[q.next..ChunkEnd(q)];
    if q.mode == Skip then Unresolved(chunk, resolved) else chunk
  }

  ghost predicate Step(s: State, e: Event, s': State) {
    && s.now < s'.now
    && match e
       case Issue(id, mode, items, single) =>
         && id !in s.requests
         && s' == s.(now := s'.now, requests := s.requests[id := Request(mode, items, single, s'.now, 0)])
       case WriteChunk(id, resolved) =>
         && id in s.requests && s.requests[id].next < |s.requests[id].items|
         && var q := s.requests[id];
            s' == s.(now := s'.now,
                     table := PutAll(s.table, q.mode, ChunkOf(q, resolved), q.stamp),
                     requests := s.requests[id := q.(next := ChunkEnd(q))])
       case Dequeue(n, kinds, at, batch) =>
         && at <= s'.now && IsBatch(s.table, at, n, kinds, batch)
         && s' == s.(now := s'.now, held := s.held + set k | k in batch && k in s.table :: Ticket(k, s.table[k].retryAt))
       case Fail(ticket, retryAt) =>
         && ticket in s.held
         && s' == s.(now := s'.now, table := MarkedFailed(s.table, ticket.key, ticket.seenRetryAt, retryAt))
       case Done(ticket) =>
         && ticket in s.held
         && s' == s.(now := s'.now, table := Deleted(s.table, ticket.key, ticket.seenRetryAt))
       case Purge(keys) => s' == s.(now := s'.now, table := s.table - keys)
  }

  /** An interleaving: at first nothing is held or requested. */
  ghost predicate IsRun(states: seq<State>, events: seq<Event>) {
    && |states| == |events| + 1
    && states[0].held == {} && states[0].requests == map[]
    && forall i :: 0 <= i < |events| ==> Step(states[i], events[i], states[i + 1])
  }

  /** Event `i` handed out `ticket`. */
  ghost predicate HandsOut(states: seq<State>, events: seq<Event>, i: nat, ticket: Ticket)
    requires IsRun(states, events) && i < |events|
  {
    events[i].Dequeue? && ticket.key in events[i].batch && ticket.key in states[i].table &&
    states[i].table[ticket.key].retryAt == ticket.seenRetryAt
  }

  /** Event `j` writes a chunk that asks for `k` anew. */
  ghost predicate Requests(states: seq<State>, events: seq<Event>, j: nat, k: Key)
    requires IsRun(states, events) && j < |events|
  {
    events[j].WriteChunk? && Writes(states[j], events[j].id, events[j].resolved, k) &&
    states[j].requests[events[j].id].mode == Reset
  }

  /** The next chunk of a request lists `k`. */
  ghost predicate Writes(s: State, id: nat, resolved: set<Key>, k: Key) {
    id in s.requests && s.requests[id].next < |s.requests[id].items| && Mentions(ChunkOf(s.requests[id], resolved), k)
  }

  ghost predicate Settles(e: Event, ticket: Ticket) { (e.Done? || e.Fail?) && e.ticket == ticket }

  /** The token the step gives the row of `k`, if any. */
  ghost function NewToken(s: State, e: Event, k: Key): Option<int> {
    if e.WriteChunk? && Writes(s, e.id, e.resolved, k) && (s.requests[e.id].mode == Reset || k !in s.table)
    then Some(s.requests[e.id].stamp)
    else if e.Fail? && Hits(s, e.ticket, k) then Some(e.retryAt)
    else None
  }

  ghost predicate SetsToken(s: State, e: Event, k: Key, v: int) { NewToken(s, e, k) == Some(v) }

  ghost predicate SetsOther(s: State, e: Event, k: Key, v: int) { NewToken(s, e, k).Some? && NewToken(s, e, k) != Some(v) }

  /** The step removes the row of `k`. */
  ghost predicate Removes(s: State, e: Event, k: Key) { (e.Done? && Hits(s, e.ticket, k)) || (e.Purge? && k in e.keys) }

  /** The ticket still is what the row of `k` shows. */
  predicate Hits(s: State, ticket: Ticket, k: Key) {
    ticket.key == k && k in s.table && s.table[k].retryAt == ticket.seenRetryAt
  }

  ghost predicate HasToken(s: State, k: Key, v: int) { k in s.table && s.table[k].retryAt == v }

  lemma {:induction false} ClockRises(states: seq<State>, events: seq<Event>, i: nat, j: nat)
    requires IsRun(states, events) && i < j < |states|
    ensures states[i].now < states[j].now
    decreases j
  {
    assert Step(states[j - 1], events[j - 1], states[j]);
    if i < j - 1 { ClockRises(states, events, i, j - 1); }
  }

  /** A row has a token after a step because the step set it, or had it before and kept its row and token. */
  lemma TokenStep(s: State, e: Event, s': State, k: Key, v: int)
    requires Step(s, e, s')
    ensures HasToken(s', k, v) <==>
            SetsToken(s, e, k, v) || (HasToken(s, k, v) && !Removes(s, e, k) && !SetsOther(s, e, k, v))
  {
    if e.WriteChunk? {
      var q := s.requests[e.id];
      PutAllRow(s.table, q.mode, ChunkOf(q, e.resolved), q.stamp, k);
    }
  }

  /** From `a` on no step gives `k` the token `v`. */
  ghost predicate NeverSet(states: seq<State>, events: seq<Event>, k: Key, v: int, a: nat, m: nat) {
    m <= |events| && m <= |states| && forall n :: a <= n < m ==> !SetsToken(states[n], events[n], k, v)
  }

  lemma {:induction false} TokenStaysAway(states: seq<State>, events: seq<Event>, k: Key, v: int, a: nat, m: nat)
    requires IsRun(states, events) && a <= m < |states| && NeverSet(states, events, k, v, a, m) && !HasToken(states[a], k, v)
    ensures !HasToken(states[m], k, v)
    decreases m
  {
    if a < m {
      TokenStaysAway(states, events, k, v, a, m - 1);
      assert Step(states[m - 1], events[m - 1], states[m]);
      TokenStep(states[m - 1], events[m - 1], states[m], k, v);
    }
  }

  /** Every ticket was handed out by some earlier dequeue. */
  lemma {:induction false} TicketOrigin(states: seq<State>, events: seq<Event>, m: nat, ticket: Ticket)
      returns (i: nat)
    requires IsRun(states, events) && m < |states| && ticket in states[m].held
    ensures i < m && HandsOut(states, events, i, ticket)
    decreases m
  {
    assert m > 0;
    assert Step(states[m - 1], events[m - 1], states[m]);
    if ticket in states[m - 1].held { i := TicketOrigin(states, events, m - 1, ticket); } else { i := m - 1; }
  }

  lemma SeenIsPast(states: seq<State>, events: seq<Event>, i: nat, ticket: Ticket)
    requires IsRun(states, events) && i < |events| && HandsOut(states, events, i, ticket)
    ensures ticket.seenRetryAt <= states[i + 1].now
  {
    assert Step(states[i], events[i], states[i + 1]);
    var b :| 0 <= b < |events[i].batch| && events[i].batch[b] == ticket.key;
    assert Eligible(states[i].table, events[i].at, events[i].kinds, events[i].batch[b]);
  }

  /** Settling does something exactly when the row still has the token seen. */
  lemma SettleActsIff(s: State, e: Event, s': State, ticket: Ticket)
    requires Step(s, e, s') && Settles(e, ticket)
    ensures s'.table != s.table <==> HasToken(s, ticket.key, ticket.seenRetryAt)
  {
    if HasToken(s, ticket.key, ticket.seenRetryAt) {
      if e.Fail? {
        assert s'.table[ticket.key].attempts != s.table[ticket.key].attempts;
      } else {
        assert ticket.key !in s'.table;
      }
    }
  }

  lemma WriterStamps(states: seq<State>, events: seq<Event>, j: nat, k: Key, v: int)
    requires IsRun(states, events) && j < |events| && Requests(states, events, j, k)
    ensures HasToken(states[j + 1], k, v) <==> states[j].requests[events[j].id].stamp == v
  {
    assert Step(states[j], events[j], states[j + 1]);
    var stamp := states[j].requests[events[j].id].stamp;
    TokenStep(states[j], events[j], states[j + 1], k, stamp);
    assert SetsToken(states[j], events[j], k, stamp);
  }

  /** A request known at event `j` read the clock at its Issue. */
  lemma {:induction false} StampOrigin(states: seq<State>, events: seq<Event>, m: nat, id: nat) returns (p: nat)
    requires IsRun(states, events) && m < |states| && id in states[m].requests
    ensures p < m && events[p].Issue? && events[p].id == id && states[m].requests[id].stamp == states[p + 1].now
    ensures states[m].requests[id].mode == events[p].mode && states[m].requests[id].items == events[p].items
    ensures states[m].requests[id].single == events[p].single
    decreases m
  {
    assert m > 0;
    assert Step(states[m - 1], events[m - 1], states[m]);
    if id in states[m - 1].requests { p := StampOrigin(states, events, m - 1, id); } else { p := m - 1; }
  }

  /**
    A request whose clock was read after a worker dequeued the item survives whatever that worker does
    with its ticket, unless a later statement gives the row the very token the worker saw.
   */
  lemma RequestSurvivesOlderTicket(
      states: seq<State>, events: seq<Event>, i: nat, p: nat, j: nat, m: nat, ticket: Ticket)
    requires IsRun(states, events) && i < p < j < m < |events|
    requires HandsOut(states, events, i, ticket) && Settles(events[m], ticket)
    requires events[p].Issue? && Requests(states, events, j, ticket.key) && events[j].id == events[p].id
    requires NeverSet(states, events, ticket.key, ticket.seenRetryAt, j + 1, m)
    ensures states[m + 1].table == states[m].table
  {
    FreshStampDiffers(states, events, i, p, j, ticket);
    TokenStaysAway(states, events, ticket.key, ticket.seenRetryAt, j + 1, m);
    assert Step(states[m], events[m], states[m + 1]);
    SettleActsIff(states[m], events[m], states[m + 1], ticket);
  }

  lemma FreshStampDiffers(states: seq<State>, events: seq<Event>, i: nat, p: nat, j: nat, ticket: Ticket)
    requires IsRun(states, events) && i < p < j < |events| && HandsOut(states, events, i, ticket)
    requires events[p].Issue? && Requests(states, events, j, ticket.key) && events[j].id == events[p].id
    ensures !HasToken(states[j + 1], ticket.key, ticket.seenRetryAt)
  {
    SeenIsPast(states, events, i, ticket);
    var p' := StampOrigin(states, events, j, events[j].id);
    IssuedOnce(states, events, p, p');
    ClockRises(states, events, i + 1, p + 1);
    WriterStamps(states, events, j, ticket.key, ticket.seenRetryAt);
  }

  lemma {:induction false} KnownStaysKnown(states: seq<State>, events: seq<Event>, a: nat, b: nat, id: nat)
    requires IsRun(states, events) && a <= b < |states| && id in states[a].requests
    ensures id in states[b].requests
    decreases b
  {
    if a < b {
      KnownStaysKnown(states, events, a, b - 1, id);
      assert Step(states[b - 1], events[b - 1], states[b]);
    }
  }

  lemma IssuedOnce(states: seq<State>, events: seq<Event>, p: nat, q: nat)
    requires IsRun(states, events) && p < |events| && q < |events|
    requires events[p].Issue? && events[q].Issue? && events[p].id == events[q].id
    ensures p == q
  {
    var a, b := if p < q then p else q, if p < q then q else p;
    assert Step(states[a], events[a], states[a + 1]);
    assert Step(states[b], events[b], states[b + 1]);
    if a < b { KnownStaysKnown(states, events, a + 1, b, events[a].id); }
  }

  /** The token `v` is set at `n` and then neither replaced nor removed with its row up to `m`. */
  ghost predicate LeftStanding(states: seq<State>, events: seq<Event>, k: Key, v: int, n: nat, m: nat) {
    && n < m <= |events| && m <= |states| && SetsToken(states[n], events[n], k, v)
    && forall o :: n < o < m ==> !Removes(states[o], events[o], k) && !SetsOther(states[o], events[o], k, v)
  }

  lemma {:induction false} StandingToken(states: seq<State>, events: seq<Event>, k: Key, v: int, n: nat, m: nat)
    requires IsRun(states, events) && m < |states| && LeftStanding(states, events, k, v, n, m)
    ensures HasToken(states[m], k, v)
    decreases m
  {
    hide Step, HasToken, SetsToken, SetsOther, Removes;
    RunStep(states, events, m - 1);
    TokenStep(states[m - 1], events[m - 1], states[m], k, v);
    if n < m - 1 { StandingToken(states, events, k, v, n, m - 1); }
  }

  /** A token that was not there at `a` was set since, and left standing. */
  lemma {:induction false} TokenSince(states: seq<State>, events: seq<Event>, k: Key, v: int, a: nat, m: nat) returns (n: nat)
    requires IsRun(states, events) && a <= m < |states| && !HasToken(states[a], k, v) && HasToken(states[m], k, v)
    ensures a <= n < m && LeftStanding(states, events, k, v, n, m)
    decreases m
  {
    hide Step, HasToken, SetsToken, SetsOther, Removes;
    assert a < m;
    RunStep(states, events, m - 1);
    TokenStep(states[m - 1], events[m - 1], states[m], k, v);
    if SetsToken(states[m - 1], events[m - 1], k, v) {
      n := m - 1;
    } else {
      n := TokenSince(states, events, k, v, a, m - 1);
      StandsOn(states, events, k, v, n, m - 1);
    }
  }

  lemma RunStep(states: seq<State>, events: seq<Event>, n: nat)
    requires IsRun(states, events) && n < |events|
    ensures Step(states[n], events[n], states[n + 1])
  {
  }

  lemma StandsOn(states: seq<State>, events: seq<Event>, k: Key, v: int, n: nat, m: nat)
    requires LeftStanding(states, events, k, v, n, m) && m < |events| && m < |states|
    requires !Removes(states[m], events[m], k) && !SetsOther(states[m], events[m], k, v)
    ensures LeftStanding(states, events, k, v, n, m + 1)
  {
    hide SetsToken, SetsOther, Removes;
  }

  /**
    Exactly when a fresh request is lost to an older ticket: some statement after it gives the row the
    token the worker saw, and that token is left standing.
   */
  lemma RequestLostIff(states: seq<State>, events: seq<Event>, i: nat, p: nat, j: nat, m: nat, ticket: Ticket)
    requires IsRun(states, events) && i < p < j < m < |events|
    requires HandsOut(states, events, i, ticket) && Settles(events[m], ticket)
    requires events[p].Issue? && Requests(states, events, j, ticket.key) && events[j].id == events[p].id
    ensures states[m + 1].table != states[m].table <==>
            exists n :: j < n < m && LeftStanding(states, events, ticket.key, ticket.seenRetryAt, n, m)
  {
    var k, v := ticket.key, ticket.seenRetryAt;
    FreshStampDiffers(states, events, i, p, j, ticket);
    assert Step(states[m], events[m], states[m + 1]);
    SettleActsIff(states[m], events[m], states[m + 1], ticket);
    if HasToken(states[m], k, v) {
      var n := TokenSince(states, events, k, v, j + 1, m);
    }
    if n :| j < n < m && LeftStanding(states, events, k, v, n, m) { StandingToken(states, events, k, v, n, m); }
  }

  /**
    Whoever removes or reschedules a requested row dequeued it after the request was written, unless
    the row was given again, by that request or later, a token already handed out.
   */
  lemma SettlerSawTheRequest(states: seq<State>, events: seq<Event>, j: nat, m: nat, ticket: Ticket) returns (i: nat)
    requires IsRun(states, events) && j < m < |events|
    requires Requests(states, events, j, ticket.key) && Settles(events[m], ticket)
    requires states[m + 1].table != states[m].table
    ensures i < m && HandsOut(states, events, i, ticket)
    ensures j < i || exists n :: j <= n < m && SetsToken(states[n], events[n], ticket.key, ticket.seenRetryAt)
  {
    assert Step(states[m], events[m], states[m + 1]);
    SettleActsIff(states[m], events[m], states[m + 1], ticket);
    i := TicketOrigin(states, events, m, ticket);
    var k, v := ticket.key, ticket.seenRetryAt;
    if NeverSet(states, events, k, v, j, m) {
      assert !SetsToken(states[j], events[j], k, v);
      WriterStamps(states, events, j, k, v);
      TokenStaysAway(states, events, k, v, j + 1, m);
    }
  }

  // ----- requests that list a key in one chunk only -----------------------------------------

  /** The positions of `k` lie in one statement. */
  ghost predicate OneChunk(items: seq<Item>, single: bool, k: Key) {
    single || forall a, b :: 0 <= a < b < |items| && KeyOf(items[a]) == k && KeyOf(items[b]) == k ==> a / CHUNK_SIZE == b / CHUNK_SIZE
  }

  ghost predicate AllOneChunk(events: seq<Event>, k: Key) {
    forall p :: 0 <= p < |events| && events[p].Issue? ==> OneChunk(events[p].items, events[p].single, k)
  }

  /** No retry time of `k`, old or new, is the very instant at which a request read the clock. */
  ghost predicate NoCoincidence(states: seq<State>, events: seq<Event>, k: Key)
    requires IsRun(states, events)
  {
    forall p :: 0 <= p < |events| && events[p].Issue? ==>
      !HasToken(states[0], k, states[p + 1].now) && !RetriedAt(events, states[p + 1].now)
  }

  ghost predicate RetriedAt(events: seq<Event>, v: int) {
    exists n :: 0 <= n < |events| && events[n].Fail? && events[n].retryAt == v
  }

  lemma {:induction false} NextAdvances(states: seq<State>, events: seq<Event>, a: nat, b: nat, id: nat)
    requires IsRun(states, events) && a <= b < |states| && id in states[a].requests
    ensures id in states[b].requests && states[a].requests[id].next <= states[b].requests[id].next
    decreases b
  {
    if a < b {
      NextAdvances(states, events, a, b - 1, id);
      assert Step(states[b - 1], events[b - 1], states[b]);
      RequestStep(states[b - 1], events[b - 1], states[b], id);
    }
  }

  /** Chunks start at multiples of CHUNK_SIZE, and a single statement is written once. */
  predicate Aligned(q: Request) {
    q.next <= |q.items| && (q.next < |q.items| ==> if q.single then q.next == 0 else q.next % CHUNK_SIZE == 0)
  }

  lemma RequestStep(s: State, e: Event, s': State, id: nat)
    requires Step(s, e, s') && id in s.requests
    ensures id in s'.requests && (Aligned(s.requests[id]) ==> Aligned(s'.requests[id]))
    ensures s.requests[id].next <= s'.requests[id].next || s.requests[id].next > |s.requests[id].items|
  {
  }

  lemma {:induction false} NextIsAligned(states: seq<State>, events: seq<Event>, m: nat, id: nat)
    requires IsRun(states, events) && m < |states| && id in states[m].requests
    ensures Aligned(states[m].requests[id])
    decreases m
  {
    assert m > 0;
    assert Step(states[m - 1], events[m - 1], states[m]);
    if id in states[m - 1].requests {
      NextIsAligned(states, events, m - 1, id);
      RequestStep(states[m - 1], events[m - 1], states[m], id);
    }
  }

  lemma {:induction false} UnresolvedMentions(items: seq<Item>, resolved: set<Key>, k: Key)
    requires Mentions(Unresolved(items, resolved), k)
    ensures Mentions(items, k)
  {
    var front := items[..|items| - 1];
    if KeyOf(items[|items| - 1]) != k {
      var got := Unresolved(items, resolved);
      var i :| 0 <= i < |got| && KeyOf(got[i]) == k;
      assert i < |Unresolved(front, resolved)| && Unresolved(front, resolved)[i] == got[i];
      UnresolvedMentions(front, resolved, k);
      MentionsStep(items, k);
    } else {
      assert Mentions(items, k);
    }
  }

  /** A chunk that lists `k` has it at an index of its own range. */
  lemma ChunkIndex(q: Request, resolved: set<Key>, k: Key) returns (x: nat)
    requires q.next < |q.items| && Mentions(ChunkOf(q, resolved), k)
    ensures q.next <= x < ChunkEnd(q) && KeyOf(q.items[x]) == k
  {
    var chunk := q.items[q.next..ChunkEnd(q)];
    if q.mode == Skip { UnresolvedMentions(chunk, resolved, k); }
    var i :| 0 <= i < |chunk| && KeyOf(chunk[i]) == k;
    x := q.next + i;
  }

  /** A request whose positions of `k` lie in one statement writes `k` once. */
  lemma WrittenOnce(states: seq<State>, events: seq<Event>, a: nat, b: nat, k: Key)
    requires IsRun(states, events) && a <= b < |events| && AllOneChunk(events, k)
    requires events[a].WriteChunk? && Writes(states[a], events[a].id, events[a].resolved, k)
    requires events[b].WriteChunk? && Writes(states[b], events[b].id, events[b].resolved, k) && events[a].id == events[b].id
    ensures a == b
  {
    var id := events[a].id;
    var p := StampOrigin(states, events, a, id);
    var p' := StampOrigin(states, events, b, id);
    IssuedOnce(states, events, p, p');
    NextIsAligned(states, events, a, id);
    NextIsAligned(states, events, b, id);
    var x := ChunkIndex(states[a].requests[id], events[a].resolved, k);
    var y := ChunkIndex(states[b].requests[id], events[b].resolved, k);
    assert Step(states[a], events[a], states[a + 1]);
    if a < b {
      NextAdvances(states, events, a + 1, b, id);
      SeparateChunks(states[a].requests[id], states[b].requests[id], x, y);
    }
  }

  /** Indices of different chunks are told apart by their quotient. */
  lemma SeparateChunks(q: Request, r: Request, x: nat, y: nat)
    requires q.items == r.items && q.single == r.single && Aligned(q) && Aligned(r)
    requires q.next <= x < ChunkEnd(q) && ChunkEnd(q) <= r.next <= y < ChunkEnd(r)
    ensures !q.single && x < y && x / CHUNK_SIZE != y / CHUNK_SIZE
  {
  }

  /** Every backoff still lies ahead when it is written. */
  ghost predicate BackoffsAhead(states: seq<State>, events: seq<Event>)
    requires IsRun(states, events)
  {
    forall n :: 0 <= n < |events| && events[n].Fail? ==> states[n + 1].now < events[n].retryAt
  }

  /** A token already handed out is not given to the row again. */
  lemma SeenIsNotSetAgain(states: seq<State>, events: seq<Event>, i: nat, n: nat, ticket: Ticket)
    requires IsRun(states, events) && i < n < |events| && HandsOut(states, events, i, ticket)
    requires AllOneChunk(events, ticket.key) && NoCoincidence(states, events, ticket.key) && BackoffsAhead(states, events)
    ensures !SetsToken(states[n], events[n], ticket.key, ticket.seenRetryAt)
  {
    var k, v := ticket.key, ticket.seenRetryAt;
    SeenIsPast(states, events, i, ticket);
    if events[n].Fail? {
      ClockRises(states, events, i + 1, n + 1);
    } else if events[n].WriteChunk? && Writes(states[n], events[n].id, events[n].resolved, k) &&
              states[n].requests[events[n].id].stamp == v {
      var p := StampOrigin(states, events, n, events[n].id);
      assert !HasToken(states[0], k, v) && !RetriedAt(events, v);
      var o := TokenSince(states, events, k, v, 0, i);
      assert events[o].WriteChunk?;
      var p' := StampOrigin(states, events, o, events[o].id);
      SameInstantSameIssue(states, events, p, p');
      WrittenOnce(states, events, o, n, k);
      assert false;
    }
  }

  lemma SameInstantSameIssue(states: seq<State>, events: seq<Event>, p: nat, q: nat)
    requires IsRun(states, events) && p < |events| && q < |events| && states[p + 1].now == states[q + 1].now
    ensures p == q
  {
    if p < q { ClockRises(states, events, p + 1, q + 1); }
    if q < p { ClockRises(states, events, q + 1, p + 1); }
  }

  /**
    When no request lists the item in two of its chunks, no retry time is the instant of a clock
    reading and no backoff is outlived, a fresh request survives every older ticket, whatever the
    interleaving of chunks.
   */
  lemma OneChunkRequestsSurvive(states: seq<State>, events: seq<Event>, i: nat, p: nat, j: nat, m: nat, ticket: Ticket)
    requires IsRun(states, events) && i < p < j < m < |events|
    requires HandsOut(states, events, i, ticket) && Settles(events[m], ticket)
    requires events[p].Issue? && Requests(states, events, j, ticket.key) && events[j].id == events[p].id
    requires AllOneChunk(events, ticket.key) && NoCoincidence(states, events, ticket.key) && BackoffsAhead(states, events)
    ensures states[m + 1].table == states[m].table
  {
    forall n | j + 1 <= n < m ensures !SetsToken(states[n], events[n], ticket.key, ticket.seenRetryAt) {
      SeenIsNotSetAgain(states, events, i, n, ticket);
    }
    RequestSurvivesOlderTicket(states, events, i, p, j, m, ticket);
  }

  // ----- a request that is lost -------------------------------------------------------------

  /** The same item once more than fits a chunk. */
  function Repeated(it: Item): (items: seq<Item>)
    ensures |items| == CHUNK_SIZE + 1 && forall i :: 0 <= i < |items| ==> items[i] == it
  {
    seq(CHUNK_SIZE + 1, _ => it)
  }

  lemma AloneInTable(it: Item, items: seq<Item>, now: int)
    requires items != [] && forall i :: 0 <= i < |items| ==> items[i] == it
    ensures var t := PutAll(map[], Reset, items, now);
            t.Keys == {KeyOf(it)} && t[KeyOf(it)].retryAt == now
  {
    var t := PutAll(map[], Reset, items, now);
    forall k ensures k in t <==> k == KeyOf(it) { PutAllRow(map[], Reset, items, now, k); }
    PutAllRow(map[], Reset, items, now, KeyOf(it));
    assert KeyOf(items[0]) == KeyOf(it);
  }

  lemma OnlyCandidate(t: Table, k: Key, now: int)
    requires t.Keys == {k} && t[k].retryAt <= now
    ensures IsBatch(t, now, 1, {}, [k])
  {
    assert Candidates(t, now, {}) == {k};
  }

  /** The states of the losing run, from the tables its writes leave. */
  function LosingStates(it: Item, t1: Table, t2: Table, t3: Table): seq<State> {
    var k, items := KeyOf(it), Repeated(it);
    var held := {Ticket(k, 10)};
    var bulk, anew := Request(Reset, items, false, 10, 0), Request(Reset, [it], false, 13, 0);
    var half := bulk.(next := CHUNK_SIZE);
    [State(map[], 0, {}, map[]),
     State(map[], 10, {}, map[0 := bulk]),
     State(t1, 11, {}, map[0 := half]),
     State(t1, 12, held, map[0 := half]),
     State(t1, 13, held, map[0 := half, 1 := anew]),
     State(t2, 14, held, map[0 := half, 1 := anew.(next := 1)]),
     State(t3, 15, held, map[0 := bulk.(next := CHUNK_SIZE + 1), 1 := anew.(next := 1)]),
     State(t3 - {k}, 16, held, map[0 := bulk.(next := CHUNK_SIZE + 1), 1 := anew.(next := 1)])]
  }

  function LosingEvents(it: Item): seq<Event> {
    [Issue(0, Reset, Repeated(it), false), WriteChunk(0, {}), Dequeue(1, {}, 12, [KeyOf(it)]), Issue(1, Reset, [it], false),
     WriteChunk(1, {}), WriteChunk(0, {}), Done(Ticket(KeyOf(it), 10))]
  }

  /**
    A bulk request that lists an item in two chunks: the first chunk stamps 10, a worker sees 10, a
    fresh request stamps 13, the second chunk stamps 10 again, and the worker's delete drops the item.
   */
  lemma RepeatedKeyLosesRequest(it: Item) returns (states: seq<State>, events: seq<Event>, ticket: Ticket)
    ensures IsRun(states, events) && |events| == 7 && ticket.key == KeyOf(it)
    ensures HandsOut(states, events, 2, ticket) && events[3].Issue? && events[4].WriteChunk? && events[4].id == events[3].id
    ensures Requests(states, events, 4, ticket.key) && Settles(events[6], ticket)
    ensures ticket.key in states[6].table && ticket.key !in states[7].table
  {
    hide PutAll, IsBatch, Repeated, Step;
    var k, items := KeyOf(it), Repeated(it);
    var t1, t2, t3 := LosingTables(it);
    states, events, ticket := LosingStates(it, t1, t2, t3), LosingEvents(it), Ticket(k, 10);
    forall i | 0 <= i < |events| ensures Step(states[i], events[i], states[i + 1]) {
      LosingStep(it, t1, t2, t3, i);
    }
    assert k in events[2].batch by { assert events[2].batch[0] == k; }
    AsksForItself(it);
    assert [it][0..1] == [it];
  }

  lemma AsksForItself(it: Item)
    ensures Mentions([it], KeyOf(it))
  {
    assert KeyOf([it][0]) == KeyOf(it);
  }

  lemma LosingTables(it: Item) returns (t1: Table, t2: Table, t3: Table)
    ensures t1 == PutAll(map[], Reset, Repeated(it)[0..CHUNK_SIZE], 10) && t2 == PutAll(t1, Reset, [it], 13)
    ensures t3 == PutAll(t2, Reset, Repeated(it)[CHUNK_SIZE..CHUNK_SIZE + 1], 10)
    ensures t1.Keys == {KeyOf(it)} && t1[KeyOf(it)].retryAt == 10 && IsBatch(t1, 12, 1, {}, [KeyOf(it)])
    ensures KeyOf(it) in t3 && t3[KeyOf(it)].retryAt == 10
  {
    hide PutAll, IsBatch;
    var k, items := KeyOf(it), Repeated(it);
    t1 := PutAll(map[], Reset, items[0..CHUNK_SIZE], 10);
    t2 := PutAll(t1, Reset, [it], 13);
    t3 := PutAll(t2, Reset, items[CHUNK_SIZE..CHUNK_SIZE + 1], 10);
    AloneInTable(it, items[0..CHUNK_SIZE], 10);
    OnlyCandidate(t1, k, 12);
    assert items[CHUNK_SIZE..CHUNK_SIZE + 1] == [it];
    AsksForItself(it);
    PutAllRow(t1, Reset, [it], 13, k);
    PutAllRow(t2, Reset, [it], 10, k);
  }

  lemma LosingStep(it: Item, t1: Table, t2: Table, t3: Table, i: nat)
    requires i < 7
    requires t1 == PutAll(map[], Reset, Repeated(it)[0..CHUNK_SIZE], 10) && t2 == PutAll(t1, Reset, [it], 13)
    requires t3 == PutAll(t2, Reset, Repeated(it)[CHUNK_SIZE..CHUNK_SIZE + 1], 10)
    requires t1.Keys == {KeyOf(it)} && t1[KeyOf(it)].retryAt == 10 && IsBatch(t1, 12, 1, {}, [KeyOf(it)])
    requires KeyOf(it) in t3 && t3[KeyOf(it)].retryAt == 10
    ensures Step(LosingStates(it, t1, t2, t3)[i], LosingEvents(it)[i], LosingStates(it, t1, t2, t3)[i + 1])
  {
    hide PutAll, IsBatch;
    var k := KeyOf(it);
    assert [it][0..1] == [it];
    assert (set x | x in [k] && x in t1 :: Ticket(x, t1[x].retryAt)) == {Ticket(k, 10)};
  }

  // ----- priorities and rechecks ------------------------------------------------------------

  ghost predicate StaysQueued(states: seq<State>, k: Key, a: nat, b: nat) {
    b < |states| && forall m :: a <= m <= b ==> k in states[m].table
  }

  /** While a row stays queued its priority never drops. */
  lemma {:induction false} PriorityNeverDrops(states: seq<State>, events: seq<Event>, k: Key, a: nat, b: nat)
    requires IsRun(states, events) && a <= b && StaysQueued(states, k, a, b)
    ensures states[a].table[k].priority <= states[b].table[k].priority
    decreases b
  {
    if a < b {
      PriorityNeverDrops(states, events, k, a, b - 1);
      var s, e := states[b - 1], events[b - 1];
      assert Step(s, e, states[b]);
      if e.WriteChunk? {
        PutAllRow(s.table, s.requests[e.id].mode, ChunkOf(s.requests[e.id], e.resolved), s.requests[e.id].stamp, k);
      }
    }
  }

  /** Recheck inserts leave every queued row as it is. */
  lemma RecheckNeverAlters(s: State, e: Event, s': State, k: Key)
    requires Step(s, e, s') && e.WriteChunk? && s.requests[e.id].mode == Skip && k in s.table
    ensures k in s'.table && s'.table[k] == s.table[k]
  {
    PutAllRow(s.table, Skip, ChunkOf(s.requests[e.id], e.resolved), s.requests[e.id].stamp, k);
  }
}
