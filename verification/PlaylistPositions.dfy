/**
  The playlist_tracks table and its position updates.  A position is the column `id`, UNIQUE per
  playlist, and SQLite checks that constraint after every single row an UPDATE touches.
 */
module PlaylistPositions {
  import opened Prelude

  datatype Track = Track(playlist: string, pos: int, media: string)

  /** Rows by rowid. */
  type Table = map<nat, Track>

  ghost predicate Unique(t: Table) {
    forall r, s :: r in t && s in t && r != s && t[r].playlist == t[s].playlist ==> t[r].pos != t[s].pos
  }

  function Assigned(t: Table, assign: map<nat, int>): Table {
    map r | r in t :: if r in assign then t[r].(pos := assign[r]) else t[r]
  }

  function Restrict(assign: map<nat, int>, rows: set<nat>): map<nat, int> {
    map r | r in assign && r in rows :: assign[r]
  }

  /** However the rows are visited, the constraint holds after each of them. */
  ghost predicate SafeInAnyOrder(t: Table, assign: map<nat, int>) {
    forall visited: set<nat> :: visited <= assign.Keys ==> Unique(Assigned(t, Restrict(assign, visited)))
  }

  /** Distinct new positions that no other row of the playlist holds can be written in any order. */
  lemma FreshPositionsAreSafe(t: Table, pid: string, assign: map<nat, int>)
    requires Unique(t)
    requires forall r :: r in assign ==> r in t && t[r].playlist == pid
    requires forall r, s :: r in assign && s in assign && r != s ==> assign[r] != assign[s]
    requires forall r, s :: r in assign && s in t && t[s].playlist == pid && r != s ==> t[s].pos != assign[r]
    ensures SafeInAnyOrder(t, assign)
  {
  }

  // ----- the UPDATE statements ------------------------------------------------------------

  const SENTINEL := -999999

  datatype Stmt =
    | ToSentinel(at: int)
    | ShiftDown(above: int, upTo: int)
    | ShiftUp(from: int, below: int)
    | FlipBack
    | FromSentinel(to: int)
    | Negate

  /** The WHERE clause, on a row of the playlist. */
  predicate Where(stmt: Stmt, p: int) {
    match stmt
    case ToSentinel(at) => p == at
    case ShiftDown(above, upTo) => above < p <= upTo
    case ShiftUp(from, below) => from <= p < below
    case FlipBack => p < 0 && p != SENTINEL
    case FromSentinel(_) => p == SENTINEL
    case Negate => p > 0
  }

  /** The SET clause. */
  function NewPos(stmt: Stmt, p: int): int {
    match stmt
    case ToSentinel(_) => SENTINEL
    case ShiftDown(_, _) => -(p - 1)
    case ShiftUp(_, _) => -(p + 1)
    case FlipBack => -p
    case FromSentinel(to) => to
    case Negate => -p
  }

  function Step(stmt: Stmt, p: int): int { if Where(stmt, p) then NewPos(stmt, p) else p }

  function StmtAssign(t: Table, pid: string, stmt: Stmt): map<nat, int> {
    map r | r in t && t[r].playlist == pid && Where(stmt, t[r].pos) :: NewPos(stmt, t[r].pos)
  }

  /** `t2` is `t` with every position of `pid` mapped through `f`'s table of steps. */
  ghost predicate Stepped(t: Table, pid: string, stmt: Stmt, t2: Table) {
    && t2.Keys == t.Keys
    && forall r :: r in t ==> t2[r] == if t[r].playlist == pid then t[r].(pos := Step(stmt, t[r].pos)) else t[r]
  }

  lemma AssignedIsStepped(t: Table, pid: string, stmt: Stmt)
    ensures Stepped(t, pid, stmt, Assigned(t, StmtAssign(t, pid, stmt)))
  {
  }

  function ShiftStmt(pos: int, newPos: int): Stmt {
    if pos < newPos then ShiftDown(pos, newPos) else ShiftUp(newPos, pos)
  }

  /** What Reorder's four statements do to one position. */
  function Reposition(pos: int, newPos: int, p: int): int {
    if pos == newPos then p
    else Step(FromSentinel(newPos), Step(FlipBack, Step(ShiftStmt(pos, newPos), Step(ToSentinel(pos), p))))
  }

  /** A neighbour is shifted onto the sentinel value. */
  predicate HitsSentinel(pos: int, newPos: int) {
    (pos < newPos && pos <= -SENTINEL < newPos) || (newPos < pos && newPos < -SENTINEL <= pos)
  }

  // ----- numbering ------------------------------------------------------------------------

  /** `rows` are the rows of `pid` in order of position. */
  ghost predicate Ordered(t: Table, pid: string, rows: seq<nat>) {
    && (forall i :: 0 <= i < |rows| ==> rows[i] in t && t[rows[i]].playlist == pid)
    && (forall i, j :: 0 <= i < j < |rows| ==> t[rows[i]].pos < t[rows[j]].pos)
    && (forall r :: r in t && t[r].playlist == pid ==> r in rows)
  }

  /** ... and their positions are exactly 1..n. */
  ghost predicate Numbered(t: Table, pid: string, rows: seq<nat>) {
    Ordered(t, pid, rows) && forall i :: 0 <= i < |rows| ==> t[rows[i]].pos == i + 1
  }

  function Media(t: Table, rows: seq<nat>): (s: seq<string>)
    requires forall i :: 0 <= i < |rows| ==> rows[i] in t
    ensures |s| == |rows| && forall i :: 0 <= i < |rows| ==> s[i] == t[rows[i]].media
  {
    seq(|rows|, i requires 0 <= i < |rows| => t[rows[i]].media)
  }

  /** The table holds playlist `pid` as the plain list `s`, numbered 1..|s|. */
  ghost predicate Lists(t: Table, pid: string, s: seq<string>) {
    exists rows: seq<nat> :: Numbered(t, pid, rows) && Media(t, rows) == s
  }

  /** The rest of the table is untouched. */
  ghost predicate SameElsewhere(t: Table, t2: Table, pid: string) {
    && (forall r :: r in t && t[r].playlist != pid ==> r in t2 && t2[r] == t[r])
    && (forall r :: r in t2 && t2[r].playlist != pid ==> r in t && t[r] == t2[r])
  }

  lemma ListsElsewhere(t: Table, t2: Table, pid: string, other: string, s: seq<string>)
    requires SameElsewhere(t, t2, pid) && other != pid && Lists(t, other, s)
    ensures Lists(t2, other, s)
  {
    var rows :| Numbered(t, other, rows) && Media(t, rows) == s;
    assert forall r :: r in t2 && t2[r].playlist == other ==> r in t && t[r] == t2[r];
    assert Numbered(t2, other, rows);
    assert Media(t2, rows) == s;
  }

  // ----- move -----------------------------------------------------------------------------

  /** Take out element `i` and put it back so that it ends at index `j`. */
  function Move<T>(s: seq<T>, i: nat, j: nat): (m: seq<T>)
    requires i < |s| && j < |s|
    ensures |m| == |s|
  {
    var rest := s[..i] + s[i + 1..];
    rest[..j] + [s[i]] + rest[j..]
  }

  lemma MoveIndex<T>(s: seq<T>, i: nat, j: nat, k: nat)
    requires i < |s| && j < |s| && k < |s|
    ensures Move(s, i, j)[k] ==
            if k == j then s[i] else if i <= k < j then s[k + 1] else if j < k <= i then s[k - 1] else s[k]
  {
  }

  /** The four statements, row by row. */
  ghost predicate Repositioned(t: Table, pid: string, pos: int, newPos: int, t2: Table) {
    && t2.Keys == t.Keys
    && forall r :: r in t ==>
         t2[r] == if t[r].playlist == pid then t[r].(pos := Reposition(pos, newPos, t[r].pos)) else t[r]
  }

  /** Where a move sends the element at position `p`. */
  function Moved(pos: int, newPos: int, p: int): int {
    if p == pos then newPos else if pos < p <= newPos then p - 1 else if newPos <= p < pos then p + 1 else p
  }

  lemma RepositionIsMoved(pos: int, newPos: int, p: int)
    requires 1 <= pos && 1 <= newPos && 1 <= p && !HitsSentinel(pos, newPos)
    ensures Reposition(pos, newPos, p) == Moved(pos, newPos, p)
  {
  }

  lemma MovedRows(t: Table, t2: Table, pid: string, rows: seq<nat>, pos: int, newPos: int)
    requires Numbered(t, pid, rows) && t2.Keys == t.Keys
    requires 1 <= pos <= |rows| && 1 <= newPos <= |rows|
    requires forall i :: 0 <= i < |rows| ==> t2[rows[i]] == t[rows[i]].(pos := Moved(pos, newPos, i + 1))
    ensures var rows' := Move(rows, pos - 1, newPos - 1);
            forall k :: 0 <= k < |rows'| ==>
              && rows'[k] in t2 && t2[rows'[k]].playlist == pid && t2[rows'[k]].pos == k + 1
              && t2[rows'[k]].media == Move(Media(t, rows), pos - 1, newPos - 1)[k]
  {
    hide Move;
    var rows' := Move(rows, pos - 1, newPos - 1);
    forall k | 0 <= k < |rows'|
      ensures rows'[k] in t2 && t2[rows'[k]].playlist == pid && t2[rows'[k]].pos == k + 1
      ensures t2[rows'[k]].media == Move(Media(t, rows), pos - 1, newPos - 1)[k]
    {
      MoveIndex(rows, pos - 1, newPos - 1, k);
      MoveIndex(Media(t, rows), pos - 1, newPos - 1, k);
    }
  }

  lemma MoveKeepsMembers<T>(s: seq<T>, i: nat, j: nat)
    requires i < |s| && j < |s|
    ensures forall x :: x in s ==> x in Move(s, i, j)
  {
    forall x | x in s ensures x in Move(s, i, j) {
      var p :| 0 <= p < |s| && s[p] == x;
      var k := if p == i then j else if i < p <= j then p - 1 else if j <= p < i then p + 1 else p;
      MoveIndex(s, i, j, k);
    }
  }

  lemma MovedIsNumbered(t: Table, t2: Table, pid: string, rows: seq<nat>, pos: int, newPos: int)
    requires Numbered(t, pid, rows) && t2.Keys == t.Keys
    requires forall r :: r in t ==> t2[r].playlist == t[r].playlist
    requires 1 <= pos <= |rows| && 1 <= newPos <= |rows|
    requires forall i :: 0 <= i < |rows| ==> t2[rows[i]] == t[rows[i]].(pos := Moved(pos, newPos, i + 1))
    ensures Numbered(t2, pid, Move(rows, pos - 1, newPos - 1))
    ensures Media(t2, Move(rows, pos - 1, newPos - 1)) == Move(Media(t, rows), pos - 1, newPos - 1)
  {
    hide Move;
    hide Moved;
    MovedRows(t, t2, pid, rows, pos, newPos);
    MoveKeepsMembers(rows, pos - 1, newPos - 1);
  }

  /** Within 1..n, the four statements together are a move of one element. */
  lemma RepositionedIsMove(t: Table, t2: Table, pid: string, rows: seq<nat>, pos: int, newPos: int)
    requires Numbered(t, pid, rows) && Repositioned(t, pid, pos, newPos, t2)
    requires 1 <= pos <= |rows| && 1 <= newPos <= |rows| && !HitsSentinel(pos, newPos)
    ensures Numbered(t2, pid, Move(rows, pos - 1, newPos - 1))
    ensures Media(t2, Move(rows, pos - 1, newPos - 1)) == Move(Media(t, rows), pos - 1, newPos - 1)
  {
    forall i | 0 <= i < |rows| ensures t2[rows[i]] == t[rows[i]].(pos := Moved(pos, newPos, i + 1)) {
      RepositionIsMoved(pos, newPos, i + 1);
    }
    MovedIsNumbered(t, t2, pid, rows, pos, newPos);
  }

  /**
    Both positions name rows, or neither does and they lie on the same side; besides, in a playlist
    whose last position is next to the sentinel, a position past the end stands for the last row.
   */
  predicate KeepsNumbering(n: nat, pos: int, newPos: int) {
    n == 0 || pos == newPos || (1 <= pos <= n && 1 <= newPos <= n) || (pos < 1 && newPos < 1) || (n < pos && n < newPos) ||
    LastRowMoves(n, pos, newPos)
  }

  /** The last row is shifted onto the free sentinel and so taken for the row to move. */
  predicate LastRowMoves(n: nat, pos: int, newPos: int) { n + 1 == -SENTINEL && n < pos && 1 <= newPos <= n }

  /**
    Two rows meet: the row at `pos` is parked at the sentinel and a neighbour is shifted onto it, or
    the shifted range reaches down to the sentinel and sends the parked row back among the others.
   */
  predicate Clashes(n: nat, pos: int, newPos: int) {
    1 <= pos <= n &&
    (|| (pos <= -SENTINEL < newPos && -SENTINEL < n)
     || (newPos < -SENTINEL <= pos)
     || (newPos <= SENTINEL && -SENTINEL <= n + 1))
  }

  /** Where two rows meet, the four statements would leave both at one position. */
  lemma ClashCollides(n: nat, pos: int, newPos: int) returns (p: int, q: int)
    requires Clashes(n, pos, newPos)
    ensures 1 <= p <= n && 1 <= q <= n && p != q && Reposition(pos, newPos, p) == Reposition(pos, newPos, q)
  {
    p := pos;
    if newPos <= SENTINEL {
      q := if pos < -SENTINEL - 1 then -SENTINEL - 1 else -SENTINEL - 2;
    } else {
      q := if pos < newPos then -SENTINEL + 1 else -SENTINEL - 1;
    }
  }

  ghost predicate Reached(n: nat, pos: int, newPos: int, q: int) {
    exists p :: 1 <= p <= n && Reposition(pos, newPos, p) == q
  }

  /** Afterwards every position 1..n is taken, hence taken once. */
  ghost predicate CoversAll(n: nat, pos: int, newPos: int) {
    forall q :: 1 <= q <= n ==> Reached(n, pos, newPos, q)
  }

  /**
    Reorder does not check its arguments.  When its statements complete, the positions are still
    exactly 1..n afterwards if and only if KeepsNumbering holds of the arguments.
   */
  lemma ReorderKeepsNumberingIff(n: nat, pos: int, newPos: int)
    requires !Clashes(n, pos, newPos)
    ensures CoversAll(n, pos, newPos) <==> KeepsNumbering(n, pos, newPos)
  {
    if KeepsNumbering(n, pos, newPos) {
      forall q | 1 <= q <= n ensures Reached(n, pos, newPos, q) {
        var p := Source(n, pos, newPos, q);
        assert Reposition(pos, newPos, p) == q;
      }
    } else {
      var q := Unreached(n, pos, newPos);
      forall p | 1 <= p <= n ensures Reposition(pos, newPos, p) != q { }
      assert !Reached(n, pos, newPos, q);
    }
  }

  /** The row that ends at `q`. */
  function Source(n: nat, pos: int, newPos: int, q: int): int {
    var from := if LastRowMoves(n, pos, newPos) then n else pos;
    if 1 <= from <= n && 1 <= newPos <= n then
      if q == newPos then from
      else if from <= q < newPos then q + 1
      else if newPos < q <= from then q - 1 else q
    else q
  }

  /** A position that is lost when the numbering is not kept. */
  function Unreached(n: nat, pos: int, newPos: int): int {
    if 1 <= pos <= n then (if newPos < 1 then 1 else n)
    else if pos < 1 then (if newPos <= -SENTINEL then (if newPos < n then newPos else n) else if n < newPos then n else -SENTINEL)
    else if newPos < 1 then 1
    else if newPos < -SENTINEL <= n then -SENTINEL else newPos
  }

  // ----- renumber -------------------------------------------------------------------------

  /** ROW_NUMBER() OVER (ORDER BY id DESC) within the playlist. */
  function RowNumber(t: Table, pid: string, r: nat): nat
    requires r in t
  {
    1 + |set s | s in t && t[s].playlist == pid && t[s].pos > t[r].pos|
  }

  function RenumberAssign(t: Table, pid: string): map<nat, int> {
    map r | r in t && t[r].playlist == pid :: RowNumber(t, pid, r)
  }

  lemma {:induction false} PrefixSize(rows: seq<nat>, i: nat)
    requires i <= |rows| && forall a, b :: 0 <= a < b < |rows| ==> rows[a] != rows[b]
    ensures |set k | 0 <= k < i :: rows[k]| == i
  {
    if i > 0 {
      PrefixSize(rows, i - 1);
      assert (set k | 0 <= k < i :: rows[k]) == (set k | 0 <= k < i - 1 :: rows[k]) + {rows[i - 1]};
    }
  }

  /** Once negated, the i-th row by old position has row number i + 1. */
  lemma RowNumberOfNegated(t: Table, pid: string, rows: seq<nat>, i: nat)
    requires i < |rows|
    requires forall k :: 0 <= k < |rows| ==> rows[k] in t && t[rows[k]].playlist == pid
    requires forall a, b :: 0 <= a < b < |rows| ==> t[rows[a]].pos > t[rows[b]].pos
    requires forall r :: r in t && t[r].playlist == pid ==> r in rows
    ensures RowNumber(t, pid, rows[i]) == i + 1
  {
    var before := set s | s in t && t[s].playlist == pid && t[s].pos > t[rows[i]].pos;
    assert before == set k | 0 <= k < i :: rows[k] by {
      forall s | s in before ensures s in set k | 0 <= k < i :: rows[k] {
        var k :| 0 <= k < |rows| && rows[k] == s;
        assert k < i;
      }
    }
    PrefixSize(rows, i);
  }

  /** `rows` from first to last, with the positions negated. */
  ghost predicate OrderedNegative(t: Table, pid: string, rows: seq<nat>) {
    && (forall i :: 0 <= i < |rows| ==> rows[i] in t && t[rows[i]].playlist == pid && t[rows[i]].pos < 0)
    && (forall i, j :: 0 <= i < j < |rows| ==> t[rows[i]].pos > t[rows[j]].pos)
    && (forall r :: r in t && t[r].playlist == pid ==> r in rows)
  }

  ghost predicate Positive(t: Table, rows: seq<nat>) {
    forall i :: 0 <= i < |rows| ==> rows[i] in t && t[rows[i]].pos > 0
  }

  /** The table a whole statement leaves. */
  function Negated(t: Table, pid: string): Table { Assigned(t, StmtAssign(t, pid, Negate)) }

  function Renumbered(t: Table, pid: string): Table {
    var t1 := Negated(t, pid);
    Assigned(t1, RenumberAssign(t1, pid))
  }

  /** First statement: any order is safe, and the order of the rows is reversed. */
  lemma NegateStep(t: Table, pid: string, rows: seq<nat>)
    requires Unique(t) && Ordered(t, pid, rows) && Positive(t, rows)
    ensures SafeInAnyOrder(t, StmtAssign(t, pid, Negate))
    ensures OrderedNegative(Negated(t, pid), pid, rows)
  {
    FreshPositionsAreSafe(t, pid, StmtAssign(t, pid, Negate));
    AssignedIsStepped(t, pid, Negate);
  }

  lemma AssignIndices(t: Table, pid: string, rows: seq<nat>, a: map<nat, int>)
    requires Unique(t) && OrderedNegative(t, pid, rows)
    requires forall r :: r in a <==> r in t && t[r].playlist == pid
    requires forall i :: 0 <= i < |rows| ==> a[rows[i]] == i + 1
    ensures SafeInAnyOrder(t, a) && Numbered(Assigned(t, a), pid, rows)
  {
    forall r | r in a ensures exists i :: 0 <= i < |rows| && rows[i] == r && a[r] == i + 1 {
      var i :| 0 <= i < |rows| && rows[i] == r;
    }
    FreshPositionsAreSafe(t, pid, a);
  }

  /** Second statement: any order is safe, and the rows end up numbered 1..n. */
  lemma RowNumberStep(t1: Table, pid: string, rows: seq<nat>)
    requires Unique(t1) && OrderedNegative(t1, pid, rows)
    ensures SafeInAnyOrder(t1, RenumberAssign(t1, pid))
    ensures Numbered(Assigned(t1, RenumberAssign(t1, pid)), pid, rows)
  {
    var a := RenumberAssign(t1, pid);
    forall i | 0 <= i < |rows| ensures rows[i] in a && a[rows[i]] == i + 1 {
      RowNumberOfNegated(t1, pid, rows, i);
    }
    AssignIndices(t1, pid, rows, a);
  }

  lemma SafeIsUnique(t: Table, assign: map<nat, int>)
    requires SafeInAnyOrder(t, assign)
    ensures Unique(Assigned(t, assign))
  {
    assert Restrict(assign, assign.Keys) == assign;
  }

  /** Renumber keeps the order of the rows and closes the gaps. */
  lemma RenumberSteps(t: Table, pid: string, rows: seq<nat>)
    requires Unique(t) && Ordered(t, pid, rows) && Positive(t, rows)
    ensures SafeInAnyOrder(t, StmtAssign(t, pid, Negate))
    ensures SafeInAnyOrder(Negated(t, pid), RenumberAssign(Negated(t, pid), pid))
    ensures Numbered(Renumbered(t, pid), pid, rows) && Media(Renumbered(t, pid), rows) == Media(t, rows)
    ensures SameElsewhere(t, Renumbered(t, pid), pid) && Renumbered(t, pid).Keys == t.Keys
  {
    NegateStep(t, pid, rows);
    SafeIsUnique(t, StmtAssign(t, pid, Negate));
    RowNumberStep(Negated(t, pid), pid, rows);
  }

  // ----- plain-list operations ------------------------------------------------------------

  /** Drop the elements whose 1-based position is listed. */
  function WithoutPositions(s: seq<string>, ids: set<int>): seq<string> {
    if s == [] then []
    else WithoutPositions(s[..|s| - 1], ids) + (if |s| in ids then [] else [s[|s| - 1]])
  }

  /** Drop the elements that name no media file. */
  function OnlyKnown(s: seq<string>, known: set<string>): seq<string> {
    if s == [] then []
    else OnlyKnown(s[..|s| - 1], known) + (if s[|s| - 1] in known then [s[|s| - 1]] else [])
  }

  /** `r` are the elements of `s` at the ascending indices `idx`. */
  ghost predicate PickedAt(s: seq<string>, idx: seq<nat>, r: seq<string>) {
    && |idx| == |r|
    && (forall m, n :: 0 <= m < n < |idx| ==> idx[m] < idx[n])
    && (forall m :: 0 <= m < |idx| ==> idx[m] < |s| && r[m] == s[idx[m]])
  }

  lemma PickMore(s: seq<string>, idx: seq<nat>, r: seq<string>, x: string)
    requires PickedAt(s, idx, r)
    ensures PickedAt(s + [x], idx, r) && PickedAt(s + [x], idx + [|s|], r + [x])
  {
  }

  /** Exactly the elements whose position is not listed remain, in order; the first position is 1. */
  lemma {:induction false} WithoutPositionsIs(s: seq<string>, ids: set<int>) returns (idx: seq<nat>)
    ensures PickedAt(s, idx, WithoutPositions(s, ids))
    ensures forall i :: 0 <= i < |s| ==> (i in idx <==> i + 1 !in ids)
  {
    idx := [];
    if s != [] {
      var n := |s| - 1;
      idx := WithoutPositionsIs(s[..n], ids);
      assert s == s[..n] + [s[n]];
      PickMore(s[..n], idx, WithoutPositions(s[..n], ids), s[n]);
      NotPicked(s[..n], idx, WithoutPositions(s[..n], ids));
      hide PickedAt;
      if n + 1 !in ids {
        idx := idx + [n];
      } else {
        assert WithoutPositions(s, ids) == WithoutPositions(s[..n], ids);
      }
    }
  }

  lemma NotPicked(s: seq<string>, idx: seq<nat>, r: seq<string>)
    requires PickedAt(s, idx, r)
    ensures |s| !in idx
  {
  }

  /** Exactly the elements that are known remain, in order. */
  lemma {:induction false} OnlyKnownIs(s: seq<string>, known: set<string>) returns (idx: seq<nat>)
    ensures PickedAt(s, idx, OnlyKnown(s, known))
    ensures forall i :: 0 <= i < |s| ==> (i in idx <==> s[i] in known)
  {
    idx := [];
    if s != [] {
      var n := |s| - 1;
      idx := OnlyKnownIs(s[..n], known);
      assert s == s[..n] + [s[n]] && forall i :: 0 <= i < n ==> s[..n][i] == s[i];
      PickMore(s[..n], idx, OnlyKnown(s[..n], known), s[n]);
      NotPicked(s[..n], idx, OnlyKnown(s[..n], known));
      hide PickedAt;
      if s[n] in known {
        idx := idx + [n];
      } else {
        assert OnlyKnown(s, known) == OnlyKnown(s[..n], known);
      }
    }
  }

  function KeepRows(rows: seq<nat>, t: Table): seq<nat> {
    if rows == [] then []
    else KeepRows(rows[..|rows| - 1], t) + (if rows[|rows| - 1] in t then [rows[|rows| - 1]] else [])
  }

  lemma {:induction false} KeepRowsMembers(rows: seq<nat>, t: Table)
    ensures forall r :: r in KeepRows(rows, t) <==> r in rows && r in t
  {
    if rows != [] {
      KeepRowsMembers(rows[..|rows| - 1], t);
      assert rows == rows[..|rows| - 1] + [rows[|rows| - 1]];
    }
  }

  ghost predicate Increasing(t: Table, rows: seq<nat>) {
    && (forall i :: 0 <= i < |rows| ==> rows[i] in t)
    && (forall i, j :: 0 <= i < j < |rows| ==> t[rows[i]].pos < t[rows[j]].pos)
  }

  lemma {:induction false} KeepRowsOrdered(t: Table, rows: seq<nat>, t2: Table)
    requires Increasing(t, rows)
    requires forall r :: r in t2 ==> r in t && t2[r] == t[r]
    ensures Increasing(t2, KeepRows(rows, t2))
  {
    if rows != [] {
      var front := rows[..|rows| - 1];
      KeepRowsOrdered(t, front, t2);
      KeepRowsMembers(front, t2);
      assert forall i :: 0 <= i < |front| ==> front[i] == rows[i];
      var kept := KeepRows(front, t2);
      forall i | 0 <= i < |kept| ensures kept[i] in rows && t[kept[i]].pos < t[rows[|rows| - 1]].pos {
        assert kept[i] in kept && kept[i] in front;
        var k :| 0 <= k < |front| && front[k] == kept[i];
        assert rows[k] == kept[i];
      }
      var all := KeepRows(rows, t2);
      forall i, j | 0 <= i < j < |all| ensures t2[all[i]].pos < t2[all[j]].pos {
        assert all[i] == kept[i];
        if j < |kept| { assert all[j] == kept[j]; } else { assert all[j] == rows[|rows| - 1]; }
      }
    }
  }

  lemma {:induction false} MediaWithoutPositions(t: Table, rows: seq<nat>, t2: Table, ids: set<int>)
    requires forall i :: 0 <= i < |rows| ==> rows[i] in t && (rows[i] in t2 <==> i + 1 !in ids)
    requires forall r :: r in t2 ==> r in t && t2[r] == t[r]
    ensures (forall i :: 0 <= i < |KeepRows(rows, t2)| ==> KeepRows(rows, t2)[i] in t2)
    ensures Media(t2, KeepRows(rows, t2)) == WithoutPositions(Media(t, rows), ids)
  {
    if rows != [] {
      MediaWithoutPositions(t, rows[..|rows| - 1], t2, ids);
      assert Media(t, rows)[..|rows| - 1] == Media(t, rows[..|rows| - 1]);
    }
  }

  lemma {:induction false} MediaOnlyKnown(t: Table, rows: seq<nat>, t2: Table, known: set<string>)
    requires forall i :: 0 <= i < |rows| ==> rows[i] in t && (rows[i] in t2 <==> t[rows[i]].media in known)
    requires forall r :: r in t2 ==> r in t && t2[r] == t[r]
    ensures (forall i :: 0 <= i < |KeepRows(rows, t2)| ==> KeepRows(rows, t2)[i] in t2)
    ensures Media(t2, KeepRows(rows, t2)) == OnlyKnown(Media(t, rows), known)
  {
    if rows != [] {
      MediaOnlyKnown(t, rows[..|rows| - 1], t2, known);
      assert Media(t, rows)[..|rows| - 1] == Media(t, rows[..|rows| - 1]);
    }
  }

  /** Removing rows of one playlist disturbs nothing else. */
  lemma DeletedElsewhere(t: Table, pid: string, t2: Table)
    requires Unique(t) && forall r :: r in t2 ==> r in t && t2[r] == t[r]
    requires forall r :: r in t && r !in t2 ==> t[r].playlist == pid
    ensures Unique(t2) && SameElsewhere(t, t2, pid)
  {
  }

  lemma SameElsewhereTrans(t: Table, u: Table, v: Table, pid: string)
    requires SameElsewhere(t, u, pid) && SameElsewhere(u, v, pid)
    ensures SameElsewhere(t, v, pid)
  {
  }

  /** Deleting rows of a numbered playlist leaves the survivors in order. */
  lemma DeletedIsOrdered(t: Table, pid: string, rows: seq<nat>, t2: Table)
    requires Numbered(t, pid, rows) && forall r :: r in t2 ==> r in t && t2[r] == t[r]
    ensures Ordered(t2, pid, KeepRows(rows, t2))
    ensures Positive(t2, KeepRows(rows, t2))
  {
    KeepRowsMembers(rows, t2);
    KeepRowsOrdered(t, rows, t2);
  }
}
