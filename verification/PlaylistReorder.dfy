/** Why Reorder's four statements never break the UNIQUE constraint, row by row, and when they do. */
module PlaylistReorder {
  import opened PlaylistPositions

  /** The table one statement leaves. */
  function Executed(t: Table, pid: string, stmt: Stmt): Table { Assigned(t, StmtAssign(t, pid, stmt)) }

  function Statement(k: nat, pos: int, newPos: int): Stmt {
    if k == 0 then ToSentinel(pos)
    else if k == 1 then ShiftStmt(pos, newPos)
    else if k == 2 then FlipBack
    else FromSentinel(newPos)
  }

  /** Where the row first found at position `p` stands after `k` statements. */
  function Stage(k: nat, pos: int, newPos: int, p: int): int {
    if k == 0 then p else Step(Statement(k - 1, pos, newPos), Stage(k - 1, pos, newPos, p))
  }

  /** `u` is `t` after `k` statements. */
  ghost predicate AtStage(t: Table, u: Table, pid: string, k: nat, pos: int, newPos: int) {
    && u.Keys == t.Keys
    && forall r :: r in t ==>
         u[r] == if t[r].playlist == pid then t[r].(pos := Stage(k, pos, newPos, t[r].pos)) else t[r]
  }

  ghost predicate PositionsWithin(t: Table, pid: string, n: nat) {
    forall r :: r in t && t[r].playlist == pid ==> 1 <= t[r].pos <= n
  }

  lemma ExecutedNextStage(t: Table, u: Table, pid: string, k: nat, pos: int, newPos: int)
    requires AtStage(t, u, pid, k, pos, newPos)
    ensures AtStage(t, Executed(u, pid, Statement(k, pos, newPos)), pid, k + 1, pos, newPos)
  {
    hide Step, Statement;
    AssignedIsStepped(u, pid, Statement(k, pos, newPos));
  }

  /** A statement moves a position only to where no other position stands or is moved. */
  ghost predicate Fresh(stmt: Stmt, p: int, q: int) { NewPos(stmt, p) != q && NewPos(stmt, p) != Step(stmt, q) }

  /** Whatever the arguments, as long as no two rows meet. */
  lemma StageIsFresh(k: nat, n: nat, pos: int, newPos: int, p: int, q: int)
    requires k < 4 && pos != newPos && !Clashes(n, pos, newPos) && 1 <= p <= n && 1 <= q <= n && p != q
    requires Where(Statement(k, pos, newPos), Stage(k, pos, newPos, p))
    ensures Fresh(Statement(k, pos, newPos), Stage(k, pos, newPos, p), Stage(k, pos, newPos, q))
  {
    if k == 1 {
      Stage1(pos, newPos, p);
      Stage1(pos, newPos, q);
      hide Stage;
      ShiftIsFresh(n, pos, newPos, p, q);
    } else if k == 2 {
      Stage2(pos, newPos, p);
      Stage2(pos, newPos, q);
      hide Stage;
      FlipIsFresh(n, pos, newPos, p, q);
    } else if k == 3 {
      Stage3(pos, newPos, p);
      Stage3(pos, newPos, q);
      hide Stage;
      UnparkIsFresh(n, pos, newPos, p, q);
    }
  }

  lemma ShiftIsFresh(n: nat, pos: int, newPos: int, p: int, q: int)
    requires pos != newPos && !Clashes(n, pos, newPos) && 1 <= p <= n && 1 <= q <= n && p != q
    requires Where(ShiftStmt(pos, newPos), Step(ToSentinel(pos), p))
    ensures Fresh(ShiftStmt(pos, newPos), Step(ToSentinel(pos), p), Step(ToSentinel(pos), q))
  {
  }

  function TwoSteps(pos: int, newPos: int, p: int): int { Step(ShiftStmt(pos, newPos), Step(ToSentinel(pos), p)) }

  lemma FlipIsFresh(n: nat, pos: int, newPos: int, p: int, q: int)
    requires pos != newPos && !Clashes(n, pos, newPos) && 1 <= p <= n && 1 <= q <= n && p != q
    requires Where(FlipBack, TwoSteps(pos, newPos, p))
    ensures Fresh(FlipBack, TwoSteps(pos, newPos, p), TwoSteps(pos, newPos, q))
  {
  }

  lemma UnparkIsFresh(n: nat, pos: int, newPos: int, p: int, q: int)
    requires pos != newPos && !Clashes(n, pos, newPos) && 1 <= p <= n && 1 <= q <= n && p != q
    requires Where(FromSentinel(newPos), Step(FlipBack, TwoSteps(pos, newPos, p)))
    ensures Fresh(FromSentinel(newPos), Step(FlipBack, TwoSteps(pos, newPos, p)), Step(FlipBack, TwoSteps(pos, newPos, q)))
  {
  }

  lemma Stage1(pos: int, newPos: int, p: int)
    ensures Stage(1, pos, newPos, p) == Step(ToSentinel(pos), p)
  {
  }

  lemma Stage3(pos: int, newPos: int, p: int)
    ensures Stage(3, pos, newPos, p) == Step(FlipBack, TwoSteps(pos, newPos, p))
  {
    hide Step;
    Stage2(pos, newPos, p);
  }

  lemma Stage2(pos: int, newPos: int, p: int)
    ensures Stage(2, pos, newPos, p) == TwoSteps(pos, newPos, p)
  {
    hide Step;
    Stage1(pos, newPos, p);
  }

  /** The four stages together are Reposition. */
  lemma LastStage(pos: int, newPos: int, p: int)
    requires pos != newPos
    ensures Stage(4, pos, newPos, p) == Reposition(pos, newPos, p)
  {
    hide Step;
    Stage3(pos, newPos, p);
  }

  /** Each of the four statements may visit its rows in any order. */
  lemma StatementIsSafe(t: Table, u: Table, pid: string, n: nat, k: nat, pos: int, newPos: int)
    requires k < 4 && pos != newPos && !Clashes(n, pos, newPos)
    requires Unique(t) && PositionsWithin(t, pid, n) && AtStage(t, u, pid, k, pos, newPos) && Unique(u)
    ensures SafeInAnyOrder(u, StmtAssign(u, pid, Statement(k, pos, newPos)))
  {
    hide Stage, Statement, Where, NewPos, Clashes;
    var stmt := Statement(k, pos, newPos);
    var a := StmtAssign(u, pid, stmt);
    forall r, s | r in a && s in u && u[s].playlist == pid && r != s
      ensures u[s].pos != a[r] && (s in a ==> a[s] != a[r])
    {
      StageIsFresh(k, n, pos, newPos, t[r].pos, t[s].pos);
    }
    FreshPositionsAreSafe(u, pid, a);
  }

  /** Where two rows meet the statements cannot all complete. */
  lemma ClashIsNotUnique(t: Table, pid: string, rows: seq<nat>, t2: Table, pos: int, newPos: int)
    requires Numbered(t, pid, rows) && Repositioned(t, pid, pos, newPos, t2) && Clashes(|rows|, pos, newPos)
    ensures !Unique(t2)
  {
    hide Reposition, Clashes;
    var p, q := ClashCollides(|rows|, pos, newPos);
    var r, s := rows[p - 1], rows[q - 1];
    assert t[r].playlist == pid && t[s].playlist == pid && t[r].pos == p && t[s].pos == q;
    hide Ordered, Numbered;
    assert t2[r].pos == t2[s].pos && t2[r].playlist == t2[s].playlist;
  }

  /** For any arguments the first statement finds the sentinel free. */
  lemma FirstStatementIsSafe(u: Table, pid: string, n: nat, t: Table, pos: int, newPos: int)
    requires Unique(t) && PositionsWithin(t, pid, n) && AtStage(t, u, pid, 0, pos, newPos)
    ensures SafeInAnyOrder(u, StmtAssign(u, pid, Statement(0, pos, newPos)))
  {
    assert u == t;
    FreshPositionsAreSafe(t, pid, StmtAssign(t, pid, ToSentinel(pos)));
  }

  lemma StageElsewhere(t: Table, u: Table, pid: string, k: nat, pos: int, newPos: int)
    requires AtStage(t, u, pid, k, pos, newPos)
    ensures SameElsewhere(t, u, pid)
  {
  }

  lemma StagesAreRepositioned(t: Table, u: Table, pid: string, pos: int, newPos: int)
    requires pos != newPos && AtStage(t, u, pid, 4, pos, newPos)
    ensures Repositioned(t, pid, pos, newPos, u)
  {
    hide Stage, Reposition;
    forall r | r in t && t[r].playlist == pid ensures u[r].pos == Reposition(pos, newPos, t[r].pos) {
      LastStage(pos, newPos, t[r].pos);
    }
  }

  lemma StageZero(t: Table, pid: string, pos: int, newPos: int)
    ensures AtStage(t, t, pid, 0, pos, newPos)
    ensures pos == newPos ==> Repositioned(t, pid, pos, newPos, t)
  {
  }

  /** With the sentinel taken, shifting a neighbour onto it must fail. */
  lemma SentinelClash(t: Table, pid: string, rows: seq<nat>, u: Table, pos: int, newPos: int)
    requires Numbered(t, pid, rows) && 1 <= pos <= |rows| && 1 <= newPos <= |rows| && pos != newPos
    requires HitsSentinel(pos, newPos) && AtStage(t, u, pid, 2, pos, newPos)
    ensures !Unique(u)
  {
    var p := if pos < newPos then -SENTINEL + 1 else -SENTINEL - 1;
    var r, s := rows[pos - 1], rows[p - 1];
    Stage2(pos, newPos, pos);
    Stage2(pos, newPos, p);
    hide Stage;
    assert u[r].pos == SENTINEL && u[s].pos == SENTINEL && r != s;
  }

  /** Whatever the arguments, four completed statements act on each position as Reposition says. */
  lemma FourStatements(t: Table, t1: Table, t2: Table, t3: Table, t4: Table, pid: string, pos: int, newPos: int)
    requires pos != newPos
    requires t1 == Executed(t, pid, ToSentinel(pos)) && t2 == Executed(t1, pid, ShiftStmt(pos, newPos))
    requires t3 == Executed(t2, pid, FlipBack) && t4 == Executed(t3, pid, FromSentinel(newPos))
    ensures Repositioned(t, pid, pos, newPos, t4)
  {
    hide Step;
    hide ShiftStmt;
    hide StmtAssign;
    hide Assigned;
    AssignedIsStepped(t, pid, ToSentinel(pos));
    AssignedIsStepped(t1, pid, ShiftStmt(pos, newPos));
    AssignedIsStepped(t2, pid, FlipBack);
    AssignedIsStepped(t3, pid, FromSentinel(newPos));
  }

  lemma DistinctSize(s: seq<nat>)
    requires forall i, j :: 0 <= i < j < |s| ==> s[i] != s[j]
    ensures |set r | r in s| == |s|
  {
    PrefixSize(s, |s|);
    assert (set r | r in s) == (set k | 0 <= k < |s| :: s[k]);
  }

  lemma SameRowsSameLength(a: seq<nat>, b: seq<nat>)
    requires forall i, j :: 0 <= i < j < |a| ==> a[i] != a[j]
    requires forall i, j :: 0 <= i < j < |b| ==> b[i] != b[j]
    requires forall r :: r in a <==> r in b
    ensures |a| == |b|
  {
    DistinctSize(a);
    DistinctSize(b);
    assert (set r | r in a) == (set r | r in b);
  }

  /** A renumbered table shows that every position was reached. */
  lemma NumberedCovers(t: Table, t2: Table, pid: string, rows: seq<nat>, rows2: seq<nat>, pos: int, newPos: int)
    requires Numbered(t, pid, rows) && Repositioned(t, pid, pos, newPos, t2) && Numbered(t2, pid, rows2)
    ensures CoversAll(|rows|, pos, newPos)
  {
    hide Reposition;
    forall r ensures r in rows <==> r in rows2 {
      if r in rows { assert t[r].playlist == pid && t2[r].playlist == pid; }
      if r in rows2 { assert t2[r].playlist == pid && t[r].playlist == pid; }
    }
    SameRowsSameLength(rows, rows2);
    forall q | 1 <= q <= |rows| ensures Reached(|rows|, pos, newPos, q) {
      var r := rows2[q - 1];
      assert r in rows2 && r in rows;
      var i :| 0 <= i < |rows| && rows[i] == r;
      assert Reposition(pos, newPos, i + 1) == q;
    }
  }

  /**
    Reorder does not check its arguments.  Its completed statements leave the positions exactly 1..n
    if and only if KeepsNumbering holds.
   */
  lemma ReorderKeepsNumberedIff(t: Table, t2: Table, pid: string, rows: seq<nat>, pos: int, newPos: int)
    requires Numbered(t, pid, rows) && Repositioned(t, pid, pos, newPos, t2) && !Clashes(|rows|, pos, newPos)
    ensures (exists rows2 :: Numbered(t2, pid, rows2)) <==> KeepsNumbering(|rows|, pos, newPos)
  {
    hide Numbered, Repositioned, Reposition;
    if rows2 :| Numbered(t2, pid, rows2) {
      NumberedCovers(t, t2, pid, rows, rows2, pos, newPos);
      ReorderKeepsNumberingIff(|rows|, pos, newPos);
    }
    if KeepsNumbering(|rows|, pos, newPos) {
      if 1 <= pos <= |rows| && 1 <= newPos <= |rows| {
        RepositionedIsMove(t, t2, pid, rows, pos, newPos);
      } else if |rows| > 0 && pos != newPos && LastRowMoves(|rows|, pos, newPos) {
        LastRowIsMoved(t, t2, pid, rows, pos, newPos);
      } else {
        OutsideStays(t, t2, pid, rows, pos, newPos);
      }
    }
  }

  lemma LastRowIsMoved(t: Table, t2: Table, pid: string, rows: seq<nat>, pos: int, newPos: int)
    requires Numbered(t, pid, rows) && Repositioned(t, pid, pos, newPos, t2) && LastRowMoves(|rows|, pos, newPos)
    ensures Numbered(t2, pid, Move(rows, |rows| - 1, newPos - 1))
  {
    forall i | 0 <= i < |rows| ensures t2[rows[i]] == t[rows[i]].(pos := Moved(|rows|, newPos, i + 1)) {
      assert Reposition(pos, newPos, i + 1) == Moved(|rows|, newPos, i + 1);
    }
    MovedIsNumbered(t, t2, pid, rows, |rows|, newPos);
  }

  lemma OutsideStays(t: Table, t2: Table, pid: string, rows: seq<nat>, pos: int, newPos: int)
    requires Numbered(t, pid, rows) && Repositioned(t, pid, pos, newPos, t2) && KeepsNumbering(|rows|, pos, newPos)
    requires !(1 <= pos <= |rows| && 1 <= newPos <= |rows|) && !LastRowMoves(|rows|, pos, newPos)
    ensures t2 == t
  {
    assert forall p :: 1 <= p <= |rows| ==> Reposition(pos, newPos, p) == p;
    hide Reposition;
    forall r | r in t ensures t2[r] == t[r] {
      if t[r].playlist == pid {
        var i :| 0 <= i < |rows| && rows[i] == r;
        assert Reposition(pos, newPos, i + 1) == i + 1;
      }
    }
  }
}
