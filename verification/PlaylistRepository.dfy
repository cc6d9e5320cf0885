/**
  The playlist track repository: operations on the table, each refining a plain list operation.
 */
module PlaylistRepository {
  import opened PlaylistPositions
  import opened PlaylistReorder

  /** Playlists as plain lists of media file ids; an absent playlist is empty. */
  type Plain = map<string, seq<string>>

  function ListOf(lists: Plain, pid: string): seq<string> { if pid in lists then lists[pid] else [] }

  datatype Op =
    | Add(pid: string, media: seq<string>)
    | Delete(pid: string, ids: set<int>)
    | DeleteAll(pid: string)
    | Replace(pid: string, media: seq<string>)
    | Reorder(pid: string, pos: int, newPos: int)
    | RemoveOrphans(known: set<string>)

  /** What each operation means on plain lists. */
  function Apply(lists: Plain, op: Op): Plain
    requires Legal(lists, op)
  {
    match op
    case Add(pid, media) => lists[pid := ListOf(lists, pid) + media]
    case Delete(pid, ids) => lists[pid := WithoutPositions(ListOf(lists, pid), ids)]
    case DeleteAll(pid) => lists[pid := []]
    case Replace(pid, media) => lists[pid := media]
    case Reorder(pid, pos, newPos) => lists[pid := Move(ListOf(lists, pid), pos - 1, newPos - 1)]
    case RemoveOrphans(known) => map pid | pid in lists :: OnlyKnown(lists[pid], known)
  }

  /** Reorder names two existing positions, and no neighbour lands on the sentinel. */
  predicate Legal(lists: Plain, op: Op) {
    op.Reorder? ==>
      var n := |ListOf(lists, op.pid)|;
      1 <= op.pos <= n && 1 <= op.newPos <= n && !HitsSentinel(op.pos, op.newPos)
  }

  predicate LegalRun(lists: Plain, ops: seq<Op>)
    decreases |ops|
  {
    ops != [] ==> Legal(lists, ops[0]) && LegalRun(Apply(lists, ops[0]), ops[1..])
  }

  function ApplyAll(lists: Plain, ops: seq<Op>): Plain
    requires LegalRun(lists, ops)
    decreases |ops|
  {
    if ops == [] then lists else ApplyAll(Apply(lists, ops[0]), ops[1..])
  }

  ghost predicate SameLists(a: Plain, b: Plain) { forall pid :: ListOf(a, pid) == ListOf(b, pid) }

  lemma SetSame(a: Plain, b: Plain, pid: string, s: seq<string>)
    requires SameLists(a, b)
    ensures SameLists(a[pid := s], b[pid := s])
  {
    var a2, b2 := a[pid := s], b[pid := s];
    forall other ensures ListOf(a2, other) == ListOf(b2, other) {
      assert ListOf(a, other) == ListOf(b, other);
    }
  }

  lemma SetToItself(a: Plain, pid: string)
    ensures SameLists(a, a[pid := ListOf(a, pid)])
  {
  }

  lemma SetAgain(a: Plain, b: Plain, pid: string, s: seq<string>, t: seq<string>)
    requires SameLists(a, b[pid := s])
    ensures SameLists(a[pid := t], b[pid := t])
  {
    SetSame(a, b[pid := s], pid, t);
    assert b[pid := s][pid := t] == b[pid := t];
  }

  lemma ApplySame(a: Plain, b: Plain, op: Op)
    requires SameLists(a, b) && Legal(b, op)
    ensures Legal(a, op) && SameLists(Apply(a, op), Apply(b, op))
  {
    assert !op.RemoveOrphans? ==> ListOf(a, op.pid) == ListOf(b, op.pid);
    forall pid ensures ListOf(Apply(a, op), pid) == ListOf(Apply(b, op), pid) {
      assert ListOf(a, pid) == ListOf(b, pid);
      if op.RemoveOrphans? { assert OnlyKnown([], op.known) == []; }
    }
  }

  /** Below 999,999 tracks no legal pair of positions can reach the sentinel. */
  lemma SmallPlaylistsNeverHitSentinel(n: nat, pos: int, newPos: int)
    requires n < -SENTINEL && 1 <= pos <= n && 1 <= newPos <= n
    ensures !HitsSentinel(pos, newPos)
  {
  }

  function NewRows(pid: string, row: nat, pos: int, media: seq<string>): Table {
    map r | r in NewRowIds(row, |media|) :: Track(pid, pos + (r - row), media[r - row])
  }

  function NewRowIds(row: nat, n: nat): (ids: seq<nat>)
    ensures |ids| == n && (forall i :: 0 <= i < n ==> ids[i] == row + i)
    ensures forall r :: r in ids ==> row <= r < row + n
  {
    seq(n, i requires 0 <= i < n => row + i)
  }

  /** One INSERT after the last position: no duplicate, and the playlist goes on in order. */
  lemma InsertBlock(t: Table, pid: string, rows: seq<nat>, row: nat, media: seq<string>)
    requires Unique(t) && Numbered(t, pid, rows) && forall r :: r in t ==> r < row
    ensures var t2 := t + NewRows(pid, row, |rows| + 1, media);
            var rows2 := rows + NewRowIds(row, |media|);
            Unique(t2) && Numbered(t2, pid, rows2) && SameElsewhere(t, t2, pid)
  {
    hide Unique;
    BlockIsUnique(t, pid, rows, row, media);
    BlockIsNumbered(t, pid, rows, row, media);
  }

  lemma BlockIsNumbered(t: Table, pid: string, rows: seq<nat>, row: nat, media: seq<string>)
    requires Numbered(t, pid, rows) && forall r :: r in t ==> r < row
    ensures Numbered(t + NewRows(pid, row, |rows| + 1, media), pid, rows + NewRowIds(row, |media|))
  {
    var t2, rows2 := t + NewRows(pid, row, |rows| + 1, media), rows + NewRowIds(row, |media|);
    forall i | 0 <= i < |rows2| ensures rows2[i] in t2 && t2[rows2[i]].playlist == pid && t2[rows2[i]].pos == i + 1 {
      if i < |rows| {
        assert rows2[i] == rows[i];
      } else {
        assert rows2[i] == NewRowIds(row, |media|)[i - |rows|] == row + (i - |rows|);
      }
    }
    forall s | s in t2 && t2[s].playlist == pid ensures s in rows2 {
      if s in t {
        assert s in rows;
      } else {
        assert rows2[|rows| + (s - row)] == s;
      }
    }
  }

  lemma BlockIsUnique(t: Table, pid: string, rows: seq<nat>, row: nat, media: seq<string>)
    requires Unique(t) && Numbered(t, pid, rows) && forall r :: r in t ==> r < row
    ensures Unique(t + NewRows(pid, row, |rows| + 1, media))
  {
    NumberedIsUniqueMax(t, pid, rows);
  }

  lemma BlockMedia(t: Table, pid: string, rows: seq<nat>, row: nat, media: seq<string>)
    requires Numbered(t, pid, rows) && forall r :: r in t ==> r < row
    ensures var t2 := t + NewRows(pid, row, |rows| + 1, media);
            var rows2 := rows + NewRowIds(row, |media|);
            (forall i :: 0 <= i < |rows2| ==> rows2[i] in t2) && Media(t2, rows2) == Media(t, rows) + media
  {
    var t2, rows2 := t + NewRows(pid, row, |rows| + 1, media), rows + NewRowIds(row, |media|);
    forall i | 0 <= i < |rows2| ensures rows2[i] in t2 && t2[rows2[i]].media == (Media(t, rows) + media)[i] {
      if i < |rows| { assert rows2[i] == rows[i]; } else { assert rows2[i] == NewRowIds(row, |media|)[i - |rows|]; }
    }
  }

  lemma NumberedIsUniqueMax(t: Table, pid: string, rows: seq<nat>)
    requires Numbered(t, pid, rows)
    ensures forall r :: r in t && t[r].playlist == pid ==> 1 <= t[r].pos <= |rows|
    ensures rows == [] <==> forall r :: r in t ==> t[r].playlist != pid
  {
    forall r | r in t && t[r].playlist == pid ensures 1 <= t[r].pos <= |rows| {
      var i :| 0 <= i < |rows| && rows[i] == r;
    }
    if rows != [] { assert rows[0] in t; }
  }

  lemma {:induction false} OnlyKnownOfKnown(s: seq<string>, known: set<string>)
    requires forall i :: 0 <= i < |s| ==> s[i] in known
    ensures OnlyKnown(s, known) == s
  {
    if s != [] {
      OnlyKnownOfKnown(s[..|s| - 1], known);
      assert s == s[..|s| - 1] + [s[|s| - 1]];
    }
  }

  // ----- the table against the plain lists ------------------------------------------------

  /** Every playlist is stored as its plain list, at positions exactly 1..n. */
  ghost predicate AllListed(t: Table, lists: Plain) { forall pid :: Lists(t, pid, ListOf(lists, pid)) }

  lemma RowsOf(t: Table, lists: Plain, pid: string) returns (rows: seq<nat>)
    requires AllListed(t, lists)
    ensures Numbered(t, pid, rows) && Media(t, rows) == ListOf(lists, pid)
    ensures PositionsWithin(t, pid, |rows|)
  {
    assert Lists(t, pid, ListOf(lists, pid));
    rows :| Numbered(t, pid, rows) && Media(t, rows) == ListOf(lists, pid);
    NumberedIsUniqueMax(t, pid, rows);
  }

  lemma ListedAfter(t: Table, t2: Table, lists: Plain, pid: string, rows: seq<nat>)
    requires AllListed(t, lists) && Numbered(t2, pid, rows) && SameElsewhere(t, t2, pid)
    ensures AllListed(t2, lists[pid := Media(t2, rows)])
  {
    var lists2 := lists[pid := Media(t2, rows)];
    forall other ensures Lists(t2, other, ListOf(lists2, other)) {
      assert Lists(t, other, ListOf(lists, other));
      if other != pid { ListsElsewhere(t, t2, pid, other, ListOf(lists, other)); }
    }
  }

  predicate Clash(t: Table, r: nat, p: int)
    requires r in t
  {
    exists s :: s in t && s != r && t[s].playlist == t[r].playlist && t[s].pos == p
  }

  lemma ClashBreaksUnique(t: Table, r: nat, p: int)
    requires Unique(t) && r in t
    ensures Clash(t, r, p) <==> !Unique(t[r := t[r].(pos := p)])
  {
    if Clash(t, r, p) {
      var s :| s in t && s != r && t[s].playlist == t[r].playlist && t[s].pos == p;
      var t2 := t[r := t[r].(pos := p)];
      assert t2[s].pos == t2[r].pos;
    }
  }

  lemma VisitRow(t: Table, assign: map<nat, int>, visited: set<nat>, r: nat)
    requires r in t && r in assign && r !in visited
    ensures var u := Assigned(t, Restrict(assign, visited));
            r in u && Assigned(t, Restrict(assign, visited + {r})) == u[r := u[r].(pos := assign[r])]
  {
  }

  lemma RestrictEnds(t: Table, assign: map<nat, int>)
    ensures Assigned(t, Restrict(assign, {})) == t && Restrict(assign, assign.Keys) == assign
  {
  }

  /** Between existing positions two rows meet exactly when a neighbour is shifted onto the sentinel. */
  lemma ClashInRange(n: nat, pos: int, newPos: int)
    ensures 1 <= pos <= n && 1 <= newPos <= n ==> (Clashes(n, pos, newPos) <==> HitsSentinel(pos, newPos))
    ensures pos == newPos ==> !HitsSentinel(pos, newPos)
  {
  }

  lemma FinishReorder(t: Table, t2: Table, pid: string, rows: seq<nat>, pos: int, newPos: int)
    requires Numbered(t, pid, rows) && Repositioned(t, pid, pos, newPos, t2)
    requires pos == newPos || !Clashes(|rows|, pos, newPos)
    ensures (exists rows2 :: Numbered(t2, pid, rows2)) <==> KeepsNumbering(|rows|, pos, newPos)
  {
    hide Numbered;
    if pos == newPos {
      assert t2 == t;
    } else {
      ReorderKeepsNumberedIff(t, t2, pid, rows, pos, newPos);
    }
  }

  class Repository {
    var tracks: Table
    var nextRow: nat
    ghost var lists: Plain

    constructor ()
      ensures Valid() && tracks == map[] && lists == map[]
    {
      tracks, nextRow, lists := map[], 0, map[];
      new;
      forall pid ensures Lists(tracks, pid, ListOf(lists, pid)) {
        assert Numbered(tracks, pid, []) && Media(tracks, []) == [];
      }
    }

    ghost predicate Consistent()
      reads this
    {
      Unique(tracks) && forall r :: r in tracks ==> r < nextRow
    }

    /** Every playlist is stored as its plain list, at positions exactly 1..n. */
    ghost predicate Valid()
      reads this
    {
      Consistent() && AllListed(tracks, lists)
    }

    /** One UPDATE: rows in whatever order; a duplicate position aborts and undoes the statement. */
    method Update(assign: map<nat, int>) returns (ok: bool)
      requires Consistent() && assign.Keys <= tracks.Keys
      modifies this`tracks
      ensures Consistent()
      ensures tracks == if ok then Assigned(old(tracks), assign) else old(tracks)
      ensures SafeInAnyOrder(old(tracks), assign) ==> ok
    {
      hide Unique, Restrict, Assigned;
      var before := tracks;
      var todo, visited := assign.Keys, {};
      RestrictEnds(before, assign);
      while todo != {}
        invariant todo !! visited && todo + visited == assign.Keys
        invariant tracks == Assigned(before, Restrict(assign, visited))
        invariant Consistent()
        decreases |todo|
      {
        var r :| r in todo;
        VisitRow(before, assign, visited, r);
        ClashBreaksUnique(tracks, r, assign[r]);
        if Clash(tracks, r, assign[r]) {
          assert visited + {r} <= assign.Keys;
          tracks := before;
          return false;
        }
        tracks := tracks[r := tracks[r].(pos := assign[r])];
        todo, visited := todo - {r}, visited + {r};
      }
      assert visited == assign.Keys;
      ok := true;
    }

    method Execute(pid: string, stmt: Stmt) returns (ok: bool)
      requires Consistent()
      modifies this`tracks
      ensures Consistent()
      ensures tracks == if ok then Executed(old(tracks), pid, stmt) else old(tracks)
      ensures SafeInAnyOrder(old(tracks), StmtAssign(old(tracks), pid, stmt)) ==> ok
    {
      ok := Update(StmtAssign(tracks, pid, stmt));
    }

    /** The k-th of Reorder's statements, on a playlist that had `n` tracks. */
    method RunStatement(pid: string, k: nat, pos: int, newPos: int, ghost t: Table, ghost n: nat) returns (ok: bool)
      requires Consistent() && k < 4 && pos != newPos
      requires Unique(t) && PositionsWithin(t, pid, n) && AtStage(t, tracks, pid, k, pos, newPos)
      modifies this`tracks
      ensures Consistent() && SameElsewhere(t, tracks, pid)
      ensures tracks == if ok then Executed(old(tracks), pid, Statement(k, pos, newPos)) else old(tracks)
      ensures k == 0 || !Clashes(n, pos, newPos) ==> ok
      ensures AtStage(t, tracks, pid, if ok then k + 1 else k, pos, newPos)
    {
      hide Unique, AtStage, Executed, SameElsewhere, PositionsWithin, Clashes, SafeInAnyOrder;
      ExecutedNextStage(t, tracks, pid, k, pos, newPos);
      if k == 0 {
        FirstStatementIsSafe(tracks, pid, n, t, pos, newPos);
      } else if !Clashes(n, pos, newPos) {
        StatementIsSafe(t, tracks, pid, n, k, pos, newPos);
      }
      ok := Execute(pid, Statement(k, pos, newPos));
      StageElsewhere(t, tracks, pid, if ok then k + 1 else k, pos, newPos);
    }

    /**
      Moves a track.  For any arguments, the call completes exactly when no two rows meet, has then
      repositioned every track as the four statements say, and leaves positions 1..n exactly when
      KeepsNumbering holds.  Between existing positions the playlist is then the moved list, and a call
      that does not complete leaves the moved track parked at the sentinel.
     */
    method Reorder(pid: string, pos: int, newPos: int) returns (ok: bool)
      requires Valid()
      modifies this`tracks, this`lists
      ensures Consistent() && SameElsewhere(old(tracks), tracks, pid)
      ensures ok <==> pos == newPos || !Clashes(|ListOf(old(lists), pid)|, pos, newPos)
      ensures ok ==> Repositioned(old(tracks), pid, pos, newPos, tracks)
      ensures ok ==> ((exists rows :: Numbered(tracks, pid, rows)) <==> KeepsNumbering(|ListOf(old(lists), pid)|, pos, newPos))
      ensures var s := ListOf(old(lists), pid);
              1 <= pos <= |s| && 1 <= newPos <= |s| ==>
                && (ok <==> !HitsSentinel(pos, newPos))
                && (ok ==> Valid() && lists == old(lists)[pid := Move(s, pos - 1, newPos - 1)])
                && (!ok ==> lists == old(lists) && tracks == Executed(old(tracks), pid, ToSentinel(pos)))
    {
      hide Unique, Lists, AllListed, Ordered, Numbered, AtStage, Executed, Repositioned, SameElsewhere, PositionsWithin,
        Move, Clashes, KeepsNumbering, HitsSentinel;
      ghost var t := tracks;
      ghost var rows := RowsOf(t, lists, pid);
      ghost var n := |rows|;
      ghost var inRange := 1 <= pos <= n && 1 <= newPos <= n;
      StageZero(t, pid, pos, newPos);
      StageElsewhere(t, t, pid, 0, pos, newPos);
      ClashInRange(n, pos, newPos);
      if pos != newPos {
        ok := RunStatement(pid, 0, pos, newPos, t, n);
        ok := RunStatement(pid, 1, pos, newPos, t, n);
        if inRange && HitsSentinel(pos, newPos) && ok { SentinelClash(t, pid, rows, tracks, pos, newPos); }
        if !ok { return; }
        ok := RunStatement(pid, 2, pos, newPos, t, n);
        if !ok { return; }
        ok := RunStatement(pid, 3, pos, newPos, t, n);
        if !ok { return; }
        StagesAreRepositioned(t, tracks, pid, pos, newPos);
        if Clashes(n, pos, newPos) { ClashIsNotUnique(t, pid, rows, tracks, pos, newPos); }
      }
      FinishReorder(t, tracks, pid, rows, pos, newPos);
      if inRange {
        RepositionedIsMove(t, tracks, pid, rows, pos, newPos);
        SetList(pid, Move(rows, pos - 1, newPos - 1), t);
      }
      ok := true;
    }

    /** Records that `pid` now holds the media of `rows`. */
    ghost method SetList(pid: string, rows: seq<nat>, t: Table)
      requires Consistent() && AllListed(t, lists) && Numbered(tracks, pid, rows) && SameElsewhere(t, tracks, pid)
      modifies this`lists
      ensures Valid() && lists == old(lists)[pid := Media(tracks, rows)]
    {
      ListedAfter(t, tracks, lists, pid, rows);
      lists := lists[pid := Media(tracks, rows)];
    }

    /** Numbers the surviving rows of a playlist 1..n in their current order. */
    method Renumber(pid: string, ghost rows: seq<nat>)
      requires Consistent() && Ordered(tracks, pid, rows) && Positive(tracks, rows)
      modifies this`tracks
      ensures Consistent() && tracks.Keys == old(tracks.Keys) && SameElsewhere(old(tracks), tracks, pid)
      ensures Numbered(tracks, pid, rows) && Media(tracks, rows) == Media(old(tracks), rows)
    {
      RenumberSteps(tracks, pid, rows);
      var ok := Execute(pid, Negate);
      ok := Update(RenumberAssign(tracks, pid));
    }

    /** After rows of the playlist were deleted from `t`: numbers the ones left and records them. */
    method CloseGaps(pid: string, ghost rows: seq<nat>, ghost t: Table)
      requires Consistent() && AllListed(t, lists) && SameElsewhere(t, tracks, pid)
      requires Ordered(tracks, pid, rows) && Positive(tracks, rows)
      modifies this
      ensures Valid() && lists == old(lists)[pid := Media(old(tracks), rows)]
    {
      hide Ordered, Positive, SameElsewhere, AllListed, Unique, Lists;
      ghost var u := tracks;
      Renumber(pid, rows);
      SameElsewhereTrans(t, u, tracks, pid);
      SetList(pid, rows, t);
    }

    /** max(id) over the playlist, 0 when it is empty. */
    method MaxPos(pid: string) returns (m: int)
      requires Valid()
      ensures m == |ListOf(lists, pid)|
    {
      hide Unique;
      hide Lists;
      hide AllListed;
      ghost var rows := RowsOf(tracks, lists, pid);
      NumberedIsUniqueMax(tracks, pid, rows);
      m := 0;
      var todo := tracks.Keys;
      while todo != {}
        invariant todo <= tracks.Keys && 0 <= m <= |rows|
        invariant forall r :: r in tracks && r !in todo && tracks[r].playlist == pid ==> tracks[r].pos <= m
        decreases |todo|
      {
        var r :| r in todo;
        if tracks[r].playlist == pid && tracks[r].pos > m { m := tracks[r].pos; }
        todo := todo - {r};
      }
      if rows != [] { assert tracks[rows[|rows| - 1]].pos == |rows|; }
    }

    /** One multi-row INSERT. */
    method InsertRows(pid: string, pos: int, media: seq<string>)
      requires Valid() && pos == |ListOf(lists, pid)| + 1
      modifies this
      ensures Valid() && lists == old(lists)[pid := ListOf(old(lists), pid) + media]
    {
      hide Unique, Lists, AllListed, Numbered, Ordered, NewRowIds, SameElsewhere;
      ghost var t := tracks;
      ghost var rows := RowsOf(t, lists, pid);
      InsertBlock(t, pid, rows, nextRow, media);
      BlockMedia(t, pid, rows, nextRow, media);
      ghost var rows2 := rows + NewRowIds(nextRow, |media|);
      tracks := tracks + NewRows(pid, nextRow, pos, media);
      nextRow := nextRow + |media|;
      SetList(pid, rows2, t);
    }

    /** Inserts tracks after the existing ones, 200 rows to a statement. */
    method AddTracks(pid: string, startingPos: int, media: seq<string>)
      requires Valid() && startingPos == |ListOf(lists, pid)| + 1
      modifies this
      ensures Valid() && SameLists(lists, old(lists)[pid := ListOf(old(lists), pid) + media])
    {
      hide Unique, Lists, AllListed;
      ghost var s := ListOf(lists, pid);
      var pos, next := startingPos, 0;
      assert s + media[..0] == s;
      SetToItself(lists, pid);
      while next < |media|
        invariant 0 <= next <= |media| && pos == |s| + next + 1
        invariant Valid() && SameLists(lists, old(lists)[pid := s + media[..next]])
      {
        var end := if |media| - next < 200 then |media| else next + 200;
        ghost var was := lists;
        assert ListOf(was, pid) == s + media[..next];
        assert s + media[..end] == s + media[..next] + media[next..end];
        InsertRows(pid, pos, media[next..end]);
        SetAgain(was, old(lists), pid, s + media[..next], s + media[..end]);
        pos, next := pos + (end - next), end;
      }
      assert media[..|media|] == media;
    }

    method Add(pid: string, media: seq<string>)
      requires Valid()
      modifies this
      ensures Valid() && SameLists(lists, old(lists)[pid := ListOf(old(lists), pid) + media])
      ensures media == [] ==> tracks == old(tracks)
    {
      assert media == [] ==> ListOf(lists, pid) + media == ListOf(lists, pid);
      if media == [] { return; }
      var m := MaxPos(pid);
      AddTracks(pid, m + 1, media);
    }

    method Delete(pid: string, ids: set<int>)
      requires Valid()
      modifies this
      ensures Valid() && lists == old(lists)[pid := WithoutPositions(ListOf(old(lists), pid), ids)]
    {
      hide Unique;
      hide SameElsewhere;
      hide KeepRows;
      hide Lists;
      hide AllListed;
      ghost var t := tracks;
      ghost var rows := RowsOf(t, lists, pid);
      tracks := map r | r in tracks && !(tracks[r].playlist == pid && tracks[r].pos in ids) :: tracks[r];
      DeletedElsewhere(t, pid, tracks);
      DeletedIsOrdered(t, pid, rows, tracks);
      MediaWithoutPositions(t, rows, tracks, ids);
      hide Ordered, Positive;
      CloseGaps(pid, KeepRows(rows, tracks), t);
    }

    method DeleteAll(pid: string)
      requires Valid()
      modifies this
      ensures Valid() && lists == old(lists)[pid := []]
    {
      ghost var t := tracks;
      tracks := map r | r in tracks && tracks[r].playlist != pid :: tracks[r];
      Renumber(pid, []);
      SetList(pid, [], t);
    }

    /** Replaces the content: delete everything, then insert from position 1. */
    method UpdatePlaylist(pid: string, media: seq<string>)
      requires Valid()
      modifies this
      ensures Valid() && SameLists(lists, old(lists)[pid := media])
    {
      ghost var t := tracks;
      tracks := map r | r in tracks && tracks[r].playlist != pid :: tracks[r];
      assert Numbered(tracks, pid, []);
      SetList(pid, [], t);
      AddTracks(pid, 1, media);
      assert [] + media == media;
    }

    /** Drops one playlist's tracks whose media file is gone. */
    method RemoveOrphansFrom(pid: string, known: set<string>)
      requires Valid()
      modifies this
      ensures Valid() && lists == old(lists)[pid := OnlyKnown(ListOf(old(lists), pid), known)]
    {
      hide Unique;
      hide SameElsewhere;
      hide KeepRows;
      hide Lists;
      hide AllListed;
      ghost var t := tracks;
      ghost var rows := RowsOf(t, lists, pid);
      tracks := map r | r in tracks && !(tracks[r].playlist == pid && tracks[r].media !in known) :: tracks[r];
      DeletedElsewhere(t, pid, tracks);
      DeletedIsOrdered(t, pid, rows, tracks);
      MediaOnlyKnown(t, rows, tracks, known);
      hide Ordered, Positive;
      CloseGaps(pid, KeepRows(rows, tracks), t);
    }

    /** Cleans every playlist that holds an orphan. */
    method RemoveOrphans(known: set<string>)
      requires Valid()
      modifies this
      ensures Valid()
      ensures forall pid :: ListOf(lists, pid) == OnlyKnown(ListOf(old(lists), pid), known)
    {
      hide Unique;
      hide Lists;
      hide AllListed;
      var affected := set r | r in tracks && tracks[r].media !in known :: tracks[r].playlist;
      var todo := affected;
      forall pid | pid !in affected ensures OnlyKnown(ListOf(lists, pid), known) == ListOf(lists, pid) {
        ghost var rows := RowsOf(tracks, lists, pid);
        OnlyKnownOfKnown(ListOf(lists, pid), known);
      }
      while todo != {}
        invariant Valid()
        invariant forall pid :: ListOf(lists, pid) ==
                    if pid in todo then ListOf(old(lists), pid) else OnlyKnown(ListOf(old(lists), pid), known)
        decreases |todo|
      {
        var pid :| pid in todo;
        RemoveOrphansFrom(pid, known);
        todo := todo - {pid};
      }
    }

    /** Performs one legal operation. */
    method Perform(op: Op)
      requires Valid() && Legal(lists, op)
      modifies this
      ensures Valid() && SameLists(lists, Apply(old(lists), op))
    {
      hide Unique, Lists, AllListed, Repositioned, SameElsewhere, Clashes, KeepsNumbering, Numbered, Ordered, HitsSentinel, Move,
        Executed, WithoutPositions;
      match op
      case Add(pid, media) => Add(pid, media);
      case Delete(pid, ids) => Delete(pid, ids);
      case DeleteAll(pid) => DeleteAll(pid);
      case Replace(pid, media) => UpdatePlaylist(pid, media);
      case Reorder(pid, pos, newPos) => var _ := Reorder(pid, pos, newPos);
      case RemoveOrphans(known) => RemoveOrphans(known);
    }

    /** Any run of legal operations refines the same run on plain lists. */
    method Run(ops: seq<Op>)
      requires Valid() && LegalRun(lists, ops)
      modifies this
      ensures Valid() && SameLists(lists, ApplyAll(old(lists), ops))
    {
      hide Unique;
      hide Lists;
      hide AllListed;
      ghost var start := lists;
      ghost var plain := lists;
      for i := 0 to |ops|
        invariant Valid() && SameLists(lists, plain) && LegalRun(plain, ops[i..])
        invariant ApplyAll(plain, ops[i..]) == ApplyAll(start, ops)
      {
        assert ops[i..][0] == ops[i] && ops[i..][1..] == ops[i + 1..];
        ApplySame(lists, plain, ops[i]);
        ghost var next := Apply(plain, ops[i]);
        Perform(ops[i]);
        plain := next;
      }
    }
  }
}
