/**
  Moved tracks: rows whose file disappeared are paired with new rows of the same persistent id, and
  each pair is folded into one row that keeps the old id at the new place.
 */
module MovedTracks {
  import opened Prelude

  type Id = string

  /** `content` stands for every column that a move copies without looking at it. */
  datatype Track = Track(
    id: Id, pid: string, lib: int, path: string, missing: bool, createdAt: int, birthTime: int, content: string)

  type Rows = map<Id, Track>

  type Place = (int, string)

  function PlaceOf(t: Track): Place { (t.lib, t.path) }

  /** Rows are keyed by their own non-empty id. */
  ghost predicate Keyed(rows: Rows) { "" !in rows && forall k :: k in rows ==> rows[k].id == k }

  /** The files on disk the table knows about. */
  function OnDisk(rows: Rows): set<Place> {
    set k | k in rows && !rows[k].missing :: PlaceOf(rows[k])
  }

  /** No two rows stand for the same file on disk. */
  ghost predicate UniqueOnDisk(rows: Rows) {
    forall a, b :: a in rows && b in rows && a != b && !rows[a].missing && !rows[b].missing ==>
                     PlaceOf(rows[a]) != PlaceOf(rows[b])
  }

  /** An update leaves the creation and birth times of the row alone. */
  function Overwritten(row: Track, t: Track): Track {
    t.(id := row.id, createdAt := row.createdAt, birthTime := row.birthTime)
  }

  function PutRow(rows: Rows, t: Track): Rows {
    rows[t.id := if t.id in rows then Overwritten(rows[t.id], t) else t]
  }

  function MoveRow(rows: Rows, target: Track, missing: Track): Rows {
    PutRow(rows, target.(createdAt := missing.createdAt, id := missing.id)) - {target.id}
  }

  /** A missing row's id and the id of the row it is found at. */
  type Pair = (Id, Id)

  /** Missing rows paired with present rows of the same persistent id. */
  ghost predicate Listed(rows: Rows, ps: seq<Pair>) {
    forall i :: 0 <= i < |ps| ==> ps[i].0 in rows && ps[i].1 in rows && Pairs(rows[ps[i].0], rows[ps[i].1])
  }

  predicate Pairs(m: Track, t: Track) { m.missing && !t.missing && m.pid == t.pid }

  ghost predicate OneToOne(ps: seq<Pair>) {
    forall i, j :: 0 <= i < j < |ps| ==> ps[i].0 != ps[j].0 && ps[i].1 != ps[j].1
  }

  ghost predicate Matching(rows: Rows, ps: seq<Pair>) { Listed(rows, ps) && OneToOne(ps) }

  /** The table after moving the pairs in turn, each from the rows as first loaded. */
  ghost function Moved(rows: Rows, ps: seq<Pair>): Rows
    requires Listed(rows, ps)
  {
    if ps == [] then rows
    else
      var (m, t) := ps[|ps| - 1];
      MoveRow(Moved(rows, ps[..|ps| - 1]), rows[t], rows[m])
  }

  function Sources(ps: seq<Pair>): set<Id> { set i | 0 <= i < |ps| :: ps[i].0 }

  function Targets(ps: seq<Pair>): set<Id> { set i | 0 <= i < |ps| :: ps[i].1 }

  lemma AppendPair(ps: seq<Pair>, p: Pair)
    ensures Sources(ps + [p]) == Sources(ps) + {p.0} && Targets(ps + [p]) == Targets(ps) + {p.1}
    ensures (ps + [p])[..|ps|] == ps && (ps + [p])[|ps|] == p
    ensures forall i :: 0 <= i < |ps| ==> (ps + [p])[i] == ps[i]
  {
    var qs := ps + [p];
    assert qs[|ps|] == p && forall i :: 0 <= i < |ps| ==> qs[i] == ps[i];
  }

  ghost predicate Carried(rows: Rows, p: Pair, now: Rows) {
    p.0 in rows && p.1 in rows && p.0 in now && now[p.0] == Overwritten(rows[p.0], rows[p.1])
  }

  /** `now` holds the moved rows under their old ids, the targets are gone and nothing else changed. */
  ghost predicate MovesTo(rows: Rows, ps: seq<Pair>, now: Rows) {
    && now.Keys == rows.Keys - Targets(ps)
    && (forall i :: 0 <= i < |ps| ==> Carried(rows, ps[i], now))
    && (forall k :: k in now && k !in Sources(ps) ==> k in rows && now[k] == rows[k])
  }

  /** The last pair of a matching has nothing in common with the others. */
  lemma LastPairIsNew(rows: Rows, ps: seq<Pair>, p: Pair)
    requires Matching(rows, ps + [p])
    ensures Matching(rows, ps)
    ensures p.0 in rows && p.1 in rows && Pairs(rows[p.0], rows[p.1])
    ensures p.0 !in Sources(ps) && p.0 !in Targets(ps) && p.1 !in Sources(ps) && p.1 !in Targets(ps) && p.0 != p.1
  {
    var qs := ps + [p];
    assert qs[|ps|] == p && forall i :: 0 <= i < |ps| ==> qs[i] == ps[i];
  }

  lemma MoveRowFields(rows: Rows, target: Track, missing: Track)
    requires missing.id in rows && target.id != missing.id && rows[missing.id] == missing
    ensures var now := MoveRow(rows, target, missing);
            && now.Keys == rows.Keys - {target.id}
            && now[missing.id] == Overwritten(missing, target)
            && (forall k :: k in now && k != missing.id ==> now[k] == rows[k])
  {
  }

  lemma MovesStep(rows: Rows, ps: seq<Pair>, p: Pair, was: Rows)
    requires Keyed(rows) && Matching(rows, ps + [p]) && Matching(rows, ps) && MovesTo(rows, ps, was)
    requires p.0 in rows && p.1 in rows
    ensures MovesTo(rows, ps + [p], MoveRow(was, rows[p.1], rows[p.0]))
  {
    hide Matching, MoveRow, Sources, Targets, Carried;
    var now := MoveRow(was, rows[p.1], rows[p.0]);
    LastPairIsNew(rows, ps, p);
    AppendPair(ps, p);
    MoveRowFields(was, rows[p.1], rows[p.0]);
    CarriedOn(rows, ps, p, was);
    assert now.Keys == rows.Keys - Targets(ps + [p]);
  }

  lemma CarriedOn(rows: Rows, ps: seq<Pair>, p: Pair, was: Rows)
    requires Keyed(rows) && forall i :: 0 <= i < |ps| ==> Carried(rows, ps[i], was)
    requires p.0 in rows && p.1 in rows && p.0 in was && was[p.0] == rows[p.0] && p.0 != p.1
    requires p.0 !in Sources(ps) && p.1 !in Sources(ps)
    ensures var now := MoveRow(was, rows[p.1], rows[p.0]);
            forall i :: 0 <= i < |ps + [p]| ==> Carried(rows, (ps + [p])[i], now)
  {
    var qs := ps + [p];
    forall i | 0 <= i < |qs| ensures Carried(rows, qs[i], MoveRow(was, rows[p.1], rows[p.0])) {
      if i < |ps| {
        assert qs[i] == ps[i] && ps[i].0 in Sources(ps) && Carried(rows, ps[i], was);
      }
    }
  }

  /** Every row of the table after the moves. */
  lemma {:induction false} MovedRows(rows: Rows, ps: seq<Pair>)
    requires Keyed(rows) && Matching(rows, ps)
    ensures MovesTo(rows, ps, Moved(rows, ps)) && Keyed(Moved(rows, ps))
  {
    if ps != [] {
      var n := |ps| - 1;
      assert ps[..n] + [ps[n]] == ps;
      LastPairIsNew(rows, ps[..n], ps[n]);
      MovedRows(rows, ps[..n]);
      MovesStep(rows, ps[..n], ps[n], Moved(rows, ps[..n]));
      KeyedStep(Moved(rows, ps[..n]), rows[ps[n].1], rows[ps[n].0]);
    }
  }

  lemma KeyedStep(rows: Rows, target: Track, missing: Track)
    requires Keyed(rows) && missing.id != ""
    ensures Keyed(MoveRow(rows, target, missing))
  {
  }

  lemma {:induction false} TargetsCounted(ps: seq<Pair>)
    requires forall i, j :: 0 <= i < j < |ps| ==> ps[i].1 != ps[j].1
    ensures |Targets(ps)| == |ps|
  {
    if ps != [] {
      var n := |ps| - 1;
      TargetsCounted(ps[..n]);
      assert Targets(ps) == Targets(ps[..n]) + {ps[n].1} by {
        assert forall i :: 0 <= i < n ==> ps[..n][i] == ps[i];
      }
    }
  }

  /** Each move removes one row. */
  lemma RowsDropByMoves(rows: Rows, ps: seq<Pair>)
    requires Keyed(rows) && Matching(rows, ps)
    ensures |Moved(rows, ps)| == |rows| - |ps|
  {
    MovedRows(rows, ps);
    TargetsCounted(ps);
    assert Targets(ps) <= rows.Keys;
    assert |Moved(rows, ps)| == |Moved(rows, ps).Keys| == |rows.Keys| - |Targets(ps)|;
  }

  /** The row that stands, after the moves, for the file of a present row. */
  lemma Heir(rows: Rows, ps: seq<Pair>, k: Id) returns (h: Id)
    requires Keyed(rows) && Matching(rows, ps) && k in rows && !rows[k].missing
    ensures h in Moved(rows, ps) && !Moved(rows, ps)[h].missing && PlaceOf(Moved(rows, ps)[h]) == PlaceOf(rows[k])
  {
    MovedRows(rows, ps);
    h := k;
    if k in Targets(ps) {
      var i :| 0 <= i < |ps| && ps[i].1 == k;
      h := ps[i].0;
    } else {
      assert k !in Sources(ps);
    }
  }

  /** `k` is the row whose file the row `h` stands for after the moves. */
  ghost predicate Inherits(ps: seq<Pair>, k: Id, h: Id) { (h, k) in ps || (h == k && h !in Sources(ps)) }

  lemma InheritsOne(rows: Rows, ps: seq<Pair>, k: Id, a: Id, b: Id)
    requires Matching(rows, ps) && Inherits(ps, k, a) && Inherits(ps, k, b)
    requires a in rows && b in rows && a !in Targets(ps) && b !in Targets(ps)
    ensures a == b
  {
    if (a, k) in ps && (b, k) in ps {
      var i :| 0 <= i < |ps| && ps[i] == (a, k);
      var j :| 0 <= j < |ps| && ps[j] == (b, k);
      assert i == j;
    }
  }

  /** A present row after the moves stands for the file of a present row before. */
  lemma Ancestor(rows: Rows, ps: seq<Pair>, h: Id) returns (k: Id)
    requires Keyed(rows) && Matching(rows, ps) && h in Moved(rows, ps) && !Moved(rows, ps)[h].missing
    ensures k in rows && !rows[k].missing && PlaceOf(rows[k]) == PlaceOf(Moved(rows, ps)[h])
    ensures Inherits(ps, k, h) && h in rows && h !in Targets(ps)
  {
    MovedRows(rows, ps);
    if h in Sources(ps) {
      var i :| 0 <= i < |ps| && ps[i].0 == h;
      k := ps[i].1;
      assert ps[i] == (h, k);
    } else {
      k := h;
    }
  }

  /** The files on disk, as the table knows them, are neither lost nor invented. */
  lemma DiskUnchanged(rows: Rows, ps: seq<Pair>)
    requires Keyed(rows) && Matching(rows, ps)
    ensures OnDisk(Moved(rows, ps)) == OnDisk(rows)
  {
    hide Moved, Listed, OneToOne, Keyed;
    var now := Moved(rows, ps);
    forall p | p in OnDisk(rows) ensures p in OnDisk(now) {
      var k :| k in rows && !rows[k].missing && PlaceOf(rows[k]) == p;
      var h := Heir(rows, ps, k);
    }
    forall p | p in OnDisk(now) ensures p in OnDisk(rows) {
      var h :| h in now && !now[h].missing && PlaceOf(now[h]) == p;
      var k := Ancestor(rows, ps, h);
    }
  }

  /** Nor is any of them doubled. */
  lemma StillUniqueOnDisk(rows: Rows, ps: seq<Pair>)
    requires Keyed(rows) && Matching(rows, ps) && UniqueOnDisk(rows)
    ensures UniqueOnDisk(Moved(rows, ps))
  {
    hide Moved, Listed, OneToOne, Keyed, Inherits;
    var now := Moved(rows, ps);
    forall a, b | a in now && b in now && a != b && !now[a].missing && !now[b].missing
      ensures PlaceOf(now[a]) != PlaceOf(now[b])
    {
      var j := Ancestor(rows, ps, a);
      var k := Ancestor(rows, ps, b);
      if j == k { InheritsOne(rows, ps, k, a, b); }
    }
  }

  /** Every missing track keeps its id, and what it was created with. */
  lemma MissingIdsSurvive(rows: Rows, ps: seq<Pair>, k: Id)
    requires Keyed(rows) && Matching(rows, ps) && k in rows && rows[k].missing
    ensures k in Moved(rows, ps)
    ensures Moved(rows, ps)[k].createdAt == rows[k].createdAt && Moved(rows, ps)[k].birthTime == rows[k].birthTime
    ensures Moved(rows, ps)[k].missing <==> k !in Sources(ps)
    ensures forall i :: 0 <= i < |ps| && ps[i].0 == k ==>
              var (now, found) := (Moved(rows, ps)[k], rows[ps[i].1]);
              PlaceOf(now) == PlaceOf(found) && now.content == found.content && now.pid == rows[k].pid
    ensures k !in Sources(ps) ==> Moved(rows, ps)[k] == rows[k]
  {
    MovedRows(rows, ps);
    if k in Sources(ps) {
      var i :| 0 <= i < |ps| && ps[i].0 == k;
    }
  }

  // ----- choosing the pairs ---------------------------------------------------------------

  /** Same tags and audio; same base name.  Hashing and path handling are not modelled. */
  datatype Matcher = Matcher(equals: (Track, Track) -> bool, equivalent: (Track, Track) -> bool)

  predicate Exact(M: Matcher, ms: Track, mt: Track, used: set<Id>) { mt.id !in used && M.equals(ms, mt) }

  predicate Equivalent(M: Matcher, ms: Track, mt: Track, used: set<Id>) { mt.id !in used && M.equivalent(ms, mt) }

  /** `c` is the choice for `ms`: the first exact match, else the only candidate, else the last equivalent. */
  ghost predicate IsChoice(M: Matcher, ms: Track, alone: bool, matched: seq<Track>, used: set<Id>, c: Option<nat>) {
    && (c.Some? ==> c.value < |matched| && matched[c.value].id !in used)
    && (c.Some? && Exact(M, ms, matched[c.value], used) ==>
          forall j :: 0 <= j < c.value ==> !Exact(M, ms, matched[j], used))
    && ((c.Some? ==> !Exact(M, ms, matched[c.value], used)) ==>
          && (forall j :: 0 <= j < |matched| ==> !Exact(M, ms, matched[j], used))
          && (c.None? ==> !alone && forall j :: 0 <= j < |matched| ==> !Equivalent(M, ms, matched[j], used))
          && (c.Some? && !alone ==>
                && Equivalent(M, ms, matched[c.value], used)
                && forall j :: c.value < j < |matched| ==> !Equivalent(M, ms, matched[j], used)))
  }

  predicate Alone(missing: seq<Track>, matched: seq<Track>) { |missing| == 1 && |matched| == 1 }

  /** The pairs are those chosen for the first `n` missing tracks in turn, used rows being out of reach. */
  ghost predicate Chosen(M: Matcher, missing: seq<Track>, n: nat, matched: seq<Track>, ps: seq<Pair>) {
    n <= |missing| &&
    if n == 0 then ps == []
    else
      var i := n - 1;
      exists c, front :: Chosen(M, missing, i, matched, front) && ChosenNext(M, missing, i, matched, front, c, ps)
  }

  ghost predicate ChosenNext(M: Matcher, missing: seq<Track>, i: nat, matched: seq<Track>, ps: seq<Pair>, c: Option<nat>,
                             qs: seq<Pair>) {
    && i < |missing| && IsChoice(M, missing[i], Alone(missing, matched), matched, Targets(ps), c)
    && qs == if c.None? then ps else ps + [(missing[i].id, matched[c.value].id)]
  }

  lemma NothingChosenYet(M: Matcher, missing: seq<Track>, n: nat, matched: seq<Track>, ps: seq<Pair>)
    requires Chosen(M, missing, n, matched, ps)
    ensures n == 0 ==> Targets(ps) == {}
  {
  }

  lemma ChosenStep(M: Matcher, missing: seq<Track>, n: nat, matched: seq<Track>, ps: seq<Pair>, c: Option<nat>)
    requires Chosen(M, missing, n, matched, ps) && n < |missing|
    requires IsChoice(M, missing[n], Alone(missing, matched), matched, Targets(ps), c)
    ensures Chosen(M, missing, n + 1, matched, if c.None? then ps else ps + [(missing[n].id, matched[c.value].id)])
  {
    assert ChosenNext(M, missing, n, matched, ps, c, if c.None? then ps else ps + [(missing[n].id, matched[c.value].id)]);
  }

  /** The only candidate for the only missing track is taken, alike or not. */
  lemma SoleCandidateIsTaken(M: Matcher, missing: seq<Track>, matched: seq<Track>, ps: seq<Pair>)
    requires |missing| == 1 && |matched| == 1 && Chosen(M, missing, 1, matched, ps)
    ensures ps == [(missing[0].id, matched[0].id)]
  {
    var c, front :| Chosen(M, missing, 0, matched, front) && ChosenNext(M, missing, 0, matched, front, c, ps);
    assert front == [];
  }

  /** Any other pair is of tracks that are equal or equivalent. */
  lemma {:induction false} PairsAreAlike(M: Matcher, missing: seq<Track>, n: nat, matched: seq<Track>, ps: seq<Pair>, k: nat)
      returns (i: nat, j: nat)
    requires (|missing| != 1 || |matched| != 1) && Chosen(M, missing, n, matched, ps) && k < |ps|
    ensures i < n && j < |matched| && ps[k] == (missing[i].id, matched[j].id)
    ensures M.equals(missing[i], matched[j]) || M.equivalent(missing[i], matched[j])
  {
    hide Chosen, IsChoice, Exact, Equivalent, Targets;
    var c, front := LastChoice(M, missing, n, matched, ps);
    if k < |front| {
      i, j := PairsAreAlike(M, missing, n - 1, matched, front, k);
    } else {
      ChoiceIsAlike(M, missing[n - 1], matched, Targets(front), c);
      i, j := n - 1, c.value;
    }
  }

  lemma LastChoice(M: Matcher, missing: seq<Track>, n: nat, matched: seq<Track>, ps: seq<Pair>)
      returns (c: Option<nat>, front: seq<Pair>)
    requires Chosen(M, missing, n, matched, ps) && ps != []
    ensures 0 < n <= |missing| && Chosen(M, missing, n - 1, matched, front)
    ensures ChosenNext(M, missing, n - 1, matched, front, c, ps)
  {
    hide ChosenNext;
    c, front :| Chosen(M, missing, n - 1, matched, front) && ChosenNext(M, missing, n - 1, matched, front, c, ps);
  }

  lemma ChoiceIsAlike(M: Matcher, ms: Track, matched: seq<Track>, used: set<Id>, c: Option<nat>)
    requires IsChoice(M, ms, false, matched, used, c) && c.Some?
    ensures c.value < |matched| && (M.equals(ms, matched[c.value]) || M.equivalent(ms, matched[c.value]))
  {
  }

  /** What the moves of one group amount to, whatever order of choices led there. */
  ghost predicate Settled(M: Matcher, missing: seq<Track>, matched: seq<Track>, ps: seq<Pair>) {
    forall i, j :: 0 <= i < |missing| && 0 <= j < |matched| && missing[i].id !in Sources(ps) ==>
                     !Exact(M, missing[i], matched[j], Targets(ps)) && !Equivalent(M, missing[i], matched[j], Targets(ps))
  }

  ghost predicate Snapshot(rows: Rows, ts: seq<Track>, missing: bool, pid: string) {
    && (forall i :: 0 <= i < |ts| ==> ts[i].id in rows && rows[ts[i].id] == ts[i])
    && (forall i :: 0 <= i < |ts| ==> ts[i].missing == missing && ts[i].pid == pid)
    && (forall i, j :: 0 <= i < j < |ts| ==> ts[i].id != ts[j].id)
  }

  function IdsOf(ts: seq<Track>): set<Id> { set i | 0 <= i < |ts| :: ts[i].id }

  /** The search over the matched rows: first unused exact match, else last unused equivalent. */
  method Search(M: Matcher, ms: Track, matched: seq<Track>, used: set<Id>) returns (exact: Option<nat>, equivalent: Option<nat>)
    ensures exact.Some? ==> exact.value < |matched| && Exact(M, ms, matched[exact.value], used)
    ensures exact.Some? ==> forall j :: 0 <= j < exact.value ==> !Exact(M, ms, matched[j], used)
    ensures exact.None? ==> forall j :: 0 <= j < |matched| ==> !Exact(M, ms, matched[j], used)
    ensures equivalent.Some? ==> equivalent.value < |matched| && Equivalent(M, ms, matched[equivalent.value], used)
    ensures exact.None? ==> forall j :: 0 <= j < |matched| && Equivalent(M, ms, matched[j], used) ==>
                                          equivalent.Some? && j <= equivalent.value
  {
    exact, equivalent := None, None;
    for i := 0 to |matched|
      invariant exact.None? && forall j :: 0 <= j < i ==> !Exact(M, ms, matched[j], used)
      invariant equivalent.Some? ==> equivalent.value < i && Equivalent(M, ms, matched[equivalent.value], used)
      invariant forall j :: 0 <= j < i && Equivalent(M, ms, matched[j], used) ==> equivalent.Some? && j <= equivalent.value
    {
      if matched[i].id !in used {
        if M.equals(ms, matched[i]) {
          exact := Some(i);
          return;
        }
        if M.equivalent(ms, matched[i]) { equivalent := Some(i); }
      }
    }
  }

  method Choose(M: Matcher, ms: Track, alone: bool, matched: seq<Track>, used: set<Id>) returns (c: Option<nat>)
    requires alone ==> |matched| == 1 && matched[0].id !in used
    ensures IsChoice(M, ms, alone, matched, used, c)
    ensures c.Some? ==> matched[c.value].id !in used
    ensures c.Some? && !alone ==> M.equals(ms, matched[c.value]) || M.equivalent(ms, matched[c.value])
    ensures forall j :: 0 <= j < |matched| && matched[j].id !in used && M.equals(ms, matched[j]) ==>
              c.Some? && c.value <= j && M.equals(ms, matched[c.value])
    ensures forall j :: 0 <= j < |matched| && matched[j].id !in used && M.equivalent(ms, matched[j]) ==>
              c.Some? && (c.value < j ==> M.equals(ms, matched[c.value]))
  {
    var exact, equivalent := Search(M, ms, matched, used);
    if exact.Some? { return exact; }
    if alone { return Some(0); }
    c := equivalent;
  }

  // ----- the table ------------------------------------------------------------------------

  class MediaFiles {
    var rows: Rows

    constructor (rows: Rows)
      ensures this.rows == rows
    {
      this.rows := rows;
    }

    /** Update the row of that id, or insert one. */
    method Put(t: Track)
      modifies this
      ensures rows == PutRow(old(rows), t)
    {
      rows := rows[t.id := if t.id in rows then Overwritten(rows[t.id], t) else t];
    }

    method Delete(id: Id)
      modifies this
      ensures rows == old(rows) - {id}
    {
      rows := rows - {id};
    }

    /** One transaction: both statements, or neither when the database fails. */
    method MoveMatched(target: Track, missing: Track, healthy: bool) returns (ok: bool)
      modifies this
      ensures ok == healthy
      ensures rows == if ok then MoveRow(old(rows), target, missing) else old(rows)
    {
      if !healthy { return false; }
      var discarded := target.id;
      Put(target.(createdAt := missing.createdAt, id := missing.id));
      Delete(discarded);
      ok := true;
    }

    /**
      Matches one group.  However the database fails on the way, what has been done is a one-to-one
      matching of the group's rows; undisturbed, no possible pair is left over.
     */
    method ProcessMissingTracks(M: Matcher, missing: seq<Track>, matched: seq<Track>, ghost pid: string, healthy: nat)
      returns (ok: bool, pairs: seq<Pair>)
      requires Keyed(rows) && Snapshot(rows, missing, true, pid) && Snapshot(rows, matched, false, pid)
      modifies this
      ensures Matching(old(rows), pairs) && rows == Moved(old(rows), pairs)
      ensures Sources(pairs) <= IdsOf(missing) && Targets(pairs) <= IdsOf(matched)
      ensures exists n :: Chosen(M, missing, n, matched, pairs) && (ok ==> n == |missing|)
      ensures ok ==> Settled(M, missing, matched, pairs)
      ensures |pairs| <= healthy && (!ok ==> |pairs| == healthy)
    {
      hide Listed, OneToOne, Moved, Snapshot, Settled, Sources, Targets, IdsOf, IsChoice, Keyed, MoveRow, Chosen;
      var used: set<Id> := {};
      pairs := [];
      NoPairs(rows, M, missing, matched);
      for i := 0 to |missing|
        invariant Progress(M, old(rows), missing, i, matched, pairs)
        invariant rows == Moved(old(rows), pairs) && used == Targets(pairs) && |pairs| <= healthy
        invariant Chosen(M, missing, i, matched, pairs)
      {
        var ms := missing[i];
        var alone := |missing| == 1 && |matched| == 1 && matched[0].id !in used;
        NothingChosenYet(M, missing, i, matched, pairs);
        var c := Choose(M, ms, alone, matched, used);
        ChosenStep(M, missing, i, matched, pairs, c);
        if c.Some? {
          ChoiceIsUnused(M, ms, alone, matched, used, c);
          var mt := matched[c.value];
          var done := MoveMatched(mt, ms, |pairs| < healthy);
          if !done { return false, pairs; }
          used := used + {mt.id};
          AddPair(old(rows), missing, i, matched, pairs, c.value, pid);
          ProgressPair(M, old(rows), missing, i, matched, pairs, c, alone);
          pairs := pairs + [(ms.id, mt.id)];
        } else {
          ProgressNone(M, old(rows), missing, i, matched, pairs, alone);
        }
      }
      assert missing[..|missing|] == missing;
      ok := true;
    }

    /**
      The whole pass over a library's missing and matching rows, read from a stable cursor ordered by
      persistent id.  Wherever the database fails: the moves are a one-to-one matching, no file on
      disk is lost, invented or doubled, no missing track loses its id, and each move removes one row.
     */
    method MatchLibrary(M: Matcher, cursor: seq<Track>, healthy: nat) returns (ok: bool, pairs: seq<Pair>)
      requires Keyed(rows) && IsCursor(rows, cursor) && Contiguous(cursor)
      modifies this
      ensures Matching(old(rows), pairs) && rows == Moved(old(rows), pairs)
      ensures OnDisk(rows) == OnDisk(old(rows)) && (UniqueOnDisk(old(rows)) ==> UniqueOnDisk(rows))
      ensures |rows| == |old(rows)| - |pairs|
      ensures forall k :: k in old(rows) && old(rows)[k].missing ==> k in rows
      ensures ok ==> NoneLeft(M, cursor, pairs)
    {
      hide Listed, OneToOne, Moved, Snapshot, NoneLeftBefore, Settled, Keyed, IsCursor, Contiguous, GroupOf, OnDisk, UniqueOnDisk,
        Sources, Targets, IdsOf;
      ghost var rows0, g := rows, 0;
      var pid, missing, matched := "", [], [];
      pairs := [];
      NoGroups(rows0, M, cursor);
      for i := 0 to |cursor|
        invariant Matching(rows0, pairs) && rows == Moved(rows0, pairs) && |pairs| <= healthy
        invariant GroupOf(rows0, cursor, g, i, pid, missing, matched) && PairsBefore(M, cursor, g, pairs)
        invariant g <= i && (i > 0 ==> g < i)
      {
        if pid != cursor[i].pid {
          if pid != "" && |missing| > 0 {
            GroupIsIntact(rows0, M, cursor, g, i, pid, missing, matched, pairs);
            var done, more := ProcessMissingTracks(M, missing, matched, pid, healthy - |pairs|);
            GroupIsDone(rows0, M, cursor, g, i, pid, missing, matched, pairs, more, done);
            pairs := pairs + more;
            if !done {
              MatchingTheorem(rows0, pairs);
              return false, pairs;
            }
          } else {
            EmptyGroupIsDone(rows0, M, cursor, g, i, pid, missing, matched, pairs);
          }
          NewGroup(rows0, cursor, g, i, pid, missing, matched);
          g := i;
          pid, missing, matched := cursor[i].pid, [], [];
        }
        GroupGrows(rows0, cursor, g, i, pid, missing, matched);
        if cursor[i].missing {
          missing := missing + [cursor[i]];
        } else {
          matched := matched + [cursor[i]];
        }
      }
      ok := true;
      if pid != "" && |missing| > 0 {
        GroupIsIntact(rows0, M, cursor, g, |cursor|, pid, missing, matched, pairs);
        var done, more := ProcessMissingTracks(M, missing, matched, pid, healthy - |pairs|);
        GroupIsDone(rows0, M, cursor, g, |cursor|, pid, missing, matched, pairs, more, done);
        pairs := pairs + more;
        ok := done;
      } else {
        EmptyGroupIsDone(rows0, M, cursor, g, |cursor|, pid, missing, matched, pairs);
      }
      MatchingTheorem(rows0, pairs);
    }
  }

  /** The state of the matching after the first `n` missing tracks. */
  ghost predicate Progress(M: Matcher, rows: Rows, missing: seq<Track>, n: nat, matched: seq<Track>, ps: seq<Pair>) {
    && n <= |missing|
    && Matching(rows, ps)
    && Sources(ps) <= IdsOf(missing[..n]) <= IdsOf(missing)
    && Targets(ps) <= IdsOf(matched)
    && Settled(M, missing[..n], matched, ps)
  }

  lemma NoPairs(rows: Rows, M: Matcher, missing: seq<Track>, matched: seq<Track>)
    ensures Progress(M, rows, missing, 0, matched, []) && Moved(rows, []) == rows && Targets([]) == {}
    ensures Chosen(M, missing, 0, matched, [])
  {
  }

  lemma ChoiceIsUnused(M: Matcher, ms: Track, alone: bool, matched: seq<Track>, used: set<Id>, c: Option<nat>)
    requires IsChoice(M, ms, alone, matched, used, c) && c.Some?
    ensures c.value < |matched| && matched[c.value].id !in used
  {
  }

  lemma ProgressPair(M: Matcher, rows: Rows, missing: seq<Track>, i: nat, matched: seq<Track>, ps: seq<Pair>,
                     c: Option<nat>, alone: bool)
    requires i < |missing| && Progress(M, rows, missing, i, matched, ps)
    requires c.Some? && IsChoice(M, missing[i], alone, matched, Targets(ps), c) && c.value < |matched|
    requires Matching(rows, ps + [(missing[i].id, matched[c.value].id)])
    ensures Progress(M, rows, missing, i + 1, matched, ps + [(missing[i].id, matched[c.value].id)])
  {
    hide Matching, IsChoice, Settled;
    var p := (missing[i].id, matched[c.value].id);
    AppendPair(ps, p);
    SettledStep(M, missing, i, matched, ps, c, ps + [p], alone);
    IdsOfNext(missing, i);
    assert matched[c.value].id in IdsOf(matched);
  }

  lemma ProgressNone(M: Matcher, rows: Rows, missing: seq<Track>, i: nat, matched: seq<Track>, ps: seq<Pair>, alone: bool)
    requires i < |missing| && Progress(M, rows, missing, i, matched, ps)
    requires IsChoice(M, missing[i], alone, matched, Targets(ps), None)
    ensures Progress(M, rows, missing, i + 1, matched, ps)
  {
    hide Matching, IsChoice, Settled;
    SettledStep(M, missing, i, matched, ps, None, ps, alone);
    IdsOfNext(missing, i);
  }

  lemma IdsOfNext(ts: seq<Track>, n: nat)
    requires n < |ts|
    ensures IdsOf(ts[..n + 1]) == IdsOf(ts[..n]) + {ts[n].id} && IdsOf(ts[..n + 1]) <= IdsOf(ts)
  {
    assert ts[..n + 1] == ts[..n] + [ts[n]];
    assert ts[..n + 1][n] == ts[n] && forall i :: 0 <= i < n ==> ts[..n + 1][i] == ts[..n][i];
  }

  /** One more pair keeps a matching. */
  lemma AddPair(rows: Rows, missing: seq<Track>, i: nat, matched: seq<Track>, ps: seq<Pair>, c: nat, pid: string)
    requires Snapshot(rows, missing, true, pid) && Snapshot(rows, matched, false, pid) && i < |missing| && c < |matched|
    requires Matching(rows, ps) && Sources(ps) <= IdsOf(missing[..i]) && matched[c].id !in Targets(ps)
    ensures var qs := ps + [(missing[i].id, matched[c].id)];
            && Matching(rows, qs)
            && Moved(rows, qs) == MoveRow(Moved(rows, ps), matched[c], missing[i])
            && Targets(qs) == Targets(ps) + {matched[c].id}
            && Sources(qs) == Sources(ps) + {missing[i].id}
  {
    var p := (missing[i].id, matched[c].id);
    AppendPair(ps, p);
    assert missing[i].id !in IdsOf(missing[..i]);
    ExtendMatching(rows, ps, p);
  }

  lemma ExtendMatching(rows: Rows, ps: seq<Pair>, p: Pair)
    requires Matching(rows, ps) && p.0 in rows && p.1 in rows && Pairs(rows[p.0], rows[p.1])
    requires p.0 !in Sources(ps) && p.1 !in Targets(ps)
    ensures Matching(rows, ps + [p])
  {
    var qs := ps + [p];
    forall i, j | 0 <= i < j < |qs| ensures qs[i].0 != qs[j].0 && qs[i].1 != qs[j].1 {
      assert qs[i] == ps[i] && ps[i].0 in Sources(ps) && ps[i].1 in Targets(ps);
      if j < |ps| { assert qs[j] == ps[j]; }
    }
  }

  lemma SettledStep(M: Matcher, missing: seq<Track>, i: nat, matched: seq<Track>, ps: seq<Pair>, c: Option<nat>,
                    qs: seq<Pair>, alone: bool)
    requires i < |missing| && Settled(M, missing[..i], matched, ps)
    requires IsChoice(M, missing[i], alone, matched, Targets(ps), c)
    requires if c.Some? then Sources(qs) == Sources(ps) + {missing[i].id} && Targets(qs) == Targets(ps) + {matched[c.value].id}
             else qs == ps
    ensures Settled(M, missing[..i + 1], matched, qs)
  {
    var upto := missing[..i + 1];
    forall k, j | 0 <= k < |upto| && 0 <= j < |matched| && upto[k].id !in Sources(qs)
      ensures !Exact(M, upto[k], matched[j], Targets(qs)) && !Equivalent(M, upto[k], matched[j], Targets(qs))
    {
      if k < i { assert missing[..i][k] == upto[k]; }
    }
  }

  // ----- one pass over a library ------------------------------------------------------------

  /** The cursor's rows are rows of the table, each once. */
  ghost predicate IsCursor(rows: Rows, cursor: seq<Track>) {
    && (forall i :: 0 <= i < |cursor| ==> cursor[i].id in rows && rows[cursor[i].id] == cursor[i])
    && (forall i, j :: 0 <= i < j < |cursor| ==> cursor[i].id != cursor[j].id)
  }

  /** Ordered by persistent id, equal ids are next to each other. */
  ghost predicate Contiguous(cursor: seq<Track>) {
    forall i, j, k :: 0 <= i < j < k < |cursor| && cursor[i].pid == cursor[k].pid ==> cursor[j].pid == cursor[k].pid
  }

  /** No unmatched missing track has an unused exact or equivalent row of its persistent id. */
  ghost predicate NoneLeft(M: Matcher, cursor: seq<Track>, ps: seq<Pair>) { NoneLeftBefore(M, cursor, |cursor|, ps) }

  ghost predicate NoneLeftBefore(M: Matcher, cursor: seq<Track>, g: nat, ps: seq<Pair>) {
    forall i, j :: 0 <= i < |cursor| && 0 <= j < |cursor| && i < g && j < g && Candidates(cursor[i], cursor[j]) &&
                   cursor[i].id !in Sources(ps) ==>
                     !Exact(M, cursor[i], cursor[j], Targets(ps)) && !Equivalent(M, cursor[i], cursor[j], Targets(ps))
  }

  predicate Candidates(m: Track, t: Track) { Pairs(m, t) && m.pid != "" }

  /** The group being collected: the cursor's rows from `g` to `n`. */
  ghost predicate GroupOf(rows: Rows, cursor: seq<Track>, g: nat, n: nat, pid: string, missing: seq<Track>, matched: seq<Track>) {
    && g <= n <= |cursor|
    && Snapshot(rows, missing, true, pid) && Snapshot(rows, matched, false, pid)
    && (forall k :: 0 <= k < g ==> cursor[k].pid != pid)
    && (forall k :: g <= k < n ==> Filed(cursor[k], pid, missing, matched))
    && (forall t :: t in missing || t in matched ==> t in cursor[g..n])
  }

  predicate Filed(t: Track, pid: string, missing: seq<Track>, matched: seq<Track>) {
    t.pid == pid && t in if t.missing then missing else matched
  }

  /** The pairs are among the rows before `g`, and none is left there. */
  ghost predicate PairsBefore(M: Matcher, cursor: seq<Track>, g: nat, ps: seq<Pair>) {
    && g <= |cursor|
    && Sources(ps) + Targets(ps) <= IdsOf(cursor[..g])
    && NoneLeftBefore(M, cursor, g, ps)
  }

  lemma NoGroups(rows: Rows, M: Matcher, cursor: seq<Track>)
    ensures GroupOf(rows, cursor, 0, 0, "", [], []) && PairsBefore(M, cursor, 0, [])
    ensures Matching(rows, []) && Moved(rows, []) == rows
  {
  }

  lemma NewGroup(rows: Rows, cursor: seq<Track>, g: nat, n: nat, pid: string, missing: seq<Track>, matched: seq<Track>)
    requires Contiguous(cursor) && n < |cursor| && GroupOf(rows, cursor, g, n, pid, missing, matched)
    requires cursor[n].pid != pid && (n > 0 ==> g < n)
    ensures GroupOf(rows, cursor, n, n, cursor[n].pid, [], [])
  {
    if n > 0 { assert cursor[n - 1].pid == pid; }
  }

  lemma GroupGrows(rows: Rows, cursor: seq<Track>, g: nat, n: nat, pid: string, missing: seq<Track>, matched: seq<Track>)
    requires IsCursor(rows, cursor) && GroupOf(rows, cursor, g, n, pid, missing, matched)
    requires n < |cursor| && cursor[n].pid == pid
    ensures var t := cursor[n];
            if t.missing then GroupOf(rows, cursor, g, n + 1, pid, missing + [t], matched)
            else GroupOf(rows, cursor, g, n + 1, pid, missing, matched + [t])
  {
    hide Snapshot, IsCursor, Filed;
    var t := cursor[n];
    var missing2, matched2 := if t.missing then missing + [t] else missing, if t.missing then matched else matched + [t];
    assert cursor[g..n + 1] == cursor[g..n] + [t];
    SnapshotGrows(rows, cursor, g, n, pid, if t.missing then missing else matched);
    forall k | g <= k < n + 1 ensures Filed(cursor[k], pid, missing2, matched2) {
      if k < n { assert Filed(cursor[k], pid, missing, matched); }
      FiledMore(cursor[k], pid, missing, matched, t);
    }
  }

  lemma FiledMore(x: Track, pid: string, missing: seq<Track>, matched: seq<Track>, t: Track)
    requires Filed(x, pid, missing, matched) || (x == t && t.pid == pid)
    ensures if t.missing then Filed(x, pid, missing + [t], matched) else Filed(x, pid, missing, matched + [t])
  {
  }

  lemma SnapshotGrows(rows: Rows, cursor: seq<Track>, g: nat, n: nat, pid: string, ts: seq<Track>)
    requires IsCursor(rows, cursor) && g <= n < |cursor| && cursor[n].pid == pid
    requires Snapshot(rows, ts, cursor[n].missing, pid) && forall t :: t in ts ==> t in cursor[g..n]
    ensures Snapshot(rows, ts + [cursor[n]], cursor[n].missing, pid)
  {
    forall i | 0 <= i < |ts| ensures ts[i].id != cursor[n].id {
      assert ts[i] in cursor[g..n];
      var j :| g <= j < n && cursor[j] == ts[i];
    }
  }

  /** A group's rows are apart from those before it. */
  lemma GroupApart(rows: Rows, cursor: seq<Track>, g: nat, n: nat, ts: seq<Track>)
    requires IsCursor(rows, cursor) && g <= n <= |cursor| && forall t :: t in ts ==> t in cursor[g..n]
    ensures IdsOf(ts) !! IdsOf(cursor[..g]) && IdsOf(ts) <= IdsOf(cursor[..n]) && IdsOf(cursor[..g]) <= IdsOf(cursor[..n])
  {
    forall i | 0 <= i < |ts| ensures ts[i].id !in IdsOf(cursor[..g]) && ts[i].id in IdsOf(cursor[..n]) {
      assert ts[i] in cursor[g..n];
      var j :| g <= j < n && cursor[j] == ts[i];
      assert cursor[..n][j] == ts[i];
    }
    forall i | 0 <= i < g ensures cursor[..g][i].id in IdsOf(cursor[..n]) {
      assert cursor[..n][i] == cursor[..g][i];
    }
  }

  /** Rows that take part in no pair are as they were. */
  lemma SnapshotStill(rows: Rows, ps: seq<Pair>, ts: seq<Track>, missing: bool, pid: string)
    requires Keyed(rows) && Matching(rows, ps) && Snapshot(rows, ts, missing, pid)
    requires IdsOf(ts) !! (Sources(ps) + Targets(ps))
    ensures Snapshot(Moved(rows, ps), ts, missing, pid)
  {
    MovedRows(rows, ps);
    assert forall i :: 0 <= i < |ts| ==> ts[i].id in IdsOf(ts);
  }

  lemma GroupIsIntact(rows: Rows, M: Matcher, cursor: seq<Track>, g: nat, n: nat, pid: string,
                      missing: seq<Track>, matched: seq<Track>, ps: seq<Pair>)
    requires Keyed(rows) && IsCursor(rows, cursor) && Matching(rows, ps) && PairsBefore(M, cursor, g, ps)
    requires GroupOf(rows, cursor, g, n, pid, missing, matched)
    ensures Keyed(Moved(rows, ps))
    ensures Snapshot(Moved(rows, ps), missing, true, pid) && Snapshot(Moved(rows, ps), matched, false, pid)
    ensures (IdsOf(missing) + IdsOf(matched)) !! (Sources(ps) + Targets(ps))
  {
    hide Keyed, IsCursor, Listed, OneToOne, Snapshot, NoneLeftBefore, Sources, Targets, IdsOf;
    GroupApart(rows, cursor, g, n, missing);
    GroupApart(rows, cursor, g, n, matched);
    MovedRows(rows, ps);
    SnapshotStill(rows, ps, missing, true, pid);
    SnapshotStill(rows, ps, matched, false, pid);
  }

  lemma GroupIsDone(rows: Rows, M: Matcher, cursor: seq<Track>, g: nat, n: nat, pid: string,
                    missing: seq<Track>, matched: seq<Track>, ps: seq<Pair>, qs: seq<Pair>, done: bool)
    requires Keyed(rows) && IsCursor(rows, cursor) && Matching(rows, ps) && PairsBefore(M, cursor, g, ps)
    requires GroupOf(rows, cursor, g, n, pid, missing, matched)
    requires Matching(Moved(rows, ps), qs) && Sources(qs) <= IdsOf(missing) && Targets(qs) <= IdsOf(matched)
    requires done ==> Settled(M, missing, matched, qs)
    ensures Matching(rows, ps + qs) && Moved(rows, ps + qs) == Moved(Moved(rows, ps), qs)
    ensures done ==> PairsBefore(M, cursor, n, ps + qs)
  {
    hide Keyed, IsCursor, Listed, OneToOne, Snapshot, NoneLeftBefore, Settled, Sources, Targets, IdsOf, Moved;
    GroupIsIntact(rows, M, cursor, g, n, pid, missing, matched, ps);
    MovedConcat(rows, ps, qs);
    ConcatPairs(ps, qs);
    GroupApart(rows, cursor, g, n, missing);
    GroupApart(rows, cursor, g, n, matched);
    if done { NoneLeftNext(rows, M, cursor, g, n, pid, missing, matched, ps, qs, ps + qs); }
  }

  lemma NoneLeftNext(rows: Rows, M: Matcher, cursor: seq<Track>, g: nat, n: nat, pid: string,
                     missing: seq<Track>, matched: seq<Track>, ps: seq<Pair>, qs: seq<Pair>, all: seq<Pair>)
    requires GroupOf(rows, cursor, g, n, pid, missing, matched)
    requires NoneLeftBefore(M, cursor, g, ps) && Settled(M, missing, matched, qs)
    requires Sources(all) == Sources(ps) + Sources(qs) && Targets(all) == Targets(ps) + Targets(qs)
    ensures NoneLeftBefore(M, cursor, n, all)
  {
    hide Sources, Targets, Snapshot;
    assert forall k :: g <= k < n ==> Filed(cursor[k], pid, missing, matched) && cursor[k].pid == pid;
    forall i, j | 0 <= i < |cursor| && 0 <= j < |cursor| && i < n && j < n && Candidates(cursor[i], cursor[j]) &&
                  cursor[i].id !in Sources(all)
      ensures !Exact(M, cursor[i], cursor[j], Targets(all)) && !Equivalent(M, cursor[i], cursor[j], Targets(all))
    {
      if i < g {
        assert j < g;
        assert !Exact(M, cursor[i], cursor[j], Targets(ps)) && !Equivalent(M, cursor[i], cursor[j], Targets(ps));
      } else {
        assert j >= g;
        assert Filed(cursor[i], pid, missing, matched) && Filed(cursor[j], pid, missing, matched);
        var a :| 0 <= a < |missing| && missing[a] == cursor[i];
        var b :| 0 <= b < |matched| && matched[b] == cursor[j];
        assert !Exact(M, missing[a], matched[b], Targets(qs)) && !Equivalent(M, missing[a], matched[b], Targets(qs));
      }
    }
  }

  /** A group without missing tracks, or without a persistent id, is passed over. */
  lemma EmptyGroupIsDone(rows: Rows, M: Matcher, cursor: seq<Track>, g: nat, n: nat, pid: string,
                         missing: seq<Track>, matched: seq<Track>, ps: seq<Pair>)
    requires IsCursor(rows, cursor) && PairsBefore(M, cursor, g, ps)
    requires GroupOf(rows, cursor, g, n, pid, missing, matched) && (pid == "" || missing == [])
    ensures PairsBefore(M, cursor, n, ps)
  {
    hide Sources, Targets, Snapshot, IdsOf, Exact, Equivalent;
    GroupApart(rows, cursor, g, n, []);
    forall i, j | 0 <= i < |cursor| && 0 <= j < |cursor| && i < n && j < n && Candidates(cursor[i], cursor[j]) &&
                  cursor[i].id !in Sources(ps)
      ensures !Exact(M, cursor[i], cursor[j], Targets(ps)) && !Equivalent(M, cursor[i], cursor[j], Targets(ps))
    {
      assert i < g && j < g;
    }
  }

  /** Matchings of separate rows compose. */
  lemma {:induction false} MovedConcat(rows: Rows, ps: seq<Pair>, qs: seq<Pair>)
    requires Keyed(rows) && Matching(rows, ps) && Matching(Moved(rows, ps), qs)
    requires (Sources(qs) + Targets(qs)) !! (Sources(ps) + Targets(ps))
    ensures Matching(rows, ps + qs) && Moved(rows, ps + qs) == Moved(Moved(rows, ps), qs)
    decreases |qs|
  {
    hide Listed, OneToOne, Sources, Targets, Keyed;
    if qs == [] {
      assert ps + qs == ps;
    } else {
      var n := |qs| - 1;
      var front, q := qs[..n], qs[n];
      assert qs == front + [q];
      AppendPair(front, q);
      LastPairIsNew(Moved(rows, ps), front, q);
      MovedConcat(rows, ps, front);
      MovedRows(rows, ps);
      ConcatPairs(ps, front);
      assert ps + qs == ps + front + [q];
      ExtendMatching(rows, ps + front, q);
      AppendPair(ps + front, q);
    }
  }

  lemma ConcatPairs(ps: seq<Pair>, qs: seq<Pair>)
    ensures Sources(ps + qs) == Sources(ps) + Sources(qs) && Targets(ps + qs) == Targets(ps) + Targets(qs)
  {
    var all := ps + qs;
    forall i | 0 <= i < |ps| ensures ps[i].0 in Sources(all) && ps[i].1 in Targets(all) { assert all[i] == ps[i]; }
    forall i | 0 <= i < |qs| ensures qs[i].0 in Sources(all) && qs[i].1 in Targets(all) { assert all[|ps| + i] == qs[i]; }
  }

  lemma MatchingTheorem(rows: Rows, ps: seq<Pair>)
    requires Keyed(rows) && Matching(rows, ps)
    ensures OnDisk(Moved(rows, ps)) == OnDisk(rows) && (UniqueOnDisk(rows) ==> UniqueOnDisk(Moved(rows, ps)))
    ensures |Moved(rows, ps)| == |rows| - |ps|
    ensures forall k :: k in rows && rows[k].missing ==> k in Moved(rows, ps)
  {
    hide Moved, Listed, OneToOne, Keyed, OnDisk, UniqueOnDisk;
    DiskUnchanged(rows, ps);
    if UniqueOnDisk(rows) { StillUniqueOnDisk(rows, ps); }
    RowsDropByMoves(rows, ps);
    forall k | k in rows && rows[k].missing ensures k in Moved(rows, ps) { MissingIdsSurvive(rows, ps, k); }
  }
}
