/**
  The directory walk of a scan: which folders are loaded (and so known to exist), which are emitted
  for processing, and which of the database's folders are left over and marked missing.
 */
module FolderWalk {
  import opened Prelude
  import opened IgnorePatterns

  /** A directory as the walk meets it; entries are in name order. */
  datatype Dir = Dir(statOk: bool, openOk: bool, entries: seq<Entry>)

  datatype Entry =
    | SubDir(name: string, dir: Dir, infoOk: bool)
    | File(name: string, infoOk: bool)
    | BrokenLink(name: string)

  /** `skip` is the name-based ignore policy, `id` the folder id of a path. */
  datatype Env = Env(R: Rules, skip: (string, bool) -> bool, id: Path -> string)

  datatype Visit = Visit(loaded: set<Path>, emitted: seq<Path>)

  predicate Considered(env: Env, path: Path, inner: seq<string>, e: Entry) {
    !Ignored(env.R, inner, path + [e.name]) && !e.BrokenLink? && !env.skip(e.name, e.SubDir?)
  }

  /** A readable subdirectory to descend into. */
  predicate IsChild(env: Env, path: Path, inner: seq<string>, e: Entry) {
    Considered(env, path, inner, e) && e.SubDir? && e.dir.openOk
  }

  /** A file, or a directory that is not descended into, whose info cannot be read aborts the listing. */
  predicate Breaks(env: Env, path: Path, inner: seq<string>, e: Entry) {
    Considered(env, path, inner, e) && !IsChild(env, path, inner, e) && !e.infoOk
  }

  predicate Listable(env: Env, dir: Dir, path: Path, inner: seq<string>) {
    dir.statOk && dir.openOk && forall i :: 0 <= i < |dir.entries| ==> !Breaks(env, path, inner, dir.entries[i])
  }

  /** The walk of `dir`, where `inner` are the patterns in force while it is listed. */
  function WalkTree(env: Env, dir: Dir, path: Path, inner: seq<string>): Visit
    decreases dir, |dir.entries| + 1
  {
    if !dir.statOk then Visit({}, [])
    else if !Listable(env, dir, path, inner) then Visit({path}, [])
    else
      var kids := WalkEntries(env, dir, path, inner, |dir.entries|);
      Visit({path} + kids.loaded, kids.emitted + [path])
  }

  /** The first `n` entries: children before their parent. */
  function WalkEntries(env: Env, dir: Dir, path: Path, inner: seq<string>, n: nat): Visit
    requires n <= |dir.entries|
    decreases dir, n
  {
    if n == 0 then Visit({}, [])
    else
      var front := WalkEntries(env, dir, path, inner, n - 1);
      var e := dir.entries[n - 1];
      if !IsChild(env, path, inner, e) then front
      else
        var sub := WalkTree(env, e.dir, path + [e.name], inner + env.R.load(path + [e.name]));
        Visit(front.loaded + sub.loaded, front.emitted + sub.emitted)
  }

  // ----- the walk as it runs --------------------------------------------------------------

  /** The job's notes: update times of the folders the database holds as present. */
  class ScanJob {
    var lastUpdates: map<string, int>

    constructor (known: map<string, int>)
      ensures lastUpdates == known
    {
      lastUpdates := known;
    }

    /** popLastUpdate: what was known of the folder, which is thereby found. */
    method Pop(folder: string) returns (info: Option<int>)
      modifies this
      ensures info == if folder in old(lastUpdates) then Some(old(lastUpdates)[folder]) else None
      ensures lastUpdates == old(lastUpdates) - {folder}
    {
      info := if folder in lastUpdates then Some(lastUpdates[folder]) else None;
      lastUpdates := lastUpdates - {folder};
    }
  }

  function Ids(env: Env, paths: set<Path>): set<string> { set p | p in paths :: env.id(p) }

  /** loadDir: which entries are children, or failure; the folder is found as soon as it can be stat'ed. */
  method LoadDir(env: Env, checker: IgnoreChecker, job: ScanJob, dir: Dir, path: Path)
    returns (ok: bool, children: seq<bool>)
    requires checker.Valid() && checker.R == env.R
    modifies job
    ensures var inner := Flatten(checker.patternStack);
            && ok == Listable(env, dir, path, inner)
            && (ok ==> |children| == |dir.entries|)
            && (ok ==> forall i :: 0 <= i < |children| ==> children[i] == IsChild(env, path, inner, dir.entries[i]))
    ensures ok ==> forall i :: 0 <= i < |children| ==>
              var e := dir.entries[i];
              children[i] == (e.SubDir? && e.dir.openOk && !env.skip(e.name, true) &&
                              !Ignored(env.R, Flatten(checker.patternStack), path + [e.name]))
    ensures dir.statOk && dir.openOk && !ok ==>
              exists i :: 0 <= i < |dir.entries| &&
                var e := dir.entries[i];
                (e.File? || (e.SubDir? && !e.dir.openOk)) && !e.infoOk && !env.skip(e.name, e.SubDir?) &&
                !Ignored(env.R, Flatten(checker.patternStack), path + [e.name])
    ensures job.lastUpdates == if dir.statOk then old(job.lastUpdates) - {env.id(path)} else old(job.lastUpdates)
  {
    children := [];
    if !dir.statOk { return false, []; }
    var _ := job.Pop(env.id(path));
    if !dir.openOk { return false, []; }
    ghost var inner := Flatten(checker.patternStack);
    for i := 0 to |dir.entries|
      invariant |children| == i
      invariant forall j :: 0 <= j < i ==>
                  !Breaks(env, path, inner, dir.entries[j]) && children[j] == IsChild(env, path, inner, dir.entries[j])
      invariant job.lastUpdates == old(job.lastUpdates) - {env.id(path)}
    {
      var e := dir.entries[i];
      var ignored := checker.ShouldIgnore(path + [e.name]);
      if ignored || e.BrokenLink? || env.skip(e.name, e.SubDir?) {
        children := children + [false];
      } else if e.SubDir? && e.dir.openOk {
        children := children + [true];
      } else if !e.infoOk {
        return false, [];
      } else {
        children := children + [false];
      }
    }
    ok := true;
  }

  lemma RemoveTwice(m: map<string, int>, a: set<string>, b: set<string>)
    ensures m - a - b == m - (a + b)
  {
  }

  lemma IdsUnion(env: Env, a: set<Path>, b: set<Path>)
    ensures Ids(env, a + b) == Ids(env, a) + Ids(env, b)
  {
  }

  lemma FlattenPush(stack: seq<seq<string>>, level: seq<string>)
    ensures Flatten(stack + [level]) == Flatten(stack) + level
  {
    assert (stack + [level])[..|stack|] == stack;
  }

  /**
    Walks a folder.  On every exit the pattern stack is as it was; the folders loaded are struck off
    the job's notes and the emitted ones are those of WalkTree.
   */
  method WalkFolder(env: Env, checker: IgnoreChecker, job: ScanJob, dir: Dir, path: Path) returns (emitted: seq<Path>)
    requires checker.Valid() && checker.R == env.R
    modifies checker, job
    ensures checker.Valid() && checker.patternStack == old(checker.patternStack)
    ensures var v := WalkTree(env, dir, path, Flatten(old(checker.patternStack)) + env.R.load(path));
            emitted == v.emitted && job.lastUpdates == old(job.lastUpdates) - Ids(env, v.loaded)
    decreases dir
  {
    hide Ignored;
    ghost var stack, notes := checker.patternStack, job.lastUpdates;
    ghost var inner := Flatten(stack) + env.R.load(path);
    FlattenPush(stack, env.R.load(path));
    checker.Push(path);
    var ok, children := LoadDir(env, checker, job, dir, path);
    emitted := [];
    if !ok {
      checker.Pop();
      assert Ids(env, {}) == {} && Ids(env, {path}) == {env.id(path)};
      return;
    }
    assert Ids(env, {path}) == {env.id(path)};
    for i := 0 to |dir.entries|
      invariant checker.Valid() && checker.patternStack == stack + [env.R.load(path)]
      invariant var v := WalkEntries(env, dir, path, inner, i);
                emitted == v.emitted && job.lastUpdates == notes - Ids(env, {path} + v.loaded)
    {
      if children[i] {
        var e := dir.entries[i];
        ghost var before := WalkEntries(env, dir, path, inner, i);
        ghost var sub := WalkTree(env, e.dir, path + [e.name], inner + env.R.load(path + [e.name]));
        var kids := WalkFolder(env, checker, job, e.dir, path + [e.name]);
        emitted := emitted + kids;
        RemoveTwice(notes, Ids(env, {path} + before.loaded), Ids(env, sub.loaded));
        IdsUnion(env, {path} + before.loaded, sub.loaded);
        assert {path} + before.loaded + sub.loaded == {path} + (before.loaded + sub.loaded);
      }
    }
    emitted := emitted + [path];
    checker.Pop();
  }

  /** Look a target up from the root. */
  function Find(dir: Dir, path: Path): Option<Dir>
    decreases |path|
  {
    if path == [] then Some(dir)
    else
      var i := IndexOf(dir.entries, path[0], 0);
      if i < |dir.entries| then Find(dir.entries[i].dir, path[1..]) else None
  }

  /** The subdirectory of that name, or the number of entries. */
  function IndexOf(es: seq<Entry>, name: string, from: nat): (i: nat)
    requires from <= |es|
    ensures from <= i <= |es| && (i < |es| ==> es[i].SubDir? && es[i].name == name)
    decreases |es| - from
  {
    if from == |es| then from
    else if es[from].SubDir? && es[from].name == name then from
    else IndexOf(es, name, from + 1)
  }

  /** What the walk of one target sees. */
  function VisitTarget(env: Env, root: Dir, t: Path): Visit {
    match Find(root, t)
    case None => Visit({}, [])
    case Some(dir) =>
      if !dir.statOk then Visit({}, []) else WalkTree(env, dir, t, Flatten(StackAt(env.R, t, t)))
  }

  function VisitTargets(env: Env, root: Dir, ts: seq<Path>): Visit {
    if ts == [] then Visit({}, [])
    else
      var front, last := VisitTargets(env, root, ts[..|ts| - 1]), VisitTarget(env, root, ts[|ts| - 1]);
      Visit(front.loaded + last.loaded, front.emitted + last.emitted)
  }

  /** The targets of a scan: the root when none are given. */
  function TargetsOf(targets: seq<Path>): seq<Path> { if targets == [] then [[]] else targets }

  /** Each target is walked with a checker of its own, parents pushed first. */
  method WalkTarget(env: Env, job: ScanJob, root: Dir, t: Path) returns (emitted: seq<Path>)
    modifies job
    ensures var v := VisitTarget(env, root, t);
            emitted == v.emitted && job.lastUpdates == old(job.lastUpdates) - Ids(env, v.loaded)
  {
    emitted := [];
    assert Ids(env, {}) == {};
    var found := Find(root, t);
    if found.Some? && found.value.statOk {
      var checker := new IgnoreChecker(env.R);
      checker.PushAllParents(t);
      TargetStack(env.R, t);
      emitted := WalkFolder(env, checker, job, found.value, t);
    }
  }

  lemma TargetStack(R: Rules, t: Path)
    ensures Flatten(StackAt(R, t, t)) == Flatten([] + Levels(R, t, 0, |t| + 1)) + R.load(t)
  {
    assert t[..|t|] == t;
    assert [] + Levels(R, t, 0, |t| + 1) == Levels(R, t, 0, |t| + 1);
    assert Levels(R, t, |t|, |t| + 1) == [R.load(t)];
    FlattenPush(Levels(R, t, 0, |t| + 1), R.load(t));
  }

  method WalkDirTree(env: Env, job: ScanJob, root: Dir, targets: seq<Path>) returns (emitted: seq<Path>)
    modifies job
    ensures var v := VisitTargets(env, root, TargetsOf(targets));
            emitted == v.emitted && job.lastUpdates == old(job.lastUpdates) - Ids(env, v.loaded)
  {
    var ts := TargetsOf(targets);
    emitted := [];
    assert Ids(env, {}) == {};
    for i := 0 to |ts|
      invariant var v := VisitTargets(env, root, ts[..i]);
                emitted == v.emitted && job.lastUpdates == old(job.lastUpdates) - Ids(env, v.loaded)
    {
      assert ts[..i + 1][..i] == ts[..i];
      ghost var before, last := VisitTargets(env, root, ts[..i]), VisitTarget(env, root, ts[i]);
      var more := WalkTarget(env, job, root, ts[i]);
      emitted := emitted + more;
      RemoveTwice(old(job.lastUpdates), Ids(env, before.loaded), Ids(env, last.loaded));
      IdsUnion(env, before.loaded, last.loaded);
    }
    assert ts[..|ts|] == ts;
  }

  /**
    Phase 1 and its finalisation: the folders marked missing are exactly those the job loaded as
    present minus those the walk loaded.
   */
  method ReconcileFolders(env: Env, known: map<string, int>, root: Dir, targets: seq<Path>)
    returns (emitted: seq<Path>, missing: set<string>)
    ensures emitted == VisitTargets(env, root, TargetsOf(targets)).emitted
    ensures missing == known.Keys - Ids(env, VisitTargets(env, root, TargetsOf(targets)).loaded)
  {
    var job := new ScanJob(known);
    emitted := WalkDirTree(env, job, root, targets);
    missing := job.lastUpdates.Keys;
  }

  // ----- a targeted walk against a walk from the root ---------------------------------------

  lemma SameConsidered(env: Env, path: Path, a: seq<string>, b: seq<string>, e: Entry)
    requires SameVerdicts(env.R, a, b)
    ensures Considered(env, path, a, e) == Considered(env, path, b, e)
  {
    assert Verdict(env.R, a, path + [e.name]) == Verdict(env.R, b, path + [e.name]);
  }

  /** Pattern lists with the same verdicts walk the same folders. */
  lemma {:induction false} WalkSame(env: Env, dir: Dir, path: Path, a: seq<string>, b: seq<string>)
    requires SameVerdicts(env.R, a, b)
    ensures WalkTree(env, dir, path, a) == WalkTree(env, dir, path, b)
    decreases dir, |dir.entries| + 1
  {
    forall i | 0 <= i < |dir.entries|
      ensures Breaks(env, path, a, dir.entries[i]) == Breaks(env, path, b, dir.entries[i])
    {
      SameConsidered(env, path, a, b, dir.entries[i]);
    }
    WalkEntriesSame(env, dir, path, a, b, |dir.entries|);
  }

  lemma {:induction false} WalkEntriesSame(env: Env, dir: Dir, path: Path, a: seq<string>, b: seq<string>, n: nat)
    requires SameVerdicts(env.R, a, b) && n <= |dir.entries|
    ensures WalkEntries(env, dir, path, a, n) == WalkEntries(env, dir, path, b, n)
    decreases dir, n
  {
    if n > 0 {
      var e := dir.entries[n - 1];
      WalkEntriesSame(env, dir, path, a, b, n - 1);
      SameConsidered(env, path, a, b, e);
      if e.SubDir? {
        var own := env.R.load(path + [e.name]);
        SameVerdictsExtend(env.R, a, b, own);
        WalkSame(env, e.dir, path + [e.name], a + own, b + own);
      }
    }
  }

  /** No directory lists two subdirectories of the same name. */
  predicate DistinctNames(dir: Dir)
    decreases dir
  {
    && (forall i, j :: 0 <= i < j < |dir.entries| && dir.entries[i].SubDir? && dir.entries[j].SubDir? ==>
          dir.entries[i].name != dir.entries[j].name)
    && (forall i :: 0 <= i < |dir.entries| && dir.entries[i].SubDir? ==> DistinctNames(dir.entries[i].dir))
  }

  /** Going down `rest` from `dir`, every directory can be listed and none is ignored on the way. */
  predicate Reaches(env: Env, dir: Dir, path: Path, rest: Path, inner: seq<string>)
    decreases |rest|
  {
    dir.statOk &&
    (rest == [] ||
     var i := IndexOf(dir.entries, rest[0], 0);
     var down := path + [rest[0]];
     Listable(env, dir, path, inner) && i < |dir.entries| && IsChild(env, path, inner, dir.entries[i]) &&
     Reaches(env, dir.entries[i].dir, down, rest[1..], inner + env.R.load(down)))
  }

  /** The patterns in force at the end of `rest`. */
  function InnerAt(R: Rules, path: Path, rest: Path, inner: seq<string>): seq<string>
    decreases |rest|
  {
    if rest == [] then inner
    else InnerAt(R, path + [rest[0]], rest[1..], inner + R.load(path + [rest[0]]))
  }

  function Under(paths: set<Path>, t: Path): set<Path> { set p | p in paths && t <= p }

  lemma {:induction false} LoadedExtend(env: Env, dir: Dir, path: Path, inner: seq<string>, p: Path)
    requires p in WalkTree(env, dir, path, inner).loaded
    ensures path <= p
    decreases dir, |dir.entries| + 1
  {
    if p != path { var _ := EntriesExtend(env, dir, path, inner, |dir.entries|, p); }
  }

  /** A folder loaded below `path` was loaded below one of its children. */
  lemma {:induction false} EntriesExtend(env: Env, dir: Dir, path: Path, inner: seq<string>, n: nat, p: Path)
    returns (i: nat)
    requires n <= |dir.entries| && p in WalkEntries(env, dir, path, inner, n).loaded
    ensures i < n && dir.entries[i].SubDir? && path + [dir.entries[i].name] <= p
    ensures path <= p
    decreases dir, n
  {
    i := n - 1;
    var e := dir.entries[i];
    if p in WalkEntries(env, dir, path, inner, i).loaded {
      i := EntriesExtend(env, dir, path, inner, i, p);
    } else {
      LoadedExtend(env, e.dir, path + [e.name], inner + env.R.load(path + [e.name]), p);
    }
  }

  lemma IndexOfFinds(es: seq<Entry>, name: string, from: nat, k: nat)
    requires from <= k < |es| && es[k].SubDir? && es[k].name == name
    ensures IndexOf(es, name, from) <= k
    decreases |es| - from
  {
  }

  /** Among the first `n` entries only the one of that name loads anything under it. */
  lemma {:induction false} EntriesUnder(env: Env, dir: Dir, path: Path, rest: Path, inner: seq<string>, n: nat)
    requires rest != [] && DistinctNames(dir) && n <= |dir.entries|
    ensures var i := IndexOf(dir.entries, rest[0], 0);
            var down := path + [rest[0]];
            Under(WalkEntries(env, dir, path, inner, n).loaded, path + rest) ==
            if i < n && IsChild(env, path, inner, dir.entries[i])
            then Under(WalkTree(env, dir.entries[i].dir, down, inner + env.R.load(down)).loaded, path + rest)
            else {}
    decreases n
  {
    if n > 0 {
      EntriesUnder(env, dir, path, rest, inner, n - 1);
      var e := dir.entries[n - 1];
      var i := IndexOf(dir.entries, rest[0], 0);
      if IsChild(env, path, inner, e) {
        var below := path + [e.name];
        var sub := WalkTree(env, e.dir, below, inner + env.R.load(below));
        if e.name == rest[0] {
          IndexOfFinds(dir.entries, rest[0], 0, n - 1);
          assert i == n - 1;
        } else {
          forall p | p in sub.loaded ensures !(path + rest <= p) {
            LoadedExtend(env, e.dir, below, inner + env.R.load(below), p);
            assert p[|path|] == e.name;
            assert (path + rest)[|path|] == rest[0];
          }
        }
      }
    }
  }

  /** What a walk loads below one of its folders is what a walk of that folder alone loads. */
  lemma {:induction false} LoadedUnder(env: Env, dir: Dir, path: Path, rest: Path, inner: seq<string>)
    requires DistinctNames(dir)
    ensures Reaches(env, dir, path, rest, inner) ==> Find(dir, rest).Some? && Find(dir, rest).value.statOk
    ensures Under(WalkTree(env, dir, path, inner).loaded, path + rest) ==
            if Reaches(env, dir, path, rest, inner)
            then WalkTree(env, Find(dir, rest).value, path + rest, InnerAt(env.R, path, rest, inner)).loaded
            else {}
    decreases |rest|
  {
    var all := WalkTree(env, dir, path, inner).loaded;
    if rest == [] {
      assert path + rest == path;
      forall p | p in all ensures path <= p { LoadedExtend(env, dir, path, inner, p); }
      assert Under(all, path) == all;
    } else {
      assert !(path + rest <= path);
      var i := IndexOf(dir.entries, rest[0], 0);
      var down := path + [rest[0]];
      EntriesUnder(env, dir, path, rest, inner, |dir.entries|);
      if i < |dir.entries| && IsChild(env, path, inner, dir.entries[i]) {
        LoadedUnder(env, dir.entries[i].dir, down, rest[1..], inner + env.R.load(down));
        assert down + rest[1..] == path + rest;
      }
    }
  }

  lemma {:induction false} InnerAtIsFlat(R: Rules, path: Path, rest: Path, inner: seq<string>)
    ensures InnerAt(R, path, rest, inner) == inner + Flatten(Levels(R, path + rest, |path| + 1, |path + rest| + 1))
    decreases |rest|
  {
    hide Flatten;
    var d := path + rest;
    if rest == [] {
      assert d == path;
      NoPatterns();
    } else {
      var down := path + [rest[0]];
      InnerAtIsFlat(R, down, rest[1..], inner + R.load(down));
      assert down + rest[1..] == d;
      LevelsFrom(R, d, |path| + 1, |d| + 1);
      assert d[..|path| + 1] == down;
      FlattenCons(R.load(down), Levels(R, d, |path| + 2, |d| + 1));
    }
  }

  lemma FlattenCons(level: seq<string>, stack: seq<seq<string>>)
    ensures Flatten([level] + stack) == level + Flatten(stack)
  {
    FlattenConcat([level], stack);
    assert Flatten([level]) == Flatten([]) + level == level;
  }

  /** The patterns a walk from the root has in force while listing `t`. */
  lemma RootInner(R: Rules, t: Path)
    ensures InnerAt(R, [], t, Flatten(StackAt(R, [], []))) == Flatten(StackAt(R, [], t))
  {
    InnerAtIsFlat(R, [], t, Flatten(StackAt(R, [], [])));
    assert [] + t == t && t[..0] == [];
    LevelsFrom(R, t, 0, |t| + 1);
    var top := Levels(R, [], 0, 1);
    assert Levels(R, [], 0, 1) == [R.load([])];
    assert StackAt(R, [], t) == (top + [R.load([])]) + Levels(R, t, 1, |t| + 1);
    FlattenConcat(top + [R.load([])], Levels(R, t, 1, |t| + 1));
  }

  /** A scan of one target walks, from the target down, exactly the folders a walk from the root would. */
  lemma TargetWalkIsRootWalk(env: Env, dir: Dir, t: Path)
    ensures WalkTree(env, dir, t, Flatten(StackAt(env.R, [], t))) == WalkTree(env, dir, t, Flatten(StackAt(env.R, t, t)))
  {
    var plain := Flatten(PlainStack(env.R, t));
    StartIsIrrelevant(env.R, [], t);
    StartIsIrrelevant(env.R, t, t);
    WalkSame(env, dir, t, Flatten(StackAt(env.R, [], t)), plain);
    WalkSame(env, dir, t, Flatten(StackAt(env.R, t, t)), plain);
  }

  /**
    A targeted scan agrees with a scan of the whole library about the folders under the target
    exactly when the walk from the root reaches the target, or the target does not exist: the
    targeted scan does not ask whether the target or one of its parents is ignored.
   */
  lemma TargetAgreesIff(env: Env, root: Dir, t: Path)
    requires DistinctNames(root)
    ensures Under(VisitTarget(env, root, []).loaded, t) == VisitTarget(env, root, t).loaded <==>
            (Reaches(env, root, [], t, Flatten(StackAt(env.R, [], []))) ||
             Find(root, t).None? || !Find(root, t).value.statOk)
  {
    var inner := Flatten(StackAt(env.R, [], []));
    LoadedUnder(env, root, [], t, inner);
    assert [] + t == t;
    RootInner(env.R, t);
    if Find(root, t).Some? && Find(root, t).value.statOk {
      TargetWalkIsRootWalk(env, Find(root, t).value, t);
      assert t in VisitTarget(env, root, t).loaded;
    }
  }

  // ----- what is loaded and emitted ---------------------------------------------------------

  /** A folder is loaded exactly when the walk reaches it. */
  lemma LoadedIff(env: Env, dir: Dir, path: Path, rest: Path, inner: seq<string>)
    requires DistinctNames(dir)
    ensures path + rest in WalkTree(env, dir, path, inner).loaded <==> Reaches(env, dir, path, rest, inner)
  {
    LoadedUnder(env, dir, path, rest, inner);
    var all := WalkTree(env, dir, path, inner).loaded;
    assert path + rest in all <==> path + rest in Under(all, path + rest);
  }

  lemma {:induction false} EmittedExtend(env: Env, dir: Dir, path: Path, inner: seq<string>, k: nat)
    requires k < |WalkTree(env, dir, path, inner).emitted|
    ensures path <= WalkTree(env, dir, path, inner).emitted[k]
    decreases dir, |dir.entries| + 1
  {
    var kids := WalkEntries(env, dir, path, inner, |dir.entries|).emitted;
    if k < |kids| { EntriesEmittedExtend(env, dir, path, inner, |dir.entries|, k); }
  }

  /** What is emitted below `path` is emitted below one of the entries. */
  lemma {:induction false} EntriesEmittedExtend(env: Env, dir: Dir, path: Path, inner: seq<string>, n: nat, k: nat)
    requires n <= |dir.entries| && k < |WalkEntries(env, dir, path, inner, n).emitted|
    ensures var p := WalkEntries(env, dir, path, inner, n).emitted[k];
            path < p && exists i :: 0 <= i < n && dir.entries[i].SubDir? && p[|path|] == dir.entries[i].name
    decreases dir, n
  {
    var front := WalkEntries(env, dir, path, inner, n - 1).emitted;
    var e := dir.entries[n - 1];
    if k < |front| {
      EntriesEmittedExtend(env, dir, path, inner, n - 1, k);
    } else {
      var below := path + [e.name];
      EmittedExtend(env, e.dir, below, inner + env.R.load(below), k - |front|);
      var p := WalkEntries(env, dir, path, inner, n).emitted[k];
      assert below <= p && p[..|below|] == below && p[|path|] == below[|path|];
    }
  }

  /** A folder among those emitted for the first `n` entries was emitted by the entry of its name. */
  lemma {:induction false} EmittedBelow(env: Env, dir: Dir, path: Path, rest: Path, inner: seq<string>, n: nat)
    requires rest != [] && DistinctNames(dir) && n <= |dir.entries|
    ensures var i := IndexOf(dir.entries, rest[0], 0);
            var down := path + [rest[0]];
            path + rest in WalkEntries(env, dir, path, inner, n).emitted <==>
            i < n && IsChild(env, path, inner, dir.entries[i]) &&
            path + rest in WalkTree(env, dir.entries[i].dir, down, inner + env.R.load(down)).emitted
    decreases n
  {
    if n > 0 {
      EmittedBelow(env, dir, path, rest, inner, n - 1);
      var e := dir.entries[n - 1];
      if IsChild(env, path, inner, e) {
        var below := path + [e.name];
        var sub := WalkTree(env, e.dir, below, inner + env.R.load(below)).emitted;
        if e.name == rest[0] {
          IndexOfFinds(dir.entries, rest[0], 0, n - 1);
          assert IndexOf(dir.entries, rest[0], 0) == n - 1;
        } else {
          forall k | 0 <= k < |sub| ensures sub[k] != path + rest {
            EmittedExtend(env, e.dir, below, inner + env.R.load(below), k);
            assert sub[k][|path|] == e.name && (path + rest)[|path|] == rest[0];
          }
        }
      }
    }
  }

  /** A folder is emitted exactly when the walk reaches it and it can be listed under the patterns in force there. */
  lemma {:induction false} EmittedIff(env: Env, dir: Dir, path: Path, rest: Path, inner: seq<string>)
    requires DistinctNames(dir)
    ensures path + rest in WalkTree(env, dir, path, inner).emitted <==>
            Reaches(env, dir, path, rest, inner) && Find(dir, rest).Some? &&
            Listable(env, Find(dir, rest).value, path + rest, InnerAt(env.R, path, rest, inner))
    decreases |rest|
  {
    hide Listable;
    if rest == [] {
      assert path + rest == path;
      EmittedHere(env, dir, path, inner);
    } else {
      EmittedBelow(env, dir, path, rest, inner, |dir.entries|);
      NotItself(path, rest);
      var i, down := IndexOf(dir.entries, rest[0], 0), path + [rest[0]];
      ListedOrNot(env, dir, path, inner);
      if i < |dir.entries| && IsChild(env, path, inner, dir.entries[i]) {
        EmittedIff(env, dir.entries[i].dir, down, rest[1..], inner + env.R.load(down));
        assert down + rest[1..] == path + rest;
      }
    }
  }

  lemma NotItself(path: Path, rest: Path)
    requires rest != []
    ensures path + rest != path
  {
    assert |path + rest| != |path|;
  }

  lemma ListedOrNot(env: Env, dir: Dir, path: Path, inner: seq<string>)
    ensures WalkTree(env, dir, path, inner).emitted ==
            if Listable(env, dir, path, inner) then WalkEntries(env, dir, path, inner, |dir.entries|).emitted + [path] else []
  {
  }

  lemma EmittedHere(env: Env, dir: Dir, path: Path, inner: seq<string>)
    ensures path in WalkTree(env, dir, path, inner).emitted <==> Listable(env, dir, path, inner)
  {
    var v := WalkTree(env, dir, path, inner).emitted;
    assert Listable(env, dir, path, inner) ==> v[|v| - 1] == path;
  }

  /** No folder comes after one above it, and none comes twice. */
  ghost predicate ChildrenFirst(ps: seq<Path>) { forall i, j :: 0 <= i < j < |ps| ==> !(ps[i] <= ps[j]) }

  lemma {:induction false} EmittedInOrder(env: Env, dir: Dir, path: Path, inner: seq<string>)
    requires DistinctNames(dir)
    ensures ChildrenFirst(WalkTree(env, dir, path, inner).emitted)
    decreases dir, |dir.entries| + 1
  {
    EntriesInOrder(env, dir, path, inner, |dir.entries|);
    hide Listable;
    var kids := WalkEntries(env, dir, path, inner, |dir.entries|).emitted;
    forall k | 0 <= k < |kids| ensures !(kids[k] <= path) { EntriesEmittedExtend(env, dir, path, inner, |dir.entries|, k); }
  }

  lemma {:induction false} EntriesInOrder(env: Env, dir: Dir, path: Path, inner: seq<string>, n: nat)
    requires DistinctNames(dir) && n <= |dir.entries|
    ensures ChildrenFirst(WalkEntries(env, dir, path, inner, n).emitted)
    decreases dir, n
  {
    if n > 0 {
      EntriesInOrder(env, dir, path, inner, n - 1);
      var e := dir.entries[n - 1];
      if IsChild(env, path, inner, e) {
        var below := path + [e.name];
        var front := WalkEntries(env, dir, path, inner, n - 1).emitted;
        var sub := WalkTree(env, e.dir, below, inner + env.R.load(below)).emitted;
        EmittedInOrder(env, e.dir, below, inner + env.R.load(below));
        forall i, j | 0 <= i < |front| && 0 <= j < |sub| ensures !(front[i] <= sub[j]) {
          EntriesEmittedExtend(env, dir, path, inner, n - 1, i);
          EmittedExtend(env, e.dir, below, inner + env.R.load(below), j);
          assert sub[j][|path|] == e.name && front[i][|path|] != e.name;
        }
        InOrderConcat(front, sub);
      }
    }
  }

  lemma InOrderConcat(a: seq<Path>, b: seq<Path>)
    requires ChildrenFirst(a) && ChildrenFirst(b) && forall i, j :: 0 <= i < |a| && 0 <= j < |b| ==> !(a[i] <= b[j])
    ensures ChildrenFirst(a + b)
  {
    var all := a + b;
    forall i, j | 0 <= i < j < |all| ensures !(all[i] <= all[j]) {
      if i < |a| && j >= |a| { assert all[i] == a[i] && all[j] == b[j - |a|]; }
    }
  }

  /**
    A scan of the whole library emits exactly the folders that the walk reaches and that can be listed,
    each once and after all folders below it.
   */
  lemma LibraryScanEmitsIff(env: Env, root: Dir, p: Path)
    requires DistinctNames(root)
    ensures var emitted := VisitTargets(env, root, TargetsOf([])).emitted;
            var inner := Flatten(StackAt(env.R, [], []));
            && (p in emitted <==>
                  Reaches(env, root, [], p, inner) && Find(root, p).Some? &&
                  Listable(env, Find(root, p).value, p, Flatten(StackAt(env.R, [], p))))
            && ChildrenFirst(emitted)
  {
    hide Listable, Reaches;
    var inner := Flatten(StackAt(env.R, [], []));
    var whole: seq<Path> := [[]];
    assert TargetsOf([]) == whole && whole[..0] == [];
    assert VisitTargets(env, root, whole).emitted == [] + VisitTarget(env, root, []).emitted;
    EmittedIff(env, root, [], p, inner);
    EmittedInOrder(env, root, [], inner);
    RootInner(env.R, p);
    assert [] + p == p;
    if !root.statOk { Unreached(env, root, p, inner); }
  }

  lemma Unreached(env: Env, dir: Dir, p: Path, inner: seq<string>)
    requires !dir.statOk
    ensures !Reaches(env, dir, [], p, inner)
  {
  }

  /** Several targets load and emit what each of them does, in their order. */
  lemma {:induction false} TargetsAddUp(env: Env, root: Dir, ts: seq<Path>, p: Path)
    ensures p in VisitTargets(env, root, ts).loaded <==> exists i :: 0 <= i < |ts| && p in VisitTarget(env, root, ts[i]).loaded
    ensures p in VisitTargets(env, root, ts).emitted <==> exists i :: 0 <= i < |ts| && p in VisitTarget(env, root, ts[i]).emitted
  {
    hide VisitTarget;
    if ts != [] {
      var n := |ts| - 1;
      TargetsAddUp(env, root, ts[..n], p);
      assert forall i :: 0 <= i < n ==> ts[..n][i] == ts[i];
    }
  }
}
