/**
  Full scans that survive crashes: library rows remember that a full scan is under way, every new
  run resumes it, and folders not touched since it began are scanned again.
 */
module ScanResume {
  import opened Prelude

  type LibId = int
  type FolderId = string

  /** A library row: when a scan started, if one is under way, and whether it is a full one. */
  datatype Library = Library(startedAt: Option<int>, full: bool)

  datatype Folder = Folder(lib: LibId, updatedAt: int, hash: string, missing: bool)

  datatype UpdateInfo = UpdateInfo(updatedAt: int, hash: string)

  /** One library's walk: what the database knew, shrinking as folders are found. */
  datatype Job = Job(full: bool, startedAt: int, lastUpdates: map<FolderId, UpdateInfo>)

  datatype Pending = Pending(lib: LibId, folder: FolderId, hash: string)

  datatype Stage = Preparing(todo: set<LibId>) | Walking | Finalized

  /** The memory of a running scan; a crash loses all of it. */
  datatype Run = Run(fullScan: bool, stage: Stage, libs: set<LibId>, jobs: map<LibId, Job>,
                     pending: set<Pending>, emitted: map<LibId, set<FolderId>>)

  datatype State = State(now: int, libs: map<LibId, Library>, folders: map<FolderId, Folder>, run: Option<Run>)

  // ----- the steps of a run ---------------------------------------------------------------

  datatype Event =
    | Start(full: bool)
    | Prepare(lib: LibId)
    | PrepareFails(lib: LibId, begun: bool)
    | JobFails(lib: LibId)
    | WalkBegins
    | Emit(lib: LibId, folder: FolderId, hash: string, noFiles: bool)
    | Persist(item: Pending)
    | MarkMissing
    | CollectGarbage(gone: set<FolderId>)
    | PhaseFails(marked: bool)
    | End
    | Crash

  /** ScanBegin, unless an unfinished scan is being resumed. */
  function Begun(lib: Library, now: int, fullScan: bool): Library {
    if lib.startedAt.None? then Library(Some(now), fullScan) else lib
  }

  /** getFolderUpdateInfoAll: the folders of the library not marked missing. */
  function KnownFolders(folders: map<FolderId, Folder>, l: LibId): map<FolderId, UpdateInfo> {
    map f | f in folders && folders[f].lib == l && !folders[f].missing :: UpdateInfo(folders[f].updatedAt, folders[f].hash)
  }

  function NewJob(lib: Library, l: LibId, fullScan: bool, folders: map<FolderId, Folder>): Job
    requires lib.startedAt.Some?
  {
    Job(lib.full || fullScan, lib.startedAt.value, KnownFolders(folders, l))
  }

  predicate IsNew(job: Job, f: FolderId) { f !in job.lastUpdates }

  predicate IsOutdated(job: Job, f: FolderId, hash: string) {
    (job.full && (IsNew(job, f) || job.lastUpdates[f].updatedAt < job.startedAt)) ||
    (if IsNew(job, f) then "" else job.lastUpdates[f].hash) != hash
  }

  /** Whether an emitted folder goes on to be processed. */
  predicate Selected(job: Job, fullScan: bool, f: FolderId, hash: string, noFiles: bool) {
    IsOutdated(job, f, hash) && (fullScan || !(noFiles && IsNew(job, f)))
  }

  function Leftovers(run: Run): set<FolderId> { set l, f | l in run.jobs && f in run.jobs[l].lastUpdates :: f }

  /** The folders not found by any walk of the run are marked missing. */
  function Marked(folders: map<FolderId, Folder>, run: Run, now: int): map<FolderId, Folder> {
    map f | f in folders :: if f in Leftovers(run) then folders[f].(missing := true, updatedAt := now) else folders[f]
  }

  /**
    One step.  A phase that fails still marks the leftovers, folders that were never walked included,
    unless that fails too; every other failure of a run leaves the database as a crash does.
   */
  ghost predicate Step(s: State, e: Event, s': State) {
    && s.now <= s'.now
    && match e
       case Start(full) =>
         && s.run.None? && s'.libs == s.libs && s'.folders == s.folders
         && s'.run == Some(Run(full || exists l :: l in s.libs && s.libs[l].full,
                               Preparing(s.libs.Keys), s.libs.Keys, map[], {}, map[]))
       case Prepare(l) =>
         && s.run.Some? && s.run.value.stage.Preparing? && l in s.run.value.stage.todo && l in s.libs
         && s'.libs == s.libs[l := Begun(s.libs[l], s'.now, s.run.value.fullScan)] && s'.folders == s.folders
         && s'.run == Some(s.run.value.(
              stage := Preparing(s.run.value.stage.todo - {l}),
              jobs := s.run.value.jobs[l := NewJob(s'.libs[l], l, s.run.value.fullScan, s.folders)],
              emitted := s.run.value.emitted[l := {}]))
       case PrepareFails(l, begun) =>
         && s.run.Some? && s.run.value.stage.Preparing? && l in s.run.value.stage.todo && l in s.libs
         && s'.libs == (if begun then s.libs[l := Begun(s.libs[l], s'.now, s.run.value.fullScan)] else s.libs)
         && s'.folders == s.folders
         && s'.run == Some(s.run.value.(stage := Preparing(s.run.value.stage.todo - {l}), libs := s.run.value.libs - {l}))
       case JobFails(l) =>
         && s.run.Some? && s.run.value.stage.Preparing? && l in s.run.value.stage.todo && l in s.libs
         && s'.libs == s.libs[l := Begun(s.libs[l], s'.now, s.run.value.fullScan)] && s'.folders == s.folders
         && s'.run == Some(s.run.value.(stage := Preparing(s.run.value.stage.todo - {l})))
       case WalkBegins =>
         && s.run.Some? && s.run.value.stage == Preparing({})
         && s'.libs == s.libs && s'.folders == s.folders && s'.run == Some(s.run.value.(stage := Walking))
       case Emit(l, f, hash, noFiles) =>
         && s.run.Some? && s.run.value.stage == Walking && l in s.run.value.jobs && l in s.run.value.emitted
         && (f in s.folders ==> s.folders[f].lib == l)
         && s'.libs == s.libs && s'.folders == s.folders
         && var job := s.run.value.jobs[l];
            s'.run == Some(s.run.value.(
              jobs := s.run.value.jobs[l := job.(lastUpdates := job.lastUpdates - {f})],
              emitted := s.run.value.emitted[l := s.run.value.emitted[l] + {f}],
              pending := s.run.value.pending +
                         (if Selected(job, s.run.value.fullScan, f, hash, noFiles) then {Pending(l, f, hash)} else {})))
       case Persist(item) =>
         && s.run.Some? && s.run.value.stage == Walking && item in s.run.value.pending
         && s'.libs == s.libs
         && s'.folders == s.folders[item.folder := Folder(item.lib, s'.now, item.hash, false)]
         && s'.run == Some(s.run.value.(pending := s.run.value.pending - {item}))
       case MarkMissing =>
         && s.run.Some? && s.run.value.stage == Walking && s.run.value.pending == {}
         && s'.libs == s.libs
         && s'.folders == Marked(s.folders, s.run.value, s'.now)
         && s'.run == Some(s.run.value.(stage := Finalized))
       case PhaseFails(marked) =>
         && s.run.Some? && s.run.value.stage == Walking
         && s'.libs == s.libs && s'.folders == (if marked then Marked(s.folders, s.run.value, s'.now) else s.folders)
         && s'.run == None
       case CollectGarbage(gone) =>
         && s.run.Some? && s.run.value.stage == Finalized
         && s'.libs == s.libs && s'.folders == s.folders - gone && s'.run == s.run
       case End =>
         && s.run.Some? && s.run.value.stage == Finalized
         && s'.libs == (map l | l in s.libs :: if l in s.run.value.libs then Library(None, false) else s.libs[l])
         && s'.folders == s.folders && s'.run == None
       case Crash => s.run.Some? && s'.libs == s.libs && s'.folders == s.folders && s'.run == None
  }

  ghost predicate IsTrace(states: seq<State>, events: seq<Event>) {
    |states| == |events| + 1 && forall i :: 0 <= i < |events| ==> Step(states[i], events[i], states[i + 1])
  }

  // ----- what holds while a full scan is under way ----------------------------------------

  /** The row says: a full scan of `l` began at `t`. */
  predicate FullScanBegan(s: State, l: LibId, t: int) {
    l in s.libs && s.libs[l] == Library(Some(t), true) && t <= s.now
  }

  /** What the running scan knows about a library whose full scan began at `t`. */
  ghost predicate RunCatchesUp(s: State, l: LibId, t: int)
    requires s.run.Some?
  {
    var run := s.run.value;
    && run.fullScan
    && (l in run.jobs ==> l in run.emitted && JobCatchesUp(s, run.jobs[l], t))
    && (l in run.emitted ==> forall f :: f in run.emitted[l] ==>
          (exists hash :: Pending(l, f, hash) in run.pending) || f !in s.folders || s.folders[f].updatedAt >= t)
    && (forall p :: p in run.pending ==> run.stage == Walking)
  }

  /** The job scans fully since `t`, and its notes are not newer than the folders themselves. */
  ghost predicate JobCatchesUp(s: State, job: Job, t: int) {
    && job.full && job.startedAt == t
    && (forall f :: f in job.lastUpdates ==> job.lastUpdates[f].updatedAt <= s.now)
    && (forall f :: f in job.lastUpdates && f in s.folders ==> job.lastUpdates[f].updatedAt <= s.folders[f].updatedAt)
  }

  ghost predicate CatchingUp(s: State, l: LibId, t: int) {
    FullScanBegan(s, l, t) && (s.run.Some? ==> RunCatchesUp(s, l, t)) && FoldersArePast(s)
  }

  ghost predicate FoldersArePast(s: State) { forall f :: f in s.folders ==> s.folders[f].updatedAt <= s.now }

  lemma StartCatchesUp(s: State, e: Event, s': State, l: LibId, t: int)
    requires Step(s, e, s') && e.Start? && CatchingUp(s, l, t)
    ensures CatchingUp(s', l, t)
  {
    assert s.libs[l].full;
  }

  lemma PrepareCatchesUp(s: State, e: Event, s': State, l: LibId, t: int)
    requires Step(s, e, s') && (e.Prepare? || e.PrepareFails? || e.JobFails?) && CatchingUp(s, l, t)
    ensures CatchingUp(s', l, t)
  {
  }

  lemma EmitCatchesUp(s: State, e: Event, s': State, l: LibId, t: int)
    requires Step(s, e, s') && e.Emit? && CatchingUp(s, l, t)
    ensures CatchingUp(s', l, t)
  {
    var run, run' := s.run.value, s'.run.value;
    if l in run.jobs && e.lib == l {
      var job := run.jobs[l];
      assert Selected(job, true, e.folder, e.hash, e.noFiles) ==> Pending(l, e.folder, e.hash) in run'.pending;
    }
    if l in run'.emitted {
      forall f | f in run'.emitted[l]
        ensures (exists hash :: Pending(l, f, hash) in run'.pending) || f !in s'.folders || s'.folders[f].updatedAt >= t
      {
        if f in run.emitted[l] && exists hash :: Pending(l, f, hash) in run.pending {
          var hash :| Pending(l, f, hash) in run.pending;
          assert Pending(l, f, hash) in run'.pending;
        }
      }
    }
  }

  lemma PersistCatchesUp(s: State, e: Event, s': State, l: LibId, t: int)
    requires Step(s, e, s') && e.Persist? && CatchingUp(s, l, t)
    ensures CatchingUp(s', l, t)
  {
    var run, run' := s.run.value, s'.run.value;
    if l in run'.emitted {
      forall f | f in run'.emitted[l]
        ensures (exists hash :: Pending(l, f, hash) in run'.pending) || f !in s'.folders || s'.folders[f].updatedAt >= t
      {
        if exists hash :: Pending(l, f, hash) in run.pending {
          var hash :| Pending(l, f, hash) in run.pending;
          if Pending(l, f, hash) != e.item { assert Pending(l, f, hash) in run'.pending; }
        }
      }
    }
  }

  lemma LateStepCatchesUp(s: State, e: Event, s': State, l: LibId, t: int)
    requires Step(s, e, s') && CatchingUp(s, l, t)
    requires e.WalkBegins? || e.MarkMissing? || e.PhaseFails? || e.CollectGarbage? || e.Crash?
    ensures CatchingUp(s', l, t)
  {
    if e.WalkBegins? {
      var run, run' := s.run.value, s'.run.value;
      assert run'.pending == run.pending && run'.emitted == run.emitted;
    }
  }

  /** Every step but the end of a scan of `l` keeps it catching up. */
  lemma StepCatchesUp(s: State, e: Event, s': State, l: LibId, t: int)
    requires Step(s, e, s') && CatchingUp(s, l, t) && !(e.End? && l in s.run.value.libs)
    ensures CatchingUp(s', l, t)
  {
    match e
    case Start(_) => StartCatchesUp(s, e, s', l, t);
    case Prepare(_) => PrepareCatchesUp(s, e, s', l, t);
    case PrepareFails(_, _) => PrepareCatchesUp(s, e, s', l, t);
    case JobFails(_) => PrepareCatchesUp(s, e, s', l, t);
    case Emit(_, _, _, _) => EmitCatchesUp(s, e, s', l, t);
    case Persist(_) => PersistCatchesUp(s, e, s', l, t);
    case End =>
    case _ => LateStepCatchesUp(s, e, s', l, t);
  }

  /** ScanBegin in a full run starts the clock of the theorem. */
  lemma BeginCatchesUp(s: State, e: Event, s': State, l: LibId)
    requires Step(s, e, s') && e.Prepare? && e.lib == l && FoldersArePast(s)
    requires s.run.value.fullScan && s.libs[l].startedAt.None?
    requires l !in s.run.value.emitted && s.run.value.pending == {}
    ensures CatchingUp(s', l, s'.now)
  {
  }

  ghost predicate NoEndOf(states: seq<State>, events: seq<Event>, l: LibId, from: nat, until: nat)
    requires IsTrace(states, events) && until <= |events|
  {
    forall i :: from <= i < until && events[i].End? && states[i].run.Some? ==> l !in states[i].run.value.libs
  }

  lemma {:induction false} CatchesUpUntilEnd(
      states: seq<State>, events: seq<Event>, l: LibId, t: int, from: nat, until: nat)
    requires IsTrace(states, events) && from <= until <= |events| && CatchingUp(states[from], l, t)
    requires NoEndOf(states, events, l, from, until)
    ensures CatchingUp(states[until], l, t)
    decreases until
  {
    if from < until {
      CatchesUpUntilEnd(states, events, l, t, from, until - 1);
      assert Step(states[until - 1], events[until - 1], states[until]);
      StepCatchesUp(states[until - 1], events[until - 1], states[until], l, t);
    }
  }

  /**
    Once a full scan of `l` is recorded as begun at `t`, then after any number of crashed runs, quick
    or full, the run that ends it leaves every folder it emitted either collected or updated since `t`.
   */
  lemma FullScanIsFinished(states: seq<State>, events: seq<Event>, l: LibId, t: int, from: nat, end: nat)
    requires IsTrace(states, events) && from <= end < |events| && CatchingUp(states[from], l, t)
    requires NoEndOf(states, events, l, from, end)
    requires events[end].End? && states[end].run.Some? && l in states[end].run.value.libs
    ensures var run := states[end].run.value;
            && run.fullScan
            && (l in run.emitted ==> forall f :: f in run.emitted[l] && f in states[end + 1].folders ==>
                  states[end + 1].folders[f].updatedAt >= t)
            && l in states[end + 1].libs && states[end + 1].libs[l] == Library(None, false)
  {
    CatchesUpUntilEnd(states, events, l, t, from, end);
    assert Step(states[end], events[end], states[end + 1]);
    var run := states[end].run.value;
    assert run.pending == {};
  }

  /** While libraries are still being prepared nothing has been emitted for the ones to come. */
  ghost predicate Sane(s: State) {
    && FoldersArePast(s)
    && (s.run.Some? && s.run.value.stage.Preparing? ==>
          s.run.value.pending == {} && s.run.value.emitted.Keys !! s.run.value.stage.todo)
  }

  lemma {:induction false} AlwaysSane(states: seq<State>, events: seq<Event>, n: nat)
    requires IsTrace(states, events) && n < |states| && states[0].run.None? && FoldersArePast(states[0])
    ensures Sane(states[n])
  {
    if n > 0 {
      AlwaysSane(states, events, n - 1);
      assert Step(states[n - 1], events[n - 1], states[n]);
    }
  }

  /** The event at which ScanBegin records a full scan of `l`. */
  ghost predicate BeginsFullScan(s: State, e: Event, l: LibId) {
    e == Prepare(l) && s.run.Some? && s.run.value.fullScan && l in s.libs && s.libs[l].startedAt.None?
  }

  /**
    The whole story, from a database at rest: whichever event records the full scan, the run that
    ends it has brought every folder it emitted up to that moment.
   */
  lemma BegunFullScanIsFinished(states: seq<State>, events: seq<Event>, l: LibId, begin: nat, end: nat)
    requires IsTrace(states, events) && begin < end < |events|
    requires states[0].run.None? && FoldersArePast(states[0])
    requires BeginsFullScan(states[begin], events[begin], l)
    requires NoEndOf(states, events, l, begin + 1, end)
    requires events[end].End? && states[end].run.Some? && l in states[end].run.value.libs
    ensures states[begin + 1].libs[l] == Library(Some(states[begin + 1].now), true)
    ensures var run := states[end].run.value;
            l in run.emitted ==> forall f :: f in run.emitted[l] && f in states[end + 1].folders ==>
              states[end + 1].folders[f].updatedAt >= states[begin + 1].now
  {
    AlwaysSane(states, events, begin);
    assert Step(states[begin], events[begin], states[begin + 1]);
    BeginCatchesUp(states[begin], events[begin], states[begin + 1], l);
    FullScanIsFinished(states, events, l, states[begin + 1].now, begin + 1, end);
  }

  // ----- the limits of the guarantee ------------------------------------------------------

  /** ScanBegin is called for `l`, whatever fails afterwards. */
  predicate Begins(e: Event, l: LibId) { e == Prepare(l) || e == PrepareFails(l, true) || e == JobFails(l) }

  ghost predicate Reached(events: seq<Event>, l: LibId, from: nat, until: nat) {
    exists i :: from < i < until && i < |events| && Begins(events[i], l)
  }

  /** The run is over. */
  predicate Stops(e: Event) { e.End? || e.Crash? || e.PhaseFails? }

  /** The library rows in the midst of a run that was asked to be full. */
  ghost predicate RowsOfFullRun(s0: State, s: State, events: seq<Event>, from: nat, n: nat) {
    && s.run.Some? && s.run.value.fullScan && s.libs.Keys == s0.libs.Keys
    && forall l :: l in s0.libs ==>
         if s0.libs[l].startedAt.None? && Reached(events, l, from, n)
         then s.libs[l].startedAt.Some? && s.libs[l].full
         else s.libs[l] == s0.libs[l]
  }

  lemma {:induction false} FullRunRows(states: seq<State>, events: seq<Event>, from: nat, n: nat)
    requires IsTrace(states, events) && from < n <= |events| && events[from] == Start(true)
    requires forall i :: from < i < n ==> !Stops(events[i])
    ensures RowsOfFullRun(states[from], states[n], events, from, n)
    decreases n
  {
    assert Step(states[n - 1], events[n - 1], states[n]);
    if from < n - 1 {
      FullRunRows(states, events, from, n - 1);
      forall l ensures Reached(events, l, from, n) <==> Reached(events, l, from, n - 1) || Begins(events[n - 1], l) {
        if Begins(events[n - 1], l) { assert from < n - 1 < n; }
      }
      FullRunStep(states[from], states[n - 1], events, from, n - 1, states[n]);
    }
  }

  lemma FullRunStep(s0: State, s: State, events: seq<Event>, from: nat, n: nat, s': State)
    requires n < |events| && RowsOfFullRun(s0, s, events, from, n) && Step(s, events[n], s') && !Stops(events[n])
    requires forall l :: Reached(events, l, from, n + 1) <==> Reached(events, l, from, n) || Begins(events[n], l)
    ensures RowsOfFullRun(s0, s', events, from, n + 1)
  {
    hide Reached;
    var e := events[n];
    assert s'.run.Some? && s'.run.value.fullScan;
    assert s'.libs == s.libs || exists l :: Begins(e, l) && l in s.libs && s'.libs == s.libs[l := Begun(s.libs[l], s'.now, true)];
  }

  /**
    A full request, cut short, is taken up by the next quick run exactly when some library already had
    a full scan under way, or had none and ScanBegin was reached for it.
   */
  lemma FullRequestSurvivesIff(states: seq<State>, events: seq<Event>, from: nat, cut: nat)
    requires IsTrace(states, events) && from < cut && cut + 1 < |events|
    requires events[from] == Start(true) && events[cut + 1] == Start(false)
    requires (forall i :: from < i < cut ==> !Stops(events[i])) && (events[cut].Crash? || events[cut].PhaseFails?)
    ensures states[from + 1].run.value.fullScan
    ensures states[cut + 2].run.value.fullScan <==>
            exists l :: l in states[from].libs &&
              (states[from].libs[l].full || (states[from].libs[l].startedAt.None? && Reached(events, l, from, cut)))
  {
    FullRunRows(states, events, from, cut);
    assert Step(states[from], events[from], states[from + 1]);
    assert Step(states[cut], events[cut], states[cut + 1]);
    assert Step(states[cut + 1], events[cut + 1], states[cut + 2]);
    assert forall l :: l in states[from].libs ==>
      (states[cut].libs[l].full <==>
        states[from].libs[l].full || (states[from].libs[l].startedAt.None? && Reached(events, l, from, cut)));
  }

  /** Over interrupted quick scans alone, a full request is forgotten by the next crash or failure. */
  lemma CrashForgetsFullRequest(states: seq<State>, events: seq<Event>, from: nat, cut: nat)
    requires IsTrace(states, events) && from < cut && cut + 1 < |events|
    requires events[from] == Start(true) && events[cut + 1] == Start(false)
    requires (forall i :: from < i < cut ==> !Stops(events[i])) && (events[cut].Crash? || events[cut].PhaseFails?)
    requires forall l :: l in states[from].libs ==> states[from].libs[l].startedAt.Some? && !states[from].libs[l].full
    ensures states[from + 1].run.value.fullScan && !states[cut + 2].run.value.fullScan
  {
    FullRequestSurvivesIff(states, events, from, cut);
  }

  // ----- which folders are processed --------------------------------------------------------

  /** A job that is not full passes over every folder whose hash is unchanged, however old. */
  lemma QuickJobSkipsUnchanged(job: Job, fullScan: bool, f: FolderId, hash: string, noFiles: bool)
    requires f in job.lastUpdates && job.lastUpdates[f].hash == hash
    ensures Selected(job, fullScan, f, hash, noFiles) <==> job.full && job.lastUpdates[f].updatedAt < job.startedAt
  {
  }

  /** A known folder whose hash has changed is selected by every job. */
  lemma ChangedIsSelected(job: Job, fullScan: bool, f: FolderId, hash: string, noFiles: bool)
    requires f in job.lastUpdates && job.lastUpdates[f].hash != hash
    ensures Selected(job, fullScan, f, hash, noFiles)
  {
  }

  /** A new folder is selected unless a quick scan finds no files in it. */
  lemma NewIsSelectedIff(job: Job, fullScan: bool, f: FolderId, hash: string, noFiles: bool)
    requires f !in job.lastUpdates && hash != ""
    ensures Selected(job, fullScan, f, hash, noFiles) <==> fullScan || !noFiles
  {
  }

  /** What an emitted folder must be to need processing, by what the job knew of it. */
  predicate NeedsProcessing(job: Job, f: FolderId, hash: string, noFiles: bool) {
    if f in job.lastUpdates then job.lastUpdates[f].hash != hash else !noFiles && hash != ""
  }

  /** A pending folder stays pending until it is persisted. */
  lemma {:induction false} PendingUntilPersisted(states: seq<State>, events: seq<Event>, item: Pending, from: nat, m: nat)
      returns (p: nat)
    requires IsTrace(states, events) && from <= m <= |events| && states[from].run.Some? && item in states[from].run.value.pending
    requires forall i :: from <= i < m ==> !Stops(events[i])
    requires states[m].run.Some? && item !in states[m].run.value.pending
    ensures from <= p < m && events[p] == Persist(item)
    decreases m
  {
    assert from < m;
    assert Step(states[m - 1], events[m - 1], states[m]);
    RunKeepsOn(states, events, from, m - 1);
    if item in states[m - 1].run.value.pending {
      PendingLost(states[m - 1], events[m - 1], states[m], item);
      p := m - 1;
    } else {
      p := PendingUntilPersisted(states, events, item, from, m - 1);
    }
  }

  lemma PendingLost(s: State, e: Event, s': State, item: Pending)
    requires Step(s, e, s') && s.run.Some? && s'.run.Some? && item in s.run.value.pending && item !in s'.run.value.pending
    ensures e == Persist(item)
  {
  }

  lemma {:induction false} RunKeepsOn(states: seq<State>, events: seq<Event>, from: nat, m: nat)
    requires IsTrace(states, events) && from <= m <= |events| && states[from].run.Some?
    requires forall i :: from <= i < m ==> !Stops(events[i])
    ensures states[m].run.Some?
    decreases m
  {
    if from < m {
      RunKeepsOn(states, events, from, m - 1);
      assert Step(states[m - 1], events[m - 1], states[m]);
    }
  }

  /**
    In every run, quick or full, that comes to mark missing folders: each folder it emitted whose hash
    differs from the one known, or that is new and has files, has by then been persisted, present and
    with the hash emitted.
   */
  lemma ChangedFolderIsPersisted(states: seq<State>, events: seq<Event>, e: nat, m: nat) returns (p: nat)
    requires IsTrace(states, events) && e < m < |events| && events[e].Emit? && events[m].MarkMissing?
    requires forall i :: e <= i < m ==> !Stops(events[i])
    requires states[e].run.Some? && events[e].lib in states[e].run.value.jobs
    requires NeedsProcessing(states[e].run.value.jobs[events[e].lib], events[e].folder, events[e].hash, events[e].noFiles)
    ensures e < p < m && events[p] == Persist(Pending(events[e].lib, events[e].folder, events[e].hash))
    ensures events[e].folder in states[p + 1].folders
    ensures states[p + 1].folders[events[e].folder] == Folder(events[e].lib, states[p + 1].now, events[e].hash, false)
  {
    var item := Pending(events[e].lib, events[e].folder, events[e].hash);
    assert Step(states[e], events[e], states[e + 1]);
    EmittedIsPending(states[e], events[e], states[e + 1]);
    RunKeepsOn(states, events, e + 1, m);
    assert Step(states[m], events[m], states[m + 1]);
    p := PendingUntilPersisted(states, events, item, e + 1, m);
    assert Step(states[p], events[p], states[p + 1]);
  }

  lemma EmittedIsPending(s: State, e: Event, s': State)
    requires Step(s, e, s') && e.Emit? && NeedsProcessing(s.run.value.jobs[e.lib], e.folder, e.hash, e.noFiles)
    ensures s'.run.Some? && Pending(e.lib, e.folder, e.hash) in s'.run.value.pending
  {
  }

  /** Every job dates from its library's row, and is full if the run or the row says so. */
  ghost predicate JobsFollow(s: State) {
    s.run.Some? ==> forall l :: l in s.run.value.jobs ==> Follows(s, l)
  }

  ghost predicate Follows(s: State, l: LibId)
    requires s.run.Some? && l in s.run.value.jobs
  {
    l in s.libs && s.libs[l].startedAt == Some(s.run.value.jobs[l].startedAt) &&
    (s.run.value.jobs[l].full <==> s.run.value.fullScan || s.libs[l].full)
  }

  lemma {:induction false} JobsAlwaysFollow(states: seq<State>, events: seq<Event>, n: nat)
    requires IsTrace(states, events) && n < |states| && states[0].run.None?
    ensures JobsFollow(states[n])
  {
    if n > 0 {
      JobsAlwaysFollow(states, events, n - 1);
      assert Step(states[n - 1], events[n - 1], states[n]);
    }
  }

  /**
    A full run, also one that takes up interrupted quick scans, leaves no old folder behind: when it comes
    to mark missing folders, each one emitted that was unknown or not updated since its library's scan
    began has been persisted.
   */
  lemma FullRunPersistsOld(states: seq<State>, events: seq<Event>, e: nat, m: nat) returns (p: nat)
    requires IsTrace(states, events) && e < m < |events| && events[e].Emit? && events[m].MarkMissing?
    requires forall i :: e <= i < m ==> !Stops(events[i])
    requires states[0].run.None? && states[e].run.Some? && states[e].run.value.fullScan
    requires events[e].lib in states[e].run.value.jobs && events[e].lib in states[e].libs
    requires var known := states[e].run.value.jobs[events[e].lib].lastUpdates;
             events[e].folder !in known ||
             exists t :: states[e].libs[events[e].lib].startedAt == Some(t) && known[events[e].folder].updatedAt < t
    ensures e < p < m && events[p] == Persist(Pending(events[e].lib, events[e].folder, events[e].hash))
  {
    var item := Pending(events[e].lib, events[e].folder, events[e].hash);
    JobsAlwaysFollow(states, events, e);
    assert Step(states[e], events[e], states[e + 1]) && Follows(states[e], events[e].lib);
    RunKeepsOn(states, events, e + 1, m);
    assert Step(states[m], events[m], states[m + 1]);
    p := PendingUntilPersisted(states, events, item, e + 1, m);
  }

  /** What is left of a job's notes: what it knew at first, less what was emitted since. */
  ghost predicate NotesOf(s: State, l: LibId, known: set<FolderId>) {
    s.run.Some? && l in s.run.value.jobs && l in s.run.value.emitted &&
    s.run.value.jobs[l].lastUpdates.Keys == known - s.run.value.emitted[l]
  }

  lemma NotesStep(s: State, e: Event, s': State, l: LibId, known: set<FolderId>)
    requires Step(s, e, s') && NotesOf(s, l, known) && !Stops(e) && e != Prepare(l)
    ensures NotesOf(s', l, known)
  {
  }

  lemma {:induction false} NotesUntil(states: seq<State>, events: seq<Event>, l: LibId, begin: nat, m: nat)
    requires IsTrace(states, events) && begin < m <= |events| && events[begin] == Prepare(l)
    requires forall i :: begin < i < m ==> !Stops(events[i]) && events[i] != Prepare(l)
    ensures l in states[begin].libs && NotesOf(states[m], l, KnownFolders(states[begin].folders, l).Keys)
    decreases m
  {
    assert Step(states[m - 1], events[m - 1], states[m]);
    if begin < m - 1 {
      NotesUntil(states, events, l, begin, m - 1);
      NotesStep(states[m - 1], events[m - 1], states[m], l, KnownFolders(states[begin].folders, l).Keys);
    } else {
      assert KnownFolders(states[begin].folders, l).Keys - {} == KnownFolders(states[begin].folders, l).Keys;
    }
  }

  /** Until folders are marked: a job's notes are of its own library's folders, and nothing pending is still noted. */
  ghost predicate JobsOwn(s: State) {
    s.run.Some? && !s.run.value.stage.Finalized? ==>
      && (forall k, f :: k in s.run.value.jobs && f in s.run.value.jobs[k].lastUpdates ==>
            f in s.folders && s.folders[f].lib == k)
      && (forall p, k :: p in s.run.value.pending && k in s.run.value.jobs ==> p.folder !in s.run.value.jobs[k].lastUpdates)
      && (s.run.value.stage.Preparing? ==> s.run.value.pending == {})
  }

  lemma JobsOwnStep(s: State, e: Event, s': State)
    requires Step(s, e, s') && JobsOwn(s)
    ensures JobsOwn(s')
  {
  }

  lemma {:induction false} JobsAlwaysOwn(states: seq<State>, events: seq<Event>, n: nat)
    requires IsTrace(states, events) && n < |states| && states[0].run.None?
    ensures JobsOwn(states[n])
  {
    if n > 0 {
      JobsAlwaysOwn(states, events, n - 1);
      assert Step(states[n - 1], events[n - 1], states[n]);
      JobsOwnStep(states[n - 1], events[n - 1], states[n]);
    }
  }

  /**
    In every trace, a folder of a library the run has prepared is marked missing exactly when it was
    known as present at the beginning and has not been emitted; what was missing stays so.
   */
  lemma MarkedIffNotEmitted(states: seq<State>, events: seq<Event>, l: LibId, begin: nat, m: nat, f: FolderId)
    requires IsTrace(states, events) && begin < m < |events| && events[begin] == Prepare(l) && events[m].MarkMissing?
    requires forall i :: begin < i < m ==> !Stops(events[i]) && events[i] != Prepare(l)
    requires states[0].run.None? && f in states[m].folders && states[m].folders[f].lib == l
    ensures states[m].run.Some? && l in states[m].run.value.emitted && f in states[m + 1].folders
    ensures states[m + 1].folders[f].missing <==>
            states[m].folders[f].missing ||
            (f in KnownFolders(states[begin].folders, l) && f !in states[m].run.value.emitted[l])
  {
    NotesUntil(states, events, l, begin, m);
    JobsAlwaysOwn(states, events, m);
    assert Step(states[m], events[m], states[m + 1]);
    var run := states[m].run.value;
    assert f in Leftovers(run) <==> f in run.jobs[l].lastUpdates;
  }

  // ----- every run can be finished ----------------------------------------------------------

  ghost predicate TodoIsKnown(s: State) {
    s.run.Some? && s.run.value.stage.Preparing? ==> s.run.value.stage.todo <= s.libs.Keys
  }

  lemma {:induction false} TodoAlwaysKnown(states: seq<State>, events: seq<Event>, n: nat)
    requires IsTrace(states, events) && n < |states| && states[0].run.None?
    ensures TodoIsKnown(states[n])
  {
    if n > 0 {
      TodoAlwaysKnown(states, events, n - 1);
      assert Step(states[n - 1], events[n - 1], states[n]);
    }
  }

  /** What is left to do when nothing fails and nothing else is found. */
  function Left(run: Run): nat {
    match run.stage
    case Preparing(todo) => |todo| + |run.pending| + 2
    case Walking => |run.pending| + 1
    case Finalized => 0
  }

  lemma PrepareNext(s: State, l: LibId) returns (e: Event, s': State)
    requires s.run.Some? && TodoIsKnown(s) && s.run.value.stage.Preparing? && l in s.run.value.stage.todo
    ensures Step(s, e, s') && Onward(s, s')
  {
    var run := s.run.value;
    var libs := s.libs[l := Begun(s.libs[l], s.now, run.fullScan)];
    var job := NewJob(libs[l], l, run.fullScan, s.folders);
    e := Prepare(l);
    s' := s.(libs := libs,
             run := Some(run.(stage := Preparing(run.stage.todo - {l}), jobs := run.jobs[l := job],
                              emitted := run.emitted[l := {}])));
  }

  lemma PersistNext(s: State, item: Pending) returns (e: Event, s': State)
    requires s.run.Some? && s.run.value.stage.Walking? && item in s.run.value.pending
    ensures Step(s, e, s') && Onward(s, s')
  {
    e := Persist(item);
    s' := s.(folders := s.folders[item.folder := Folder(item.lib, s.now, item.hash, false)],
             run := Some(s.run.value.(pending := s.run.value.pending - {item})));
  }

  /** The run goes on for the same libraries, with less left to do. */
  ghost predicate Onward(s: State, s': State)
    requires s.run.Some?
  {
    s'.run.Some? && TodoIsKnown(s') && s'.libs.Keys == s.libs.Keys && s'.run.value.libs == s.run.value.libs &&
    Left(s'.run.value) < Left(s.run.value)
  }

  lemma Pick(todo: set<LibId>) returns (l: LibId)
    requires todo != {}
    ensures l in todo
  {
    if forall x :: x !in todo { assert false; }
    l :| l in todo;
  }

  lemma PrepareOrWalk(s: State, todo: set<LibId>) returns (e: Event, s': State)
    requires s.run.Some? && TodoIsKnown(s) && s.run.value.stage == Preparing(todo)
    ensures Step(s, e, s') && Onward(s, s')
  {
    if todo == {} {
      e, s' := WalkBegins, s.(run := Some(s.run.value.(stage := Walking)));
    } else {
      var l := Pick(todo);
      e, s' := PrepareNext(s, l);
    }
  }

  lemma StepOnward(s: State) returns (e: Event, s': State)
    requires s.run.Some? && TodoIsKnown(s) && !s.run.value.stage.Finalized?
    ensures Step(s, e, s') && Onward(s, s')
  {
    var run := s.run.value;
    if run.stage.Walking? && run.pending != {} {
      var item :| item in run.pending;
      e, s' := PersistNext(s, item);
    } else if run.stage.Walking? {
      e, s' := MarkMissing, s.(folders := Marked(s.folders, run, s.now), run := Some(run.(stage := Finalized)));
    } else {
      e, s' := PrepareOrWalk(s, run.stage.todo);
    }
  }

  /** The state was reached, and from here the libraries of the run are at rest in the end. */
  ghost predicate Finishes(s: State, states: seq<State>, events: seq<Event>) {
    && IsTrace(states, events) && states[0] == s && events != [] && events[|events| - 1].End? && states[|events|].run.None?
    && s.run.Some? && states[|events|].libs.Keys == s.libs.Keys
    && forall l :: l in s.run.value.libs && l in s.libs ==> states[|events|].libs[l] == Library(None, false)
  }

  lemma {:induction false} CanFinish(s: State) returns (states: seq<State>, events: seq<Event>)
    requires s.run.Some? && TodoIsKnown(s)
    ensures Finishes(s, states, events)
    decreases Left(s.run.value)
  {
    if s.run.value.stage.Finalized? {
      var libs := map l | l in s.libs :: if l in s.run.value.libs then Library(None, false) else s.libs[l];
      states, events := [s, s.(libs := libs, run := None)], [End];
    } else {
      var e, s' := StepOnward(s);
      var rest, more := CanFinish(s');
      states, events := [s] + rest, [e] + more;
      Prepended(s, e, rest, more);
    }
  }

  lemma Prepended(s: State, e: Event, rest: seq<State>, more: seq<Event>)
    requires IsTrace(rest, more) && Step(s, e, rest[0])
    ensures IsTrace([s] + rest, [e] + more)
  {
    hide Step;
    forall i | 0 <= i < |[e] + more| ensures Step(([s] + rest)[i], ([e] + more)[i], ([s] + rest)[i + 1]) {
      if i > 0 { assert Step(rest[i - 1], more[i - 1], rest[i]); }
    }
  }

  /** Whatever crashes, failures and scans came before: a run under way can be brought to its end. */
  lemma EveryRunCanFinish(states: seq<State>, events: seq<Event>) returns (onward: seq<State>, more: seq<Event>)
    requires IsTrace(states, events) && states[0].run.None? && states[|events|].run.Some?
    ensures Finishes(states[|events|], onward, more)
  {
    TodoAlwaysKnown(states, events, |events|);
    onward, more := CanFinish(states[|events|]);
  }
}
