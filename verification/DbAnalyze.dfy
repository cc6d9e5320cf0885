/**
  The database-analysis scheduler: four persisted properties (a pending mark, a failure count and two
  times) that survive failing statements and crashes between any two of them.
 */
module DbAnalyze {
  import opened Prelude

  /** Times and durations in nanoseconds. */
  type Time = int

  const MINUTE: int := 60_000_000_000
  const HOUR: int := 60 * MINUTE
  const MAX_AGE: int := 24 * HOUR

  /** A stored time can be unparsable text. */
  datatype Stamp = At(t: Time) | Garbled

  /** Properties may be absent.  `pending` is whether the value is "1"; text that is no number counts 0 failures. */
  datatype Props = Props(pending: Option<bool>, failures: Option<int>, analyzed: Option<Stamp>, attempted: Option<Stamp>)

  function RetryDelay(failures: int): int {
    if failures == 1 then 30 * MINUTE
    else if failures == 2 then HOUR
    else if failures == 3 then 2 * HOUR
    else 24 * HOUR
  }

  /** A stored time that is valid and not in the future. */
  predicate Past(s: Option<Stamp>, now: Time) { s.Some? && s.value.At? && s.value.t <= now }

  predicate BackingOff(p: Props, now: Time) {
    p.failures.Some? && p.failures.value >= 1 && Past(p.attempted, now) &&
    now - p.attempted.value.t < RetryDelay(p.failures.value)
  }

  predicate Due(p: Props, now: Time) {
    !BackingOff(p, now) &&
    (p.pending == Some(true) || !Past(p.analyzed, now) || now - p.analyzed.value.t >= MAX_AGE)
  }

  // ----- what has happened ------------------------------------------------------------------

  /** The log of what was recorded: requests and the outcomes of attempts, scheduled or asked for. */
  datatype Event = Requested | Failed(at: Time, scheduled: bool) | Succeeded(at: Time, scheduled: bool)

  function Record(p: Props, e: Event): Props {
    match e
    case Requested => p.(pending := Some(true))
    case Failed(at, _) =>
      var before := if p.failures.Some? && p.failures.value > 0 then p.failures.value else 0;
      Props(Some(true), Some(before + 1), p.analyzed, Some(At(at)))
    case Succeeded(at, _) => Props(Some(false), Some(0), Some(At(at)), p.attempted)
  }

  const BLANK := Props(None, None, None, None)

  function Replay(log: seq<Event>): Props {
    if log == [] then BLANK else Record(Replay(log[..|log| - 1]), log[|log| - 1])
  }

  /** Recorded failures since the last recorded success. */
  function FailuresInARow(log: seq<Event>): nat {
    if log == [] then 0
    else
      var last := log[|log| - 1];
      if last.Succeeded? then 0 else FailuresInARow(log[..|log| - 1]) + if last.Failed? then 1 else 0
  }

  function LastFailure(log: seq<Event>): Option<Time> {
    if log == [] then None
    else if log[|log| - 1].Failed? then Some(log[|log| - 1].at) else LastFailure(log[..|log| - 1])
  }

  function LastSuccess(log: seq<Event>): Option<Time> {
    if log == [] then None
    else if log[|log| - 1].Succeeded? then Some(log[|log| - 1].at) else LastSuccess(log[..|log| - 1])
  }

  /** The four properties are a summary of the whole log. */
  lemma {:induction false} PropsSummarise(log: seq<Event>)
    ensures var p := Replay(log);
            && (p.pending == Some(true) <==> log != [] && !log[|log| - 1].Succeeded?)
            && (FailuresInARow(log) == if p.failures.Some? then p.failures.value else 0)
            && p.attempted == Stamped(LastFailure(log))
            && p.analyzed == Stamped(LastSuccess(log))
  {
    if log != [] { PropsSummarise(log[..|log| - 1]); }
  }

  function Stamped(t: Option<Time>): Option<Stamp> { if t.Some? then Some(At(t.value)) else None }

  /** Nothing but a later success clears a request. */
  lemma RequestNeverLost(log: seq<Event>, i: nat)
    requires i < |log| && log[i].Requested? && forall j :: i < j < |log| ==> !log[j].Succeeded?
    ensures Replay(log).pending == Some(true)
  {
    PropsSummarise(log);
  }

  lemma {:induction false} FailureIsPending(log: seq<Event>)
    ensures Replay(log).failures.Some? && Replay(log).failures.value >= 1 ==> Replay(log).pending == Some(true)
  {
    if log != [] { FailureIsPending(log[..|log| - 1]); }
  }

  /** At `now` the wait after the last failure is over. */
  predicate WaitedEnough(log: seq<Event>, now: Time) {
    FailuresInARow(log) >= 1 && LastFailure(log).Some? && LastFailure(log).value <= now ==>
      now - LastFailure(log).value >= RetryDelay(FailuresInARow(log))
  }

  /** A day has passed since the last success and since the last recorded failure. */
  predicate QuietForADay(log: seq<Event>, now: Time) {
    (LastSuccess(log).Some? ==> LastSuccess(log).value + MAX_AGE <= now) &&
    (LastFailure(log).Some? ==> LastFailure(log).value + MAX_AGE <= now)
  }

  lemma BackoffIsTheWait(log: seq<Event>, now: Time)
    ensures BackingOff(Replay(log), now) <==> !WaitedEnough(log, now)
  {
    PropsSummarise(log);
    FailureHasATime(log);
  }

  lemma {:induction false} FailureHasATime(log: seq<Event>)
    ensures FailuresInARow(log) >= 1 ==> LastFailure(log).Some?
  {
    if log != [] { FailureHasATime(log[..|log| - 1]); }
  }

  /** Half an hour after one failure, an hour after two, two after three, and a day after any more. */
  lemma WaitIs(log: seq<Event>, now: Time)
    requires LastFailure(log).Some? && LastFailure(log).value <= now
    ensures var since, k := now - LastFailure(log).value, FailuresInARow(log);
            WaitedEnough(log, now) <==>
            k == 0 || since >= (if k == 1 then 1_800_000_000_000 else if k == 2 then 3_600_000_000_000
                                else if k == 3 then 7_200_000_000_000 else 86_400_000_000_000)
  {
  }

  /**
    An analysis is due exactly when the wait after the last failure is over and a request or failure
    came last, or there was no success, or it lies a day back or in the future.
   */
  lemma DueIff(log: seq<Event>, now: Time)
    ensures Due(Replay(log), now) <==>
            WaitedEnough(log, now) &&
            (|| (log != [] && !log[|log| - 1].Succeeded?)
             || LastSuccess(log).None?
             || LastSuccess(log).value > now
             || now - LastSuccess(log).value >= 86_400_000_000_000)
  {
    PropsSummarise(log);
    BackoffIsTheWait(log, now);
  }

  lemma DueAfterADay(log: seq<Event>, now: Time)
    requires QuietForADay(log, now)
    ensures Due(Replay(log), now)
  {
    PropsSummarise(log);
    assert forall k :: RetryDelay(k) <= MAX_AGE;
  }

  /** Every scheduled attempt that left a record came after the wait its predecessors imposed. */
  ghost predicate Paced(log: seq<Event>) {
    forall i :: 0 <= i < |log| && !log[i].Requested? && log[i].scheduled ==> WaitedEnough(log[..i], log[i].at)
  }

  lemma PacedGrows(log: seq<Event>, e: Event)
    requires Paced(log) && (!e.Requested? && e.scheduled ==> WaitedEnough(log, e.at))
    ensures Paced(log + [e])
  {
    var more := log + [e];
    forall i | 0 <= i < |more| && !more[i].Requested? && more[i].scheduled ensures WaitedEnough(more[..i], more[i].at) {
      if i < |log| {
        assert more[i] == log[i] && more[..i] == log[..i];
      } else {
        assert more[..i] == log;
      }
    }
  }

  lemma RequestKeepsTheWait(log: seq<Event>, now: Time)
    ensures WaitedEnough(log + [Requested], now) <==> WaitedEnough(log, now)
  {
    assert (log + [Requested])[..|log|] == log;
  }

  lemma ReplayGrows(log: seq<Event>, e: Event)
    ensures Replay(log + [e]) == Record(Replay(log), e)
  {
    assert (log + [e])[..|log|] == log;
  }

  // ----- the scheduler --------------------------------------------------------------------

  /** How a statement or transaction ends: it takes effect, fails, or the process dies before it. */
  datatype Fate = Works | Fails | Crashes

  datatype Reads = Reads(failures: bool, attempted: bool, pending: bool, analyzed: bool)

  predicate AllRead(r: Reads) { r.failures && r.attempted && r.pending && r.analyzed }

  datatype Fates = Fates(readable: Reads, mark: Fate, analyze: Fate, success: Fate, failure: Fate)

  datatype Outcome = NotDue | Analyzed | Error | Crashed

  /** One call, at the time it reads from the clock. */
  datatype Op = MarkPending(fate: Fate) | Analyze(at: Time, fates: Fates) | CheckSchedule(at: Time, fates: Fates)

  class Scheduler {
    var props: Props
    ghost var log: seq<Event>

    ghost predicate Valid()
      reads this
    {
      props == Replay(log) && Paced(log)
    }

    constructor ()
      ensures Valid() && log == []
    {
      props, log := BLANK, [];
    }

    ghost method Log(e: Event)
      requires props == Record(Replay(log), e) && Paced(log)
      requires !e.Requested? && e.scheduled ==> WaitedEnough(log, e.at)
      modifies this`log
      ensures Valid() && log == old(log) + [e]
    {
      ReplayGrows(log, e);
      PacedGrows(log, e);
      log := log + [e];
    }

    method MarkOptimizePending(fate: Fate)
      requires Valid()
      modifies this
      ensures Valid() && log == if fate.Works? then old(log) + [Requested] else old(log)
    {
      if fate.Works? {
        props := props.(pending := Some(true));
        Log(Requested);
      }
    }

    /** One transaction: the time is recorded and the mark and the count are cleared, or nothing is. */
    method RecordSuccess(now: Time, fate: Fate, ghost scheduled: bool)
      requires Valid() && (scheduled ==> WaitedEnough(log, now))
      modifies this
      ensures Valid() && log == if fate.Works? then old(log) + [Succeeded(now, scheduled)] else old(log)
    {
      if fate.Works? {
        props := props.(analyzed := Some(At(now)));
        props := props.(pending := Some(false));
        props := props.(failures := Some(0));
        Log(Succeeded(now, scheduled));
      }
    }

    method RecordFailure(now: Time, fate: Fate, ghost scheduled: bool)
      requires Valid() && (scheduled ==> WaitedEnough(log, now))
      modifies this
      ensures Valid() && log == if fate.Works? then old(log) + [Failed(now, scheduled)] else old(log)
    {
      if fate.Works? {
        var failures := 0;
        if props.failures.Some? {
          failures := props.failures.value;
          failures := if failures > 0 then failures else 0;
        }
        props := props.(pending := Some(true));
        props := props.(failures := Some(failures + 1));
        props := props.(attempted := Some(At(now)));
        Log(Failed(now, scheduled));
      }
    }

    /** One attempt.  Whatever fails or crashes, what it leaves behind is a growing log faithfully summarised. */
    method OptimizeAt(now: Time, f: Fates, ghost scheduled: bool) returns (r: Outcome)
      requires Valid() && (scheduled ==> WaitedEnough(log, now))
      modifies this
      ensures Valid() && log == old(log) + AttemptEvents(now, f, scheduled)
      ensures r == if AttemptCrashes(f) then Crashed else if AttemptSucceeds(f) then Analyzed else Error
    {
      RequestKeepsTheWait(log, now);
      if f.mark.Crashes? { return Crashed; }
      MarkOptimizePending(f.mark);
      var ok := f.mark.Works?;
      if ok {
        if f.analyze.Crashes? { return Crashed; }
        ok := f.analyze.Works?;
      }
      if ok {
        if f.success.Crashes? { return Crashed; }
        RecordSuccess(now, f.success, scheduled);
        ok := f.success.Works?;
      }
      if !ok {
        if f.failure.Crashes? { return Crashed; }
        RecordFailure(now, f.failure, scheduled);
        return Error;
      }
      r := Analyzed;
    }

    /** A failing read gives no verdict, and so no attempt. */
    method OptimizeDue(now: Time, readable: Reads) returns (due: bool)
      ensures due ==> Due(props, now)
      ensures AllRead(readable) ==> due == Due(props, now)
    {
      if !readable.failures { return false; }
      if props.failures.Some? && props.failures.value >= 1 {
        if !readable.attempted { return false; }
        if props.attempted.Some? {
          var s := props.attempted.value;
          if s.At? && s.t <= now && now - s.t < RetryDelay(props.failures.value) { return false; }
        }
      }
      if !readable.pending { return false; }
      if props.pending == Some(true) { return true; }
      if !readable.analyzed { return false; }
      if props.analyzed.None? { return true; }
      var last := props.analyzed.value;
      if last.Garbled? || last.t > now { return true; }
      due := now - last.t >= MAX_AGE;
    }

    /**
      The scheduled check never attempts before the wait after the last failure is over, and always
      does once a day has passed since both the last success and the last recorded failure.
     */
    method OptimizeIfNeeded(now: Time, f: Fates) returns (r: Outcome)
      requires Valid()
      modifies this
      ensures Valid()
      ensures log == old(log) + if r.NotDue? then [] else AttemptEvents(now, f, true)
      ensures !r.NotDue? ==> WaitedEnough(old(log), now)
      ensures AllRead(f.readable) && QuietForADay(old(log), now) ==> !r.NotDue?
      ensures AllRead(f.readable) ==> (r.NotDue? <==> !Due(Replay(old(log)), now))
    {
      BackoffIsTheWait(log, now);
      if QuietForADay(log, now) { DueAfterADay(log, now); }
      var due := OptimizeDue(now, f.readable);
      if !due { return NotDue; }
      r := OptimizeAt(now, f, true);
    }

    /**
      Any calls in any order, each holding the mutex; a crash only cuts the call short.  A request
      that was accepted is still pending unless a success was recorded after it.
     */
    method Run(ops: seq<Op>) returns (ghost marks: seq<nat>)
      requires Valid()
      modifies this
      ensures Valid() && old(log) <= log && |marks| == |ops|
      ensures forall i :: 0 <= i < |ops| && ops[i] == MarkPending(Works) ==>
                            && |old(log)| <= marks[i] < |log| && log[marks[i]] == Requested
                            && (props.pending == Some(true) || exists j :: marks[i] < j < |log| && log[j].Succeeded?)
    {
      marks := [];
      for i := 0 to |ops|
        invariant Valid() && old(log) <= log && |marks| == i
        invariant forall j :: 0 <= j < i && ops[j] == MarkPending(Works) ==>
                                |old(log)| <= marks[j] < |log| && log[marks[j]] == Requested
      {
        marks := marks + [|log|];
        match ops[i] {
          case MarkPending(fate) => MarkOptimizePending(fate);
          case Analyze(at, fates) => var _ := OptimizeAt(at, fates, false);
          case CheckSchedule(at, fates) => var _ := OptimizeIfNeeded(at, fates);
        }
      }
      forall i | 0 <= i < |ops| && ops[i] == MarkPending(Works)
        ensures props.pending == Some(true) || exists j :: marks[i] < j < |log| && log[j].Succeeded?
      {
        if forall j :: marks[i] < j < |log| ==> !log[j].Succeeded? { RequestNeverLost(log, marks[i]); }
      }
    }
  }

  /** The attempt's statements up to the one that did not work. */
  predicate AttemptSucceeds(f: Fates) { f.mark.Works? && f.analyze.Works? && f.success.Works? }

  predicate AttemptCrashes(f: Fates) {
    || f.mark.Crashes?
    || (f.mark.Works? && f.analyze.Crashes?)
    || (f.mark.Works? && f.analyze.Works? && f.success.Crashes?)
    || (!AttemptSucceeds(f) && f.failure.Crashes?)
  }

  /**
    A success is recorded exactly when all three statements work, a request when the first does, and a
    failure exactly when nothing crashed, one of the three failed and the record of it works.
   */
  lemma AttemptRecorded(now: Time, f: Fates, scheduled: bool)
    ensures var es := AttemptEvents(now, f, scheduled);
            && (Requested in es <==> f.mark.Works?)
            && (Succeeded(now, scheduled) in es <==> f.mark.Works? && f.analyze.Works? && f.success.Works?)
            && (Failed(now, scheduled) in es <==>
                  f.failure.Works? &&
                  (|| f.mark.Fails?
                   || (f.mark.Works? && f.analyze.Fails?)
                   || (f.mark.Works? && f.analyze.Works? && f.success.Fails?)))
  {
  }

  function AttemptEvents(now: Time, f: Fates, scheduled: bool): seq<Event> {
    (if f.mark.Works? then [Requested] else []) +
    if AttemptSucceeds(f) then [Succeeded(now, scheduled)]
    else if !AttemptCrashes(f) && f.failure.Works? then [Failed(now, scheduled)] else []
  }
}
