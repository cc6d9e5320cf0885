/** Cue ends: filled, clamped and all-or-none within a group; resolved separately for each agent. */
module CueEnds {
  import opened Prelude
  import opened Lyrics

  function NextStart(cues: seq<Cue>, i: nat): Option<int>
    requires i < |cues|
  {
    if i + 1 < |cues| then cues[i + 1].start else None
  }

  /** The end of cue `i` before the all-or-none rule. */
  function ResolvedEnd(cues: seq<Cue>, i: nat, fallback: Option<int>): Option<int>
    requires i < |cues|
  {
    var next := NextStart(cues, i);
    var filled := if cues[i].end.Some? then cues[i].end else if next.Some? then next else fallback;
    var capped := if filled.Some? && next.Some? && filled.value > next.value then next else filled;
    if capped.Some? && cues[i].start.Some? && capped.value < cues[i].start.value then cues[i].start else capped
  }

  ghost predicate AllEnd(cues: seq<Cue>) { forall i :: 0 <= i < |cues| ==> cues[i].end.Some? }

  ghost predicate NoneEnds(cues: seq<Cue>) { forall i :: 0 <= i < |cues| ==> cues[i].end.None? }

  ghost predicate AllResolve(cues: seq<Cue>, fallback: Option<int>) {
    forall i :: 0 <= i < |cues| ==> ResolvedEnd(cues, i, fallback).Some?
  }

  /** `out` is `cues` with other ends. */
  ghost predicate SameButEnds(cues: seq<Cue>, out: seq<Cue>) {
    |out| == |cues| && forall i :: 0 <= i < |cues| ==> out[i].(end := None) == cues[i].(end := None)
  }

  /** Every cue gets its resolved end if all have one; otherwise none keeps any. */
  ghost predicate IsNormalized(cues: seq<Cue>, fallback: Option<int>, out: seq<Cue>) {
    && SameButEnds(cues, out)
    && forall i :: 0 <= i < |cues| ==>
         out[i].end == if AllResolve(cues, fallback) then ResolvedEnd(cues, i, fallback) else None
  }

  /** First loop: every cue's end is resolved and clamped. */
  method ResolveEnds(cues: seq<Cue>, fallback: Option<int>) returns (out: seq<Cue>)
    ensures SameButEnds(cues, out) && forall j :: 0 <= j < |cues| ==> out[j].end == ResolvedEnd(cues, j, fallback)
  {
    out := cues;
    for i := 0 to |out|
      invariant SameButEnds(cues, out)
      invariant forall j :: 0 <= j < i ==> out[j].end == ResolvedEnd(cues, j, fallback)
      invariant forall j :: i <= j < |cues| ==> out[j] == cues[j]
    {
      var end := out[i].end;
      if end.None? {
        if i + 1 < |out| && out[i + 1].start.Some? {
          end := out[i + 1].start;
        } else {
          end := fallback;
        }
      }
      if end.Some? && i + 1 < |out| && out[i + 1].start.Some? && end.value > out[i + 1].start.value {
        end := out[i + 1].start;
      }
      if end.Some? && out[i].start.Some? && end.value < out[i].start.value {
        end := out[i].start;
      }
      assert end == ResolvedEnd(cues, i, fallback);
      hide ResolvedEnd;
      out := out[i := out[i].(end := end)];
    }
  }

  method ClearEnds(cues: seq<Cue>) returns (out: seq<Cue>)
    ensures SameButEnds(cues, out) && NoneEnds(out)
  {
    out := cues;
    for j := 0 to |out|
      invariant SameButEnds(cues, out) && forall k :: 0 <= k < j ==> out[k].end.None?
    {
      out := out[j := out[j].(end := None)];
    }
  }

  method NormalizeCueEnds(cues: seq<Cue>, fallback: Option<int>) returns (out: seq<Cue>)
    ensures IsNormalized(cues, fallback, out)
  {
    hide ResolvedEnd;
    out := ResolveEnds(cues, fallback);
    for i := 0 to |out|
      invariant forall j :: 0 <= j < i ==> out[j].end.Some?
    {
      if out[i].end.None? {
        assert !AllResolve(cues, fallback);
        var resolved := out;
        out := ClearEnds(resolved);
        assert forall j :: 0 <= j < |cues| ==> out[j].(end := None) == resolved[j].(end := None);
        return;
      }
    }
  }

  // ----- what normalising achieves --------------------------------------------------------

  /** Ends are given to all cues or to none. */
  lemma AllOrNone(cues: seq<Cue>, fallback: Option<int>, out: seq<Cue>)
    requires IsNormalized(cues, fallback, out)
    ensures AllEnd(out) || NoneEnds(out)
    ensures AllEnd(out) <==> AllResolve(cues, fallback)
  {
  }

  /** An end is missing only at a cue without a successor start, an own end and a fallback. */
  lemma MissingEndIff(cues: seq<Cue>, i: nat, fallback: Option<int>)
    requires i < |cues|
    ensures ResolvedEnd(cues, i, fallback).None? <==>
            cues[i].end.None? && NextStart(cues, i).None? && fallback.None?
  {
  }

  lemma NextStartsAgree(cues: seq<Cue>, out: seq<Cue>)
    requires SameButEnds(cues, out)
    ensures forall i :: 0 <= i < |cues| ==> out[i].start == cues[i].start && NextStart(out, i) == NextStart(cues, i)
  {
    forall i | 0 <= i < |cues| ensures out[i].start == cues[i].start && NextStart(out, i) == NextStart(cues, i) {
      assert out[i].(end := None).start == cues[i].(end := None).start;
      if i + 1 < |cues| { assert out[i + 1].(end := None).start == cues[i + 1].(end := None).start; }
    }
  }

  /** An own end that fits is kept; a missing one is the next start, or the fallback for the last cue. */
  lemma FittingEndKept(cues: seq<Cue>, i: nat, fallback: Option<int>)
    requires i < |cues| && StartsAscend(cues)
    ensures var next := NextStart(cues, i);
            var e := ResolvedEnd(cues, i, fallback);
            && (cues[i].end.Some? && Fits(cues, i, cues[i].end.value) ==> e == cues[i].end)
            && (cues[i].end.None? && next.Some? ==> e == next)
            && (cues[i].end.None? && next.None? && fallback.Some? && Fits(cues, i, fallback.value) ==> e == fallback)
  {
  }

  predicate Fits(cues: seq<Cue>, i: nat, end: int)
    requires i < |cues|
  {
    (cues[i].start.Some? ==> cues[i].start.value <= end) &&
    (NextStart(cues, i).Some? ==> end <= NextStart(cues, i).value)
  }

  /**
    The end wanted is the cue's own, else the next start, else the fallback.  One that overruns the next
    start becomes that start, and one that then precedes the cue's own start becomes its start.
   */
  lemma ResolvedEndIs(cues: seq<Cue>, i: nat, fallback: Option<int>, wanted: int)
    requires i < |cues|
    requires if cues[i].end.Some? then cues[i].end == Some(wanted)
             else if i + 1 < |cues| && cues[i + 1].start.Some? then cues[i + 1].start == Some(wanted)
             else fallback == Some(wanted)
    ensures var e := ResolvedEnd(cues, i, fallback);
            var overruns := i + 1 < |cues| && cues[i + 1].start.Some? && wanted > cues[i + 1].start.value;
            var capped := if overruns then cues[i + 1].start.value else wanted;
            e == Some(if cues[i].start.Some? && capped < cues[i].start.value then cues[i].start.value else capped)
  {
  }

  /** A second pass changes nothing. */
  lemma Idempotent(cues: seq<Cue>, fallback: Option<int>, once: seq<Cue>, twice: seq<Cue>)
    requires IsNormalized(cues, fallback, once) && IsNormalized(once, fallback, twice)
    ensures twice == once
  {
    NextStartsAgree(cues, once);
    if !AllResolve(cues, fallback) {
      var i :| 0 <= i < |cues| && ResolvedEnd(cues, i, fallback).None?;
      MissingEndIff(once, i, fallback);
      assert ResolvedEnd(once, i, fallback).None?;
    } else {
      forall i | 0 <= i < |cues| ensures ResolvedEnd(once, i, fallback) == once[i].end { }
    }
    forall i | 0 <= i < |cues| ensures twice[i] == once[i] {
      assert twice[i].(end := None) == once[i].(end := None);
    }
  }

  ghost predicate StartsAscend(cues: seq<Cue>) {
    && (forall i :: 0 <= i < |cues| ==> cues[i].start.Some?)
    && (forall i :: 0 <= i < |cues| - 1 ==> cues[i].start.value <= cues[i + 1].start.value)
  }

  /** The starts of cue `i` and its successor do not descend, as far as they are present. */
  predicate InOrderAt(cues: seq<Cue>, i: nat)
    requires i < |cues|
  {
    cues[i].start.Some? && NextStart(cues, i).Some? ==> cues[i].start.value <= NextStart(cues, i).value
  }

  /** Every end that was given neither precedes its own start nor overruns the next one. */
  ghost predicate AllFit(out: seq<Cue>) { forall i :: 0 <= i < |out| && out[i].end.Some? ==> Fits(out, i, out[i].end.value) }

  /** No end ever precedes its own start, and none overruns a next start that does not descend. */
  lemma EndsFit(cues: seq<Cue>, fallback: Option<int>, out: seq<Cue>, i: nat)
    requires IsNormalized(cues, fallback, out) && i < |out| && out[i].end.Some?
    ensures out[i].start.Some? ==> out[i].start.value <= out[i].end.value
    ensures InOrderAt(cues, i) ==> Fits(out, i, out[i].end.value)
  {
    NextStartsAgree(cues, out);
  }

  ghost function Normalized(cues: seq<Cue>, fallback: Option<int>): (out: seq<Cue>)
    ensures IsNormalized(cues, fallback, out)
  {
    seq(|cues|, i requires 0 <= i < |cues| =>
      cues[i].(end := if AllResolve(cues, fallback) then ResolvedEnd(cues, i, fallback) else None))
  }

  /** The cues with an end each. */
  function WithEnds(cues: seq<Cue>, e: int): (cs: seq<Cue>)
    ensures |cs| == |cues| && forall i :: 0 <= i < |cues| ==> cs[i] == cues[i].(end := Some(e))
  {
    seq(|cues|, i requires 0 <= i < |cues| => cues[i].(end := Some(e)))
  }

  /**
    For given starts, the ends fit whatever ends the cues came with and whatever the fallback, if and
    only if no two adjacent starts descend.
   */
  lemma EndsAlwaysFitIff(cues: seq<Cue>)
    ensures (forall given, fallback, out :: SameButEnds(cues, given) && IsNormalized(given, fallback, out) ==> AllFit(out)) <==>
            forall i :: 0 <= i < |cues| ==> InOrderAt(cues, i)
  {
    if forall i :: 0 <= i < |cues| ==> InOrderAt(cues, i) {
      forall given: seq<Cue>, fallback: Option<int>, out: seq<Cue> | SameButEnds(cues, given) && IsNormalized(given, fallback, out)
        ensures AllFit(out)
      {
        NextStartsAgree(cues, given);
        forall i | 0 <= i < |out| && out[i].end.Some? ensures Fits(out, i, out[i].end.value) {
          assert InOrderAt(cues, i);
          EndsFit(given, fallback, out, i);
        }
      }
    } else {
      var i :| 0 <= i < |cues| && !InOrderAt(cues, i);
      var given := WithEnds(cues, 0);
      var out := Normalized(given, None);
      NextStartsAgree(cues, given);
      NextStartsAgree(given, out);
      forall j | 0 <= j < |given| ensures ResolvedEnd(given, j, None).Some? { MissingEndIff(given, j, None); }
      assert out[i].end == ResolvedEnd(given, i, None) == cues[i].start;
      assert !Fits(out, i, out[i].end.value);
    }
  }

  // ----- per agent ------------------------------------------------------------------------

  /** One agent's cues, in order. */
  function OfAgent(cues: seq<Cue>, id: string): seq<Cue> {
    if cues == [] then []
    else
      OfAgent(cues[..|cues| - 1], id) + (if cues[|cues| - 1].agentId == id then [cues[|cues| - 1]] else [])
  }

  function IndicesOf(cues: seq<Cue>, id: string): (idxs: seq<nat>)
    ensures forall k :: 0 <= k < |idxs| ==> idxs[k] < |cues|
  {
    if cues == [] then []
    else
      IndicesOf(cues[..|cues| - 1], id) + (if cues[|cues| - 1].agentId == id then [|cues| - 1] else [])
  }

  lemma {:induction false} IndicesOfIs(cues: seq<Cue>, id: string)
    ensures forall k :: 0 <= k < |IndicesOf(cues, id)| ==> cues[IndicesOf(cues, id)[k]].agentId == id
    ensures forall i :: 0 <= i < |cues| && cues[i].agentId == id ==> i in IndicesOf(cues, id)
    ensures forall a, b :: 0 <= a < b < |IndicesOf(cues, id)| ==> IndicesOf(cues, id)[a] < IndicesOf(cues, id)[b]
  {
    if cues != [] { IndicesOfIs(cues[..|cues| - 1], id); }
  }

  function Gather(cues: seq<Cue>, idxs: seq<nat>): (g: seq<Cue>)
    requires forall k :: 0 <= k < |idxs| ==> idxs[k] < |cues|
    ensures |g| == |idxs| && forall k :: 0 <= k < |idxs| ==> g[k] == cues[idxs[k]]
  {
    seq(|idxs|, k requires 0 <= k < |idxs| => cues[idxs[k]])
  }

  lemma {:induction false} OfAgentIsGather(cues: seq<Cue>, id: string)
    ensures OfAgent(cues, id) == Gather(cues, IndicesOf(cues, id))
  {
    if cues != [] {
      var front := cues[..|cues| - 1];
      OfAgentIsGather(front, id);
      assert Gather(front, IndicesOf(front, id)) == Gather(cues, IndicesOf(front, id));
    }
  }

  lemma {:induction false} SameAgentsSameIndices(a: seq<Cue>, b: seq<Cue>, id: string)
    requires |a| == |b| && forall i :: 0 <= i < |a| ==> a[i].agentId == b[i].agentId
    ensures IndicesOf(a, id) == IndicesOf(b, id)
  {
    if a != [] { SameAgentsSameIndices(a[..|a| - 1], b[..|b| - 1], id); }
  }

  lemma IndicesStep(cues: seq<Cue>, i: nat, id: string)
    requires i < |cues|
    ensures IndicesOf(cues[..i + 1], id) ==
            IndicesOf(cues[..i], id) + (if cues[i].agentId == id then [i] else [])
  {
    assert cues[..i + 1][..i] == cues[..i];
  }

  /** `groups` lists the positions of every agent seen in `cues`. */
  ghost predicate Grouped(cues: seq<Cue>, groups: map<string, seq<nat>>) {
    forall id :: IndicesOf(cues, id) == if id in groups then groups[id] else []
  }

  function AddIndex(groups: map<string, seq<nat>>, id: string, i: nat): map<string, seq<nat>> {
    groups[id := (if id in groups then groups[id] else []) + [i]]
  }

  lemma GroupedNothing()
    ensures Grouped([], map[])
  {
  }

  lemma GroupedStep(cues: seq<Cue>, i: nat, groups: map<string, seq<nat>>)
    requires i < |cues| && Grouped(cues[..i], groups)
    ensures Grouped(cues[..i + 1], AddIndex(groups, cues[i].agentId, i))
  {
    hide IndicesOf;
    var groups' := AddIndex(groups, cues[i].agentId, i);
    var front, all := cues[..i], cues[..i + 1];
    forall id ensures IndicesOf(all, id) == if id in groups' then groups'[id] else [] {
      IndicesStep(cues, i, id);
      assert IndicesOf(front, id) == if id in groups then groups[id] else [];
    }
  }

  /** First loop: where each agent's cues are, agents in order of appearance. */
  method GroupByAgent(cues: seq<Cue>) returns (groups: map<string, seq<nat>>, order: seq<string>)
    ensures Grouped(cues, groups)
    ensures forall id :: id in groups <==> id in order
    ensures forall i :: 0 <= i < |cues| ==> cues[i].agentId in order
    ensures forall i, j :: 0 <= i < j < |order| ==> order[i] != order[j]
  {
    hide Grouped;
    groups, order := map[], [];
    GroupedNothing();
    assert cues[..0] == [];
    for i := 0 to |cues|
      invariant Grouped(cues[..i], groups)
      invariant forall id :: id in groups <==> id in order
      invariant forall j :: 0 <= j < i ==> cues[j].agentId in order
      invariant forall a, b :: 0 <= a < b < |order| ==> order[a] != order[b]
    {
      var id := cues[i].agentId;
      GroupedStep(cues, i, groups);
      if id !in groups {
        order := order + [id];
      }
      groups := AddIndex(groups, id, i);
    }
    assert cues[..|cues|] == cues;
  }

  /** `out` agrees with the separately normalised cues of agent `id`. */
  ghost predicate AgentDone(cues: seq<Cue>, fallback: Option<int>, out: seq<Cue>, id: string)
    requires |out| == |cues|
  {
    IsNormalized(Gather(cues, IndicesOf(cues, id)), fallback, Gather(out, IndicesOf(cues, id)))
  }

  method Scatter(cues: seq<Cue>, fallback: Option<int>, prev: seq<Cue>, id: string, idxs: seq<nat>, group: seq<Cue>)
    returns (out: seq<Cue>)
    requires |prev| == |cues| && idxs == IndicesOf(cues, id)
    requires IsNormalized(Gather(cues, idxs), fallback, group)
    ensures |out| == |cues| && AgentDone(cues, fallback, out, id)
    ensures forall i :: 0 <= i < |cues| && cues[i].agentId != id ==> out[i] == prev[i]
  {
    hide IndicesOf;
    hide IsNormalized;
    IndicesOfIs(cues, id);
    NormalizedLength(Gather(cues, idxs), fallback, group);
    out := prev;
    for k := 0 to |idxs|
      invariant |out| == |cues|
      invariant forall j :: 0 <= j < k ==> out[idxs[j]] == group[j]
      invariant forall i :: 0 <= i < |cues| && cues[i].agentId != id ==> out[i] == prev[i]
    {
      out := out[idxs[k] := group[k]];
    }
    assert Gather(out, idxs) == group;
  }

  lemma NormalizedLength(cues: seq<Cue>, fallback: Option<int>, out: seq<Cue>)
    requires IsNormalized(cues, fallback, out)
    ensures |out| == |cues|
  {
  }

  lemma UntouchedAgent(cues: seq<Cue>, fallback: Option<int>, a: seq<Cue>, b: seq<Cue>, id: string, other: string)
    requires |a| == |b| == |cues| && AgentDone(cues, fallback, a, other) && other != id
    requires forall i :: 0 <= i < |cues| && cues[i].agentId != id ==> b[i] == a[i]
    ensures AgentDone(cues, fallback, b, other)
  {
    IndicesOfIs(cues, other);
    assert Gather(a, IndicesOf(cues, other)) == Gather(b, IndicesOf(cues, other));
  }

  lemma DoneKeepsAgent(cues: seq<Cue>, fallback: Option<int>, out: seq<Cue>, i: nat)
    requires |out| == |cues| && i < |cues| && AgentDone(cues, fallback, out, cues[i].agentId)
    ensures out[i].agentId == cues[i].agentId
  {
    var idxs := IndicesOf(cues, cues[i].agentId);
    IndicesOfIs(cues, cues[i].agentId);
    var k :| 0 <= k < |idxs| && idxs[k] == i;
    assert Gather(out, idxs)[k].(end := None) == Gather(cues, idxs)[k].(end := None);
    assert Gather(out, idxs)[k].(end := None).agentId == Gather(cues, idxs)[k].(end := None).agentId;
  }

  /** Restricted to any one agent, the result is the normalisation of that agent's cues alone. */
  method NormalizeCueEndsByAgent(cues: seq<Cue>, fallback: Option<int>) returns (out: seq<Cue>)
    ensures |out| == |cues| && forall i :: 0 <= i < |cues| ==> out[i].agentId == cues[i].agentId
    ensures forall id :: IsNormalized(OfAgent(cues, id), fallback, OfAgent(out, id))
  {
    hide IsNormalized;
    hide OfAgent;
    hide IndicesOf;
    hide AgentDone;
    var groups, order := GroupByAgent(cues);
    if |order| <= 1 {
      out := NormalizeCueEnds(cues, fallback);
      SingleAgent(cues, fallback, out);
      return;
    }
    out := cues;
    for k := 0 to |order|
      invariant |out| == |cues|
      invariant forall j :: 0 <= j < k ==> AgentDone(cues, fallback, out, order[j])
    {
      var id := order[k];
      assert groups[id] == IndicesOf(cues, id);
      var group := NormalizeCueEnds(Gather(cues, groups[id]), fallback);
      ghost var prev := out;
      out := Scatter(cues, fallback, out, id, groups[id], group);
      forall j | 0 <= j < k ensures AgentDone(cues, fallback, out, order[j]) {
        UntouchedAgent(cues, fallback, prev, out, id, order[j]);
      }
    }
    Reassembled(cues, fallback, out, order);
  }

  lemma AgentReassembled(cues: seq<Cue>, fallback: Option<int>, out: seq<Cue>, id: string)
    requires |out| == |cues| && forall i :: 0 <= i < |cues| ==> out[i].agentId == cues[i].agentId
    requires (exists i :: 0 <= i < |cues| && cues[i].agentId == id) ==> AgentDone(cues, fallback, out, id)
    ensures IsNormalized(OfAgent(cues, id), fallback, OfAgent(out, id))
  {
    hide IndicesOf;
    hide OfAgent;
    OfAgentIsGather(cues, id);
    OfAgentIsGather(out, id);
    SameAgentsSameIndices(cues, out, id);
    if !exists i :: 0 <= i < |cues| && cues[i].agentId == id {
      NoIndices(cues, id);
    }
  }

  lemma {:induction false} NoIndices(cues: seq<Cue>, id: string)
    requires forall i :: 0 <= i < |cues| ==> cues[i].agentId != id
    ensures IndicesOf(cues, id) == []
  {
    if cues != [] { NoIndices(cues[..|cues| - 1], id); }
  }

  lemma Reassembled(cues: seq<Cue>, fallback: Option<int>, out: seq<Cue>, order: seq<string>)
    requires |out| == |cues| && forall i :: 0 <= i < |cues| ==> cues[i].agentId in order
    requires forall j :: 0 <= j < |order| ==> AgentDone(cues, fallback, out, order[j])
    ensures forall i :: 0 <= i < |cues| ==> out[i].agentId == cues[i].agentId
    ensures forall id :: IsNormalized(OfAgent(cues, id), fallback, OfAgent(out, id))
  {
    hide IsNormalized;
    hide AgentDone;
    hide OfAgent;
    hide IndicesOf;
    forall i | 0 <= i < |cues| ensures out[i].agentId == cues[i].agentId {
      DoneKeepsAgent(cues, fallback, out, i);
    }
    forall id ensures IsNormalized(OfAgent(cues, id), fallback, OfAgent(out, id)) {
      AgentReassembled(cues, fallback, out, id);
    }
  }

  lemma {:induction false} OnlyAgent(cues: seq<Cue>, id: string)
    requires forall i :: 0 <= i < |cues| ==> cues[i].agentId == id
    ensures OfAgent(cues, id) == cues
  {
    if cues != [] {
      OnlyAgent(cues[..|cues| - 1], id);
      assert cues == cues[..|cues| - 1] + [cues[|cues| - 1]];
    }
  }

  lemma {:induction false} OtherAgent(cues: seq<Cue>, id: string)
    requires forall i :: 0 <= i < |cues| ==> cues[i].agentId != id
    ensures OfAgent(cues, id) == []
  {
    if cues != [] { OtherAgent(cues[..|cues| - 1], id); }
  }

  lemma KeepsAgents(cues: seq<Cue>, fallback: Option<int>, out: seq<Cue>)
    requires IsNormalized(cues, fallback, out)
    ensures |out| == |cues| && forall i :: 0 <= i < |cues| ==> out[i].agentId == cues[i].agentId
  {
    forall i | 0 <= i < |cues| ensures out[i].agentId == cues[i].agentId {
      assert out[i].(end := None).agentId == cues[i].(end := None).agentId;
    }
  }

  lemma NothingNormalized(fallback: Option<int>)
    ensures IsNormalized([], fallback, [])
  {
  }

  /** The single-agent shortcut gives what the general path would. */
  lemma SingleAgent(cues: seq<Cue>, fallback: Option<int>, out: seq<Cue>)
    requires IsNormalized(cues, fallback, out)
    requires forall i :: 0 <= i < |cues| ==> cues[i].agentId == cues[0].agentId
    ensures |out| == |cues| && forall i :: 0 <= i < |cues| ==> out[i].agentId == cues[i].agentId
    ensures forall id :: IsNormalized(OfAgent(cues, id), fallback, OfAgent(out, id))
  {
    hide IsNormalized;
    hide OfAgent;
    KeepsAgents(cues, fallback, out);
    NothingNormalized(fallback);
    forall id ensures IsNormalized(OfAgent(cues, id), fallback, OfAgent(out, id)) {
      if cues != [] && cues[0].agentId == id {
        OnlyAgent(cues, id);
        OnlyAgent(out, id);
      } else {
        OtherAgent(cues, id);
        OtherAgent(out, id);
      }
    }
  }

  // ----- line timing ----------------------------------------------------------------------

  ghost predicate IsEarliest(cues: seq<Cue>, t: Option<int>) {
    && (t.None? <==> forall i :: 0 <= i < |cues| ==> cues[i].start.None?)
    && (t.Some? ==> (exists i :: 0 <= i < |cues| && cues[i].start == t) &&
                    forall i :: 0 <= i < |cues| && cues[i].start.Some? ==> t.value <= cues[i].start.value)
  }

  /** A cue without an end counts with its start. */
  ghost predicate IsLatest(cues: seq<Cue>, t: Option<int>) {
    && (t.None? <==> forall i :: 0 <= i < |cues| ==> cues[i].end.None? && cues[i].start.None?)
    && (t.Some? ==> (exists i :: 0 <= i < |cues| && (cues[i].end == t || (cues[i].end.None? && cues[i].start == t))) &&
                    forall i :: 0 <= i < |cues| ==>
                      && (cues[i].end.Some? ==> cues[i].end.value <= t.value)
                      && (cues[i].end.None? && cues[i].start.Some? ==> cues[i].start.value <= t.value))
  }

  /** A line without its own times spans its cues: earliest start to latest end. */
  method NormalizeLineTiming(line: Line) returns (out: Line)
    ensures out.value == line.value && out.cues == line.cues
    ensures line.start.Some? ==> out.start == line.start
    ensures line.end.Some? ==> out.end == line.end
    ensures line.start.None? ==> IsEarliest(line.cues, out.start)
    ensures line.end.None? ==> IsLatest(line.cues, out.end)
  {
    var earliest: Option<int>, latest: Option<int> := None, None;
    for i := 0 to |line.cues|
      invariant IsEarliest(line.cues[..i], earliest) && IsLatest(line.cues[..i], latest)
    {
      var c := line.cues[i];
      ghost var front, all := line.cues[..i], line.cues[..i + 1];
      assert all == front + [c];
      EarliestStep(front, c, earliest);
      LatestStep(front, c, latest);
      if c.start.Some? && (earliest.None? || c.start.value < earliest.value) { earliest := c.start; }
      var candidate := if c.end.Some? then c.end else c.start;
      if candidate.Some? && (latest.None? || candidate.value > latest.value) { latest := candidate; }
    }
    assert line.cues[..|line.cues|] == line.cues;
    out := line;
    if line.start.None? { out := out.(start := earliest); }
    if line.end.None? { out := out.(end := latest); }
  }

  lemma EarliestStep(front: seq<Cue>, c: Cue, earliest: Option<int>)
    requires IsEarliest(front, earliest)
    ensures IsEarliest(front + [c],
              if c.start.Some? && (earliest.None? || c.start.value < earliest.value) then c.start else earliest)
  {
    var all := front + [c];
    assert all[|front|] == c && forall i :: 0 <= i < |front| ==> all[i] == front[i];
    if earliest.Some? {
      var i :| 0 <= i < |front| && front[i].start == earliest;
      assert all[i].start == earliest;
    }
  }

  lemma LatestStep(front: seq<Cue>, c: Cue, latest: Option<int>)
    requires IsLatest(front, latest)
    ensures var candidate := if c.end.Some? then c.end else c.start;
            IsLatest(front + [c], if candidate.Some? && (latest.None? || candidate.value > latest.value) then candidate else latest)
  {
    var all := front + [c];
    assert all[|front|] == c && forall i :: 0 <= i < |front| ==> all[i] == front[i];
    if latest.Some? {
      var i :| 0 <= i < |front| && (front[i].end == latest || (front[i].end.None? && front[i].start == latest));
      assert all[i] == front[i];
    }
  }
}
