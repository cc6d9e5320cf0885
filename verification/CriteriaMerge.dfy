/**
  Merging of same-field tag and role conditions into batched EXISTS groups.
 */
module CriteriaMerge {
  import opened Prelude
  import opened SqlLogic
  import opened Criteria
  import opened CriteriaSql

  const BATCH_SIZE := 350

  /** The key conditions are grouped under: "role:<name>" or "tag:<name>". */
  datatype Key = RoleKey(name: string) | TagKey(name: string)

  /** The group a condition joins, if it has the requested polarity and tests a value. */
  function KeyOf(c: Cond, negated: bool): Option<Key> {
    if c.RoleCond? && c.negated == negated && c.cond.Some? then Some(RoleKey(c.role))
    else if c.TagCond? && c.negated == negated && c.cond.Some? then Some(TagKey(c.tag))
    else None
  }

  predicate IsNumeric(c: Cond) { c.TagCond? && c.numeric }

  function GroupKey(c: Cond): Option<Key> {
    match c
    case RoleGroup(role, _, _) => Some(RoleKey(role))
    case TagGroup(tag, _, _, _) => Some(TagKey(tag))
    case _ => None
  }

  /** The value conditions filed under a key, in order of appearance. */
  function Members(conds: seq<Cond>, negated: bool, k: Key): (ms: seq<ValueCond>) {
    if conds == [] then []
    else
      var c := conds[|conds| - 1];
      var rest := Members(conds[..|conds| - 1], negated, k);
      if KeyOf(c, negated) == Some(k) then rest + [c.cond.value] else rest
  }

  /** Whether the first condition filed under a key is numeric; the group takes its cast from it. */
  function FirstNumeric(conds: seq<Cond>, negated: bool, k: Key): bool {
    if conds == [] then false
    else
      var front := conds[..|conds| - 1];
      if Members(front, negated, k) != [] then FirstNumeric(front, negated, k)
      else KeyOf(conds[|conds| - 1], negated) == Some(k) && IsNumeric(conds[|conds| - 1])
  }

  /** Conditions that disappear into a group. */
  predicate Merged(conds: seq<Cond>, negated: bool, c: Cond) {
    KeyOf(c, negated).Some? && |Members(conds, negated, KeyOf(c, negated).value)| >= 2
  }

  /** The conditions of `part` that survive as they are, in their original order. */
  function Kept(conds: seq<Cond>, negated: bool, part: seq<Cond>): seq<Cond> {
    if part == [] then []
    else
      var c := part[|part| - 1];
      Kept(conds, negated, part[..|part| - 1]) + (if Merged(conds, negated, c) then [] else [c])
  }

  function MakeGroup(k: Key, numeric: bool, ms: seq<ValueCond>, negated: bool): Cond {
    match k
    case RoleKey(role) => RoleGroup(role, ms, negated)
    case TagKey(tag) => TagGroup(tag, numeric, ms, negated)
  }

  /** Consecutive batches of at most BATCH_SIZE members. */
  function Batches(k: Key, numeric: bool, negated: bool, ms: seq<ValueCond>): seq<Cond> {
    if ms == [] then []
    else if |ms| <= BATCH_SIZE then [MakeGroup(k, numeric, ms, negated)]
    else [MakeGroup(k, numeric, ms[..BATCH_SIZE], negated)] + Batches(k, numeric, negated, ms[BATCH_SIZE..])
  }

  /** The groups in `cs` that carry key `k`. */
  function GroupsFor(cs: seq<Cond>, k: Key): seq<Cond> {
    if cs == [] then []
    else
      GroupsFor(cs[..|cs| - 1], k) + (if GroupKey(cs[|cs| - 1]) == Some(k) then [cs[|cs| - 1]] else [])
  }

  function ExpectedGroups(conds: seq<Cond>, negated: bool, k: Key): seq<Cond> {
    var ms := Members(conds, negated, k);
    if |ms| < 2 then [] else Batches(k, FirstNumeric(conds, negated, k), negated, ms)
  }

  /** Key order: "role:..." before "tag:...", then by name. */
  predicate KeyLeq(a: Key, b: Key) {
    match (a, b)
    case (RoleKey(x), RoleKey(y)) => !TextLess(y, x)
    case (TagKey(x), TagKey(y)) => !TextLess(y, x)
    case _ => a.RoleKey?
  }

  predicate GroupsInOrder(groups: seq<Cond>) {
    && (forall i :: 0 <= i < |groups| ==> GroupKey(groups[i]).Some?)
    && (forall i, j :: 0 <= i < j < |groups| ==> KeyLeq(GroupKey(groups[i]).value, GroupKey(groups[j]).value))
  }

  /** `result` is `conds` with every field of two or more mergeable conditions batched into groups. */
  ghost predicate IsMergeOf(conds: seq<Cond>, negated: bool, result: seq<Cond>) {
    var kept := Kept(conds, negated, conds);
    && kept <= result
    && GroupsInOrder(result[|kept|..])
    && forall k :: GroupsFor(result[|kept|..], k) == ExpectedGroups(conds, negated, k)
  }

  // ----- facts about the grouping ---------------------------------------------------------

  lemma {:induction false} MemberOrigin(conds: seq<Cond>, negated: bool, k: Key)
    ensures forall m :: m in Members(conds, negated, k) <==>
              exists i :: 0 <= i < |conds| && KeyOf(conds[i], negated) == Some(k) && conds[i].cond.value == m
    ensures Members(conds, negated, k) != [] <==>
              exists i :: 0 <= i < |conds| && KeyOf(conds[i], negated) == Some(k)
  {
    if conds != [] {
      var front := conds[..|conds| - 1];
      MemberOrigin(front, negated, k);
      assert conds == front + [conds[|conds| - 1]];
      assert forall i :: 0 <= i < |front| ==> front[i] == conds[i];
      var last := conds[|conds| - 1];
      forall m | m in Members(conds, negated, k)
        ensures exists i :: 0 <= i < |conds| && KeyOf(conds[i], negated) == Some(k) && conds[i].cond.value == m
      {
        if m in Members(front, negated, k) {
          var i :| 0 <= i < |front| && KeyOf(front[i], negated) == Some(k) && front[i].cond.value == m;
          assert conds[i] == front[i];
        } else {
          assert KeyOf(conds[|conds| - 1], negated) == Some(k) && conds[|conds| - 1].cond.value == m;
        }
      }
    }
  }

  lemma {:induction false} KeptOrigin(conds: seq<Cond>, negated: bool, part: seq<Cond>)
    ensures forall c :: c in Kept(conds, negated, part) <==> c in part && !Merged(conds, negated, c)
  {
    if part != [] {
      KeptOrigin(conds, negated, part[..|part| - 1]);
      assert part == part[..|part| - 1] + [part[|part| - 1]];
    }
  }

  lemma {:induction false} KeptAll(conds: seq<Cond>, negated: bool, part: seq<Cond>)
    requires forall c :: c in part ==> !Merged(conds, negated, c)
    ensures Kept(conds, negated, part) == part
  {
    if part != [] {
      KeptAll(conds, negated, part[..|part| - 1]);
      assert part == part[..|part| - 1] + [part[|part| - 1]];
    }
  }

  lemma {:induction false} GroupsForConcat(a: seq<Cond>, b: seq<Cond>, k: Key)
    ensures GroupsFor(a + b, k) == GroupsFor(a, k) + GroupsFor(b, k)
  {
    if b == [] {
      assert a + b == a;
    } else {
      GroupsForConcat(a, b[..|b| - 1], k);
      assert (a + b)[..|a + b| - 1] == a + b[..|b| - 1];
    }
  }

  lemma {:induction false} GroupsForMembership(cs: seq<Cond>, k: Key)
    ensures forall g :: g in GroupsFor(cs, k) <==> g in cs && GroupKey(g) == Some(k)
  {
    if cs != [] {
      GroupsForMembership(cs[..|cs| - 1], k);
      assert cs == cs[..|cs| - 1] + [cs[|cs| - 1]];
    }
  }

  lemma {:induction false} GroupsForUniform(cs: seq<Cond>, k: Key, k': Key)
    requires forall i :: 0 <= i < |cs| ==> GroupKey(cs[i]) == Some(k)
    ensures GroupsFor(cs, k') == if k' == k then cs else []
  {
    hide GroupKey;
    if cs != [] {
      GroupsForUniform(cs[..|cs| - 1], k, k');
      assert cs == cs[..|cs| - 1] + [cs[|cs| - 1]];
    }
  }

  function MembersOf(g: Cond): seq<ValueCond> {
    if g.RoleGroup? || g.TagGroup? then g.members else []
  }

  function Flatten(gs: seq<Cond>): seq<ValueCond> {
    if gs == [] then [] else MembersOf(gs[0]) + Flatten(gs[1..])
  }

  /** Batches cover the members in order, in ceil(n / BATCH_SIZE) non-empty groups of bounded size. */
  lemma {:induction false} BatchesCover(k: Key, numeric: bool, negated: bool, ms: seq<ValueCond>)
    ensures Flatten(Batches(k, numeric, negated, ms)) == ms
    ensures |Batches(k, numeric, negated, ms)| == (|ms| + 349) / 350
    ensures forall g :: g in Batches(k, numeric, negated, ms) ==>
              GroupKey(g) == Some(k) && g == MakeGroup(k, numeric, MembersOf(g), negated) &&
              1 <= |MembersOf(g)| <= 350
    decreases |ms|
  {
    if |ms| > BATCH_SIZE {
      BatchesCover(k, numeric, negated, ms[BATCH_SIZE..]);
      var gs := Batches(k, numeric, negated, ms);
      assert gs[1..] == Batches(k, numeric, negated, ms[BATCH_SIZE..]);
      assert ms == ms[..BATCH_SIZE] + ms[BATCH_SIZE..];
    } else if ms != [] {
      assert Batches(k, numeric, negated, ms)[1..] == [];
    }
  }

  lemma {:induction false} FlattenMembership(gs: seq<Cond>)
    ensures forall m :: m in Flatten(gs) <==> exists g :: g in gs && m in MembersOf(g)
  {
    if gs != [] {
      FlattenMembership(gs[1..]);
      assert gs == [gs[0]] + gs[1..];
    }
  }

  /**
    Accounting: every input condition is either kept or a member of exactly the groups of its own
    field, which together list that field's members once and in order; no group is empty or oversized.
   */
  lemma MergeAccounts(conds: seq<Cond>, negated: bool, result: seq<Cond>, k: Key)
    requires IsMergeOf(conds, negated, result)
    ensures var groups := result[|Kept(conds, negated, conds)|..];
            var ms := Members(conds, negated, k);
            && Flatten(GroupsFor(groups, k)) == (if |ms| < 2 then [] else ms)
            && |GroupsFor(groups, k)| == (if |ms| < 2 then 0 else (|ms| + 349) / 350)
            && (forall g :: g in groups && GroupKey(g) == Some(k) ==>
                  1 <= |MembersOf(g)| <= 350 && g.negated == negated)
  {
    var groups := result[|Kept(conds, negated, conds)|..];
    GroupsForMembership(groups, k);
    BatchesCover(k, FirstNumeric(conds, negated, k), negated, Members(conds, negated, k));
  }

  // ----- the merge itself -----------------------------------------------------------------

  datatype Group = Group(indices: seq<nat>, members: seq<ValueCond>, numeric: bool)

  lemma {:induction false} TextOrder(a: string, b: string, c: string)
    ensures !TextLess(a, a)
    ensures !(TextLess(a, b) && TextLess(b, a))
    ensures !TextLess(b, a) && !TextLess(c, b) ==> !TextLess(c, a)
    ensures !TextLess(a, b) && !TextLess(b, a) ==> a == b
    decreases a
  {
    if a != "" {
      TextOrder(a[1..], if b == "" then "" else b[1..], if c == "" then "" else c[1..]);
      if b != "" && a[0] == b[0] && a[1..] == b[1..] {
        assert a == [a[0]] + a[1..] && b == [b[0]] + b[1..];
      }
    }
  }

  lemma KeyOrder(a: Key, b: Key, c: Key)
    ensures KeyLeq(a, a)
    ensures KeyLeq(a, b) || KeyLeq(b, a)
    ensures KeyLeq(a, b) && KeyLeq(b, c) ==> KeyLeq(a, c)
  {
    TextOrder(a.name, b.name, c.name);
    TextOrder(a.name, a.name, a.name);
  }

  lemma {:induction false} LeastKey(keys: set<Key>)
    requires keys != {}
    ensures exists k :: k in keys && forall k' :: k' in keys ==> KeyLeq(k, k')
  {
    var x :| x in keys;
    if keys == {x} {
      KeyOrder(x, x, x);
    } else {
      var rest := keys - {x};
      assert keys == rest + {x};
      LeastKey(rest);
      var y :| y in rest && forall k' :: k' in rest ==> KeyLeq(y, k');
      KeyOrder(x, y, y);
      if KeyLeq(x, y) {
        forall k' | k' in keys ensures KeyLeq(x, k') { KeyOrder(x, y, k'); KeyOrder(x, x, x); }
      } else {
        forall k' | k' in keys ensures KeyLeq(y, k') { KeyOrder(x, y, k'); }
      }
    }
  }

  /** A group as built from `conds`: its members, where they sit, and its cast. */
  ghost predicate GroupFor(conds: seq<Cond>, negated: bool, k: Key, g: Group) {
    && g.members == Members(conds, negated, k)
    && g.numeric == FirstNumeric(conds, negated, k)
    && forall i :: i in g.indices <==> 0 <= i < |conds| && KeyOf(conds[i], negated) == Some(k)
  }

  ghost predicate Grouping(conds: seq<Cond>, negated: bool, groups: map<Key, Group>) {
    && (forall k :: k in groups <==> Members(conds, negated, k) != [])
    && (forall k :: k in groups ==> GroupFor(conds, negated, k, groups[k]))
  }

  /** Files one more condition under its key. */
  function AddCond(groups: map<Key, Group>, negated: bool, i: nat, c: Cond): map<Key, Group> {
    var key := KeyOf(c, negated);
    if key.None? then groups
    else
      var k := key.value;
      var g := if k in groups then groups[k] else Group([], [], IsNumeric(c));
      groups[k := Group(g.indices + [i], g.members + [c.cond.value], g.numeric)]
  }

  lemma AddCondKey(front: seq<Cond>, negated: bool, groups: map<Key, Group>, c: Cond, k: Key)
    requires Grouping(front, negated, groups)
    ensures var groups' := AddCond(groups, negated, |front|, c);
            && (k in groups' <==> Members(front + [c], negated, k) != [])
            && (k in groups' ==> GroupFor(front + [c], negated, k, groups'[k]))
  {
    var conds := front + [c];
    assert conds[..|front|] == front;
    MemberOrigin(front, negated, k);
    var groups' := AddCond(groups, negated, |front|, c);
    if k in groups' {
      forall i ensures i in groups'[k].indices <==> 0 <= i < |conds| && KeyOf(conds[i], negated) == Some(k) {
        assert 0 <= i < |front| ==> conds[i] == front[i];
        assert k in groups ==> (i in groups[k].indices <==> 0 <= i < |front| && KeyOf(front[i], negated) == Some(k));
      }
    }
  }

  /** First loop: file every mergeable condition under its key. */
  method GroupByField(conds: seq<Cond>, negated: bool) returns (groups: map<Key, Group>)
    ensures Grouping(conds, negated, groups)
  {
    groups := map[];
    for i := 0 to |conds|
      invariant Grouping(conds[..i], negated, groups)
    {
      forall k
        ensures var groups' := AddCond(groups, negated, i, conds[i]);
                && (k in groups' <==> Members(conds[..i + 1], negated, k) != [])
                && (k in groups' ==> GroupFor(conds[..i + 1], negated, k, groups'[k]))
      {
        AddCondKey(conds[..i], negated, groups, conds[i], k);
        assert conds[..i] + [conds[i]] == conds[..i + 1];
      }
      groups := AddCond(groups, negated, i, conds[i]);
    }
    assert conds[..|conds|] == conds;
  }

  method MakeBatches(k: Key, numeric: bool, negated: bool, ms: seq<ValueCond>) returns (gs: seq<Cond>)
    ensures gs == Batches(k, numeric, negated, ms)
  {
    hide MakeGroup, Batches;
    gs := [];
    var rest := ms;
    NoBatches(k, numeric, negated);
    while rest != []
      invariant gs + Batches(k, numeric, negated, rest) == Batches(k, numeric, negated, ms)
      decreases |rest|
    {
      var n := if |rest| < BATCH_SIZE then |rest| else BATCH_SIZE;
      NextBatch(k, numeric, negated, rest, n);
      assert gs + ([MakeGroup(k, numeric, rest[..n], negated)] + Batches(k, numeric, negated, rest[n..])) ==
             gs + [MakeGroup(k, numeric, rest[..n], negated)] + Batches(k, numeric, negated, rest[n..]);
      gs := gs + [MakeGroup(k, numeric, rest[..n], negated)];
      rest := rest[n..];
    }
  }

  lemma NoBatches(k: Key, numeric: bool, negated: bool)
    ensures Batches(k, numeric, negated, []) == []
  {
  }

  lemma NextBatch(k: Key, numeric: bool, negated: bool, ms: seq<ValueCond>, n: nat)
    requires ms != [] && n == if |ms| < BATCH_SIZE then |ms| else BATCH_SIZE
    ensures Batches(k, numeric, negated, ms) ==
            [MakeGroup(k, numeric, ms[..n], negated)] + Batches(k, numeric, negated, ms[n..])
  {
    hide MakeGroup;
    if n == |ms| { assert ms[..n] == ms && ms[n..] == []; }
  }

  /** The groups emitted once only `keys` remain to be visited. */
  ghost predicate EmittedBut(conds: seq<Cond>, negated: bool, keys: set<Key>, additions: seq<Cond>) {
    forall k :: GroupsFor(additions, k) == if k in keys then [] else ExpectedGroups(conds, negated, k)
  }

  /** The indices taken out once only `keys` remain to be visited. */
  ghost predicate RemovedBut(conds: seq<Cond>, negated: bool, keys: set<Key>, remove: set<nat>) {
    forall i :: i in remove <==>
      0 <= i < |conds| && Merged(conds, negated, conds[i]) && KeyOf(conds[i], negated).value !in keys
  }

  ghost predicate AllBelow(additions: seq<Cond>, keys: set<Key>)
    requires GroupsInOrder(additions)
  {
    forall k, i :: k in keys && 0 <= i < |additions| ==> KeyLeq(GroupKey(additions[i]).value, k)
  }

  lemma ExpectedUniform(conds: seq<Cond>, negated: bool, k: Key)
    ensures var gs := ExpectedGroups(conds, negated, k); forall i :: 0 <= i < |gs| ==> GroupKey(gs[i]) == Some(k)
  {
    hide Batches, Members, FirstNumeric;
    BatchesCover(k, FirstNumeric(conds, negated, k), negated, Members(conds, negated, k));
    var gs := ExpectedGroups(conds, negated, k);
    assert forall i :: 0 <= i < |gs| ==> gs[i] in gs;
  }

  lemma EmitKey(conds: seq<Cond>, negated: bool, keys: set<Key>, additions: seq<Cond>, k: Key, batches: seq<Cond>)
    requires EmittedBut(conds, negated, keys, additions) && k in keys
    requires batches == ExpectedGroups(conds, negated, k)
    ensures EmittedBut(conds, negated, keys - {k}, additions + batches)
  {
    hide ExpectedGroups, GroupsFor;
    ExpectedUniform(conds, negated, k);
    forall k'
      ensures GroupsFor(additions + batches, k') ==
              if k' in keys - {k} then [] else ExpectedGroups(conds, negated, k')
    {
      GroupsForConcat(additions, batches, k');
      GroupsForUniform(batches, k, k');
      assert GroupsFor(additions, k') == if k' in keys then [] else ExpectedGroups(conds, negated, k');
    }
  }

  lemma OrderKept(keys: set<Key>, additions: seq<Cond>, k: Key, batches: seq<Cond>)
    requires GroupsInOrder(additions) && AllBelow(additions, keys)
    requires k in keys && forall k' :: k' in keys ==> KeyLeq(k, k')
    requires forall g :: g in batches ==> GroupKey(g) == Some(k)
    ensures GroupsInOrder(additions + batches) && AllBelow(additions + batches, keys - {k})
  {
    KeyOrder(k, k, k);
  }

  /** What has been emitted and taken out while `keys` remain to be visited. */
  ghost predicate Emitted(conds: seq<Cond>, negated: bool, keys: set<Key>, additions: seq<Cond>, remove: set<nat>) {
    && GroupsInOrder(additions) && AllBelow(additions, keys)
    && EmittedBut(conds, negated, keys, additions) && RemovedBut(conds, negated, keys, remove)
  }

  lemma NothingEmitted(conds: seq<Cond>, negated: bool, groups: map<Key, Group>)
    requires Grouping(conds, negated, groups)
    ensures Emitted(conds, negated, groups.Keys, [], {})
  {
    hide Batches, KeyLeq;
    forall i | 0 <= i < |conds| && Merged(conds, negated, conds[i]) ensures KeyOf(conds[i], negated).value in groups { }
  }

  /** The batches of one field, if it has any. */
  function BatchesOf(k: Key, g: Group, negated: bool): seq<Cond> {
    if |g.members| >= 2 then Batches(k, g.numeric, negated, g.members) else []
  }

  function IndicesOf(g: Group): set<nat> { if |g.members| >= 2 then set i | i in g.indices else {} }

  lemma EmitNext(conds: seq<Cond>, negated: bool, keys: set<Key>, additions: seq<Cond>, remove: set<nat>, k: Key, g: Group)
    requires Emitted(conds, negated, keys, additions, remove) && GroupFor(conds, negated, k, g)
    requires k in keys && forall k' :: k' in keys ==> KeyLeq(k, k')
    ensures Emitted(conds, negated, keys - {k}, additions + BatchesOf(k, g, negated), remove + IndicesOf(g))
  {
    hide Batches, KeyLeq, GroupsFor, Members, EmittedBut, GroupsInOrder, AllBelow;
    BatchesCover(k, g.numeric, negated, g.members);
    EmitKey(conds, negated, keys, additions, k, BatchesOf(k, g, negated));
    OrderKept(keys, additions, k, BatchesOf(k, g, negated));
    RemoveKey(conds, negated, keys, remove, k, g);
  }

  lemma RemoveKey(conds: seq<Cond>, negated: bool, keys: set<Key>, remove: set<nat>, k: Key, g: Group)
    requires RemovedBut(conds, negated, keys, remove) && GroupFor(conds, negated, k, g) && k in keys
    ensures RemovedBut(conds, negated, keys - {k}, remove + IndicesOf(g))
  {
    hide Members, KeyOf, FirstNumeric;
  }

  /** Second loop: emit the batches of every field that has two or more conditions, in key order. */
  method EmitGroups(conds: seq<Cond>, negated: bool, groups: map<Key, Group>)
    returns (additions: seq<Cond>, remove: set<nat>)
    requires Grouping(conds, negated, groups)
    ensures GroupsInOrder(additions)
    ensures EmittedBut(conds, negated, {}, additions)
    ensures RemovedBut(conds, negated, {}, remove)
  {
    hide GroupsFor, Batches, KeyLeq, GroupsInOrder, EmittedBut, RemovedBut, AllBelow, GroupFor, Members;
    remove, additions := {}, [];
    var keys := groups.Keys;
    NothingEmitted(conds, negated, groups);
    while keys != {}
      invariant keys <= groups.Keys && Emitted(conds, negated, keys, additions, remove)
      decreases |keys|
    {
      LeastKey(keys);
      var k :| k in keys && forall k' :: k' in keys ==> KeyLeq(k, k');
      var g := groups[k];
      EmitNext(conds, negated, keys, additions, remove, k, g);
      if |g.members| >= 2 {
        var batches := MakeBatches(k, g.numeric, negated, g.members);
        remove, additions := remove + (set i | i in g.indices), additions + batches;
      } else {
        assert additions + BatchesOf(k, g, negated) == additions && remove + IndicesOf(g) == remove;
      }
      keys := keys - {k};
    }
  }

  lemma NothingMerged(conds: seq<Cond>, negated: bool)
    requires forall i :: 0 <= i < |conds| ==> !Merged(conds, negated, conds[i])
    ensures IsMergeOf(conds, negated, conds)
  {
    KeptAll(conds, negated, conds);
    NothingToGroup(conds, negated);
    assert conds[|conds|..] == [];
  }

  /** Groups same-field conditions of the given polarity; reports whether anything was merged. */
  method MergeSameFieldConds(conds: seq<Cond>, negated: bool) returns (result: seq<Cond>, merged: bool)
    ensures IsMergeOf(conds, negated, result)
    ensures merged <==> exists c :: c in conds && Merged(conds, negated, c)
    ensures !merged ==> result == conds
  {
    hide Members, Batches, ExpectedGroups, GroupsFor, GroupsInOrder, Merged, KeyOf, Grouping;
    var groups := GroupByField(conds, negated);
    var additions, remove := EmitGroups(conds, negated, groups);

    if remove == {} {
      assert forall i :: 0 <= i < |conds| ==> !Merged(conds, negated, conds[i]) by {
        assert forall i :: i in remove <==> 0 <= i < |conds| && Merged(conds, negated, conds[i]);
      }
      NothingMerged(conds, negated);
      return conds, false;
    }

    result := [];
    for i := 0 to |conds|
      invariant result == Kept(conds, negated, conds[..i])
    {
      assert conds[..i + 1][..i] == conds[..i];
      if i !in remove {
        result := result + [conds[i]];
      }
    }
    assert conds[..|conds|] == conds;
    assert (result + additions)[|result|..] == additions;
    var i :| i in remove;
    assert conds[i] in conds;
    result, merged := result + additions, true;
  }

  lemma NothingToGroup(conds: seq<Cond>, negated: bool)
    requires forall c :: c in conds ==> !Merged(conds, negated, c)
    ensures forall k :: ExpectedGroups(conds, negated, k) == []
  {
    forall k ensures ExpectedGroups(conds, negated, k) == [] {
      MemberOrigin(conds, negated, k);
      if Members(conds, negated, k) != [] {
        var i :| 0 <= i < |conds| && KeyOf(conds[i], negated) == Some(k);
        assert conds[i] in conds;
      }
    }
  }
}
