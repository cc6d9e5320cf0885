/**
  The rule-tree compiler, and the proof that neither merging nor the bare-column form changes
  which tracks a smart playlist selects.
 */
module CriteriaCompile {
  import opened Prelude
  import opened SqlLogic
  import opened Criteria
  import opened CriteriaSql
  import opened CriteriaMerge

  // ----- EXISTS over OR -------------------------------------------------------------------

  /** The subquery a single condition on field `k` would run. */
  predicate Single(S: Schema, row: Row, k: Key, numeric: bool, c: ValueCond)
    requires c.Wf()
  {
    match k
    case RoleKey(role) => SomeCredit(S, row, role, c)
    case TagKey(tag) => SomeTag(S, row, tag, numeric, c)
  }

  predicate GroupExists(S: Schema, row: Row, k: Key, numeric: bool, ms: seq<ValueCond>)
    requires WfMembers(ms)
  {
    match k
    case RoleKey(role) => RoleGroupExists(S, row, role, ms)
    case TagKey(tag) => TagGroupExists(S, row, tag, numeric, ms)
  }

  lemma OrOfMembers(S: Schema, affinity: Affinity, ms: seq<ValueCond>, v: Value)
    requires WfMembers(ms)
    ensures OrAny(TestMembers(S, affinity, ms, v)) == True <==>
            exists m :: m in ms && TestValue(S, affinity, m, v) == True
  {
    OrAnyByMembership(TestMembers(S, affinity, ms, v));
  }

  /** EXISTS distributes over OR: one merged subquery succeeds exactly when some single one would. */
  lemma ExistsOverOr(S: Schema, row: Row, k: Key, numeric: bool, ms: seq<ValueCond>)
    requires WfMembers(ms)
    ensures GroupExists(S, row, k, numeric, ms) <==> exists m :: m in ms && Single(S, row, k, numeric, m)
  {
    forall affinity, v
      ensures OrAny(TestMembers(S, affinity, ms, v)) == True <==>
              exists m :: m in ms && TestValue(S, affinity, m, v) == True
    {
      OrOfMembers(S, affinity, ms, v);
    }
    if GroupExists(S, row, k, numeric, ms) {
      match k
      case RoleKey(role) =>
        var i :| 0 <= i < |row.credits| && row.credits[i].role == role && row.credits[i].artist.Some? &&
                 OrAny(TestMembers(S, TextAffinity, ms, row.credits[i].artist.value)) == True;
        var m :| m in ms && TestValue(S, TextAffinity, m, row.credits[i].artist.value) == True;
        assert Single(S, row, k, numeric, m);
      case TagKey(tag) =>
        var i :| 0 <= i < |row.tags(tag)| &&
                 OrAny(TestMembers(S, TagAffinity(numeric), ms, TagValue(S, numeric, row.tags(tag)[i]))) == True;
        var m :| m in ms && TestValue(S, TagAffinity(numeric), m, TagValue(S, numeric, row.tags(tag)[i])) == True;
        assert Single(S, row, k, numeric, m);
    }
  }

  // ----- merging keeps the meaning --------------------------------------------------------

  predicate WfAll(cs: seq<Cond>) { forall i :: 0 <= i < |cs| ==> Wf(cs[i]) }

  /** Conditions on one tag agree on whether it is numeric. */
  predicate SameCast(conds: seq<Cond>) {
    forall i, j | 0 <= i < |conds| && 0 <= j < |conds| && conds[i].TagCond? && conds[j].TagCond? &&
                  conds[i].tag == conds[j].tag ::
      conds[i].numeric == conds[j].numeric
  }

  lemma {:induction false} FirstNumericIsCommon(conds: seq<Cond>, negated: bool, i: nat)
    requires SameCast(conds) && i < |conds| && conds[i].TagCond? && KeyOf(conds[i], negated).Some?
    ensures FirstNumeric(conds, negated, KeyOf(conds[i], negated).value) == conds[i].numeric
  {
    var k := KeyOf(conds[i], negated).value;
    var front := conds[..|conds| - 1];
    MemberOrigin(front, negated, k);
    if Members(front, negated, k) != [] {
      var j :| 0 <= j < |front| && KeyOf(front[j], negated) == Some(k);
      FirstNumericIsCommon(front, negated, j);
      assert conds[j] == front[j];
    }
  }

  /** A merged condition evaluates to its single subquery, with the group's own cast. */
  lemma SingleEval(S: Schema, row: Row, conds: seq<Cond>, negated: bool, i: nat)
    requires SameCast(conds) && WfAll(conds) && i < |conds| && KeyOf(conds[i], negated).Some?
    ensures var k := KeyOf(conds[i], negated).value;
            Eval(S, row, conds[i]) ==
            Truly(Single(S, row, k, FirstNumeric(conds, negated, k), conds[i].cond.value) != negated)
  {
    if conds[i].TagCond? { FirstNumericIsCommon(conds, negated, i); }
  }

  lemma MembersWf(conds: seq<Cond>, negated: bool, k: Key)
    requires WfAll(conds)
    ensures WfMembers(Members(conds, negated, k))
  {
    MemberOrigin(conds, negated, k);
    forall i | 0 <= i < |Members(conds, negated, k)| ensures Members(conds, negated, k)[i].Wf() {
      assert Members(conds, negated, k)[i] in Members(conds, negated, k);
    }
  }

  /** A group of the merge is a batch of its own field's members. */
  lemma GroupShape(conds: seq<Cond>, negated: bool, result: seq<Cond>, g: Cond)
    requires WfAll(conds) && IsMergeOf(conds, negated, result)
    requires g in result[|Kept(conds, negated, conds)|..]
    ensures GroupKey(g).Some? && WfMembers(MembersOf(g)) && MembersOf(g) != []
    ensures var k := GroupKey(g).value;
            && g == MakeGroup(k, FirstNumeric(conds, negated, k), MembersOf(g), negated)
            && (forall m :: m in MembersOf(g) ==> m in Members(conds, negated, k))
  {
    var groups := result[|Kept(conds, negated, conds)|..];
    var k := GroupKey(g).value;
    GroupsForMembership(groups, k);
    assert g in GroupsFor(groups, k);
    var batches := Batches(k, FirstNumeric(conds, negated, k), negated, Members(conds, negated, k));
    BatchesCover(k, FirstNumeric(conds, negated, k), negated, Members(conds, negated, k));
    FlattenMembership(batches);
    MembersWf(conds, negated, k);
    forall i | 0 <= i < |MembersOf(g)| ensures MembersOf(g)[i].Wf() {
      assert MembersOf(g)[i] in MembersOf(g);
      assert MembersOf(g)[i] in Members(conds, negated, k);
    }
  }

  /** ... and evaluates to the joint subquery of those members. */
  lemma GroupOfMerge(S: Schema, row: Row, conds: seq<Cond>, negated: bool, result: seq<Cond>, g: Cond)
    requires WfAll(conds) && IsMergeOf(conds, negated, result)
    requires g in result[|Kept(conds, negated, conds)|..]
    ensures Wf(g) && GroupKey(g).Some?
    ensures var k := GroupKey(g).value;
            Eval(S, row, g) ==
            Truly((exists m :: m in MembersOf(g) && m.Wf() &&
                     Single(S, row, k, FirstNumeric(conds, negated, k), m)) != negated)
  {
    GroupShape(conds, negated, result, g);
    var k := GroupKey(g).value;
    var numeric := FirstNumeric(conds, negated, k);
    ExistsOverOr(S, row, k, numeric, MembersOf(g));
    assert Eval(S, row, g) == Truly(GroupExists(S, row, k, numeric, MembersOf(g)) != negated);
    assert forall m :: m in MembersOf(g) ==> m.Wf();
  }

  lemma MergeWf(S: Schema, row: Row, conds: seq<Cond>, negated: bool, result: seq<Cond>)
    requires WfAll(conds) && IsMergeOf(conds, negated, result)
    ensures WfAll(result)
  {
    var n := |Kept(conds, negated, conds)|;
    KeptOrigin(conds, negated, conds);
    forall i | 0 <= i < |result| ensures Wf(result[i]) {
      if i < n {
        assert result[i] == Kept(conds, negated, conds)[i];
        assert result[i] in conds;
      } else {
        assert result[i] == result[n..][i - n];
        GroupOfMerge(S, row, conds, negated, result, result[i]);
      }
    }
  }

  /** A merged condition's test is a member of some group of its own field. */
  lemma FindGroup(conds: seq<Cond>, negated: bool, result: seq<Cond>, i: nat) returns (r: nat)
    requires IsMergeOf(conds, negated, result) && i < |conds| && Merged(conds, negated, conds[i])
    ensures |Kept(conds, negated, conds)| <= r < |result| && GroupKey(result[r]) == KeyOf(conds[i], negated)
    ensures conds[i].cond.value in MembersOf(result[r])
  {
    hide Members, Flatten, GroupsFor, GroupsInOrder, KeyOf, GroupKey, MembersOf, Kept;
    MergedHasKey(conds, negated, i);
    var kept := Kept(conds, negated, conds);
    var k := KeyOf(conds[i], negated).value;
    var j := GroupWith(result[|kept|..], k, conds[i].cond.value, conds, negated, result);
    r := |kept| + j;
  }

  lemma MergedHasKey(conds: seq<Cond>, negated: bool, i: nat)
    requires i < |conds| && Merged(conds, negated, conds[i])
    ensures KeyOf(conds[i], negated).Some? && (conds[i].TagCond? || conds[i].RoleCond?) && conds[i].cond.Some?
    ensures var ms := Members(conds, negated, KeyOf(conds[i], negated).value); |ms| >= 2 && conds[i].cond.value in ms
  {
    hide Members;
    MemberOrigin(conds, negated, KeyOf(conds[i], negated).value);
  }

  lemma GroupWith(groups: seq<Cond>, k: Key, m: ValueCond, conds: seq<Cond>, negated: bool, result: seq<Cond>) returns (j: nat)
    requires IsMergeOf(conds, negated, result) && groups == result[|Kept(conds, negated, conds)|..]
    requires |Members(conds, negated, k)| >= 2 && m in Members(conds, negated, k)
    ensures j < |groups| && GroupKey(groups[j]) == Some(k) && m in MembersOf(groups[j])
  {
    hide Members, Flatten, GroupsFor, GroupsInOrder, GroupKey, MembersOf, Kept, IsMergeOf;
    MergeAccounts(conds, negated, result, k);
    FlattenMembership(GroupsFor(groups, k));
    var g :| g in GroupsFor(groups, k) && m in MembersOf(g);
    GroupsForMembership(groups, k);
    j :| 0 <= j < |groups| && groups[j] == g;
  }

  /** Every input condition is kept, or stands behind a group that is decisive whenever it is. */
  lemma Represented(S: Schema, row: Row, conds: seq<Cond>, negated: bool, result: seq<Cond>, i: nat)
      returns (r: nat)
    requires WfAll(conds) && SameCast(conds) && IsMergeOf(conds, negated, result) && WfAll(result)
    requires i < |conds|
    ensures r < |result|
    ensures Eval(S, row, result[r]) == Eval(S, row, conds[i]) ||
            (Eval(S, row, conds[i]) == Truly(negated) && Eval(S, row, result[r]) == Truly(!negated))
  {
    var kept := Kept(conds, negated, conds);
    if !Merged(conds, negated, conds[i]) {
      KeptOrigin(conds, negated, conds);
      assert conds[i] in kept;
      r :| 0 <= r < |kept| && kept[r] == conds[i];
    } else {
      r := FindGroup(conds, negated, result, i);
      var g := result[r];
      assert g == result[|kept|..][r - |kept|];
      GroupOfMerge(S, row, conds, negated, result, g);
      SingleEval(S, row, conds, negated, i);
      assert conds[i].cond.value.Wf();
    }
  }

  /** Every output condition comes from the input: a deciding group has a deciding member. */
  lemma Supported(S: Schema, row: Row, conds: seq<Cond>, negated: bool, result: seq<Cond>, r: nat)
      returns (i: nat)
    requires WfAll(conds) && SameCast(conds) && IsMergeOf(conds, negated, result) && WfAll(result)
    requires r < |result|
    ensures i < |conds| && Eval(S, row, conds[i]) == Eval(S, row, result[r])
  {
    hide Eval, Members, GroupsFor, GroupsInOrder, Single;
    var kept := Kept(conds, negated, conds);
    KeptOrigin(conds, negated, conds);
    if r < |kept| {
      assert result[r] == kept[r] && kept[r] in kept;
      i :| 0 <= i < |conds| && conds[i] == result[r];
    } else {
      var g := result[r];
      assert g == result[|kept|..][r - |kept|];
      GroupOfMerge(S, row, conds, negated, result, g);
      GroupShape(conds, negated, result, g);
      var k := GroupKey(g).value;
      MemberOrigin(conds, negated, k);
      var numeric := FirstNumeric(conds, negated, k);
      var m := MembersOf(g)[0];
      assert m in MembersOf(g);
      if exists m' :: m' in MembersOf(g) && m'.Wf() && Single(S, row, k, numeric, m') {
        m :| m in MembersOf(g) && m.Wf() && Single(S, row, k, numeric, m);
      }
      i :| 0 <= i < |conds| && KeyOf(conds[i], negated) == Some(k) && conds[i].cond.value == m;
      SingleEval(S, row, conds, negated, i);
    }
  }

  /** Merging changes no truth value: De Morgan inside AND, distribution inside OR. */
  lemma MergePreserves(S: Schema, row: Row, conds: seq<Cond>, negated: bool, result: seq<Cond>)
    requires WfAll(conds) && SameCast(conds) && IsMergeOf(conds, negated, result) && WfAll(result)
    ensures negated ==> AndAll(Evals(S, row, result)) == AndAll(Evals(S, row, conds))
    ensures !negated ==> OrAny(Evals(S, row, result)) == OrAny(Evals(S, row, conds))
  {
    var before, after := Evals(S, row, conds), Evals(S, row, result);
    forall t | t in after ensures t in before {
      var r :| 0 <= r < |after| && after[r] == t;
      var i := Supported(S, row, conds, negated, result, r);
      assert before[i] == t;
    }
    forall t | t in before
      ensures t in after || (t == Truly(negated) && Truly(!negated) in after)
      ensures t == Truly(!negated) ==> t in after
    {
      var i :| 0 <= i < |before| && before[i] == t;
      var r := Represented(S, row, conds, negated, result, i);
      assert after[r] in after;
    }
    AndAllByMembership(before);
    AndAllByMembership(after);
    OrAnyByMembership(before);
    OrAnyByMembership(after);
  }

  // ----- single rules ---------------------------------------------------------------------

  /** Every comparison on an annotation column uses an operand the bare form is exact for. */
  predicate ExactOperands(S: Schema, e: Expr) {
    match e
    case All(es) => forall i :: 0 <= i < |es| ==> ExactOperands(S, es[i])
    case Any(es) => forall i :: 0 <= i < |es| ==> ExactOperands(S, es[i])
    case Compare(op, f, o) => ExactOn(S, op, f, o)
    case InTheRange(f, o) => IsPair(o) ==> ExactOn(S, Ge, f, o.elems[0]) && ExactOn(S, Le, f, o.elems[1])
    case _ => true
  }

  predicate ExactOn(S: Schema, op: CmpOp, f: string, o: Operand) {
    !MultiValued(S, f) && HasColumn(S, f) && ColumnOf(S, f).default.Some? ==>
      ExactOperand(S, ColumnOf(S, f).default.value, op, o)
  }

  lemma ComparisonCorrect(S: Schema, row: Row, op: CmpOp, f: string, o: Operand)
    requires WfSchema(S)
    requires Renderable(op, o) && (MultiValued(S, f) || HasColumn(S, f)) && ExactOn(S, op, f, o)
    ensures var r := ComparisonExpr(S, op, f, o);
            r.Ok? && Wf(r.value) && (Eval(S, row, r.value) == True <==> CompareMeaning(S, row, op, f, o) == True)
  {
    if MultiValued(S, f) {
      MultiComparisonCorrect(S, row, op, f, o);
    } else {
      ColumnComparisonCorrect(S, row, op, f, o);
    }
  }

  lemma MultiComparisonCorrect(S: Schema, row: Row, op: CmpOp, f: string, o: Operand)
    requires Renderable(op, o) && MultiValued(S, f)
    ensures var r := ComparisonExpr(S, op, f, o);
            r.Ok? && Wf(r.value) && Eval(S, row, r.value) == CompareMeaning(S, row, op, f, o)
  {
    hide SomeTag, SomeCredit;
  }

  lemma ColumnComparisonCorrect(S: Schema, row: Row, op: CmpOp, f: string, o: Operand)
    requires WfSchema(S) && Renderable(op, o) && !MultiValued(S, f) && HasColumn(S, f) && ExactOn(S, op, f, o)
    ensures var r := ComparisonExpr(S, op, f, o);
            r.Ok? && Wf(r.value) && (Eval(S, row, r.value) == True <==> CompareMeaning(S, row, op, f, o) == True)
  {
    hide ExactOperand, Test, AnnotationCond, Renderable, WfSchema, Eval, Wf;
    var col := ColumnOf(S, f);
    EvalComparison(S, row, col, op, o);
    if col.default.Some? {
      DefaultIsNumeric(S, f);
      BareFormOnRow(S, row, col, col.default.value, op, o);
      AnnotationWf(S, col, col.default.value, op, o);
    }
  }

  lemma DefaultIsNumeric(S: Schema, f: string)
    requires WfSchema(S) && HasColumn(S, f) && ColumnOf(S, f).default.Some?
    ensures ColumnOf(S, f).affinity == NumericAffinity
  {
  }

  lemma EvalComparison(S: Schema, row: Row, col: Column, op: CmpOp, o: Operand)
    requires Renderable(op, o)
    ensures Wf(BareCmp(col, op, o)) && Eval(S, row, BareCmp(col, op, o)) == Test(S, col.affinity, op, row.columns(col.name), o)
    ensures col.default.Some? ==>
              && Wf(CoalesceCmp(col, col.default.value, op, o))
              && Eval(S, row, CoalesceCmp(col, col.default.value, op, o)) ==
                 Test(S, NoAffinity, op, Coalesce(row.columns(col.name), col.default.value), o)
  {
    hide Test, Renderable;
  }

  lemma AnnotationWf(S: Schema, col: Column, d: Default, op: CmpOp, o: Operand)
    requires Renderable(op, o)
    ensures Wf(AnnotationCond(S, col, d, op, o))
  {
  }

  lemma AndOfTwo(S: Schema, row: Row, a: Cond, b: Cond)
    requires Wf(a) && Wf(b)
    ensures Eval(S, row, AndC([a, b])) == And(Eval(S, row, a), Eval(S, row, b))
  {
    AndAllByMembership(Evals(S, row, [a, b]));
  }

  predicate Empties(info: FieldInfo, col: Column, empties: seq<string>) {
    && empties == (if info.numeric || info.boolean then [] else [""] + col.empties)
    && (!info.numeric && !info.boolean ==> col.affinity != NumericAffinity)
  }

  lemma EmptyIsListed(info: FieldInfo, col: Column, empties: seq<string>, v: Value)
    requires Empties(info, col, empties)
    ensures IsEmpty(info, col, v) <==> v.Null? || exists i :: 0 <= i < |empties| && v == Text(empties[i])
  {
    if IsEmpty(info, col, v) && !v.Null? {
      assert v.s in empties;
    }
  }

  /** What one comparison with an empty value says of the column's value. */
  function EmptyTruth(v: Value, equal: bool, e: string): Truth { if v.Null? then Unknown else Truly((v == Text(e)) == equal) }

  lemma EmptyTestEval(S: Schema, row: Row, col: Column, equal: bool, e: string)
    requires col.affinity != NumericAffinity
    ensures var c := BareCmp(col, if equal then Eq else Ne, Str(e));
            Wf(c) && Eval(S, row, c) == EmptyTruth(row.columns(col.name), equal, e)
  {
  }

  /** The tests of a column: on NULL first, then one for each empty value. */
  lemma ColumnTests(S: Schema, row: Row, col: Column, equal: bool, empties: seq<string>, cs: seq<Cond>)
    requires empties != [] ==> col.affinity != NumericAffinity
    requires cs == [if equal then IsNull(col) else IsNotNull(col)] + EmptyTests(col, if equal then Eq else Ne, empties)
    ensures WfAll(cs)
    ensures var v, ts := row.columns(col.name), Evals(S, row, cs);
            && |ts| == |empties| + 1
            && ts[0] == Truly(v.Null? == equal)
            && forall i :: 0 < i < |ts| ==> ts[i] == EmptyTruth(v, equal, empties[i - 1])
  {
    forall i | 0 < i < |cs|
      ensures Wf(cs[i]) && Eval(S, row, cs[i]) == EmptyTruth(row.columns(col.name), equal, empties[i - 1])
    {
      assert cs[i] == BareCmp(col, if equal then Eq else Ne, Str(empties[i - 1]));
      hide Eval, Wf;
      EmptyTestEval(S, row, col, equal, empties[i - 1]);
    }
  }

  /** `col IS NULL OR col = '' ...` is the missing test. */
  lemma MissingColumn(S: Schema, row: Row, info: FieldInfo, col: Column, empties: seq<string>)
    requires Empties(info, col, empties)
    ensures Wf(AbsentTest(col, empties))
    ensures Eval(S, row, AbsentTest(col, empties)) == Truly(IsEmpty(info, col, row.columns(col.name)))
  {
    hide Evals, Empties, IsEmpty;
    var v, cs := row.columns(col.name), [IsNull(col)] + EmptyTests(col, Eq, empties);
    EmptiesAreText(info, col, empties);
    ColumnTests(S, row, col, true, empties, cs);
    var ts := Evals(S, row, cs);
    OrAnyByMembership(ts);
    EmptyIsListed(info, col, empties, v);
    if i :| 0 <= i < |empties| && v == Text(empties[i]) { assert ts[i + 1] == True; }
  }

  /** `col IS NOT NULL AND col <> '' ...` is its complement. */
  lemma PresentColumn(S: Schema, row: Row, info: FieldInfo, col: Column, empties: seq<string>)
    requires Empties(info, col, empties)
    ensures Wf(PresentTest(col, empties))
    ensures Eval(S, row, PresentTest(col, empties)) == Truly(!IsEmpty(info, col, row.columns(col.name)))
  {
    hide Evals, Empties, IsEmpty;
    var v, cs := row.columns(col.name), [IsNotNull(col)] + EmptyTests(col, Ne, empties);
    EmptiesAreText(info, col, empties);
    ColumnTests(S, row, col, false, empties, cs);
    var ts := Evals(S, row, cs);
    AndAllByMembership(ts);
    EmptyIsListed(info, col, empties, v);
    if i :| 0 <= i < |empties| && v == Text(empties[i]) { assert ts[i + 1] == False; }
  }

  lemma EmptiesAreText(info: FieldInfo, col: Column, empties: seq<string>)
    requires Empties(info, col, empties)
    ensures empties != [] ==> col.affinity != NumericAffinity
  {
  }

  /** A leaf rule compiled as the reference demands, on one row. */
  ghost predicate LeafOk(S: Schema, row: Row, e: Expr)
    requires !e.All? && !e.Any?
  {
    && (LeafExpr(S, e).Ok? <==> Valid(S, e))
    && (LeafExpr(S, e).Ok? ==> Wf(LeafExpr(S, e).value))
    && (Valid(S, e) && ExactOperands(S, e) ==>
          (Eval(S, row, LeafExpr(S, e).value) == True <==> LeafMeaning(S, row, e) == True))
  }

  lemma ComparisonWf(S: Schema, op: CmpOp, f: string, o: Operand)
    ensures var r := ComparisonExpr(S, op, f, o);
            && (r.Ok? <==> Renderable(op, o) && (MultiValued(S, f) || HasColumn(S, f)))
            && (r.Ok? ==> Wf(r.value))
  {
    hide AnnotationCond;
    if Renderable(op, o) && !MultiValued(S, f) && HasColumn(S, f) && ColumnOf(S, f).default.Some? {
      AnnotationWf(S, ColumnOf(S, f), ColumnOf(S, f).default.value, op, o);
    }
  }

  lemma RangeCorrect(S: Schema, row: Row, e: Expr)
    requires WfSchema(S) && e.InTheRange?
    ensures LeafOk(S, row, e)
  {
    var f, o := e.field, e.value;
    if o.List? && |o.elems| == 2 {
      ComparisonWf(S, Ge, f, o.elems[0]);
      ComparisonWf(S, Le, f, o.elems[1]);
    }
    if Valid(S, e) && ExactOperands(S, e) {
      ComparisonCorrect(S, row, Ge, f, o.elems[0]);
      ComparisonCorrect(S, row, Le, f, o.elems[1]);
      AndOfTwo(S, row, ComparisonExpr(S, Ge, f, o.elems[0]).value, ComparisonExpr(S, Le, f, o.elems[1]).value);
    }
  }

  lemma PeriodCorrect(S: Schema, row: Row, e: Expr)
    requires WfSchema(S) && e.InTheLast?
    ensures LeafOk(S, row, e)
  {
    if Valid(S, e) {
      var col := ColumnOf(S, e.field);
      OrIsNull(S, row, BareCmp(col, Lt, Str(S.periodStart(S.days(e.value).value))), col);
    }
  }

  lemma MissingColumnCorrect(S: Schema, row: Row, e: Expr)
    requires WfSchema(S) && e.Missing? && Valid(S, e) && !MultiValued(S, e.field)
    ensures MissingExpr(S, e.absence, e.field, e.value).Ok?
    ensures var c := MissingExpr(S, e.absence, e.field, e.value).value;
            Wf(c) && Eval(S, row, c) == LeafMeaning(S, row, e)
  {
    var info, col := S.lookup(e.field).value, ColumnOf(S, e.field);
    var empties := if info.numeric || info.boolean then [] else [""] + col.empties;
    assert Empties(info, col, empties);
    if e.absence == e.value.b {
      assert MissingExpr(S, e.absence, e.field, e.value) == Ok(AbsentTest(col, empties));
      MissingColumn(S, row, info, col, empties);
    } else {
      assert MissingExpr(S, e.absence, e.field, e.value) == Ok(PresentTest(col, empties));
      PresentColumn(S, row, info, col, empties);
    }
  }

  lemma MissingCorrect(S: Schema, row: Row, e: Expr)
    requires WfSchema(S) && e.Missing?
    ensures LeafOk(S, row, e)
  {
    if !Valid(S, e) {
      assert MissingExpr(S, e.absence, e.field, e.value).Err?;
    } else if MultiValued(S, e.field) {
      var c := JsonExpr(S.lookup(e.field).value, None, e.absence == e.value.b);
      assert MissingExpr(S, e.absence, e.field, e.value) == Ok(c);
      assert Eval(S, row, c) == LeafMeaning(S, row, e);
    } else {
      MissingColumnCorrect(S, row, e);
    }
  }

  /** A leaf compiles exactly when it is valid, and then selects the rows its meaning selects. */
  lemma LeafCorrect(S: Schema, row: Row, e: Expr)
    requires WfSchema(S) && !e.All? && !e.Any?
    ensures LeafOk(S, row, e)
  {
    match e
    case Compare(op, f, o) =>
      if Valid(S, e) && ExactOn(S, op, f, o) { ComparisonCorrect(S, row, op, f, o); }
    case InTheRange(_, _) => RangeCorrect(S, row, e);
    case InTheLast(_, _, _) => PeriodCorrect(S, row, e);
    case Missing(_, _, _) => MissingCorrect(S, row, e);
    case _ =>
  }

  // ----- the whole tree -------------------------------------------------------------------

  /** Two registered names of one tag agree on whether it is numeric. */
  ghost predicate ConsistentTags(S: Schema) {
    forall f, g :: PlainTag(S, f) && PlainTag(S, g) && S.lookup(f).value.name == S.lookup(g).value.name ==>
      S.lookup(f).value.numeric == S.lookup(g).value.numeric
  }

  predicate PlainTag(S: Schema, f: string) {
    S.lookup(f).Some? && S.lookup(f).value.isTag && !S.lookup(f).value.isRole
  }

  /** A tag condition carries the numeric flag of a registered tag. */
  ghost predicate Registered(S: Schema, c: Cond) {
    c.TagCond? ==> exists f :: PlainTag(S, f) && S.lookup(f).value.name == c.tag && S.lookup(f).value.numeric == c.numeric
  }

  lemma LeafRegistered(S: Schema, e: Expr)
    requires !e.All? && !e.Any? && LeafExpr(S, e).Ok?
    ensures Registered(S, LeafExpr(S, e).value)
  {
    match e
    case Compare(op, f, o) => assert MultiValued(S, f) || HasColumn(S, f);
    case Match(p, negate, f, o) => assert MultiValued(S, f) || HasColumn(S, f);
    case Missing(absence, f, o) => assert S.lookup(f).Some?;
    case _ =>
  }

  lemma RegisteredAgree(S: Schema, conds: seq<Cond>)
    requires ConsistentTags(S) && forall i :: 0 <= i < |conds| ==> Registered(S, conds[i])
    ensures SameCast(conds)
  {
    forall i, j | 0 <= i < |conds| && 0 <= j < |conds| && conds[i].TagCond? && conds[j].TagCond? &&
                  conds[i].tag == conds[j].tag
      ensures conds[i].numeric == conds[j].numeric
    {
      assert Registered(S, conds[i]) && Registered(S, conds[j]);
    }
  }

  /** The compiled condition selects exactly the rows the rule means. */
  ghost predicate Faithful(S: Schema, e: Expr, c: Cond)
    requires Valid(S, e) && Wf(c)
  {
    forall row: Row :: Eval(S, row, c) == True <==> Meaning(S, row, e) == True
  }

  /** Children that agree on what is True give conjunctions and disjunctions that agree. */
  lemma TreeStep(S: Schema, row: Row, es: seq<Expr>, cs: seq<Cond>)
    requires |cs| == |es| && WfAll(cs)
    requires forall i :: 0 <= i < |es| ==> Valid(S, es[i]) && Faithful(S, es[i], cs[i])
    ensures AndAll(Evals(S, row, cs)) == True <==> AndAll(Meanings(S, row, es)) == True
    ensures OrAny(Evals(S, row, cs)) == True <==> OrAny(Meanings(S, row, es)) == True
  {
    var ts, us := Evals(S, row, cs), Meanings(S, row, es);
    AndAllByMembership(ts);
    AndAllByMembership(us);
    OrAnyByMembership(ts);
    OrAnyByMembership(us);
    assert forall i :: 0 <= i < |es| ==> (ts[i] == True <==> us[i] == True) by {
      forall i | 0 <= i < |es| ensures ts[i] == True <==> us[i] == True {
        assert Faithful(S, es[i], cs[i]);
      }
    }
    AllTrueIff(ts);
    AllTrueIff(us);
  }

  lemma AllTrueIff(ts: seq<Truth>)
    ensures AndAll(ts) == True <==> forall i :: 0 <= i < |ts| ==> ts[i] == True
  {
    AndAllByMembership(ts);
    assert forall i :: 0 <= i < |ts| ==> ts[i] in ts;
  }

  lemma GroupOnRow(S: Schema, row: Row, e: Expr, cs: seq<Cond>, result: seq<Cond>)
    requires (e.All? || e.Any?) && Valid(S, e) && |cs| == |e.rules|
    requires WfAll(cs) && WfAll(result) && SameCast(cs) && IsMergeOf(cs, e.All?, result)
    requires forall i :: 0 <= i < |cs| ==> Faithful(S, e.rules[i], cs[i])
    ensures Eval(S, row, if e.All? then AndC(result) else OrC(result)) == True <==> Meaning(S, row, e) == True
  {
    MergePreserves(S, row, cs, e.All?, result);
    TreeStep(S, row, e.rules, cs);
  }

  lemma GroupCorrect(S: Schema, e: Expr, cs: seq<Cond>, result: seq<Cond>)
    requires ConsistentTags(S) && (e.All? || e.Any?) && |cs| == |e.rules| && Valid(S, e)
    requires WfAll(cs) && forall i :: 0 <= i < |cs| ==> Registered(S, cs[i]) && Faithful(S, e.rules[i], cs[i])
    requires IsMergeOf(cs, e.All?, result) && WfAll(result)
    ensures Faithful(S, e, if e.All? then AndC(result) else OrC(result))
  {
    RegisteredAgree(S, cs);
    forall row: Row
      ensures Eval(S, row, if e.All? then AndC(result) else OrC(result)) == True <==> Meaning(S, row, e) == True
    {
      GroupOnRow(S, row, e, cs, result);
    }
  }

  lemma CompileLeaf(S: Schema, e: Expr)
    requires WfSchema(S) && !e.All? && !e.Any?
    ensures LeafExpr(S, e).Ok? <==> Valid(S, e)
    ensures LeafExpr(S, e).Ok? ==> Wf(LeafExpr(S, e).value) && Registered(S, LeafExpr(S, e).value)
    ensures Valid(S, e) && ExactOperands(S, e) ==> Faithful(S, e, LeafExpr(S, e).value)
  {
    LeafCorrect(S, Row("", _ => Null, _ => [], []), e);
    if LeafExpr(S, e).Ok? {
      LeafRegistered(S, e);
      if ExactOperands(S, e) {
        forall row: Row ensures Eval(S, row, LeafExpr(S, e).value) == True <==> Meaning(S, row, e) == True {
          LeafCorrect(S, row, e);
        }
      }
    }
  }

  /** `c` is what the rule tree compiles to: leaves by themselves, groups merged. */
  ghost predicate Compiles(S: Schema, e: Expr, c: Cond)
    decreases e
  {
    if !e.All? && !e.Any? then LeafExpr(S, e) == Ok(c)
    else exists cs, result ::
      && IsMergeOf(cs, e.All?, result) && |cs| == |e.rules|
      && (forall i :: 0 <= i < |cs| ==> Compiles(S, e.rules[i], cs[i]))
      && c == if e.All? then AndC(result) else OrC(result)
  }

  /** Only valid rules compile. */
  lemma {:induction false} CompiledIsValid(S: Schema, e: Expr, c: Cond)
    requires WfSchema(S) && Compiles(S, e, c)
    ensures Valid(S, e) && Wf(c) && Registered(S, c)
    decreases e
  {
    if !e.All? && !e.Any? {
      CompileLeaf(S, e);
    } else {
      var cs, result :| IsMergeOf(cs, e.All?, result) && |cs| == |e.rules| &&
        (forall i :: 0 <= i < |cs| ==> Compiles(S, e.rules[i], cs[i])) && c == if e.All? then AndC(result) else OrC(result);
      hide IsMergeOf;
      forall i | 0 <= i < |cs| ensures Valid(S, e.rules[i]) && Wf(cs[i]) { CompiledIsValid(S, e.rules[i], cs[i]); }
      MergeWf(S, Row("", _ => Null, _ => [], []), cs, e.All?, result);
    }
  }

  /** With consistent tags, a compiled rule of exact operands selects the rows it means. */
  lemma {:induction false} CompiledIsFaithful(S: Schema, e: Expr, c: Cond)
    requires WfSchema(S) && ConsistentTags(S) && Compiles(S, e, c) && ExactOperands(S, e)
    ensures Valid(S, e) && Wf(c) && Faithful(S, e, c)
    decreases e
  {
    CompiledIsValid(S, e, c);
    if !e.All? && !e.Any? {
      CompileLeaf(S, e);
    } else {
      var cs, result :| IsMergeOf(cs, e.All?, result) && |cs| == |e.rules| &&
        (forall i :: 0 <= i < |cs| ==> Compiles(S, e.rules[i], cs[i])) && c == if e.All? then AndC(result) else OrC(result);
      hide IsMergeOf, Faithful, ConsistentTags, Registered, WfSchema;
      forall i | 0 <= i < |cs|
        ensures Valid(S, e.rules[i]) && Wf(cs[i]) && Registered(S, cs[i]) && Faithful(S, e.rules[i], cs[i])
      {
        CompiledIsValid(S, e.rules[i], cs[i]);
        CompiledIsFaithful(S, e.rules[i], cs[i]);
      }
      GroupCorrect(S, e, cs, result);
    }
  }

  /**
    Compiles a rule tree.  It fails exactly on invalid rules; otherwise the condition, with its
    merged EXISTS groups and bare columns, selects the rows the tree means, for tags registered
    consistently and operands the bare form is exact for.
   */
  method Compile(S: Schema, e: Expr) returns (r: Result<Cond>)
    requires WfSchema(S)
    ensures r.Ok? <==> Valid(S, e)
    ensures r.Ok? ==> Wf(r.value) && Compiles(S, e, r.value)
    ensures r.Ok? && ConsistentTags(S) && ExactOperands(S, e) ==> Faithful(S, e, r.value)
    decreases e
  {
    hide Faithful, ConsistentTags, Registered, IsMergeOf;
    if !e.All? && !e.Any? {
      CompileLeaf(S, e);
      return LeafExpr(S, e);
    }
    var cs: seq<Cond> := [];
    for i := 0 to |e.rules|
      invariant |cs| == i
      invariant forall j :: 0 <= j < i ==> Valid(S, e.rules[j]) && Compiles(S, e.rules[j], cs[j])
    {
      var child := Compile(S, e.rules[i]);
      if child.Err? {
        return Err;
      }
      cs := cs + [child.value];
    }
    var result, merged := MergeSameFieldConds(cs, e.All?);
    r := Ok(if e.All? then AndC(result) else OrC(result));
    CompiledIsValid(S, e, r.value);
    if ConsistentTags(S) && ExactOperands(S, e) { CompiledIsFaithful(S, e, r.value); }
  }

  /**
    Compilation preserves meaning for all trees exactly when every name of a tag agrees on whether
    the tag is numeric.  (The text "a" stands for any that is no number.)
   */
  lemma FaithfulIffConsistentTags(S: Schema)
    requires WfSchema(S) && S.numericText("a").None?
    ensures ConsistentTags(S) <==>
            forall e, c :: Compiles(S, e, c) && ExactOperands(S, e) ==> Preserves(S, e, c)
  {
    hide Compiles, ExactOperands, Preserves, WfSchema, ConsistentTags;
    if ConsistentTags(S) {
      forall e, c | Compiles(S, e, c) && ExactOperands(S, e) ensures Preserves(S, e, c) {
        CompiledPreserves(S, e, c);
      }
    } else {
      var f, g := MixedNames(S);
      var e, c := MixedRuleFails(S, f, g);
    }
  }

  ghost predicate Preserves(S: Schema, e: Expr, c: Cond) { Valid(S, e) && Wf(c) && Faithful(S, e, c) }

  lemma CompiledPreserves(S: Schema, e: Expr, c: Cond)
    requires WfSchema(S) && ConsistentTags(S) && Compiles(S, e, c) && ExactOperands(S, e)
    ensures Preserves(S, e, c)
  {
    CompiledIsFaithful(S, e, c);
  }

  lemma MixedNames(S: Schema) returns (f: string, g: string)
    requires !ConsistentTags(S)
    ensures PlainTag(S, f) && PlainTag(S, g) && S.lookup(f).value.name == S.lookup(g).value.name
    ensures S.lookup(f).value.numeric && !S.lookup(g).value.numeric
  {
    f, g :| PlainTag(S, f) && PlainTag(S, g) && S.lookup(f).value.name == S.lookup(g).value.name &&
      S.lookup(f).value.numeric != S.lookup(g).value.numeric;
    if !S.lookup(f).value.numeric { f, g := g, f; }
  }

  /** `f is "a" or g is "a"`, where f and g name one tag, f as numeric. */
  lemma MixedRuleFails(S: Schema, f: string, g: string) returns (e: Expr, c: Cond)
    requires WfSchema(S) && S.numericText("a").None? && PlainTag(S, f) && PlainTag(S, g)
    requires S.lookup(f).value.name == S.lookup(g).value.name && S.lookup(f).value.numeric && !S.lookup(g).value.numeric
    ensures Compiles(S, e, c) && ExactOperands(S, e) && !Preserves(S, e, c)
  {
    hide IsMergeOf, Eval, Meaning, WfSchema, Single;
    var tag, a := S.lookup(f).value.name, Str("a");
    var one, two := Compare(Eq, f, a), Compare(Eq, g, a);
    e := Any([one, two]);
    var cs, result := MixedCast(tag), [TagGroup(tag, true, [ValueCmp(Eq, a), ValueCmp(Eq, a)], false)];
    c := OrC(result);
    MixedCastMerged(tag);
    assert Compiles(S, one, cs[0]) && Compiles(S, two, cs[1]);
    assert e.rules[0] == one && e.rules[1] == two;
    MixedRuleCompiles(S, e, cs, result);
    MixedCastLosesTracks(S, tag, result);
    MixedCastApart(S, tag);
    MixedRuleMeans(S, f, g, e);
  }

  lemma MixedRuleCompiles(S: Schema, e: Expr, cs: seq<Cond>, result: seq<Cond>)
    requires e.Any? && |cs| == |e.rules| && IsMergeOf(cs, false, result)
    requires forall i :: 0 <= i < |cs| ==> Compiles(S, e.rules[i], cs[i])
    ensures Compiles(S, e, OrC(result))
  {
    hide IsMergeOf;
  }

  lemma MixedRuleMeans(S: Schema, f: string, g: string, e: Expr)
    requires S.numericText("a").None? && PlainTag(S, f) && PlainTag(S, g)
    requires S.lookup(f).value.name == S.lookup(g).value.name && !S.lookup(g).value.numeric
    requires e == Any([Compare(Eq, f, Str("a")), Compare(Eq, g, Str("a"))])
    ensures Valid(S, e) && Meaning(S, OneTag(S.lookup(f).value.name, Text("a")), e) == True
  {
    var tag := S.lookup(f).value.name;
    var row := OneTag(tag, Text("a"));
    OrAnyByMembership(Meanings(S, row, e.rules));
    assert Meanings(S, row, e.rules)[1] == True by {
      assert row.tags(tag)[0] == Text("a");
      assert SomeTag(S, row, tag, false, ValueCmp(Eq, Str("a")));
    }
  }

  lemma MixedCastMerged(tag: string)
    ensures IsMergeOf(MixedCast(tag), false, [TagGroup(tag, true, [ValueCmp(Eq, Str("a")), ValueCmp(Eq, Str("a"))], false)])
  {
    var conds, m := MixedCast(tag), ValueCmp(Eq, Str("a"));
    var g := TagGroup(tag, true, [m, m], false);
    MixedCastGroups(tag);
    assert [g][0..] == [g] && [g][..0] == [];
    forall k ensures GroupsFor([g], k) == ExpectedGroups(conds, false, k) {
      assert k != TagKey(tag) ==> Members(conds, false, k) == [];
    }
  }

  /** `is "a"` through a numeric and then a plain name of one tag. */
  function MixedCast(tag: string): seq<Cond> {
    [TagCond(tag, true, Some(ValueCmp(Eq, Str("a"))), false), TagCond(tag, false, Some(ValueCmp(Eq, Str("a"))), false)]
  }

  function OneTag(tag: string, v: Value): Row { Row("", _ => Null, t => if t == tag then [v] else [], []) }

  /**
    The registry condition is needed: when one name of a tag is numeric and another is not, merging
    the two conditions applies the first one's cast to both and loses a track the rule selects.
   */
  lemma MixedCastLosesTracks(S: Schema, tag: string, result: seq<Cond>)
    requires S.numericText("a").None? && IsMergeOf(MixedCast(tag), false, result) && WfAll(result)
    ensures Eval(S, OneTag(tag, Text("a")), OrC(MixedCast(tag))) == True
    ensures Eval(S, OneTag(tag, Text("a")), OrC(result)) == False
  {
    var m := ValueCmp(Eq, Str("a"));
    var conds, k := MixedCast(tag), TagKey(tag);
    var row := OneTag(tag, Text("a"));
    MixedCastGroups(tag);
    MixedCastApart(S, tag);
    hide Single;
    forall i | 0 <= i < |result| ensures Eval(S, row, result[i]) == False {
      assert result[0..] == result;
      GroupOfMerge(S, row, conds, false, result, result[i]);
      GroupShape(conds, false, result, result[i]);
      assert MembersOf(result[i])[0] in MembersOf(result[i]);
    }
    OrAnyByMembership(Evals(S, row, result));
  }

  /** Apart, the second condition selects the track; under the first one's cast neither does. */
  lemma MixedCastApart(S: Schema, tag: string)
    requires S.numericText("a").None?
    ensures var row := OneTag(tag, Text("a"));
            && WfAll(MixedCast(tag)) && Eval(S, row, OrC(MixedCast(tag))) == True
            && !Single(S, row, TagKey(tag), true, ValueCmp(Eq, Str("a")))
  {
    var m, row, conds := ValueCmp(Eq, Str("a")), OneTag(tag, Text("a")), MixedCast(tag);
    OrAnyByMembership(Evals(S, row, conds));
    assert Evals(S, row, conds)[1] == True by {
      assert row.tags(tag)[0] == Text("a");
      assert SomeTag(S, row, tag, false, m);
    }
  }

  lemma MixedCastGroups(tag: string)
    ensures var conds := MixedCast(tag);
            && Kept(conds, false, conds) == []
            && FirstNumeric(conds, false, TagKey(tag))
            && Members(conds, false, TagKey(tag)) == [ValueCmp(Eq, Str("a")), ValueCmp(Eq, Str("a"))]
            && (forall k :: k != TagKey(tag) ==> Members(conds, false, k) == [])
            && forall k, m :: m in Members(conds, false, k) ==> k == TagKey(tag) && m == ValueCmp(Eq, Str("a"))
  {
    var conds, k := MixedCast(tag), TagKey(tag);
    assert conds[..1] == [conds[0]] && [conds[0]][..0] == [];
    assert Members([conds[0]], false, k) == [ValueCmp(Eq, Str("a"))];
    assert FirstNumeric(conds, false, k) == FirstNumeric([conds[0]], false, k);
    assert |Members(conds, false, k)| == 2;
    assert Kept(conds, false, [conds[0]]) == [];
    forall k' | k' != k ensures Members(conds, false, k') == [] {
      MemberOrigin(conds, false, k');
    }
    forall k', m | m in Members(conds, false, k') ensures k' == k && m == ValueCmp(Eq, Str("a")) {
      MemberOrigin(conds, false, k');
    }
  }
}
