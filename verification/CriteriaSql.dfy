/**
  The SQL conditions smart-playlist rules compile to, their evaluation on a row, and the
  compilation of single rules, including the index-friendly bare-column form.
 */
module CriteriaSql {
  import opened Prelude
  import opened SqlLogic
  import opened Criteria

  /** What an IN-list subquery demands of the playlist besides its id. */
  datatype Access = AnyPlaylist | PublicOnly | PublicOrOwned(owner: string)

  datatype Cond =
    | AndC(conds: seq<Cond>)
    | OrC(conds: seq<Cond>)
    | TagCond(tag: string, numeric: bool, cond: Option<ValueCond>, negated: bool)
    | RoleCond(role: string, cond: Option<ValueCond>, negated: bool)
    | TagGroup(tag: string, numeric: bool, members: seq<ValueCond>, negated: bool)
    | RoleGroup(role: string, members: seq<ValueCond>, negated: bool)
    | BareCmp(col: Column, op: CmpOp, operand: Operand)
    | CoalesceCmp(col: Column, default: Default, op: CmpOp, operand: Operand)
    | ColLike(col: Column, coalesce: Option<Default>, pattern: string, negated: bool)
    | IsNull(col: Column)
    | IsNotNull(col: Column)
    | InSubquery(playlist: string, access: Access, negated: bool)

  predicate WfMembers(ms: seq<ValueCond>) { forall i :: 0 <= i < |ms| ==> ms[i].Wf() }

  predicate Wf(c: Cond) {
    match c
    case AndC(cs) => forall i :: 0 <= i < |cs| ==> Wf(cs[i])
    case OrC(cs) => forall i :: 0 <= i < |cs| ==> Wf(cs[i])
    case TagCond(_, _, vc, _) => vc.Some? ==> vc.value.Wf()
    case RoleCond(_, vc, _) => vc.Some? ==> vc.value.Wf()
    case TagGroup(_, _, ms, _) => WfMembers(ms)
    case RoleGroup(_, ms, _) => WfMembers(ms)
    case BareCmp(_, op, o) => Renderable(op, o)
    case CoalesceCmp(_, _, op, o) => Renderable(op, o)
    case _ => true
  }

  // ----- evaluation -----------------------------------------------------------------------

  /** The inner `c1 OR c2 OR ...` of a merged EXISTS, on one value. */
  function TestMembers(S: Schema, affinity: Affinity, ms: seq<ValueCond>, v: Value): (ts: seq<Truth>)
    requires WfMembers(ms)
    ensures |ts| == |ms| && forall i :: 0 <= i < |ms| ==> ts[i] == TestValue(S, affinity, ms[i], v)
  {
    if ms == [] then [] else [TestValue(S, affinity, ms[0], v)] + TestMembers(S, affinity, ms[1..], v)
  }

  predicate TagGroupExists(S: Schema, row: Row, tag: string, numeric: bool, ms: seq<ValueCond>)
    requires WfMembers(ms)
  {
    exists i :: 0 <= i < |row.tags(tag)| &&
      OrAny(TestMembers(S, TagAffinity(numeric), ms, TagValue(S, numeric, row.tags(tag)[i]))) == True
  }

  predicate RoleGroupExists(S: Schema, row: Row, role: string, ms: seq<ValueCond>)
    requires WfMembers(ms)
  {
    exists i :: 0 <= i < |row.credits| && row.credits[i].role == role && row.credits[i].artist.Some? &&
      OrAny(TestMembers(S, TextAffinity, ms, row.credits[i].artist.value)) == True
  }

  predicate Allowed(access: Access, p: Playlist) {
    match access
    case AnyPlaylist => true
    case PublicOnly => p.public
    case PublicOrOwned(id) => p.public || p.owner == id
  }

  function Eval(S: Schema, row: Row, c: Cond): Truth
    requires Wf(c)
    decreases c, 1
  {
    match c
    case AndC(cs) => AndAll(Evals(S, row, cs))
    case OrC(cs) => OrAny(Evals(S, row, cs))
    case TagCond(tag, numeric, vc, negated) =>
      Truly((if vc.Some? then SomeTag(S, row, tag, numeric, vc.value) else row.tags(tag) != []) != negated)
    case RoleCond(role, vc, negated) =>
      Truly((if vc.Some? then SomeCredit(S, row, role, vc.value) else HasCredit(row, role)) != negated)
    case TagGroup(tag, numeric, ms, negated) => Truly(TagGroupExists(S, row, tag, numeric, ms) != negated)
    case RoleGroup(role, ms, negated) => Truly(RoleGroupExists(S, row, role, ms) != negated)
    case BareCmp(col, op, o) => Test(S, col.affinity, op, row.columns(col.name), o)
    case CoalesceCmp(col, d, op, o) => Test(S, NoAffinity, op, Coalesce(row.columns(col.name), d), o)
    case ColLike(col, d, p, negated) =>
      Like(S, if d.Some? then Coalesce(row.columns(col.name), d.value) else row.columns(col.name), p, negated)
    case IsNull(col) => Truly(row.columns(col.name).Null?)
    case IsNotNull(col) => Truly(!row.columns(col.name).Null?)
    case InSubquery(p, access, negated) =>
      Truly((p in S.playlists && Allowed(access, S.playlists[p]) && row.id in S.playlists[p].tracks) != negated)
  }

  function Evals(S: Schema, row: Row, cs: seq<Cond>): (ts: seq<Truth>)
    requires forall i :: 0 <= i < |cs| ==> Wf(cs[i])
    ensures |ts| == |cs|
    ensures forall i :: 0 <= i < |cs| ==> ts[i] == Eval(S, row, cs[i])
    decreases cs, 0
  {
    if cs == [] then [] else [Eval(S, row, cs[0])] + Evals(S, row, cs[1..])
  }

  // ----- compiling single rules -----------------------------------------------------------

  predicate Satisfies(op: CmpOp, a: real, b: real) {
    match op
    case Eq => a == b
    case Ne => a != b
    case Gt => a > b
    case Ge => a >= b
    case Lt => a < b
    case Le => a <= b
  }

  function ToFloat(S: Schema, o: Operand): Option<real> {
    match o
    case Int(n) => Some(n as real)
    case Float(r) => Some(r)
    case Str(s) => S.numericText(s)
    case _ => None
  }

  function ToBool(S: Schema, o: Operand): Option<bool> {
    match o
    case Bool(b) => Some(b)
    case Str(s) => S.boolText(s)
    case Float(r) => if r == 1.0 then Some(true) else if r == 0.0 then Some(false) else None
    case _ => None
  }

  /** None: keep COALESCE.  Some(w): the bare form is used, with `OR col IS NULL` when `w`. */
  function BareNullInclusion(S: Schema, d: Default, op: CmpOp, o: Operand): Option<bool> {
    match d
    case BoolDefault(b) =>
      if op.Ordering() || ToBool(S, o).None? then None
      else Some(Satisfies(op, BoolReal(b), BoolReal(ToBool(S, o).value)))
    case NumDefault(r) =>
      if ToFloat(S, o).None? then None else Some(Satisfies(op, r, ToFloat(S, o).value))
  }

  function AnnotationCond(S: Schema, col: Column, d: Default, op: CmpOp, o: Operand): Cond {
    match BareNullInclusion(S, d, op, o)
    case None => CoalesceCmp(col, d, op, o)
    case Some(wrapNull) =>
      if wrapNull then OrC([BareCmp(col, op, o), IsNull(col)]) else BareCmp(col, op, o)
  }

  function JsonExpr(info: FieldInfo, vc: Option<ValueCond>, negate: bool): Cond {
    if info.isRole then RoleCond(info.name, vc, negate) else TagCond(info.name, info.numeric, vc, negate)
  }

  function ComparisonExpr(S: Schema, op: CmpOp, f: string, o: Operand): Result<Cond> {
    if !Renderable(op, o) then Err
    else if MultiValued(S, f) then
      if op == Ne then Ok(JsonExpr(S.lookup(f).value, Some(ValueCmp(Eq, o)), true))
      else Ok(JsonExpr(S.lookup(f).value, Some(ValueCmp(op, o)), false))
    else if !HasColumn(S, f) then Err
    else
      var col := ColumnOf(S, f);
      if col.default.Some? then Ok(AnnotationCond(S, col, col.default.value, op, o)) else Ok(BareCmp(col, op, o))
  }

  function LikeExpr(S: Schema, p: Pattern, negate: bool, f: string, o: Operand): Result<Cond> {
    if MultiValued(S, f) then Ok(JsonExpr(S.lookup(f).value, Some(ValueLike(PatternText(S, p, o))), negate))
    else if !HasColumn(S, f) then Err
    else Ok(ColLike(ColumnOf(S, f), ColumnOf(S, f).default, PatternText(S, p, o), negate))
  }

  function RangeExpr(S: Schema, f: string, o: Operand): Result<Cond> {
    if MultiValued(S, f) || !o.List? || |o.elems| != 2 then Err
    else
      var low := ComparisonExpr(S, Ge, f, o.elems[0]);
      var high := ComparisonExpr(S, Le, f, o.elems[1]);
      if low.Err? || high.Err? then Err else Ok(AndC([low.value, high.value]))
  }

  function PeriodExpr(S: Schema, negate: bool, f: string, o: Operand): Result<Cond> {
    if MultiValued(S, f) || !HasColumn(S, f) || S.days(o).None? then Err
    else
      var col := ColumnOf(S, f);
      var start := Str(S.periodStart(S.days(o).value));
      if negate then Ok(OrC([BareCmp(col, Lt, start), IsNull(col)])) else Ok(BareCmp(col, Gt, start))
  }

  function InListExpr(S: Schema, negate: bool, id: Option<string>): Result<Cond> {
    if id.None? then Err
    else
      Ok(InSubquery(id.value,
                    if S.owner.isAdmin then AnyPlaylist
                    else if S.owner.id == "" then PublicOnly else PublicOrOwned(S.owner.id),
                    negate))
  }

  function EmptyTests(col: Column, op: CmpOp, empties: seq<string>): (cs: seq<Cond>)
    ensures |cs| == |empties|
    ensures forall i :: 0 <= i < |empties| ==> cs[i] == BareCmp(col, op, Str(empties[i]))
  {
    seq(|empties|, i requires 0 <= i < |empties| => BareCmp(col, op, Str(empties[i])))
  }

  function AbsentTest(col: Column, empties: seq<string>): Cond { OrC([IsNull(col)] + EmptyTests(col, Eq, empties)) }

  function PresentTest(col: Column, empties: seq<string>): Cond { AndC([IsNotNull(col)] + EmptyTests(col, Ne, empties)) }

  function MissingExpr(S: Schema, absence: bool, f: string, o: Operand): Result<Cond> {
    if S.lookup(f).None? || !o.Bool? then Err
    else
      var info := S.lookup(f).value;
      var negate := absence == o.b;
      if info.isTag || info.isRole then Ok(JsonExpr(info, None, negate))
      else if !info.nullable || !HasColumn(S, f) then Err
      else
        var col := ColumnOf(S, f);
        var empties := if info.numeric || info.boolean then [] else [""] + col.empties;
        Ok(if negate then AbsentTest(col, empties) else PresentTest(col, empties))
  }

  function LeafExpr(S: Schema, e: Expr): Result<Cond>
    requires !e.All? && !e.Any?
  {
    match e
    case Compare(op, f, o) => ComparisonExpr(S, op, f, o)
    case Match(p, negate, f, o) => LikeExpr(S, p, negate, f, o)
    case InTheRange(f, o) => RangeExpr(S, f, o)
    case InTheLast(negate, f, o) => PeriodExpr(S, negate, f, o)
    case InPlaylist(negate, id) => InListExpr(S, negate, id)
    case Missing(absence, f, o) => MissingExpr(S, absence, f, o)
  }

  // ----- the bare form against COALESCE ---------------------------------------------------

  /** Annotation columns are numeric, and no field that treats text as empty is. */
  ghost predicate WfSchema(S: Schema) {
    forall f :: HasColumn(S, f) ==>
      && (ColumnOf(S, f).default.Some? ==> ColumnOf(S, f).affinity == NumericAffinity)
      && (S.lookup(f).value.nullable && !S.lookup(f).value.numeric && !S.lookup(f).value.boolean ==>
            ColumnOf(S, f).affinity != NumericAffinity)
  }

  /**
    Operands for which dropping COALESCE is harmless.  Text is the exception: SQLite converts
    numeric text against a bare numeric column but not against a COALESCE expression.
   */
  predicate ExactOperand(S: Schema, d: Default, op: CmpOp, o: Operand) {
    !o.Str? ||
    match d
    case NumDefault(_) => S.numericText(o.s).None?
    case BoolDefault(b) =>
      op.Ordering() || S.boolText(o.s).None? || (S.numericText(o.s).None? && S.boolText(o.s).value != b)
  }

  /** The bare form selects the same rows as `COALESCE(col, default) <op> ?`. */
  ghost predicate SelectsAsCoalesce(S: Schema, col: Column, d: Default, op: CmpOp, o: Operand)
    requires Renderable(op, o)
  {
    forall row: Row :: Eval(S, row, AnnotationCond(S, col, d, op, o)) == True <==>
                       Eval(S, row, CoalesceCmp(col, d, op, o)) == True
  }

  /** The two-member disjunction of the bare form. */
  lemma OrIsNull(S: Schema, row: Row, c: Cond, col: Column)
    requires Wf(c)
    ensures Eval(S, row, OrC([c, IsNull(col)])) == Or(Eval(S, row, c), Truly(row.columns(col.name).Null?))
  {
    var cs := [c, IsNull(col)];
    var ts := Evals(S, row, cs);
    assert ts == [ts[0], ts[1]] && ts[1..] == [ts[1]] && ts[1..][1..] == [];
    assert OrAny(ts) == Or(ts[0], OrAny(ts[1..]));
    assert OrAny(ts[1..]) == Or(ts[1], False);
  }

  lemma BareFormOnRow(S: Schema, row: Row, col: Column, d: Default, op: CmpOp, o: Operand)
    requires Renderable(op, o) && col.affinity == NumericAffinity && ExactOperand(S, d, op, o)
    ensures Eval(S, row, AnnotationCond(S, col, d, op, o)) == True <==>
            Eval(S, row, CoalesceCmp(col, d, op, o)) == True
  {
    OrIsNull(S, row, BareCmp(col, op, o), col);
  }

  function OneColumn(col: Column, v: Value): Row { Row("", _ => v, _ => [], []) }

  /** A row on which the bare form and COALESCE part, for every operand outside ExactOperand. */
  lemma BareFormDiffers(S: Schema, col: Column, d: Default, op: CmpOp, o: Operand) returns (row: Row)
    requires Renderable(op, o) && col.affinity == NumericAffinity && !ExactOperand(S, d, op, o)
    ensures !(Eval(S, row, AnnotationCond(S, col, d, op, o)) == True <==>
              Eval(S, row, CoalesceCmp(col, d, op, o)) == True)
  {
    if S.numericText(o.s).Some? {
      var x := S.numericText(o.s).value;
      row := OneColumn(col, Num(if op == Gt || op == Le then x + 1.0 else x));
    } else {
      row := OneColumn(col, Null);
    }
    hide Evals, Wf;
    OrIsNull(S, row, BareCmp(col, op, o), col);
  }

  /** The claim made for the bare form holds exactly for the operands ExactOperand admits. */
  lemma BareFormExactIff(S: Schema, col: Column, d: Default, op: CmpOp, o: Operand)
    requires Renderable(op, o) && col.affinity == NumericAffinity
    ensures SelectsAsCoalesce(S, col, d, op, o) <==> ExactOperand(S, d, op, o)
  {
    if ExactOperand(S, d, op, o) {
      forall row: Row
        ensures Eval(S, row, AnnotationCond(S, col, d, op, o)) == True <==>
                Eval(S, row, CoalesceCmp(col, d, op, o)) == True
      { BareFormOnRow(S, row, col, d, op, o); }
    } else {
      var row := BareFormDiffers(S, col, d, op, o);
    }
  }
}
