/**
  Smart-playlist criteria and their reference meaning: what a rule says about one track row,
  read directly off the rule tree.  Nothing here is optimised: every annotation column is
  COALESCEd to its default and every tag or role test is its own EXISTS.
 */
module Criteria {
  import opened Prelude
  import opened SqlLogic
  import SqlLike

  // ----- values ---------------------------------------------------------------------------

  /** A value as SQLite stores it. */
  datatype Value = Null | Num(r: real) | Text(s: string)

  /** A value written in a rule: what JSON or Go code can put there. */
  datatype Operand = Nil | Int(n: int) | Float(r: real) | Bool(b: bool) | Str(s: string) | List(elems: seq<Operand>)

  /** Column affinity: what SQLite does to the other side of a comparison. */
  datatype Affinity = NumericAffinity | TextAffinity | NoAffinity

  datatype CmpOp = Eq | Ne | Gt | Ge | Lt | Le
  {
    predicate Ordering() { this != Eq && this != Ne }
  }

  /** The value a missing annotation row stands for. */
  datatype Default = NumDefault(d: real) | BoolDefault(b: bool)
  {
    function AsReal(): real { if NumDefault? then d else BoolReal(b) }
  }

  function BoolReal(b: bool): real { if b then 1.0 else 0.0 }

  // ----- schema, rows and rules -----------------------------------------------------------

  datatype FieldInfo = FieldInfo(name: string, isTag: bool, isRole: bool,
                                 numeric: bool, boolean: bool, nullable: bool)

  datatype Column = Column(name: string, affinity: Affinity, empties: seq<string>, default: Option<Default>)

  /** A playlist as the IN-list subquery sees it. */
  datatype Playlist = Playlist(public: bool, owner: string, tracks: set<string>)

  /** Whose rules are being compiled. */
  datatype Owner = Owner(isAdmin: bool, id: string)

  /**
    Everything the compiler and SQLite are given: the field registry, the column table, text and
    number conversions, the calendar and the playlists.
   */
  datatype Schema = Schema(
    lookup: string -> Option<FieldInfo>,
    column: string -> Option<Column>,
    numericText: string -> Option<real>,
    boolText: string -> Option<bool>,
    numText: real -> string,
    castReal: Value -> real,
    show: Operand -> string,
    days: Operand -> Option<int>,
    periodStart: int -> string,
    playlists: map<string, Playlist>,
    owner: Owner)

  /** An artist credit on a track; `artist` is absent when the join to the artist table finds none. */
  datatype Credit = Credit(role: string, artist: Option<Value>)

  datatype Row = Row(id: string, columns: string -> Value, tags: string -> seq<Value>, credits: seq<Credit>)

  datatype Pattern = Contains | StartsWith | EndsWith

  /** The rule tree.  `Compare` stands for is, isNot, gt, lt, before and after. */
  datatype Expr =
    | All(rules: seq<Expr>)
    | Any(rules: seq<Expr>)
    | Compare(op: CmpOp, field: string, value: Operand)
    | Match(pattern: Pattern, negate: bool, field: string, value: Operand)
    | InTheRange(field: string, value: Operand)
    | InTheLast(negate: bool, field: string, value: Operand)
    | InPlaylist(negate: bool, playlist: Option<string>)
    | Missing(absence: bool, field: string, value: Operand)

  // ----- comparisons ----------------------------------------------------------------------

  /** Binary collation: lexicographic order of code points. */
  predicate TextLess(a: string, b: string) {
    b != "" && (a == "" || a[0] < b[0] || (a[0] == b[0] && TextLess(a[1..], b[1..])))
  }

  /** Storage-class order: numbers sort before text. */
  predicate Less(a: Value, b: Value)
    requires !a.Null? && !b.Null?
  {
    match a
    case Num(x) => b.Text? || x < b.r
    case Text(s) => b.Text? && TextLess(s, b.s)
  }

  predicate Holds(op: CmpOp, a: Value, b: Value)
    requires !a.Null? && !b.Null?
  {
    match op
    case Eq => a == b
    case Ne => a != b
    case Gt => Less(b, a)
    case Ge => !Less(a, b)
    case Lt => Less(a, b)
    case Le => !Less(b, a)
  }

  /** The value bound for a scalar operand other than null; booleans bind as 0 and 1. */
  function Bind(o: Operand): (v: Value)
    requires !o.List? && !o.Nil?
    ensures !v.Null?
  {
    match o
    case Int(n) => Num(n as real)
    case Float(r) => Num(r)
    case Bool(b) => Num(BoolReal(b))
    case Str(s) => Text(s)
  }

  function Coerce(S: Schema, affinity: Affinity, v: Value): Value {
    match (affinity, v)
    case (NumericAffinity, Text(s)) => if S.numericText(s).Some? then Num(S.numericText(s).value) else v
    case (TextAffinity, Num(r)) => Text(S.numText(r))
    case _ => v
  }

  predicate Scalars(os: seq<Operand>) { forall i :: 0 <= i < |os| ==> !os[i].List? }

  /** squirrel renders null and lists for = and <> only, and binds only scalars. */
  predicate Renderable(op: CmpOp, o: Operand) {
    (o.Nil? ==> !op.Ordering()) && (o.List? ==> !op.Ordering() && Scalars(o.elems))
  }

  predicate InList(S: Schema, affinity: Affinity, v: Value, os: seq<Operand>)
    requires Scalars(os)
  {
    exists i :: 0 <= i < |os| && !os[i].Nil? && v == Coerce(S, affinity, Bind(os[i]))
  }

  /**
    `v <op> ?` where `v` is an expression of the given affinity.  A list means IN or NOT IN, which a
    null among its elements leaves undecided unless another one matches; null itself means IS NULL
    or IS NOT NULL.
   */
  function Test(S: Schema, affinity: Affinity, op: CmpOp, v: Value, o: Operand): Truth
    requires Renderable(op, o)
  {
    if o.List? then
      if o.elems == [] then Truly(op == Ne)
      else if v.Null? then Unknown
      else if !InList(S, affinity, v, o.elems) && Nil in o.elems then Unknown
      else Truly(InList(S, affinity, v, o.elems) == (op == Eq))
    else if o.Nil? then Truly(v.Null? == (op == Eq))
    else if v.Null? then Unknown
    else Truly(Holds(op, v, Coerce(S, affinity, Bind(o))))
  }

  function PatternText(S: Schema, p: Pattern, o: Operand): string {
    match p
    case Contains => "%" + Show(S, o) + "%"
    case StartsWith => Show(S, o) + "%"
    case EndsWith => "%" + Show(S, o)
  }

  /** An operand as it is written into a pattern: text as it is. */
  function Show(S: Schema, o: Operand): string { if o.Str? then o.s else S.show(o) }

  function Like(S: Schema, v: Value, pattern: string, negate: bool): Truth {
    match v
    case Null => Unknown
    case Num(r) => Truly(SqlLike.Likes(S.numText(r), pattern) != negate)
    case Text(s) => Truly(SqlLike.Likes(s, pattern) != negate)
  }

  // ----- tests on a multi-valued tag or role ----------------------------------------------

  /** A condition on the single value an EXISTS subquery ranges over. */
  datatype ValueCond = ValueCmp(op: CmpOp, operand: Operand) | ValueLike(pattern: string)
  {
    predicate Wf() { ValueCmp? ==> Renderable(op, operand) }
  }

  function TestValue(S: Schema, affinity: Affinity, c: ValueCond, v: Value): Truth
    requires c.Wf()
  {
    match c
    case ValueCmp(op, o) => Test(S, affinity, op, v, o)
    case ValueLike(p) => Like(S, v, p, false)
  }

  /** What the subquery compares: the JSON value, cast when the tag is numeric. */
  function TagValue(S: Schema, numeric: bool, v: Value): Value {
    if numeric && !v.Null? then Num(S.castReal(v)) else v
  }

  function TagAffinity(numeric: bool): Affinity { if numeric then NumericAffinity else NoAffinity }

  predicate SomeTag(S: Schema, row: Row, tag: string, numeric: bool, c: ValueCond)
    requires c.Wf()
  {
    exists i :: 0 <= i < |row.tags(tag)| &&
      TestValue(S, TagAffinity(numeric), c, TagValue(S, numeric, row.tags(tag)[i])) == True
  }

  predicate SomeCredit(S: Schema, row: Row, role: string, c: ValueCond)
    requires c.Wf()
  {
    exists i :: 0 <= i < |row.credits| && row.credits[i].role == role && row.credits[i].artist.Some? &&
      TestValue(S, TextAffinity, c, row.credits[i].artist.value) == True
  }

  predicate HasCredit(row: Row, role: string) {
    exists i :: 0 <= i < |row.credits| && row.credits[i].role == role
  }

  predicate SomeMember(S: Schema, row: Row, info: FieldInfo, c: ValueCond)
    requires c.Wf()
  {
    if info.isRole then SomeCredit(S, row, info.name, c) else SomeTag(S, row, info.name, info.numeric, c)
  }

  // ----- reference meaning ----------------------------------------------------------------

  function DefaultValue(d: Default): Value { Num(d.AsReal()) }

  function Coalesce(v: Value, d: Default): Value { if v.Null? then DefaultValue(d) else v }

  /** A column as the reference reads it: annotation columns always through COALESCE. */
  function Read(row: Row, col: Column): Value {
    if col.default.Some? then Coalesce(row.columns(col.name), col.default.value) else row.columns(col.name)
  }

  /** COALESCE(...) is an expression, so it has no affinity of its own. */
  function ReadAffinity(col: Column): Affinity { if col.default.Some? then NoAffinity else col.affinity }

  predicate MultiValued(S: Schema, f: string) {
    S.lookup(f).Some? && (S.lookup(f).value.isTag || S.lookup(f).value.isRole)
  }

  predicate HasColumn(S: Schema, f: string) {
    S.lookup(f).Some? && S.column(S.lookup(f).value.name).Some? &&
    S.column(S.lookup(f).value.name).value.name != ""
  }

  function ColumnOf(S: Schema, f: string): Column
    requires HasColumn(S, f)
  { S.column(S.lookup(f).value.name).value }

  predicate IsPair(o: Operand) {
    o.List? && |o.elems| == 2 && forall i :: 0 <= i < 2 ==> !o.elems[i].List? && !o.elems[i].Nil?
  }

  /** Which rules the compiler accepts; everything else is reported as an error. */
  predicate Valid(S: Schema, e: Expr) {
    match e
    case All(es) => forall i :: 0 <= i < |es| ==> Valid(S, es[i])
    case Any(es) => forall i :: 0 <= i < |es| ==> Valid(S, es[i])
    case Compare(op, f, o) => Renderable(op, o) && (MultiValued(S, f) || HasColumn(S, f))
    case Match(_, _, f, _) => MultiValued(S, f) || HasColumn(S, f)
    case InTheRange(f, o) => IsPair(o) && !MultiValued(S, f) && HasColumn(S, f)
    case InTheLast(_, f, o) => !MultiValued(S, f) && HasColumn(S, f) && S.days(o).Some?
    case InPlaylist(_, id) => id.Some?
    case Missing(_, f, o) =>
      o.Bool? && (MultiValued(S, f) || (HasColumn(S, f) && S.lookup(f).value.nullable))
  }

  function CompareMeaning(S: Schema, row: Row, op: CmpOp, f: string, o: Operand): Truth
    requires Renderable(op, o) && (MultiValued(S, f) || HasColumn(S, f))
  {
    if MultiValued(S, f) then
      if op == Ne then Truly(!SomeMember(S, row, S.lookup(f).value, ValueCmp(Eq, o)))
      else Truly(SomeMember(S, row, S.lookup(f).value, ValueCmp(op, o)))
    else
      Test(S, ReadAffinity(ColumnOf(S, f)), op, Read(row, ColumnOf(S, f)), o)
  }

  /** A playlist the rule's owner may refer to. */
  predicate Visible(owner: Owner, p: Playlist) {
    owner.isAdmin || p.public || (owner.id != "" && p.owner == owner.id)
  }

  /** NULL, the empty string or one of the column's own encodings of "nothing". */
  predicate IsEmpty(info: FieldInfo, col: Column, v: Value) {
    v.Null? || (!info.numeric && !info.boolean && v.Text? && (v.s == "" || v.s in col.empties))
  }

  function LeafMeaning(S: Schema, row: Row, e: Expr): Truth
    requires Valid(S, e) && !e.All? && !e.Any?
  {
    match e
    case Compare(op, f, o) => CompareMeaning(S, row, op, f, o)
    case Match(p, negate, f, o) =>
      if MultiValued(S, f) then
        Truly(SomeMember(S, row, S.lookup(f).value, ValueLike(PatternText(S, p, o))) != negate)
      else Like(S, Read(row, ColumnOf(S, f)), PatternText(S, p, o), negate)
    case InTheRange(f, o) =>
      And(CompareMeaning(S, row, Ge, f, o.elems[0]), CompareMeaning(S, row, Le, f, o.elems[1]))
    case InTheLast(negate, f, o) =>
      var v := row.columns(ColumnOf(S, f).name);
      var start := Str(S.periodStart(S.days(o).value));
      if negate then if v.Null? then True else Test(S, ColumnOf(S, f).affinity, Lt, v, start)
      else Test(S, ColumnOf(S, f).affinity, Gt, v, start)
    case InPlaylist(negate, id) =>
      Truly((id.value in S.playlists && Visible(S.owner, S.playlists[id.value]) &&
             row.id in S.playlists[id.value].tracks) != negate)
    case Missing(absence, f, o) =>
      var info := S.lookup(f).value;
      var missing :=
        if info.isRole then !HasCredit(row, info.name)
        else if info.isTag then row.tags(info.name) == []
        else IsEmpty(info, ColumnOf(S, f), row.columns(ColumnOf(S, f).name));
      Truly(missing == (absence == o.b))
  }

  /** The meaning of a whole rule tree on one row; the row is selected when it is True. */
  function Meaning(S: Schema, row: Row, e: Expr): Truth
    requires Valid(S, e)
    decreases e, 1
  {
    match e
    case All(es) => AndAll(Meanings(S, row, es))
    case Any(es) => OrAny(Meanings(S, row, es))
    case _ => LeafMeaning(S, row, e)
  }

  function Meanings(S: Schema, row: Row, es: seq<Expr>): (ts: seq<Truth>)
    requires forall i :: 0 <= i < |es| ==> Valid(S, es[i])
    ensures |ts| == |es|
    ensures forall i :: 0 <= i < |es| ==> ts[i] == Meaning(S, row, es[i])
    decreases es, 0
  {
    if es == [] then [] else [Meaning(S, row, es[0])] + Meanings(S, row, es[1..])
  }
}
