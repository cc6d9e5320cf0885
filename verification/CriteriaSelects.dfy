/**
  What compiled rules select, said of the row's values themselves: the text a pattern rule looks for,
  the numbers and texts a comparison lets through, and where the bare column form is used at all.
 */
module CriteriaSelects {
  import opened Prelude
  import opened SqlLogic
  import opened SqlLike
  import opened Criteria
  import opened CriteriaSql
  import opened CriteriaMerge
  import opened CriteriaCompile

  // ----- patterns -------------------------------------------------------------------------

  /** Some beginning, end or part of the text is LIKE `x`. */
  ghost predicate TextFits(p: Pattern, text: string, x: string) {
    match p
    case StartsWith => exists k :: 0 <= k <= |text| && Likes(text[..k], x)
    case EndsWith => exists k :: 0 <= k <= |text| && Likes(text[k..], x)
    case Contains => exists i, j :: 0 <= i <= j <= |text| && Likes(text[i..j], x)
  }

  /** Without wildcards: the text begins with, ends with or holds `x` itself, but for the case of ASCII letters. */
  lemma PlainTextFits(p: Pattern, text: string, x: string)
    requires Plain(x)
    ensures p.StartsWith? ==> (TextFits(p, text, x) <==> |x| <= |text| && SameFolded(text[..|x|], x))
    ensures p.EndsWith? ==> (TextFits(p, text, x) <==> |x| <= |text| && SameFolded(text[|text| - |x|..], x))
    ensures p.Contains? ==> (TextFits(p, text, x) <==> exists i :: FoundAt(text, x, i))
  {
    hide Fold, Likes;
    forall i, j | 0 <= i <= j <= |text| ensures Likes(text[i..j], x) <==> SameFolded(text[i..j], x) {
      PlainIsItself(text[i..j], x);
    }
    forall k | 0 <= k <= |text| ensures text[..k] == text[0..k] && text[k..] == text[k..|text|] { }
    if p.Contains? {
      forall i | FoundAt(text, x, i) ensures TextFits(p, text, x) { assert Likes(text[i..i + |x|], x); }
      if i, j :| 0 <= i <= j <= |text| && Likes(text[i..j], x) { assert FoundAt(text, x, i); }
    }
  }

  predicate FoundAt(text: string, x: string, i: int) { 0 <= i <= |text| - |x| && SameFolded(text[i..i + |x|], x) }

  lemma PatternFits(S: Schema, p: Pattern, text: string, x: string)
    ensures Likes(text, PatternText(S, p, Str(x))) <==> TextFits(p, text, x)
  {
    hide Likes;
    BeginsWith(text, x);
    Ends(text, x);
    SqlLike.Holds(text, x);
  }

  function AsText(S: Schema, v: Value): string
    requires !v.Null?
  {
    if v.Num? then S.numText(v.r) else v.s
  }

  ghost predicate ValueFits(S: Schema, p: Pattern, v: Value, x: string) { !v.Null? && TextFits(p, AsText(S, v), x) }

  lemma LikeFits(S: Schema, p: Pattern, v: Value, x: string, negate: bool)
    ensures Like(S, v, PatternText(S, p, Str(x)), negate) == True <==>
            !v.Null? && (TextFits(p, AsText(S, v), x) != negate)
  {
    hide Likes, TextFits, PatternText;
    if !v.Null? { PatternFits(S, p, AsText(S, v), x); }
  }

  /**
    A pattern rule with a text operand compiles to a condition that selects the rows whose column is
    not NULL and fits, or does not fit when negated; of a tag or role, the rows with some value, or no
    value, that fits.
   */
  lemma PatternRuleSelects(S: Schema, row: Row, p: Pattern, negate: bool, f: string, x: string)
    requires MultiValued(S, f) || HasColumn(S, f)
    ensures var r := LeafExpr(S, Match(p, negate, f, Str(x)));
            && r.Ok? && Wf(r.value)
            && (Eval(S, row, r.value) == True <==>
                  if !MultiValued(S, f) then
                    var v := Read(row, ColumnOf(S, f));
                    !v.Null? && (TextFits(p, AsText(S, v), x) != negate)
                  else if S.lookup(f).value.isRole then CreditFits(S, row, S.lookup(f).value.name, p, x) != negate
                  else TagFits(S, row, S.lookup(f).value.name, S.lookup(f).value.numeric, p, x) != negate)
  {
    hide Likes, TextFits, PatternText, Like;
    var pattern := PatternText(S, p, Str(x));
    if !MultiValued(S, f) {
      LikeFits(S, p, Read(row, ColumnOf(S, f)), x, negate);
    } else {
      CreditFitsIff(S, row, S.lookup(f).value.name, p, x);
      TagFitsIff(S, row, S.lookup(f).value.name, S.lookup(f).value.numeric, p, x);
    }
  }

  /** Some artist credited in the role has a name that fits. */
  ghost predicate CreditFits(S: Schema, row: Row, role: string, p: Pattern, x: string) {
    exists i :: 0 <= i < |row.credits| && row.credits[i].role == role && row.credits[i].artist.Some? &&
      ValueFits(S, p, row.credits[i].artist.value, x)
  }

  /** Some value of the tag fits. */
  ghost predicate TagFits(S: Schema, row: Row, tag: string, numeric: bool, p: Pattern, x: string) {
    exists i :: 0 <= i < |row.tags(tag)| && ValueFits(S, p, TagValue(S, numeric, row.tags(tag)[i]), x)
  }

  lemma CreditFitsIff(S: Schema, row: Row, role: string, p: Pattern, x: string)
    ensures SomeCredit(S, row, role, ValueLike(PatternText(S, p, Str(x)))) <==> CreditFits(S, row, role, p, x)
  {
    hide Likes, TextFits, PatternText, Like;
    var c := ValueLike(PatternText(S, p, Str(x)));
    forall i | 0 <= i < |row.credits| && row.credits[i].artist.Some?
      ensures TestValue(S, TextAffinity, c, row.credits[i].artist.value) == True <==> ValueFits(S, p, row.credits[i].artist.value, x)
    {
      LikeFits(S, p, row.credits[i].artist.value, x, false);
    }
  }

  lemma TagFitsIff(S: Schema, row: Row, tag: string, numeric: bool, p: Pattern, x: string)
    ensures SomeTag(S, row, tag, numeric, ValueLike(PatternText(S, p, Str(x)))) <==> TagFits(S, row, tag, numeric, p, x)
  {
    hide Likes, TextFits, PatternText, Like;
    var c := ValueLike(PatternText(S, p, Str(x)));
    forall i | 0 <= i < |row.tags(tag)|
      ensures var v := TagValue(S, numeric, row.tags(tag)[i]);
              TestValue(S, TagAffinity(numeric), c, v) == True <==> ValueFits(S, p, v, x)
    {
      LikeFits(S, p, TagValue(S, numeric, row.tags(tag)[i]), x, false);
    }
  }

  /** A pattern rule is accepted exactly for registered fields that are tags, roles or have a column. */
  lemma PatternRuleCompilesIff(S: Schema, p: Pattern, negate: bool, f: string, o: Operand)
    ensures LeafExpr(S, Match(p, negate, f, o)).Ok? <==>
            S.lookup(f).Some? &&
            var info := S.lookup(f).value;
            info.isTag || info.isRole || (S.column(info.name).Some? && S.column(info.name).value.name != "")
  {
  }

  /** A comparison also needs an operand that can be rendered: null and flat lists for = and <> only. */
  lemma ComparisonCompilesIff(S: Schema, op: CmpOp, f: string, o: Operand)
    ensures LeafExpr(S, Compare(op, f, o)).Ok? <==>
            && LeafExpr(S, Match(Contains, false, f, o)).Ok?
            && (o.Nil? || o.List? ==> op == Eq || op == Ne)
            && (o.List? ==> forall i :: 0 <= i < |o.elems| ==> !o.elems[i].List?)
  {
  }

  // ----- comparisons ----------------------------------------------------------------------

  /** A stored value against a number: numbers by value, text above every number. */
  predicate NumberPasses(op: CmpOp, v: Value, x: real) {
    match v
    case Null => false
    case Num(r) =>
      (op == Eq && r == x) || (op == Ne && r != x) || (op == Gt && r > x) || (op == Ge && r >= x) ||
      (op == Lt && r < x) || (op == Le && r <= x)
    case Text(_) => op == Ne || op == Gt || op == Ge
  }

  /** A number rule on a numeric column selects by value, a missing annotation counting as its default. */
  lemma NumberRuleSelects(S: Schema, row: Row, op: CmpOp, f: string, x: real)
    requires WfSchema(S) && !MultiValued(S, f) && HasColumn(S, f) && ColumnOf(S, f).affinity == NumericAffinity
    ensures var r := LeafExpr(S, Compare(op, f, Float(x)));
            var col := ColumnOf(S, f);
            var v := row.columns(col.name);
            && r.Ok? && Wf(r.value)
            && (Eval(S, row, r.value) == True <==>
                  NumberPasses(op, if v.Null? && col.default.Some? then Num(col.default.value.AsReal()) else v, x))
  {
    hide Eval, WfSchema, LeafExpr;
    var e := Compare(op, f, Float(x));
    LeafCorrect(S, row, e);
  }

  /** One text comes before the other: where they first differ, or because it ends there. */
  lemma {:induction false} TextLessIff(a: string, b: string)
    ensures TextLess(a, b) <==>
            exists k :: 0 <= k <= |a| && k < |b| && a[..k] == b[..k] && (k == |a| || a[k] < b[k])
  {
    if a != "" && b != "" && a[0] == b[0] {
      TextLessIff(a[1..], b[1..]);
      forall k | 0 <= k <= |a[1..]| && k < |b[1..]| && a[1..][..k] == b[1..][..k] && (k == |a[1..]| || a[1..][k] < b[1..][k])
        ensures a[..k + 1] == b[..k + 1]
      {
        assert a[..k + 1] == [a[0]] + a[1..][..k] && b[..k + 1] == [b[0]] + b[1..][..k];
      }
      forall k | 0 < k <= |a| && k < |b| && a[..k] == b[..k] ensures a[1..][..k - 1] == b[1..][..k - 1] {
        assert a[1..][..k - 1] == a[..k][1..] && b[1..][..k - 1] == b[..k][1..];
      }
    } else {
      assert a[..0] == b[..0];
      assert forall k :: 0 < k <= |a| && k <= |b| && a[..k] == b[..k] ==> a[..k][0] == a[0] && b[..k][0] == b[0];
    }
  }

  /** A stored value against a text: texts in the order of their characters, numbers below every text. */
  predicate TextPasses(op: CmpOp, v: Value, x: string) {
    match v
    case Null => false
    case Num(_) => op == Ne || op == Lt || op == Le
    case Text(s) =>
      (op == Eq && s == x) || (op == Ne && s != x) || (op == Gt && TextLess(x, s)) || (op == Ge && !TextLess(s, x)) ||
      (op == Lt && TextLess(s, x)) || (op == Le && !TextLess(x, s))
  }

  /** A text rule on a text column. */
  lemma TextRuleSelects(S: Schema, row: Row, op: CmpOp, f: string, x: string)
    requires !MultiValued(S, f) && HasColumn(S, f) && ColumnOf(S, f).affinity == TextAffinity && ColumnOf(S, f).default.None?
    ensures var r := LeafExpr(S, Compare(op, f, Str(x)));
            r.Ok? && Wf(r.value) && (Eval(S, row, r.value) == True <==> TextPasses(op, row.columns(ColumnOf(S, f).name), x))
  {
    hide TextLess;
  }

  function Texts(xs: seq<string>): (os: seq<Operand>)
    ensures |os| == |xs| && forall i :: 0 <= i < |xs| ==> os[i] == Str(xs[i])
  {
    seq(|xs|, i requires 0 <= i < |xs| => Str(xs[i]))
  }

  /** A list of texts: one of them, or, negated, a value that is none of them. */
  lemma ListRuleSelects(S: Schema, row: Row, f: string, xs: seq<string>)
    requires !MultiValued(S, f) && HasColumn(S, f) && ColumnOf(S, f).affinity == TextAffinity && ColumnOf(S, f).default.None?
    ensures var v := row.columns(ColumnOf(S, f).name);
            var same, differs := LeafExpr(S, Compare(Eq, f, List(Texts(xs)))), LeafExpr(S, Compare(Ne, f, List(Texts(xs))));
            && same.Ok? && Wf(same.value) && differs.Ok? && Wf(differs.value)
            && (Eval(S, row, same.value) == True <==> v.Text? && v.s in xs)
            && (Eval(S, row, differs.value) == True <==> xs == [] || (!v.Null? && !(v.Text? && v.s in xs)))
  {
    var v, os := row.columns(ColumnOf(S, f).name), Texts(xs);
    assert Nil !in os;
    assert InList(S, TextAffinity, v, os) <==> v.Text? && v.s in xs by {
      if v.Text? && v.s in xs {
        var i :| 0 <= i < |xs| && xs[i] == v.s;
        assert v == Coerce(S, TextAffinity, Bind(os[i]));
      }
      if i :| 0 <= i < |os| && !os[i].Nil? && v == Coerce(S, TextAffinity, Bind(os[i])) { assert v.s == xs[i]; }
    }
  }

  /** `is null` asks for NULL, which an annotation with a default never is. */
  lemma NullRuleSelects(S: Schema, row: Row, f: string)
    requires !MultiValued(S, f) && HasColumn(S, f)
    ensures var r := LeafExpr(S, Compare(Eq, f, Nil));
            && r.Ok? && Wf(r.value)
            && (Eval(S, row, r.value) == True <==> row.columns(ColumnOf(S, f).name).Null? && ColumnOf(S, f).default.None?)
  {
  }

  /** `is x` on a tag asks for some value that is x, `isNot x` for none. */
  lemma TagRuleSelects(S: Schema, row: Row, f: string, x: string)
    requires PlainTag(S, f) && !S.lookup(f).value.numeric
    ensures var tag := S.lookup(f).value.name;
            var same, differs := LeafExpr(S, Compare(Eq, f, Str(x))), LeafExpr(S, Compare(Ne, f, Str(x)));
            && same.Ok? && Wf(same.value) && differs.Ok? && Wf(differs.value)
            && (Eval(S, row, same.value) == True <==> Text(x) in row.tags(tag))
            && (Eval(S, row, differs.value) == True <==> Text(x) !in row.tags(tag))
  {
    var vs := row.tags(S.lookup(f).value.name);
    forall i | 0 <= i < |vs|
      ensures TestValue(S, NoAffinity, ValueCmp(Eq, Str(x)), TagValue(S, false, vs[i])) == True <==> vs[i] == Text(x)
    {
    }
  }

  predicate Credited(row: Row, role: string, name: Value) {
    exists i :: 0 <= i < |row.credits| && row.credits[i] == Credit(role, Some(name))
  }

  /** `is x` on a role asks for a credited artist named x, `isNot x` for none. */
  lemma RoleRuleSelects(S: Schema, row: Row, f: string, x: string)
    requires S.lookup(f).Some? && S.lookup(f).value.isRole
    ensures var role := S.lookup(f).value.name;
            var same, differs := LeafExpr(S, Compare(Eq, f, Str(x))), LeafExpr(S, Compare(Ne, f, Str(x)));
            && same.Ok? && Wf(same.value) && differs.Ok? && Wf(differs.value)
            && (Eval(S, row, same.value) == True <==> Credited(row, role, Text(x)))
            && (Eval(S, row, differs.value) == True <==> !Credited(row, role, Text(x)))
  {
    var role := S.lookup(f).value.name;
    var c := ValueCmp(Eq, Str(x));
    forall v: Value ensures TestValue(S, TextAffinity, c, v) == True <==> v == Text(x) { }
    if SomeCredit(S, row, role, c) {
      var i :| 0 <= i < |row.credits| && row.credits[i].role == role && row.credits[i].artist.Some? &&
               TestValue(S, TextAffinity, c, row.credits[i].artist.value) == True;
      assert row.credits[i] == Credit(role, Some(Text(x)));
    }
  }

  /** A number rule on a numeric tag asks for some value that passes once cast to a number. */
  lemma NumericTagRuleSelects(S: Schema, row: Row, op: CmpOp, f: string, x: real)
    requires PlainTag(S, f) && S.lookup(f).value.numeric && op != Ne
    ensures var vs := row.tags(S.lookup(f).value.name);
            var r := LeafExpr(S, Compare(op, f, Float(x)));
            && r.Ok? && Wf(r.value)
            && (Eval(S, row, r.value) == True <==>
                  exists i :: 0 <= i < |vs| && !vs[i].Null? && NumberPasses(op, Num(S.castReal(vs[i])), x))
  {
    var vs := row.tags(S.lookup(f).value.name);
    var c := ValueCmp(op, Float(x));
    forall i | 0 <= i < |vs|
      ensures TestValue(S, TagAffinity(true), c, TagValue(S, true, vs[i])) == True <==>
              !vs[i].Null? && NumberPasses(op, Num(S.castReal(vs[i])), x)
    {
    }
  }

  /** Credits count as present whether or not their artist is known. */
  lemma MissingRoleSelects(S: Schema, row: Row, absence: bool, f: string)
    requires S.lookup(f).Some? && S.lookup(f).value.isRole
    ensures var r := LeafExpr(S, Missing(absence, f, Bool(true)));
            && r.Ok? && Wf(r.value)
            && (Eval(S, row, r.value) == True <==>
                  absence == !exists i :: 0 <= i < |row.credits| && row.credits[i].role == S.lookup(f).value.name)
  {
  }

  // ----- the optimisations are used ---------------------------------------------------------

  /** The bare column is compared exactly for scalars that read as a number, or, for = and <> on a flag, as true or false. */
  lemma BareFormUsedIff(S: Schema, col: Column, d: Default, op: CmpOp, o: Operand)
    ensures !AnnotationCond(S, col, d, op, o).CoalesceCmp? <==>
            match d
            case NumDefault(_) => o.Int? || o.Float? || (o.Str? && S.numericText(o.s).Some?)
            case BoolDefault(_) =>
              (op == Eq || op == Ne) &&
              (o.Bool? || o == Float(0.0) || o == Float(1.0) || (o.Str? && S.boolText(o.s).Some?))
  {
  }

  /** Two conditions on the same tag or the same role, of the polarity asked for, each with a test of its own. */
  predicate SameField(a: Cond, b: Cond, negated: bool) {
    || (a.TagCond? && b.TagCond? && a.tag == b.tag && a.negated == negated == b.negated && a.cond.Some? && b.cond.Some?)
    || (a.RoleCond? && b.RoleCond? && a.role == b.role && a.negated == negated == b.negated && a.cond.Some? && b.cond.Some?)
  }

  /** A condition disappears into a group exactly when another one is on the same field. */
  lemma MergedIff(conds: seq<Cond>, negated: bool, i: nat)
    requires i < |conds|
    ensures Merged(conds, negated, conds[i]) <==> exists j :: 0 <= j < |conds| && j != i && SameField(conds[i], conds[j], negated)
  {
    if SameField(conds[i], conds[i], negated) {
      var k := KeyOf(conds[i], negated).value;
      forall j | 0 <= j < |conds| ensures SameField(conds[i], conds[j], negated) <==> j in Filed(conds, negated, k) { }
      MembersCount(conds, negated, k);
      TwoOrMore(Filed(conds, negated, k), i);
      forall j | j in Filed(conds, negated, k) && j != i ensures SameField(conds[i], conds[j], negated) { }
    }
  }

  function Filed(conds: seq<Cond>, negated: bool, k: Key): set<nat> {
    set j: nat | j < |conds| && KeyOf(conds[j], negated) == Some(k)
  }

  lemma {:induction false} MembersCount(conds: seq<Cond>, negated: bool, k: Key)
    ensures |Members(conds, negated, k)| == |Filed(conds, negated, k)|
  {
    hide KeyOf;
    if conds != [] {
      MembersCount(conds[..|conds| - 1], negated, k);
      FiledStep(conds, negated, k);
    }
  }

  lemma FiledStep(conds: seq<Cond>, negated: bool, k: Key)
    requires conds != []
    ensures var n := |conds| - 1;
            |Filed(conds, negated, k)| == |Filed(conds[..n], negated, k)| + if KeyOf(conds[n], negated) == Some(k) then 1 else 0
  {
    var n := |conds| - 1;
    var all, front := Filed(conds, negated, k), Filed(conds[..n], negated, k);
    forall j: nat | j < n ensures j in all <==> j in front { assert conds[..n][j] == conds[j]; }
    hide KeyOf;
    assert n !in front && forall j :: j in all || j in front ==> j <= n;
    hide Filed;
    if n in all { assert all == front + {n}; } else { assert all == front; }
  }

  lemma TwoOrMore(s: set<nat>, i: nat)
    requires i in s
    ensures |s| >= 2 <==> exists j :: j in s && j != i
  {
    if |s| >= 2 {
      assert |s - {i}| >= 1;
      var j :| j in s - {i};
    }
    if j :| j in s && j != i { assert {i, j} <= s; TwoElements(s, i, j); }
  }

  lemma TwoElements(s: set<nat>, i: nat, j: nat)
    requires i in s && j in s && i != j
    ensures |s| >= 2
  {
    assert s == (s - {i, j}) + {i, j};
  }
}
