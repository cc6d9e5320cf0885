/**
  .ndignore patterns: a stack with one level per folder entered, matched last-match-wins.
 */
module IgnorePatterns {
  import opened Prelude

  /** Path components below the library root; the root itself is the empty path. */
  type Path = seq<string>

  /**
    The file system's ignore files and the matcher: `load` gives a folder's own patterns, `rule` what
    one pattern says about a path, if it matches at all (a negated pattern re-includes).
   */
  datatype Rules = Rules(load: Path -> seq<string>, rule: (string, Path) -> Option<bool>)

  /** The last matching pattern decides; nothing is ignored without a match. */
  function Verdict(R: Rules, patterns: seq<string>, p: Path): bool {
    if patterns == [] then false
    else
      var last := R.rule(patterns[|patterns| - 1], p);
      if last.Some? then last.value else Verdict(R, patterns[..|patterns| - 1], p)
  }

  /** ShouldIgnore: the root is never ignored. */
  predicate Ignored(R: Rules, patterns: seq<string>, p: Path) { p != [] && Verdict(R, patterns, p) }

  function Flatten(stack: seq<seq<string>>): seq<string> {
    if stack == [] then [] else Flatten(stack[..|stack| - 1]) + stack[|stack| - 1]
  }

  class IgnoreChecker {
    const R: Rules
    var patternStack: seq<seq<string>>
    var currentPatterns: seq<string>
    var matcher: Option<seq<string>>

    constructor (R: Rules)
      ensures Valid() && this.R == R && patternStack == []
    {
      this.R := R;
      patternStack, currentPatterns, matcher := [], [], None;
    }

    /** currentPatterns is the flattened stack, and the matcher is compiled from it. */
    ghost predicate Valid()
      reads this
    {
      currentPatterns == Flatten(patternStack) &&
      matcher == if currentPatterns == [] then None else Some(currentPatterns)
    }

    method RebuildCurrentPatterns()
      modifies this
      ensures Valid() && patternStack == old(patternStack)
    {
      currentPatterns := [];
      for i := 0 to |patternStack|
        invariant patternStack == old(patternStack) && currentPatterns == Flatten(patternStack[..i])
      {
        assert patternStack[..i + 1][..i] == patternStack[..i];
        currentPatterns := currentPatterns + patternStack[i];
      }
      assert patternStack[..|patternStack|] == patternStack;
      matcher := if currentPatterns == [] then None else Some(currentPatterns);
    }

    method Push(folder: Path)
      requires Valid()
      modifies this
      ensures Valid() && patternStack == old(patternStack) + [R.load(folder)]
    {
      patternStack := patternStack + [R.load(folder)];
      RebuildCurrentPatterns();
    }

    method Pop()
      requires Valid()
      modifies this
      ensures Valid()
      ensures patternStack == if old(patternStack) == [] then [] else old(patternStack)[..|old(patternStack)| - 1]
    {
      if |patternStack| > 0 {
        patternStack := patternStack[..|patternStack| - 1];
        RebuildCurrentPatterns();
      }
    }

    /** Pushes the root and every folder down to the target, rebuilding once at the end. */
    method PushAllParents(target: Path)
      requires Valid()
      modifies this
      ensures Valid() && patternStack == old(patternStack) + Levels(R, target, 0, |target| + 1)
    {
      if target == [] {
        Push([]);
        assert Levels(R, target, 0, 1) == [R.load([])];
        return;
      }
      patternStack := patternStack + [R.load([])];
      assert Levels(R, target, 0, 1) == [R.load([])];
      for k := 0 to |target|
        invariant patternStack == old(patternStack) + Levels(R, target, 0, k + 1)
      {
        patternStack := patternStack + [R.load(target[..k + 1])];
      }
      RebuildCurrentPatterns();
    }

    method ShouldIgnore(p: Path) returns (ignored: bool)
      requires Valid()
      ensures ignored == Ignored(R, Flatten(patternStack), p)
      ensures ignored <==>
              p != [] && exists i :: 0 <= i < |Flatten(patternStack)| && LastSays(R, Flatten(patternStack), p, i)
    {
      VerdictIff(R, Flatten(patternStack), p);
      if p == [] { return false; }
      if matcher.None? { return false; }
      ignored := Verdict(R, matcher.value, p);
    }
  }

  /** The stack levels of the prefixes of `d` of length from, from + 1, ..., to - 1. */
  function Levels(R: Rules, d: Path, from: nat, upto: nat): (s: seq<seq<string>>)
    requires upto <= |d| + 1
    ensures from <= upto ==> |s| == upto - from
    decreases upto
  {
    if upto <= from then [] else Levels(R, d, from, upto - 1) + [R.load(d[..upto - 1])]
  }

  // ----- verdicts -------------------------------------------------------------------------

  lemma {:induction false} VerdictConcat(R: Rules, a: seq<string>, b: seq<string>, p: Path)
    ensures Verdict(R, a + b, p) == if Decided(R, b, p) then Verdict(R, b, p) else Verdict(R, a, p)
  {
    if b == [] {
      assert a + b == a;
    } else {
      VerdictConcat(R, a, b[..|b| - 1], p);
      assert (a + b)[..|a + b| - 1] == a + b[..|b| - 1];
    }
  }

  /** A path is ignored exactly when some pattern says so and no later one says anything. */
  lemma {:induction false} VerdictIff(R: Rules, patterns: seq<string>, p: Path)
    ensures Verdict(R, patterns, p) <==>
            exists i :: 0 <= i < |patterns| && LastSays(R, patterns, p, i)
  {
    if patterns != [] {
      var n := |patterns| - 1;
      VerdictIff(R, patterns[..n], p);
      if R.rule(patterns[n], p).None? {
        forall i | 0 <= i < n ensures LastSays(R, patterns, p, i) <==> LastSays(R, patterns[..n], p, i) {
          assert forall j :: 0 <= j < n ==> patterns[..n][j] == patterns[j];
        }
      } else {
        assert forall i :: 0 <= i < n ==> !LastSays(R, patterns, p, i);
        assert LastSays(R, patterns, p, n) <==> R.rule(patterns[n], p).value;
      }
    }
  }

  /** Pattern `i` says that the path is ignored, and no later one says anything. */
  predicate LastSays(R: Rules, patterns: seq<string>, p: Path, i: nat) {
    i < |patterns| && R.rule(patterns[i], p) == Some(true) && SilentAfter(R, patterns, p, i)
  }

  /** No pattern after `i` matches. */
  predicate SilentAfter(R: Rules, patterns: seq<string>, p: Path, i: nat) {
    forall j :: i < j < |patterns| ==> R.rule(patterns[j], p).None?
  }

  /** Level k is that of the prefix k folders longer. */
  lemma {:induction false} LevelIs(R: Rules, d: Path, from: nat, upto: nat, k: nat)
    requires from <= upto <= |d| + 1 && k < upto - from
    ensures Levels(R, d, from, upto)[k] == R.load(d[..from + k])
    decreases upto
  {
    if from + k < upto - 1 { LevelIs(R, d, from, upto - 1, k); }
  }

  predicate Decided(R: Rules, patterns: seq<string>, p: Path) {
    exists i :: 0 <= i < |patterns| && R.rule(patterns[i], p).Some?
  }

  /** Patterns that give every path the same verdict. */
  ghost predicate SameVerdicts(R: Rules, a: seq<string>, b: seq<string>) {
    forall p :: Verdict(R, a, p) == Verdict(R, b, p)
  }

  lemma SameVerdictsExtend(R: Rules, a: seq<string>, b: seq<string>, more: seq<string>)
    requires SameVerdicts(R, a, b)
    ensures SameVerdicts(R, a + more, b + more)
  {
    forall p ensures Verdict(R, a + more, p) == Verdict(R, b + more, p) {
      VerdictConcat(R, a, more, p);
      VerdictConcat(R, b, more, p);
      assert Verdict(R, a, p) == Verdict(R, b, p);
    }
  }

  /** Pushing the same folder twice in a row changes no verdict. */
  lemma DoublePushIsHarmless(R: Rules, a: seq<string>, x: seq<string>)
    ensures SameVerdicts(R, a + x + x, a + x)
  {
    forall p ensures Verdict(R, a + x + x, p) == Verdict(R, a + x, p) {
      VerdictConcat(R, a + x, x, p);
      VerdictConcat(R, a, x, p);
    }
  }

  lemma {:induction false} FlattenConcat(a: seq<seq<string>>, b: seq<seq<string>>)
    ensures Flatten(a + b) == Flatten(a) + Flatten(b)
  {
    if b == [] {
      assert a + b == a;
    } else {
      FlattenConcat(a, b[..|b| - 1]);
      assert (a + b)[..|a + b| - 1] == a + b[..|b| - 1];
    }
  }

  /** The stack while listing `d`, reached from a walk that started at its ancestor `t`. */
  function StackAt(R: Rules, t: Path, d: Path): seq<seq<string>>
    requires t <= d
  {
    Levels(R, t, 0, |t| + 1) + Levels(R, d, |t|, |d| + 1)
  }

  /** The stack without the doubled level. */
  function PlainStack(R: Rules, d: Path): seq<seq<string>> { Levels(R, d, 0, |d| + 1) }

  lemma {:induction false} LevelsSplit(R: Rules, d: Path, mid: nat, upto: nat)
    requires mid <= upto <= |d| + 1
    ensures Levels(R, d, 0, upto) == Levels(R, d, 0, mid) + Levels(R, d, mid, upto)
    decreases upto
  {
    if mid < upto { LevelsSplit(R, d, mid, upto - 1); }
  }

  lemma {:induction false} LevelsOfPrefix(R: Rules, t: Path, d: Path, upto: nat)
    requires t <= d && upto <= |t| + 1
    ensures Levels(R, t, 0, upto) == Levels(R, d, 0, upto)
    decreases upto
  {
    if 0 < upto {
      LevelsOfPrefix(R, t, d, upto - 1);
      assert t[..upto - 1] == d[..upto - 1];
    }
  }

  /** The stacks, split around the level of the start. */
  lemma StackParts(R: Rules, t: Path, d: Path) returns (above: seq<seq<string>>, below: seq<seq<string>>)
    requires t <= d
    ensures StackAt(R, t, d) == above + [R.load(t)] + [R.load(t)] + below
    ensures PlainStack(R, d) == above + [R.load(t)] + below
  {
    var n, own := |t|, [R.load(t)];
    above, below := Levels(R, d, 0, n), Levels(R, d, n + 1, |d| + 1);
    assert d[..n] == t;
    LevelsOfPrefix(R, t, d, n + 1);
    LevelsSplit(R, d, n, n + 1);
    assert Levels(R, d, n, n + 1) == own;
    LevelsFrom(R, d, n, |d| + 1);
    LevelsSplit(R, d, n + 1, |d| + 1);
    hide Levels;
    assert Levels(R, d, 0, n + 1) == above + own;
  }

  lemma FlattenParts(a: seq<seq<string>>, x: seq<string>, b: seq<seq<string>>)
    ensures Flatten(a + [x] + b) == Flatten(a) + x + Flatten(b)
  {
    FlattenConcat(a + [x], b);
    assert (a + [x])[..|a|] == a;
  }

  /** From any start, the doubled stack decides like the plain one. */
  lemma StartIsIrrelevant(R: Rules, t: Path, d: Path)
    requires t <= d
    ensures SameVerdicts(R, Flatten(StackAt(R, t, d)), Flatten(PlainStack(R, d)))
  {
    hide StackAt, PlainStack, SameVerdicts;
    var above, below := StackParts(R, t, d);
    var own := R.load(t);
    FlattenParts(above + [own], own, below);
    FlattenParts(above, own, []);
    FlattenParts(above, own, below);
    hide Flatten;
    assert above + [own] + [] == above + [own];
    NoPatterns();
    DoublePushIsHarmless(R, Flatten(above), own);
    SameVerdictsExtend(R, Flatten(above) + own + own, Flatten(above) + own, Flatten(below));
  }

  lemma NoPatterns()
    ensures Flatten([]) == []
  {
  }

  lemma {:induction false} LevelsFrom(R: Rules, d: Path, from: nat, upto: nat)
    requires from < upto <= |d| + 1
    ensures Levels(R, d, from, upto) == [R.load(d[..from])] + Levels(R, d, from + 1, upto)
    decreases upto
  {
    if from + 1 < upto { LevelsFrom(R, d, from, upto - 1); }
  }

  /**
    The verdict for any path while a folder is listed does not depend on where the walk started:
    at the library root or at a target further down, despite the doubled push.
   */
  lemma RootAndTargetAgree(R: Rules, t: Path, d: Path, p: Path)
    requires t <= d
    ensures Ignored(R, Flatten(StackAt(R, [], d)), p) == Ignored(R, Flatten(StackAt(R, t, d)), p)
  {
    StartIsIrrelevant(R, [], d);
    StartIsIrrelevant(R, t, d);
    assert Verdict(R, Flatten(StackAt(R, [], d)), p) == Verdict(R, Flatten(PlainStack(R, d)), p);
    assert Verdict(R, Flatten(StackAt(R, t, d)), p) == Verdict(R, Flatten(PlainStack(R, d)), p);
  }
}
