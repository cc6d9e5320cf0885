/**
  TTML lines: pieces of text, some of them timed, are collapsed, split at <br/>, trimmed and joined
  again, while every cue keeps track of its bytes.
 */
module Ttml {
  import opened Prelude
  import opened Lyrics
  import opened LyricsText

  datatype Timing = Timing(start: Option<int>, end: Option<int>, agentId: string)

  /** A run of text; timed when it came from a span with its own timing. */
  datatype Span = Span(raw: string, cue: Option<Timing>)

  datatype Piece = Break | Text(span: Span)

  // ----- whitespace -----------------------------------------------------------------------

  /** The XML S production; other Unicode spaces are content. */
  predicate XmlSpace(c: char) { c == ' ' || c == '\t' || c == '\n' || c == '\r' }

  function CollapseFrom(s: string, prevSpace: bool): string {
    if s == "" then ""
    else if XmlSpace(s[0]) then (if prevSpace then "" else " ") + CollapseFrom(s[1..], true)
    else [s[0]] + CollapseFrom(s[1..], false)
  }

  function Collapse(s: string): string { CollapseFrom(s, false) }

  method CollapseWhitespace(raw: string) returns (out: string)
    ensures out == Collapse(raw)
  {
    out := "";
    var prevSpace := false;
    for i := 0 to |raw|
      invariant out + CollapseFrom(raw[i..], prevSpace) == Collapse(raw)
    {
      assert raw[i..][0] == raw[i] && raw[i..][1..] == raw[i + 1..];
      ghost var rest := CollapseFrom(raw[i + 1..], XmlSpace(raw[i]));
      if XmlSpace(raw[i]) {
        if !prevSpace {
          Assoc(out, " ", rest);
          out := out + " ";
          prevSpace := true;
        } else {
          assert CollapseFrom(raw[i..], true) == rest;
        }
      } else {
        Assoc(out, [raw[i]], rest);
        out := out + [raw[i]];
        prevSpace := false;
      }
    }
  }

  lemma Assoc(a: string, b: string, c: string)
    ensures a + (b + c) == a + b + c
  {
  }

  /** Single spaces only. */
  predicate Collapsed(s: string) {
    NoDoubleSpace(s) && forall i :: 0 <= i < |s| && XmlSpace(s[i]) ==> s[i] == ' '
  }

  lemma {:induction false} CollapseFromIsCollapsed(s: string, prevSpace: bool)
    ensures Collapsed(CollapseFrom(s, prevSpace))
    ensures prevSpace && CollapseFrom(s, prevSpace) != "" ==> CollapseFrom(s, prevSpace)[0] != ' '
  {
    if s != "" {
      CollapseFromIsCollapsed(s[1..], XmlSpace(s[0]));
    }
  }

  /** Collapsing is idempotent: it leaves collapsed text alone. */
  lemma {:induction false} CollapseFixes(s: string, prevSpace: bool)
    requires Collapsed(s) && (prevSpace && s != "" ==> s[0] != ' ')
    ensures CollapseFrom(s, prevSpace) == s
  {
    if s != "" {
      assert s == [s[0]] + s[1..];
      assert forall i :: 0 <= i < |s[1..]| ==> s[1..][i] == s[i + 1];
      CollapseFixes(s[1..], XmlSpace(s[0]));
    }
  }

  /** Everything but whitespace. */
  function Ink(s: string): string {
    if s == "" then "" else (if XmlSpace(s[0]) then "" else [s[0]]) + Ink(s[1..])
  }

  /** Collapsing loses no other character and keeps their order. */
  lemma {:induction false} CollapseKeepsInk(s: string, prevSpace: bool)
    ensures Ink(CollapseFrom(s, prevSpace)) == Ink(s)
  {
    if s != "" {
      var rest := CollapseFrom(s[1..], XmlSpace(s[0]));
      CollapseKeepsInk(s[1..], XmlSpace(s[0]));
      if XmlSpace(s[0]) {
        assert (" " + rest)[1..] == rest && "" + rest == rest;
      } else {
        assert ([s[0]] + rest)[1..] == rest;
      }
    }
  }

  /** The maximal runs of other characters; `word` is the one under way. */
  function WordsFrom(s: string, word: string): seq<string> {
    if s == "" then (if word == "" then [] else [word])
    else if XmlSpace(s[0]) then (if word == "" then [] else [word]) + WordsFrom(s[1..], "")
    else WordsFrom(s[1..], word + [s[0]])
  }

  function Words(s: string): seq<string> { WordsFrom(s, "") }

  /** The words stay the words: whitespace between them is neither lost nor made up, whichever it was. */
  lemma {:induction false} CollapseKeepsWords(s: string, prevSpace: bool, word: string)
    requires prevSpace ==> word == ""
    ensures WordsFrom(CollapseFrom(s, prevSpace), word) == WordsFrom(s, word)
  {
    if s != "" {
      var rest := CollapseFrom(s[1..], XmlSpace(s[0]));
      if XmlSpace(s[0]) {
        CollapseKeepsWords(s[1..], true, "");
        if !prevSpace { assert (" " + rest)[0] == ' ' && (" " + rest)[1..] == rest; } else { assert "" + rest == rest; }
      } else {
        CollapseKeepsWords(s[1..], false, word + [s[0]]);
        assert ([s[0]] + rest)[1..] == rest;
      }
    }
  }

  /** Whitespace at the ends stays, as one space. */
  lemma {:induction false} CollapseKeepsEnds(s: string, prevSpace: bool)
    requires s != ""
    ensures !prevSpace ==> CollapseFrom(s, prevSpace) != "" && (CollapseFrom(s, prevSpace)[0] == ' ' <==> XmlSpace(s[0]))
    ensures CollapseFrom(s, prevSpace) == "" ==> prevSpace && forall i :: 0 <= i < |s| ==> XmlSpace(s[i])
    ensures CollapseFrom(s, prevSpace) != "" ==>
              var c := CollapseFrom(s, prevSpace); (c[|c| - 1] == ' ' <==> XmlSpace(s[|s| - 1]))
  {
    var rest := CollapseFrom(s[1..], XmlSpace(s[0]));
    if |s| > 1 {
      CollapseKeepsEnds(s[1..], XmlSpace(s[0]));
      assert forall i :: 0 < i < |s| ==> s[1..][i - 1] == s[i];
    }
  }

  function Normalize(sanitize: string -> string, raw: string): string { Collapse(sanitize(raw)) }

  function DropSpace(s: string): string { if s != "" && s[0] == ' ' then s[1..] else s }

  /** Sanitising leaves this piece alone once it has been normalised, with or without a space in front. */
  predicate SettlesAt(sanitize: string -> string, raw: string) {
    var norm := Normalize(sanitize, raw);
    sanitize(norm) == norm && sanitize(DropSpace(norm)) == DropSpace(norm)
  }

  ghost predicate SettlesOn(sanitize: string -> string, pieces: seq<Piece>) {
    forall i :: 0 <= i < |pieces| && pieces[i].Text? ==> SettlesAt(sanitize, pieces[i].span.raw)
  }

  // ----- splitting at breaks --------------------------------------------------------------

  type PieceLine = seq<Span>

  datatype Split = Split(lines: seq<PieceLine>, ended: bool)

  predicate WfSplit(st: Split) { st.lines != [] }

  function SplitStep(sanitize: string -> string, st: Split, piece: Piece): (st': Split)
    requires WfSplit(st)
    ensures WfSplit(st')
  {
    if piece.Break? then Split(st.lines + [[]], true)
    else
      var raw := Normalize(sanitize, piece.span.raw);
      var kept := if st.ended then DropSpace(raw) else raw;
      if kept == "" then st
      else
        var n := |st.lines| - 1;
        Split(st.lines[n := st.lines[n] + [Span(kept, piece.span.cue)]], kept[|kept| - 1] == ' ')
  }

  function SplitAll(sanitize: string -> string, pieces: seq<Piece>): (st: Split)
    ensures WfSplit(st)
  {
    if pieces == [] then Split([[]], true)
    else SplitStep(sanitize, SplitAll(sanitize, pieces[..|pieces| - 1]), pieces[|pieces| - 1])
  }

  method SplitPiecesByBreak(sanitize: string -> string, pieces: seq<Piece>) returns (lines: seq<PieceLine>)
    ensures lines == SplitAll(sanitize, pieces).lines
  {
    lines := [[]];
    var prevEndedWithSpace := true;
    for i := 0 to |pieces|
      invariant Split(lines, prevEndedWithSpace) == SplitAll(sanitize, pieces[..i])
    {
      assert pieces[..i + 1][..i] == pieces[..i];
      if pieces[i].Break? {
        lines := lines + [[]];
        prevEndedWithSpace := true;
      } else {
        var raw := Normalize(sanitize, pieces[i].span.raw);
        if prevEndedWithSpace { raw := DropSpace(raw); }
        if raw != "" {
          lines := lines[|lines| - 1 := lines[|lines| - 1] + [Span(raw, pieces[i].span.cue)]];
          prevEndedWithSpace := raw[|raw| - 1] == ' ';
        }
      }
    }
    assert pieces[..|pieces|] == pieces;
  }

  /** The text of a line as its pieces stand. */
  function PlainLine(line: PieceLine): string
  {
    if line == [] then "" else PlainLine(line[..|line| - 1]) + line[|line| - 1].raw
  }

  /** The text of a line as it is concatenated: every piece normalised once more. */
  function RawLine(sanitize: string -> string, line: PieceLine): string
  {
    if line == [] then "" else RawLine(sanitize, line[..|line| - 1]) + Normalize(sanitize, line[|line| - 1].raw)
  }

  /** A line whose pieces survive renormalising, with single spaces and none in front. */
  ghost predicate Tidy(sanitize: string -> string, line: PieceLine)
  {
    && (forall i :: 0 <= i < |line| ==> Normalize(sanitize, line[i].raw) == line[i].raw)
    && Collapsed(PlainLine(line))
    && (PlainLine(line) != "" ==> PlainLine(line)[0] != ' ')
  }

  lemma {:induction false} TidyIsPlain(sanitize: string -> string, line: PieceLine)
    requires forall i :: 0 <= i < |line| ==> Normalize(sanitize, line[i].raw) == line[i].raw
    ensures RawLine(sanitize, line) == PlainLine(line)
  {
    if line != [] { TidyIsPlain(sanitize, line[..|line| - 1]); }
  }

  ghost predicate TidySplit(sanitize: string -> string, st: Split)
    requires WfSplit(st)
  {
    && (forall i :: 0 <= i < |st.lines| ==> Tidy(sanitize, st.lines[i]))
    && st.ended == EndsOpen(st.lines[|st.lines| - 1])
  }

  /** A space at the front of the next piece would be redundant. */
  predicate EndsOpen(line: PieceLine)
  {
    PlainLine(line) == "" || PlainLine(line)[|PlainLine(line)| - 1] == ' '
  }

  lemma KeptIsSettled(sanitize: string -> string, raw: string, ended: bool)
    requires SettlesAt(sanitize, raw)
    ensures var kept := if ended then DropSpace(Normalize(sanitize, raw)) else Normalize(sanitize, raw);
            Collapsed(kept) && Normalize(sanitize, kept) == kept && (ended && kept != "" ==> kept[0] != ' ')
  {
    var norm := Normalize(sanitize, raw);
    CollapseFromIsCollapsed(sanitize(raw), false);
    var kept := if ended then DropSpace(norm) else norm;
    CollapseFixes(kept, false);
  }

  lemma AppendCollapsed(a: string, b: string)
    requires Collapsed(a) && Collapsed(b)
    requires a != "" && b != "" && a[|a| - 1] == ' ' ==> b[0] != ' '
    ensures Collapsed(a + b)
  {
    var s := a + b;
    forall i | 0 <= i < |s| - 1 ensures !(s[i] == ' ' && s[i + 1] == ' ') {
      if i + 1 < |a| { assert s[i] == a[i] && s[i + 1] == a[i + 1]; }
      else if i >= |a| { assert s[i] == b[i - |a|] && s[i + 1] == b[i + 1 - |a|]; }
    }
  }

  lemma AppendTidy(sanitize: string -> string, line: PieceLine, kept: string, cue: Option<Timing>)
    requires Tidy(sanitize, line) && kept != "" && Collapsed(kept)
    requires Normalize(sanitize, kept) == kept
    requires EndsOpen(line) ==> kept[0] != ' '
    ensures var line2 := line + [Span(kept, cue)];
            Tidy(sanitize, line2) && EndsOpen(line2) == (kept[|kept| - 1] == ' ')
  {
    hide Normalize;
    hide Collapsed;
    var line2 := line + [Span(kept, cue)];
    assert line2[..|line|] == line;
    AppendCollapsed(PlainLine(line), kept);
  }

  lemma SplitStepTidy(sanitize: string -> string, st: Split, piece: Piece)
    requires piece.Text? ==> SettlesAt(sanitize, piece.span.raw)
    requires WfSplit(st) && TidySplit(sanitize, st)
    ensures TidySplit(sanitize, SplitStep(sanitize, st, piece))
  {
    hide Normalize;
    hide Collapsed;
    hide EndsOpen;
    hide Tidy;
    var st2 := SplitStep(sanitize, st, piece);
    var n := |st.lines| - 1;
    if piece.Break? {
      EmptyIsTidy(sanitize);
      assert forall i :: 0 <= i <= n ==> st2.lines[i] == st.lines[i];
    } else {
      var kept := if st.ended then DropSpace(Normalize(sanitize, piece.span.raw)) else Normalize(sanitize, piece.span.raw);
      KeptIsSettled(sanitize, piece.span.raw, st.ended);
      hide DropSpace;
      if kept != "" {
        AppendTidy(sanitize, st.lines[n], kept, piece.span.cue);
        assert forall i :: 0 <= i < n ==> st2.lines[i] == st.lines[i];
      }
    }
  }

  lemma EmptyIsTidy(sanitize: string -> string)
    ensures Tidy(sanitize, []) && EndsOpen([])
  {
  }

  /** Splitting leaves tidy lines: whitespace is collapsed across piece boundaries too. */
  lemma {:induction false} SplitIsTidy(sanitize: string -> string, pieces: seq<Piece>)
    requires SettlesOn(sanitize, pieces)
    ensures TidySplit(sanitize, SplitAll(sanitize, pieces))
  {
    if pieces != [] {
      SplitIsTidy(sanitize, pieces[..|pieces| - 1]);
      SplitStepTidy(sanitize, SplitAll(sanitize, pieces[..|pieces| - 1]), pieces[|pieces| - 1]);
    }
  }

  // ----- what the lines hold --------------------------------------------------------------

  /** The text between the breaks: one stretch more than there are breaks. */
  function Stretches(pieces: seq<Piece>): (ss: seq<seq<Span>>)
    ensures ss != []
  {
    if pieces == [] then [[]]
    else
      var front, last := Stretches(pieces[..|pieces| - 1]), pieces[|pieces| - 1];
      if last.Break? then front + [[]] else front[..|front| - 1] + [front[|front| - 1] + [last.span]]
  }

  function Texts(spans: seq<Span>): (ps: seq<Piece>)
    ensures |ps| == |spans| && forall i :: 0 <= i < |spans| ==> ps[i] == Text(spans[i])
  {
    seq(|spans|, i requires 0 <= i < |spans| => Text(spans[i]))
  }

  /** The stretches with a break between each two of them. */
  function Rejoined(ss: seq<seq<Span>>): seq<Piece>
    requires ss != []
  {
    if |ss| == 1 then Texts(ss[0]) else Rejoined(ss[..|ss| - 1]) + [Break] + Texts(ss[|ss| - 1])
  }

  /** Cutting at the breaks loses nothing: put together again, the stretches are the pieces. */
  lemma {:induction false} StretchesRejoin(pieces: seq<Piece>)
    ensures Rejoined(Stretches(pieces)) == pieces
  {
    if pieces != [] {
      var before, last := pieces[..|pieces| - 1], pieces[|pieces| - 1];
      StretchesRejoin(before);
      var front := Stretches(before);
      assert pieces == before + [last];
      if last.Break? {
        assert (front + [[]])[..|front|] == front && Texts([]) == [];
      } else {
        RejoinLonger(front, last.span);
      }
    } else {
      assert Texts([]) == [];
    }
  }

  lemma RejoinStep(front: seq<seq<Span>>, last: seq<Span>)
    ensures Rejoined(front + [last]) == if front == [] then Texts(last) else Rejoined(front) + [Break] + Texts(last)
  {
    var all := front + [last];
    assert all[..|all| - 1] == front && all[|all| - 1] == last;
  }

  lemma RejoinLonger(ss: seq<seq<Span>>, p: Span)
    requires ss != []
    ensures Rejoined(ss[..|ss| - 1] + [ss[|ss| - 1] + [p]]) == Rejoined(ss) + [Text(p)]
  {
    hide Rejoined;
    var front, last := ss[..|ss| - 1], ss[|ss| - 1];
    assert ss == front + [last];
    RejoinStep(front, last);
    RejoinStep(front, last + [p]);
    TextsLonger(last, p);
    if front != [] { AssocPieces(Rejoined(front) + [Break], Texts(last), [Text(p)]); }
  }

  lemma TextsLonger(spans: seq<Span>, p: Span)
    ensures Texts(spans + [p]) == Texts(spans) + [Text(p)]
  {
  }

  lemma AssocPieces(a: seq<Piece>, b: seq<Piece>, c: seq<Piece>)
    ensures a + (b + c) == a + b + c
  {
  }

  function CountBreaks(pieces: seq<Piece>): nat {
    if pieces == [] then 0 else CountBreaks(pieces[..|pieces| - 1]) + if pieces[|pieces| - 1].Break? then 1 else 0
  }

  lemma {:induction false} StretchCount(pieces: seq<Piece>)
    ensures |Stretches(pieces)| == CountBreaks(pieces) + 1
  {
    if pieces != [] { StretchCount(pieces[..|pieces| - 1]); }
  }

  /** At the start of a line, and after a space, a space in front is redundant. */
  predicate Open(line: PieceLine) {
    line == [] || (line[|line| - 1].raw != "" && line[|line| - 1].raw[|line[|line| - 1].raw| - 1] == ' ')
  }

  /** A piece as it is shown: normalised, and without a redundant space in front. */
  function Shown(sanitize: string -> string, raw: string, open: bool): string {
    if open then DropSpace(Normalize(sanitize, raw)) else Normalize(sanitize, raw)
  }

  /** The pieces of one stretch that show anything. */
  function LineOf(sanitize: string -> string, spans: seq<Span>): PieceLine {
    if spans == [] then []
    else
      var front, last := LineOf(sanitize, spans[..|spans| - 1]), spans[|spans| - 1];
      var shown := Shown(sanitize, last.raw, Open(front));
      if shown == "" then front else front + [Span(shown, last.cue)]
  }

  /** How many pieces come before piece `i`. */
  function Earlier(idx: seq<nat>, i: nat): (n: nat)
    ensures n <= |idx|
  {
    if idx == [] then 0 else Earlier(idx[..|idx| - 1], i) + if idx[|idx| - 1] < i then 1 else 0
  }

  /**
    `line` holds, in order and with their own timing, exactly the pieces of the stretch that are not
    empty once normalised and relieved of a redundant space.
   */
  ghost predicate HoldsPieces(sanitize: string -> string, spans: seq<Span>, line: PieceLine, idx: seq<nat>) {
    && |idx| == |line|
    && (forall m :: 0 <= m < |idx| ==> idx[m] < |spans|)
    && (forall m, n :: 0 <= m < n < |idx| ==> idx[m] < idx[n])
    && AllShown(sanitize, spans, line, idx)
    && (forall i :: 0 <= i < |spans| && i !in idx ==> Omitted(sanitize, spans[i], line[..Earlier(idx, i)]))
  }

  predicate PieceShown(sanitize: string -> string, piece: Span, before: PieceLine, shown: Span) {
    shown.raw != "" && shown == Span(Shown(sanitize, piece.raw, Open(before)), piece.cue)
  }

  lemma {:induction false} EarlierAll(idx: seq<nat>, i: nat)
    requires forall m :: 0 <= m < |idx| ==> idx[m] < i
    ensures Earlier(idx, i) == |idx|
  {
    if idx != [] { EarlierAll(idx[..|idx| - 1], i); }
  }

  lemma EarlierAppend(idx: seq<nat>, n: nat, i: nat)
    ensures Earlier(idx + [n], i) == Earlier(idx, i) + if n < i then 1 else 0
  {
    assert (idx + [n])[..|idx|] == idx;
  }

  ghost predicate AllShown(sanitize: string -> string, spans: seq<Span>, line: PieceLine, idx: seq<nat>)
    requires |idx| == |line| && forall m :: 0 <= m < |idx| ==> idx[m] < |spans|
  {
    forall m :: 0 <= m < |idx| ==> PieceShown(sanitize, spans[idx[m]], line[..m], line[m])
  }

  lemma ShownOneMore(sanitize: string -> string, spans: seq<Span>, line: PieceLine, idx: seq<nat>, piece: Span, shown: Span)
    requires |idx| == |line| && (forall m :: 0 <= m < |idx| ==> idx[m] < |spans|) && AllShown(sanitize, spans, line, idx)
    requires PieceShown(sanitize, piece, line, shown)
    ensures (forall m :: 0 <= m <= |idx| ==> (idx + [|spans|])[m] < |spans + [piece]|)
    ensures AllShown(sanitize, spans + [piece], line + [shown], idx + [|spans|])
  {
    hide PieceShown;
    var spans2, line2, idx2 := spans + [piece], line + [shown], idx + [|spans|];
    forall m | 0 <= m < |idx2| ensures PieceShown(sanitize, spans2[idx2[m]], line2[..m], line2[m]) {
      if m < |idx| {
        assert line2[..m] == line[..m] && spans2[idx2[m]] == spans[idx[m]];
        assert PieceShown(sanitize, spans[idx[m]], line[..m], line[m]);
      } else {
        assert line2[..m] == line;
      }
    }
  }

  predicate Omitted(sanitize: string -> string, piece: Span, before: PieceLine) { Shown(sanitize, piece.raw, Open(before)) == "" }

  lemma OmittedOneMore(sanitize: string -> string, spans: seq<Span>, line: PieceLine, idx: seq<nat>, piece: Span, shown: Span, i: nat)
    requires |idx| == |line| && i < |spans| && Omitted(sanitize, spans[i], line[..Earlier(idx, i)])
    ensures Earlier(idx + [|spans|], i) <= |line| &&
            Omitted(sanitize, (spans + [piece])[i], (line + [shown])[..Earlier(idx + [|spans|], i)])
  {
    hide Omitted;
    EarlierAppend(idx, |spans|, i);
    assert (line + [shown])[..Earlier(idx, i)] == line[..Earlier(idx, i)];
  }

  /** One more piece of the stretch, shown. */
  lemma HoldsOneMore(sanitize: string -> string, spans: seq<Span>, line: PieceLine, idx: seq<nat>, piece: Span, shown: Span)
    requires HoldsPieces(sanitize, spans, line, idx) && PieceShown(sanitize, piece, line, shown)
    ensures HoldsPieces(sanitize, spans + [piece], line + [shown], idx + [|spans|])
  {
    hide PieceShown, Omitted, AllShown, Earlier;
    var spans2, line2, idx2 := spans + [piece], line + [shown], idx + [|spans|];
    ShownOneMore(sanitize, spans, line, idx, piece, shown);
    forall i | 0 <= i < |spans2| && i !in idx2 ensures Omitted(sanitize, spans2[i], line2[..Earlier(idx2, i)]) {
      assert idx2[|idx|] == |spans| && i != |spans|;
      assert i !in idx;
      OmittedOneMore(sanitize, spans, line, idx, piece, shown, i);
    }
  }

  /** One more piece of the stretch, not shown. */
  lemma HoldsNoMore(sanitize: string -> string, spans: seq<Span>, line: PieceLine, idx: seq<nat>, piece: Span)
    requires HoldsPieces(sanitize, spans, line, idx) && Shown(sanitize, piece.raw, Open(line)) == ""
    ensures HoldsPieces(sanitize, spans + [piece], line, idx)
  {
    hide PieceShown, Shown, Open;
    var spans2 := spans + [piece];
    forall i | 0 <= i < |spans2| && i !in idx ensures Omitted(sanitize, spans2[i], line[..Earlier(idx, i)]) {
      if i == |spans| {
        EarlierAll(idx, i);
        assert line[..|line|] == line;
      }
    }
    forall m | 0 <= m < |idx| ensures PieceShown(sanitize, spans2[idx[m]], line[..m], line[m]) {
      assert spans2[idx[m]] == spans[idx[m]];
    }
  }

  lemma HoldsNothing(sanitize: string -> string)
    ensures HoldsPieces(sanitize, [], [], [])
  {
  }

  lemma {:induction false} LineHolds(sanitize: string -> string, spans: seq<Span>) returns (idx: seq<nat>)
    ensures HoldsPieces(sanitize, spans, LineOf(sanitize, spans), idx)
  {
    hide HoldsPieces;
    idx := [];
    if spans == [] {
      HoldsNothing(sanitize);
    } else {
      var before, last := spans[..|spans| - 1], spans[|spans| - 1];
      var front := LineOf(sanitize, before);
      idx := LineHolds(sanitize, before);
      assert before + [last] == spans;
      var shown := Shown(sanitize, last.raw, Open(front));
      if shown == "" {
        HoldsNoMore(sanitize, before, front, idx, last);
      } else {
        HoldsOneMore(sanitize, before, front, idx, last, Span(shown, last.cue));
        idx := idx + [|before|];
      }
    }
  }

  lemma LineOfMore(sanitize: string -> string, spans: seq<Span>, p: Span)
    ensures var front := LineOf(sanitize, spans);
            var shown := Shown(sanitize, p.raw, Open(front));
            LineOf(sanitize, spans + [p]) == if shown == "" then front else front + [Span(shown, p.cue)]
  {
    hide Shown, Open;
    assert (spans + [p])[..|spans|] == spans;
  }

  /** The lines so far are those of the stretches so far. */
  ghost predicate ByStretch(sanitize: string -> string, st: Split, ss: seq<seq<Span>>) {
    && |st.lines| == |ss| > 0
    && (forall k :: 0 <= k < |ss| ==> st.lines[k] == LineOf(sanitize, ss[k]))
    && st.ended == Open(st.lines[|ss| - 1])
  }

  lemma ByStretchText(sanitize: string -> string, st: Split, ss: seq<seq<Span>>, p: Span)
    requires ByStretch(sanitize, st, ss)
    ensures ByStretch(sanitize, SplitStep(sanitize, st, Text(p)), ss[..|ss| - 1] + [ss[|ss| - 1] + [p]])
  {
    hide Normalize, DropSpace, LineOf;
    var n := |ss| - 1;
    LineOfMore(sanitize, ss[n], p);
    var shown := Shown(sanitize, p.raw, Open(st.lines[n]));
    var st2, ss2 := SplitStep(sanitize, st, Text(p)), ss[..n] + [ss[n] + [p]];
    assert st2 == if shown == "" then st
                  else Split(st.lines[n := st.lines[n] + [Span(shown, p.cue)]], shown[|shown| - 1] == ' ');
    hide Shown, SplitStep;
    forall k | 0 <= k < |ss2| ensures st2.lines[k] == LineOf(sanitize, ss2[k]) {
      if k < n { assert ss2[k] == ss[k]; }
    }
  }

  lemma ByStretchBreak(sanitize: string -> string, st: Split, ss: seq<seq<Span>>)
    requires ByStretch(sanitize, st, ss)
    ensures ByStretch(sanitize, SplitStep(sanitize, st, Break), ss + [[]])
  {
  }

  /** Splitting at breaks makes one line of every stretch. */
  lemma {:induction false} SplitIsByStretch(sanitize: string -> string, pieces: seq<Piece>)
    ensures ByStretch(sanitize, SplitAll(sanitize, pieces), Stretches(pieces))
  {
    if pieces != [] {
      var before, last := pieces[..|pieces| - 1], pieces[|pieces| - 1];
      SplitIsByStretch(sanitize, before);
      hide ByStretch, SplitStep;
      if last.Break? {
        ByStretchBreak(sanitize, SplitAll(sanitize, before), Stretches(before));
      } else {
        ByStretchText(sanitize, SplitAll(sanitize, before), Stretches(before), last.span);
      }
    }
  }

  /**
    One line more than there are breaks, and line k holds the pieces between the breaks k - 1 and k
    that show anything, in order and with their own timing.
   */
  lemma LinesHoldTheirPieces(sanitize: string -> string, pieces: seq<Piece>, k: nat) returns (idx: seq<nat>)
    requires k <= CountBreaks(pieces)
    ensures |SplitAll(sanitize, pieces).lines| == CountBreaks(pieces) + 1 == |Stretches(pieces)|
    ensures HoldsPieces(sanitize, Stretches(pieces)[k], SplitAll(sanitize, pieces).lines[k], idx)
  {
    hide HoldsPieces, LineOf, SplitAll;
    StretchCount(pieces);
    SplitIsByStretch(sanitize, pieces);
    idx := LineHolds(sanitize, Stretches(pieces)[k]);
  }

  // ----- one logical line -----------------------------------------------------------------

  function ByteLength(line: PieceLine): nat
  {
    if line == [] then 0 else ByteLength(line[..|line| - 1]) + |Encode(line[|line| - 1].raw)|
  }

  /** The timed pieces, each at the bytes counted so far. */
  function Segments(line: PieceLine): seq<Segment>
  {
    if line == [] then []
    else
      var front, last := line[..|line| - 1], line[|line| - 1];
      Segments(front) +
      (if last.cue.None? then []
       else [Segment(ByteLength(front), ByteLength(line), last.cue.value.start, last.cue.value.end, last.cue.value.agentId)])
  }

  lemma {:induction false} SegmentsConsecutive(line: PieceLine)
    ensures Consecutive(Segments(line))
    ensures forall i :: 0 <= i < |Segments(line)| ==> Segments(line)[i].to <= ByteLength(line)
  {
    if line != [] { SegmentsConsecutive(line[..|line| - 1]); }
  }

  datatype FinalLine = FinalLine(text: Bytes, cues: seq<Cue>)

  function Finalize(sanitize: string -> string, line: PieceLine): FinalLine
  {
    var raw := RawLine(sanitize, line);
    TrimmedSlice(raw);
    FinalLine(Encode(TrimSpace(raw)), ClipAll(Encode(raw), LeftTrimBytes(raw), TrimmedEnd(raw), Segments(line)))
  }

  method ConcatRaw(sanitize: string -> string, line: PieceLine) returns (raw: string)
    ensures raw == RawLine(sanitize, line)
  {
    raw := "";
    for i := 0 to |line|
      invariant raw == RawLine(sanitize, line[..i])
    {
      assert line[..i + 1][..i] == line[..i];
      raw := raw + Normalize(sanitize, line[i].raw);
    }
    assert line[..|line|] == line;
  }

  /** The segment of piece `i`, if it is timed. */
  function SegmentOf(line: PieceLine, i: nat): seq<Segment>
    requires i < |line|
  {
    if line[i].cue.None? then []
    else
      var t := line[i].cue.value;
      var from := ByteLength(line[..i]);
      [Segment(from, from + |Encode(line[i].raw)|, t.start, t.end, t.agentId)]
  }

  lemma SegmentsStep(line: PieceLine, i: nat)
    requires i < |line|
    ensures ByteLength(line[..i + 1]) == ByteLength(line[..i]) + |Encode(line[i].raw)|
    ensures Segments(line[..i + 1]) == Segments(line[..i]) + SegmentOf(line, i)
  {
    assert line[..i + 1][..i] == line[..i];
  }

  lemma ClipAppend(raw: Bytes, left: nat, end: nat, segs: seq<Segment>, seg: Segment)
    requires end <= |raw|
    ensures ClipAll(raw, left, end, segs + [seg]) ==
            ClipAll(raw, left, end, segs) + (if Survives(left, end, seg) then [ClipCue(raw, left, end, seg)] else [])
  {
    assert (segs + [seg])[..|segs|] == segs;
  }

  lemma ClipStep(line: PieceLine, i: nat, raw: Bytes, left: nat, end: nat)
    requires i < |line| && end <= |raw|
    ensures ByteLength(line[..i + 1]) == ByteLength(line[..i]) + |Encode(line[i].raw)|
    ensures var segs := SegmentOf(line, i);
            ClipAll(raw, left, end, Segments(line[..i + 1])) ==
            ClipAll(raw, left, end, Segments(line[..i])) +
            (if segs != [] && Survives(left, end, segs[0]) then [ClipCue(raw, left, end, segs[0])] else [])
  {
    hide Encode;
    SegmentsStep(line, i);
    if line[i].cue.Some? {
      ClipAppend(raw, left, end, Segments(line[..i]), SegmentOf(line, i)[0]);
    } else {
      assert Segments(line[..i]) + [] == Segments(line[..i]);
    }
  }

  lemma ClipNothing(raw: Bytes, left: nat, end: nat)
    requires end <= |raw|
    ensures ClipAll(raw, left, end, Segments([])) == [] && ByteLength([]) == 0
  {
  }

  /** The cues of the pieces, cut from `bytes` between `left` and `end`. */
  method ClipPieces(line: PieceLine, bytes: Bytes, left: nat, end: nat) returns (cues: seq<Cue>)
    requires end <= |bytes|
    ensures cues == ClipAll(bytes, left, end, Segments(line))
  {
    hide Encode;
    hide ClipAll;
    hide Segments;
    hide ByteLength;
    ClipNothing(bytes, left, end);
    assert line[..0] == [];
    cues := [];
    var cursor: nat := 0;
    for i := 0 to |line|
      invariant cursor == ByteLength(line[..i])
      invariant cues == ClipAll(bytes, left, end, Segments(line[..i]))
    {
      ClipStep(line, i, bytes, left, end);
      var pieceEnd := cursor + |Encode(line[i].raw)|;
      if line[i].cue.Some? {
        var t := line[i].cue.value;
        var seg := Segment(cursor, pieceEnd, t.start, t.end, t.agentId);
        if Survives(left, end, seg) {
          cues := cues + [ClipCue(bytes, left, end, seg)];
        }
      }
      cursor := pieceEnd;
    }
    assert line[..|line|] == line;
  }

  method FinalizeLogicalLine(sanitize: string -> string, line: PieceLine) returns (out: FinalLine)
    ensures out == Finalize(sanitize, line)
  {
    var rawLine := ConcatRaw(sanitize, line);
    TrimmedSlice(rawLine);
    var cues := ClipPieces(line, Encode(rawLine), LeftTrimBytes(rawLine), TrimmedEnd(rawLine));
    out := FinalLine(Encode(TrimSpace(rawLine)), cues);
  }

  predicate GoodLine(l: FinalLine) {
    InOrder(l.cues) && forall i :: 0 <= i < |l.cues| ==> Reads(l.text, l.cues[i])
  }

  /** Whatever sanitising does, the cues of a line read their values from its text, in order. */
  lemma FinalizeReads(sanitize: string -> string, line: PieceLine)
    ensures GoodLine(Finalize(sanitize, line))
  {
    var raw := RawLine(sanitize, line);
    TrimmedSlice(raw);
    SegmentsConsecutive(line);
    ClipAllReads(Encode(raw), LeftTrimBytes(raw), TrimmedEnd(raw), Segments(line));
  }

  lemma {:induction false} PlainBytes(line: PieceLine)
    ensures |Encode(PlainLine(line))| == ByteLength(line)
  {
    if line != [] {
      PlainBytes(line[..|line| - 1]);
      EncodeConcat(PlainLine(line[..|line| - 1]), line[|line| - 1].raw);
    }
  }

  // ----- which text a cue holds -----------------------------------------------------------

  /** Where piece `i` begins by the bytes counted: those of the pieces before they are normalised again. */
  function Counted(line: PieceLine, i: nat): nat
    requires i <= |line|
  {
    ByteLength(line[..i])
  }

  /** Where piece `i` begins in the line's text. */
  function OwnStart(sanitize: string -> string, line: PieceLine, i: nat): nat
    requires i <= |line|
  {
    |Encode(RawLine(sanitize, line[..i]))|
  }

  /** A position moved into the part of the line that the trim leaves. */
  function InSight(sanitize: string -> string, line: PieceLine, x: nat): nat {
    var raw := RawLine(sanitize, line);
    TrimmedSlice(raw);
    Clamp(LeftTrimBytes(raw), TrimmedEnd(raw), x)
  }

  /** The cue of a timed piece that is taken to stand at [from, upto) of the line. */
  function CueAt(sanitize: string -> string, line: PieceLine, i: nat, from: nat, upto: nat): Option<Cue>
    requires i < |line|
  {
    var raw := RawLine(sanitize, line);
    TrimmedSlice(raw);
    if line[i].cue.None? then None
    else
      var t := line[i].cue.value;
      var seg := Segment(from, upto, t.start, t.end, t.agentId);
      if Survives(LeftTrimBytes(raw), TrimmedEnd(raw), seg)
      then Some(ClipCue(Encode(raw), LeftTrimBytes(raw), TrimmedEnd(raw), seg)) else None
  }

  /** The cue a piece gets. */
  function CueOf(sanitize: string -> string, line: PieceLine, i: nat): Option<Cue>
    requires i < |line|
  {
    CueAt(sanitize, line, i, Counted(line, i), Counted(line, i) + |Encode(line[i].raw)|)
  }

  /** The cue that holds the piece's own text. */
  function OwnCueOf(sanitize: string -> string, line: PieceLine, i: nat): Option<Cue>
    requires i < |line|
  {
    CueAt(sanitize, line, i, OwnStart(sanitize, line, i), OwnStart(sanitize, line, i + 1))
  }

  function CuesUpTo(sanitize: string -> string, line: PieceLine, n: nat): seq<Cue>
    requires n <= |line|
  {
    if n == 0 then []
    else CuesUpTo(sanitize, line, n - 1) + Listed(CueOf(sanitize, line, n - 1))
  }

  function Listed(c: Option<Cue>): seq<Cue> { if c.Some? then [c.value] else [] }

  /** A line's cues are those of its pieces, in order. */
  lemma CuesAreOfPieces(sanitize: string -> string, line: PieceLine)
    ensures Finalize(sanitize, line).cues == CuesUpTo(sanitize, line, |line|)
  {
    hide Encode, RawLine, Segments;
    var raw := RawLine(sanitize, line);
    TrimmedSlice(raw);
    PieceCues(sanitize, line, |line|);
    assert line[..|line|] == line;
  }

  lemma {:induction false} PieceCues(sanitize: string -> string, line: PieceLine, n: nat)
    requires n <= |line|
    ensures var raw := RawLine(sanitize, line);
            TrimmedEnd(raw) <= |Encode(raw)| && 0 <= LeftTrimBytes(raw) &&
            ClipAll(Encode(raw), LeftTrimBytes(raw), TrimmedEnd(raw), Segments(line[..n])) == CuesUpTo(sanitize, line, n)
  {
    hide Encode, RawLine, Segments, ClipAll, ByteLength;
    var raw := RawLine(sanitize, line);
    TrimmedSlice(raw);
    if n == 0 {
      assert line[..0] == [];
      ClipNothing(Encode(raw), LeftTrimBytes(raw), TrimmedEnd(raw));
    } else {
      PieceCues(sanitize, line, n - 1);
      ClipStep(line, n - 1, Encode(raw), LeftTrimBytes(raw), TrimmedEnd(raw));
      CueIsClip(sanitize, line, n - 1);
      hide CueOf, SegmentOf, ClipCue, Survives, LeftTrimBytes, TrimmedEnd;
    }
  }

  lemma CueIsClip(sanitize: string -> string, line: PieceLine, i: nat)
    requires i < |line|
    ensures var raw, segs := RawLine(sanitize, line), SegmentOf(line, i);
            && 0 <= LeftTrimBytes(raw) && TrimmedEnd(raw) <= |Encode(raw)|
            && Listed(CueOf(sanitize, line, i)) ==
               if segs != [] && Survives(LeftTrimBytes(raw), TrimmedEnd(raw), segs[0])
               then [ClipCue(Encode(raw), LeftTrimBytes(raw), TrimmedEnd(raw), segs[0])] else []
  {
    hide Encode, RawLine, ByteLength;
    TrimmedSlice(RawLine(sanitize, line));
  }

  /** In the line's text every piece stands at its own bytes, as it is once normalised again. */
  lemma CueIsItsPiece(sanitize: string -> string, line: PieceLine, i: nat)
    requires i < |line|
    ensures var raw := Encode(RawLine(sanitize, line));
            var from, upto := OwnStart(sanitize, line, i), OwnStart(sanitize, line, i + 1);
            from <= upto <= |raw| && raw[from..upto] == Encode(Normalize(sanitize, line[i].raw))
  {
    hide Encode, Normalize;
    var before, own, after := RawLine(sanitize, line[..i]), Normalize(sanitize, line[i].raw), RawLine(sanitize, line[i + 1..]);
    assert line[..i + 1][..i] == line[..i] && RawLine(sanitize, line[..i + 1]) == before + own;
    RawLineConcat(sanitize, line[..i + 1], line[i + 1..]);
    assert line[..i + 1] + line[i + 1..] == line;
    EncodeConcat(before, own);
    EncodeConcat(before + own, after);
    var a, b, c := Encode(before), Encode(own), Encode(after);
    assert (a + b + c)[|a|..|a| + |b|] == b;
  }

  /** At every boundary between pieces the bytes counted and the bytes written agree, the trim allowed for. */
  ghost predicate BoundsAgree(sanitize: string -> string, line: PieceLine) {
    forall i :: 0 <= i <= |line| ==>
      InSight(sanitize, line, Counted(line, i)) == InSight(sanitize, line, OwnStart(sanitize, line, i))
  }

  ghost predicate OwnsCues(sanitize: string -> string, line: PieceLine) {
    forall i :: 0 <= i < |line| ==> CueOf(sanitize, line, i) == OwnCueOf(sanitize, line, i)
  }

  /** The same pieces of text, timed in another way. */
  ghost predicate SameText(line: PieceLine, other: PieceLine) {
    |other| == |line| && forall i :: 0 <= i < |line| ==> other[i].raw == line[i].raw
  }

  lemma {:induction false} SameTextSame(sanitize: string -> string, line: PieceLine, other: PieceLine)
    requires SameText(line, other)
    ensures RawLine(sanitize, other) == RawLine(sanitize, line) && ByteLength(other) == ByteLength(line)
  {
    hide Normalize, Encode;
    if line != [] { SameTextSame(sanitize, line[..|line| - 1], other[..|other| - 1]); }
  }

  lemma SameBounds(sanitize: string -> string, line: PieceLine, other: PieceLine, i: nat)
    requires SameText(line, other) && i <= |line|
    ensures Counted(other, i) == Counted(line, i) && OwnStart(sanitize, other, i) == OwnStart(sanitize, line, i)
    ensures forall x: nat :: InSight(sanitize, other, x) == InSight(sanitize, line, x)
  {
    hide RawLine, Encode, ByteLength;
    SameTextSame(sanitize, line, other);
    SameTextSame(sanitize, line[..i], other[..i]);
  }

  /** A cue is decided by its bounds as far as they are in sight. */
  lemma CueAtIff(sanitize: string -> string, line: PieceLine, i: nat, a: nat, b: nat, c: nat, d: nat)
    requires i < |line| && line[i].cue.Some? && a <= b && c <= d
    ensures var sees := (x: nat) => InSight(sanitize, line, x);
            CueAt(sanitize, line, i, a, b) == CueAt(sanitize, line, i, c, d) <==>
            (sees(a) == sees(c) && sees(b) == sees(d)) || (sees(a) == sees(b) && sees(c) == sees(d))
  {
    hide RawLine, Encode;
    var raw := RawLine(sanitize, line);
    TrimmedSlice(raw);
    var left, end := LeftTrimBytes(raw), TrimmedEnd(raw);
    hide LeftTrimBytes, TrimmedEnd;
  }

  lemma NextBound(sanitize: string -> string, line: PieceLine, i: nat)
    requires i < |line|
    ensures Counted(line, i + 1) == Counted(line, i) + |Encode(line[i].raw)|
    ensures OwnStart(sanitize, line, i) <= OwnStart(sanitize, line, i + 1)
  {
    hide Encode, RawLine;
    SegmentsStep(line, i);
    CueIsItsPiece(sanitize, line, i);
  }

  /** Every piece of the line timed alike. */
  function AllTimed(line: PieceLine): (other: PieceLine)
    ensures SameText(line, other) && forall i :: 0 <= i < |other| ==> other[i].cue.Some?
  {
    seq(|line|, i requires 0 <= i < |line| => Span(line[i].raw, Some(Timing(None, None, ""))))
  }

  lemma AgreeingBoundsOwn(sanitize: string -> string, line: PieceLine)
    requires BoundsAgree(sanitize, line)
    ensures OwnsCues(sanitize, line)
  {
    hide InSight, CueAt, Counted, OwnStart;
    forall i | 0 <= i < |line| ensures CueOf(sanitize, line, i) == OwnCueOf(sanitize, line, i) {
      NextBound(sanitize, line, i);
      if line[i].cue.Some? {
        CueAtIff(sanitize, line, i, Counted(line, i), Counted(line, i + 1),
                 OwnStart(sanitize, line, i), OwnStart(sanitize, line, i + 1));
      } else {
        Untimed(sanitize, line, i);
      }
    }
  }

  lemma Untimed(sanitize: string -> string, line: PieceLine, i: nat)
    requires i < |line| && line[i].cue.None?
    ensures CueOf(sanitize, line, i) == None && OwnCueOf(sanitize, line, i) == None
  {
    hide RawLine, Encode, ByteLength;
  }

  lemma {:induction false} OwnedBoundsAgree(sanitize: string -> string, line: PieceLine, i: nat)
    requires OwnsCues(sanitize, line) && (forall k :: 0 <= k < |line| ==> line[k].cue.Some?) && i <= |line|
    ensures InSight(sanitize, line, Counted(line, i)) == InSight(sanitize, line, OwnStart(sanitize, line, i))
  {
    hide InSight, CueAt, Counted, OwnStart;
    if i == 0 {
      FirstBound(sanitize, line);
    } else {
      OwnedBoundsAgree(sanitize, line, i - 1);
      NextBound(sanitize, line, i - 1);
      assert CueOf(sanitize, line, i - 1) == OwnCueOf(sanitize, line, i - 1);
      CueAtIff(sanitize, line, i - 1, Counted(line, i - 1), Counted(line, i),
               OwnStart(sanitize, line, i - 1), OwnStart(sanitize, line, i));
    }
  }

  lemma FirstBound(sanitize: string -> string, line: PieceLine)
    ensures Counted(line, 0) == 0 && OwnStart(sanitize, line, 0) == 0
  {
    assert line[..0] == [];
    EncodeEmpty("");
  }

  /**
    Whichever pieces of a line are timed, each gets the cue of its own text, exactly when at every
    boundary the bytes counted before the second normalisation and those written after it agree, as
    far as the trim leaves them.
   */
  lemma CuesAreOwnIff(sanitize: string -> string, line: PieceLine)
    ensures (forall other :: SameText(line, other) ==> OwnsCues(sanitize, other)) <==> BoundsAgree(sanitize, line)
  {
    hide InSight, Counted, OwnStart, OwnsCues;
    if BoundsAgree(sanitize, line) {
      forall other | SameText(line, other) ensures OwnsCues(sanitize, other) {
        forall i | 0 <= i <= |other|
          ensures InSight(sanitize, other, Counted(other, i)) == InSight(sanitize, other, OwnStart(sanitize, other, i))
        {
          SameBounds(sanitize, line, other, i);
        }
        AgreeingBoundsOwn(sanitize, other);
      }
    }
    if forall other :: SameText(line, other) ==> OwnsCues(sanitize, other) {
      var timed := AllTimed(line);
      forall i | 0 <= i <= |line|
        ensures InSight(sanitize, line, Counted(line, i)) == InSight(sanitize, line, OwnStart(sanitize, line, i))
      {
        OwnedBoundsAgree(sanitize, timed, i);
        SameBounds(sanitize, line, timed, i);
      }
    }
  }

  /** On a tidy line nothing changes when it is normalised again. */
  lemma TidyBoundsAgree(sanitize: string -> string, line: PieceLine)
    requires Tidy(sanitize, line)
    ensures BoundsAgree(sanitize, line)
  {
    forall i | 0 <= i <= |line| ensures Counted(line, i) == OwnStart(sanitize, line, i) {
      TidyIsPlain(sanitize, line[..i]);
      PlainBytes(line[..i]);
    }
  }

  lemma {:induction false} CueOrigin(sanitize: string -> string, line: PieceLine, n: nat, c: nat) returns (i: nat)
    requires n <= |line| && c < |CuesUpTo(sanitize, line, n)|
    ensures i < n && CueOf(sanitize, line, i) == Some(CuesUpTo(sanitize, line, n)[c])
  {
    hide CueOf;
    i := n - 1;
    if c < |CuesUpTo(sanitize, line, i)| { i := CueOrigin(sanitize, line, i, c); }
  }

  /**
    A cue has the timing and the agent of a piece; where the bounds agree, and so on a tidy line, it
    holds text of that very piece.
   */
  lemma CueBelongsToPiece(sanitize: string -> string, line: PieceLine, c: nat) returns (i: nat, from: nat, upto: nat)
    requires c < |Finalize(sanitize, line).cues|
    ensures var cue := Finalize(sanitize, line).cues[c];
            i < |line| && line[i].cue == Some(Timing(cue.start, cue.end, cue.agentId))
    ensures BoundsAgree(sanitize, line) ==>
              var own := Encode(Normalize(sanitize, line[i].raw));
              from < upto <= |own| && Finalize(sanitize, line).cues[c].value == own[from..upto]
  {
    hide Encode, Normalize, Finalize, CueOf, OwnCueOf, BoundsAgree;
    CuesAreOfPieces(sanitize, line);
    i := CueOrigin(sanitize, line, |line|, c);
    TimingOfCue(sanitize, line, i);
    from, upto := 0, 0;
    if BoundsAgree(sanitize, line) {
      AgreeingBoundsOwn(sanitize, line);
      assert CueOf(sanitize, line, i) == OwnCueOf(sanitize, line, i);
      from, upto := OwnCueText(sanitize, line, i);
    }
  }

  lemma TimingOfCue(sanitize: string -> string, line: PieceLine, i: nat)
    requires i < |line| && CueOf(sanitize, line, i).Some?
    ensures var cue := CueOf(sanitize, line, i).value; line[i].cue == Some(Timing(cue.start, cue.end, cue.agentId))
  {
    hide RawLine, Encode, ByteLength;
  }

  lemma OwnCueText(sanitize: string -> string, line: PieceLine, i: nat) returns (from: nat, upto: nat)
    requires i < |line| && OwnCueOf(sanitize, line, i).Some?
    ensures var own := Encode(Normalize(sanitize, line[i].raw));
            from < upto <= |own| && OwnCueOf(sanitize, line, i).value.value == own[from..upto]
  {
    hide RawLine, Encode, Normalize;
    var raw := RawLine(sanitize, line);
    TrimmedSlice(raw);
    CueIsItsPiece(sanitize, line, i);
    var t := line[i].cue.value;
    var seg := Segment(OwnStart(sanitize, line, i), OwnStart(sanitize, line, i + 1), t.start, t.end, t.agentId);
    from, upto := ClipIsPart(Encode(raw), LeftTrimBytes(raw), TrimmedEnd(raw), seg);
  }

  // ----- single spaces --------------------------------------------------------------------

  lemma {:induction false} RawLineConcat(sanitize: string -> string, a: PieceLine, b: PieceLine)
    ensures RawLine(sanitize, a + b) == RawLine(sanitize, a) + RawLine(sanitize, b)
  {
    hide Normalize;
    if b == [] {
      assert a + b == a;
    } else {
      var n := |b| - 1;
      var all, z := a + b, Normalize(sanitize, b[n].raw);
      RawLineConcat(sanitize, a, b[..n]);
      assert all[..|all| - 1] == a + b[..n] && all[|all| - 1] == b[n];
      assert RawLine(sanitize, all) == RawLine(sanitize, a + b[..n]) + z;
      Assoc(RawLine(sanitize, a), RawLine(sanitize, b[..n]), z);
    }
  }

  /**
    Between two pieces, as they stand once normalised again, a space meets a space, with something
    visible on either side.
   */
  predicate OpenSeam(sanitize: string -> string, line: PieceLine, i: int) {
    0 <= i <= |line| &&
    var left, right := RawLine(sanitize, line[..i]), RawLine(sanitize, line[i..]);
    EndsInSpace(left) && right != "" && right[0] == ' ' && HasInk(left) && HasInk(right)
  }

  /** Each piece is collapsed once more, so adjacent spaces can only meet at a seam. */
  lemma {:induction false} DoubleIsSeam(sanitize: string -> string, line: PieceLine, p: nat) returns (i: nat)
    requires var raw := RawLine(sanitize, line); p + 1 < |raw| && raw[p] == ' ' && raw[p + 1] == ' '
    ensures i <= |line| && |RawLine(sanitize, line[..i])| == p + 1
  {
    hide Normalize;
    var n := |line| - 1;
    var front, last := RawLine(sanitize, line[..n]), Normalize(sanitize, line[n].raw);
    if p + 1 < |front| {
      i := DoubleIsSeam(sanitize, line[..n], p);
      assert line[..n][..i] == line[..i];
    } else {
      NormalizedIsCollapsed(sanitize, line[n].raw);
      assert forall z :: 0 <= z < |last| - 1 ==> !(last[z] == ' ' && last[z + 1] == ' ');
      assert forall z :: |front| <= z < |front + last| - 1 ==> (front + last)[z] == last[z - |front|];
      i := n;
    }
  }

  lemma NormalizedIsCollapsed(sanitize: string -> string, raw: string)
    ensures NoDoubleSpace(Normalize(sanitize, raw))
  {
    CollapseFromIsCollapsed(sanitize(raw), false);
  }

  /** A line's text has adjacent spaces exactly when it has an open seam. */
  lemma SeamsDecide(sanitize: string -> string, line: PieceLine)
    ensures NoDoubleBlank(Finalize(sanitize, line).text) <==> forall i :: 0 <= i <= |line| ==> !OpenSeam(sanitize, line, i)
  {
    hide RawLine, IsSpace, NoDoubleBlank, NoDoubleSpace, HasInk;
    var raw := RawLine(sanitize, line);
    DoubleBlankIff(TrimSpace(raw));
    TrimmedDoubleIff(raw);
    forall i | 0 <= i <= |line| && OpenSeam(sanitize, line, i) ensures exists p :: 0 <= p < |raw| && DoubleInside(raw, p) {
      SeamIsDouble(sanitize, line, i);
    }
    forall p | 0 <= p < |raw| && DoubleInside(raw, p) ensures exists i :: 0 <= i <= |line| && OpenSeam(sanitize, line, i) {
      var i := DoubleIsSeam(sanitize, line, p);
      DoubleOpensSeam(sanitize, line, i, p);
    }
  }

  lemma SeamIsDouble(sanitize: string -> string, line: PieceLine, i: nat)
    requires i <= |line| && OpenSeam(sanitize, line, i)
    ensures var p := |RawLine(sanitize, line[..i])| - 1; DoubleInside(RawLine(sanitize, line), p)
  {
    hide RawLine, IsSpace;
    SpaceIsSpace();
    RawLineConcat(sanitize, line[..i], line[i..]);
    assert line[..i] + line[i..] == line;
    var left, right, raw := RawLine(sanitize, line[..i]), RawLine(sanitize, line[i..]), RawLine(sanitize, line);
    var p := |left| - 1;
    var x :| 0 <= x < |left| && !IsSpace(left[x]);
    assert raw[..p][x] == left[x];
    var y :| 0 <= y < |right| && !IsSpace(right[y]);
    assert raw[p + 2..][y - 1] == right[y];
  }

  lemma DoubleOpensSeam(sanitize: string -> string, line: PieceLine, i: nat, p: nat)
    requires i <= |line| && DoubleInside(RawLine(sanitize, line), p) && |RawLine(sanitize, line[..i])| == p + 1
    ensures OpenSeam(sanitize, line, i)
  {
    hide RawLine, IsSpace;
    RawLineConcat(sanitize, line[..i], line[i..]);
    assert line[..i] + line[i..] == line;
    var left, right, raw := RawLine(sanitize, line[..i]), RawLine(sanitize, line[i..]), RawLine(sanitize, line);
    var x :| 0 <= x < |raw[..p]| && !IsSpace(raw[..p][x]);
    assert left[x] == raw[..p][x];
    var y :| 0 <= y < |raw[p + 2..]| && !IsSpace(raw[p + 2..][y]);
    assert right[y + 1] == raw[p + 2..][y];
  }

  lemma TidyTextHasSingleSpaces(sanitize: string -> string, line: PieceLine)
    requires Tidy(sanitize, line)
    ensures NoDoubleBlank(Finalize(sanitize, line).text)
  {
    TidyIsPlain(sanitize, line);
    var raw := RawLine(sanitize, line);
    TrimmedDoubleIff(raw);
    assert forall i :: 0 <= i < |raw| ==> !DoubleInside(raw, i);
    DoubleBlankIff(TrimSpace(raw));
  }

  // ----- joining the lines ----------------------------------------------------------------

  predicate Blank(l: FinalLine) { l.text == [] && l.cues == [] }

  function DropFront(ls: seq<FinalLine>): seq<FinalLine> {
    if ls != [] && Blank(ls[0]) then DropFront(ls[1..]) else ls
  }

  function DropBack(ls: seq<FinalLine>): seq<FinalLine> {
    if ls != [] && Blank(ls[|ls| - 1]) then DropBack(ls[..|ls| - 1]) else ls
  }

  function Offset(ls: seq<FinalLine>): nat { if ls == [] then 0 else |JoinText(ls)| + 1 }

  /** The lines' texts with a newline between them. */
  function JoinText(ls: seq<FinalLine>): Bytes {
    if ls == [] then []
    else (if |ls| == 1 then [] else JoinText(ls[..|ls| - 1]) + [10]) + ls[|ls| - 1].text
  }

  function Shift(cues: seq<Cue>, d: int): (cs: seq<Cue>)
    ensures |cs| == |cues|
    ensures forall i :: 0 <= i < |cs| ==>
              cs[i] == cues[i].(byteStart := cues[i].byteStart + d, byteEnd := cues[i].byteEnd + d)
  {
    seq(|cues|, i requires 0 <= i < |cues| =>
      cues[i].(byteStart := cues[i].byteStart + d, byteEnd := cues[i].byteEnd + d))
  }

  function JoinCues(ls: seq<FinalLine>): seq<Cue> {
    if ls == [] then []
    else JoinCues(ls[..|ls| - 1]) + Shift(ls[|ls| - 1].cues, Offset(ls[..|ls| - 1]))
  }

  lemma ReadsShifted(prefix: Bytes, text: Bytes, c: Cue)
    requires Reads(text, c)
    ensures Reads(prefix + text, c.(byteStart := c.byteStart + |prefix|, byteEnd := c.byteEnd + |prefix|))
  {
    assert (prefix + text)[c.byteStart + |prefix|..c.byteEnd + |prefix| + 1] == text[c.byteStart..c.byteEnd + 1];
  }

  lemma ReadsExtended(text: Bytes, suffix: Bytes, c: Cue)
    requires Reads(text, c)
    ensures Reads(text + suffix, c)
  {
    assert (text + suffix)[c.byteStart..c.byteEnd + 1] == text[c.byteStart..c.byteEnd + 1];
  }

  lemma JoinStepReads(prefix: Bytes, front: FinalLine, last: FinalLine, i: nat)
    requires GoodLine(front) && GoodLine(last) && front.text <= prefix && i < |front.cues| + |last.cues|
    ensures Reads(prefix + last.text, (front.cues + Shift(last.cues, |prefix|))[i])
  {
    if i < |front.cues| {
      ReadsExtended(front.text, (prefix + last.text)[|front.text|..], front.cues[i]);
      assert prefix + last.text == front.text + (prefix + last.text)[|front.text|..];
    } else {
      ReadsShifted(prefix, last.text, last.cues[i - |front.cues|]);
    }
  }

  lemma JoinStep(prefix: Bytes, front: FinalLine, last: FinalLine)
    requires GoodLine(front) && GoodLine(last) && front.text <= prefix
    ensures GoodLine(FinalLine(prefix + last.text, front.cues + Shift(last.cues, |prefix|)))
  {
    var shifted, text := Shift(last.cues, |prefix|), prefix + last.text;
    var cues := front.cues + shifted;
    forall i | 0 <= i < |cues| ensures Reads(text, cues[i]) { JoinStepReads(prefix, front, last, i); }
    forall i, j | 0 <= i < j < |cues| ensures cues[i].byteEnd < cues[j].byteStart {
      if j < |front.cues| {
        assert front.cues[i].byteEnd < front.cues[j].byteStart;
      } else if i < |front.cues| {
        assert Reads(front.text, front.cues[i]) && Reads(last.text, last.cues[j - |front.cues|]);
      } else {
        assert last.cues[i - |front.cues|].byteEnd < last.cues[j - |front.cues|].byteStart;
      }
    }
  }

  /** Joining keeps every cue on its own text. */
  lemma {:induction false} JoinReads(ls: seq<FinalLine>)
    requires forall i :: 0 <= i < |ls| ==> GoodLine(ls[i])
    ensures GoodLine(FinalLine(JoinText(ls), JoinCues(ls)))
  {
    if ls != [] {
      var front, last := ls[..|ls| - 1], ls[|ls| - 1];
      JoinReads(front);
      JoinLast(ls, FinalLine(JoinText(front), JoinCues(front)));
    }
  }

  /** What stands before the line after `front`. */
  function PrefixOf(front: seq<FinalLine>): Bytes { if front == [] then [] else JoinText(front) + [10] }

  lemma JoinUnfolds(ls: seq<FinalLine>)
    requires ls != []
    ensures var front, last := ls[..|ls| - 1], ls[|ls| - 1];
            && JoinText(ls) == PrefixOf(front) + last.text && JoinText(front) <= PrefixOf(front)
            && JoinCues(ls) == JoinCues(front) + Shift(last.cues, |PrefixOf(front)|)
  {
    hide Shift;
  }

  lemma JoinLast(ls: seq<FinalLine>, joined: FinalLine)
    requires ls != [] && joined == FinalLine(JoinText(ls[..|ls| - 1]), JoinCues(ls[..|ls| - 1]))
    requires GoodLine(joined) && GoodLine(ls[|ls| - 1])
    ensures GoodLine(FinalLine(JoinText(ls), JoinCues(ls)))
  {
    hide GoodLine, JoinText, JoinCues, PrefixOf, Shift;
    JoinUnfolds(ls);
    JoinStep(PrefixOf(ls[..|ls| - 1]), joined, ls[|ls| - 1]);
  }

  lemma BlankConcat(a: Bytes, b: Bytes)
    requires EndsBlank(a) ==> b == [] || b[0] != 32
    ensures NoDoubleBlank(a + b) <==> NoDoubleBlank(a) && NoDoubleBlank(b)
  {
    var all := a + b;
    assert forall i :: 0 <= i < |a| ==> all[i] == a[i];
    assert forall i :: 0 <= i < |b| ==> all[|a| + i] == b[i];
    if NoDoubleBlank(all) {
      forall i | 0 <= i < |b| - 1 ensures !(b[i] == 32 && b[i + 1] == 32) {
        assert all[|a| + i] == b[i] && all[|a| + i + 1] == b[i + 1];
      }
    }
    if NoDoubleBlank(a) && NoDoubleBlank(b) {
      forall i | 0 <= i < |all| - 1 ensures !(all[i] == 32 && all[i + 1] == 32) {
        if i >= |a| { assert all[i] == b[i - |a|] && all[i + 1] == b[i - |a| + 1]; }
      }
    }
  }

  /** Adjacent spaces in the joined text are adjacent spaces in a line. */
  lemma {:induction false} JoinSingleSpaces(ls: seq<FinalLine>)
    ensures NoDoubleBlank(JoinText(ls)) <==> forall i :: 0 <= i < |ls| ==> NoDoubleBlank(ls[i].text)
  {
    if ls != [] {
      var front, last := ls[..|ls| - 1], ls[|ls| - 1];
      JoinSingleSpaces(front);
      BlankConcat(JoinText(front), [10]);
      var prefix := if front == [] then [] else JoinText(front) + [10];
      BlankConcat(prefix, last.text);
      assert JoinText(ls) == prefix + last.text;
      hide NoDoubleBlank, JoinText;
      assert ls == front + [last];
      assert forall i :: 0 <= i < |front| ==> ls[i] == front[i];
    }
  }

  /** The first line stands first, then a newline and the others. */
  lemma {:induction false} JoinFront(l: FinalLine, ls: seq<FinalLine>)
    ensures JoinText([l] + ls) == if ls == [] then l.text else l.text + [10] + JoinText(ls)
    decreases |ls|
  {
    var all := [l] + ls;
    if ls != [] {
      var n := |ls| - 1;
      assert all[..|all| - 1] == [l] + ls[..n] && all[|all| - 1] == ls[n];
      JoinFront(l, ls[..n]);
      if n > 0 {
        var a, b, c := l.text + [10], JoinText(ls[..n]) + [10], ls[n].text;
        assert JoinText(all) == (a + JoinText(ls[..n])) + [10] + c;
        assert a + (b + c) == a + JoinText(ls[..n]) + [10] + c;
      } else {
        assert ls[..n] == [] && [l] + [] == [l];
      }
    }
  }

  function Newlines(bs: Bytes): nat { if bs == [] then 0 else Newlines(bs[..|bs| - 1]) + if bs[|bs| - 1] == 10 then 1 else 0 }

  lemma {:induction false} NewlinesConcat(a: Bytes, b: Bytes)
    ensures Newlines(a + b) == Newlines(a) + Newlines(b)
  {
    if b == [] {
      assert a + b == a;
    } else {
      NewlinesConcat(a, b[..|b| - 1]);
      assert (a + b)[..|a + b| - 1] == a + b[..|b| - 1];
    }
  }

  lemma {:induction false} JoinNewlines(ls: seq<FinalLine>)
    requires forall i :: 0 <= i < |ls| ==> Newlines(ls[i].text) == 0
    ensures Newlines(JoinText(ls)) == if ls == [] then 0 else |ls| - 1
  {
    if ls != [] {
      var front, last := ls[..|ls| - 1], ls[|ls| - 1];
      JoinNewlines(front);
      NewlinesConcat(JoinText(front), [10]);
      assert Newlines([10]) == 1 by { assert [10][..0] == []; }
      NewlinesConcat(if front == [] then [] else JoinText(front) + [10], last.text);
    }
  }

  /** Encoded text has no newline but where a character is one. */
  lemma {:induction false} EncodedNewlines(s: string)
    requires forall i :: 0 <= i < |s| ==> s[i] != '\n'
    ensures Newlines(Encode(s)) == 0
  {
    if s != "" {
      EncodedNewlines(s[..|s| - 1]);
      CharHasNoNewline(s[|s| - 1]);
      NewlinesConcat(Encode(s[..|s| - 1]), EncodeChar(s[|s| - 1]));
    }
  }

  lemma CharHasNoNewline(c: char)
    requires c != '\n'
    ensures Newlines(EncodeChar(c)) == 0
  {
    var bs := EncodeChar(c);
    assert forall i :: 0 <= i < |bs| ==> bs[i] != 10;
    NoNewline(bs);
  }

  lemma {:induction false} NoNewline(bs: Bytes)
    requires forall i :: 0 <= i < |bs| ==> bs[i] != 10
    ensures Newlines(bs) == 0
  {
    if bs != [] { NoNewline(bs[..|bs| - 1]); }
  }

  /** A logical line holds no newline. */
  lemma FinalizedNewlines(sanitize: string -> string, line: PieceLine)
    ensures Newlines(Finalize(sanitize, line).text) == 0
  {
    hide Normalize, Encode, IsSpace;
    var raw := RawLine(sanitize, line);
    RawHasNoNewline(sanitize, line);
    if TrimLeft(raw) == "" {
      AllSpace(raw);
    } else {
      var a, b := TrimSpaceParts(raw);
      assert forall i :: 0 <= i < |TrimSpace(raw)| ==> TrimSpace(raw)[i] == raw[|a| + i];
    }
    EncodedNewlines(TrimSpace(raw));
  }

  lemma {:induction false} RawHasNoNewline(sanitize: string -> string, line: PieceLine)
    ensures forall i :: 0 <= i < |RawLine(sanitize, line)| ==> RawLine(sanitize, line)[i] != '\n'
  {
    if line != [] {
      RawHasNoNewline(sanitize, line[..|line| - 1]);
      CollapseFromIsCollapsed(sanitize(line[|line| - 1].raw), false);
    }
  }

  /** Blank lines are dropped at both ends, and only there. */
  lemma {:induction false} DropFrontIs(ls: seq<FinalLine>) returns (a: nat)
    ensures a <= |ls| && DropFront(ls) == ls[a..] && (forall i :: 0 <= i < a ==> Blank(ls[i])) && (a < |ls| ==> !Blank(ls[a]))
  {
    a := 0;
    if ls != [] && Blank(ls[0]) {
      var rest := DropFrontIs(ls[1..]);
      a := rest + 1;
      assert forall i :: 0 < i < |ls| ==> ls[1..][i - 1] == ls[i];
    }
  }

  lemma {:induction false} DropBackIs(ls: seq<FinalLine>) returns (b: nat)
    ensures b <= |ls| && DropBack(ls) == ls[..b] && (forall i :: b <= i < |ls| ==> Blank(ls[i])) && (b > 0 ==> !Blank(ls[b - 1]))
  {
    b := |ls|;
    if ls != [] && Blank(ls[|ls| - 1]) { b := DropBackIs(ls[..|ls| - 1]); }
  }

  function FinalizeAll(sanitize: string -> string, lines: seq<PieceLine>): (ls: seq<FinalLine>)
    ensures |ls| == |lines| && forall i :: 0 <= i < |lines| ==> ls[i] == Finalize(sanitize, lines[i])
  {
    seq(|lines|, i requires 0 <= i < |lines| => Finalize(sanitize, lines[i]))
  }

  lemma {:induction false} DropFrontMembers(ls: seq<FinalLine>)
    ensures forall l :: l in DropFront(ls) ==> l in ls
    ensures forall l :: l in ls ==> l in DropFront(ls) || Blank(l)
  {
    if ls != [] && Blank(ls[0]) { DropFrontMembers(ls[1..]); }
  }

  lemma {:induction false} DropBackMembers(ls: seq<FinalLine>)
    ensures forall l :: l in DropBack(ls) ==> l in ls
    ensures forall l :: l in ls ==> l in DropBack(ls) || Blank(l)
  {
    if ls != [] && Blank(ls[|ls| - 1]) { DropBackMembers(ls[..|ls| - 1]); }
  }

  method DropEmptyEnds(ls: seq<FinalLine>) returns (out: seq<FinalLine>)
    ensures out == DropBack(DropFront(ls))
  {
    out := ls;
    while out != [] && Blank(out[0])
      invariant DropFront(out) == DropFront(ls)
      decreases |out|
    {
      out := out[1..];
    }
    while out != [] && Blank(out[|out| - 1])
      invariant DropBack(out) == DropBack(DropFront(ls))
      decreases |out|
    {
      out := out[..|out| - 1];
    }
  }

  method JoinLines(ls: seq<FinalLine>) returns (value: Bytes, cues: seq<Cue>)
    ensures value == JoinText(ls) && cues == JoinCues(ls)
  {
    value, cues := [], [];
    var byteOffset := 0;
    for i := 0 to |ls|
      invariant value == JoinText(ls[..i]) && cues == JoinCues(ls[..i]) && byteOffset == |value|
    {
      assert ls[..i + 1][..i] == ls[..i];
      if i > 0 {
        value := value + [10];
        byteOffset := byteOffset + 1;
      }
      value := value + ls[i].text;
      cues := cues + Shift(ls[i].cues, byteOffset);
      byteOffset := byteOffset + |ls[i].text|;
    }
    assert ls[..|ls|] == ls;
  }

  method FinalizeLines(sanitize: string -> string, lines: seq<PieceLine>) returns (finalized: seq<FinalLine>)
    ensures finalized == FinalizeAll(sanitize, lines)
  {
    hide Finalize;
    finalized := [];
    for i := 0 to |lines|
      invariant |finalized| == i && forall j :: 0 <= j < i ==> finalized[j] == Finalize(sanitize, lines[j])
    {
      var l := FinalizeLogicalLine(sanitize, lines[i]);
      finalized := finalized + [l];
    }
  }

  /** The lines that make up the value. */
  function KeptLines(sanitize: string -> string, pieces: seq<Piece>): seq<FinalLine> {
    DropBack(DropFront(FinalizeAll(sanitize, SplitAll(sanitize, pieces).lines)))
  }

  /** Some line of the split has an open seam. */
  ghost predicate HasOpenSeam(sanitize: string -> string, pieces: seq<Piece>) {
    var lines := SplitAll(sanitize, pieces).lines;
    exists k, i :: 0 <= k < |lines| && OpenSeam(sanitize, lines[k], i)
  }

  /**
    The whole line.  Every cue's inclusive byte range, read from the final multi-line value, is the
    cue's text; ranges are ordered and disjoint.  No two spaces are adjacent exactly when no line of
    the split has an open seam, and so whenever sanitising settles on the pieces given.
   */
  method BuildLineFromPieces(sanitize: string -> string, pieces: seq<Piece>) returns (value: Bytes, cues: seq<Cue>)
    ensures value == JoinText(KeptLines(sanitize, pieces)) && cues == JoinCues(KeptLines(sanitize, pieces))
    ensures InOrder(cues) && forall i :: 0 <= i < |cues| ==> Reads(value, cues[i])
    ensures NoDoubleBlank(value) <==> !HasOpenSeam(sanitize, pieces)
    ensures SettlesOn(sanitize, pieces) ==> NoDoubleBlank(value)
    ensures exists a, b :: HasShape(sanitize, pieces, value, a, b)
  {
    hide HasShape, SettlesOn, SplitAll, FinalizeAll, DropBack, DropFront, JoinText, JoinCues, NoDoubleBlank, HasOpenSeam;
    var lines := SplitPiecesByBreak(sanitize, pieces);
    var finalized := FinalizeLines(sanitize, lines);
    var kept := DropEmptyEnds(finalized);
    assert kept == KeptLines(sanitize, pieces);
    KeptLinesAreGood(sanitize, pieces);
    JoinReads(kept);
    SingleSpacesIff(sanitize, pieces);
    ghost var a, b := ValueShape(sanitize, pieces);
    if SettlesOn(sanitize, pieces) { SettledHasSingleSpaces(sanitize, pieces); }
    value, cues := JoinLines(kept);
  }

  /**
    `value` joins the lines from `a` to `b`: the lines outside are blank, those at the ends are not, and
    there is one newline for every break, less one for each line dropped.
   */
  ghost predicate HasShape(sanitize: string -> string, pieces: seq<Piece>, value: Bytes, a: nat, b: nat) {
    var all := FinalizeAll(sanitize, SplitAll(sanitize, pieces).lines);
    && |all| == CountBreaks(pieces) + 1 && a <= b <= |all| && value == JoinText(all[a..b])
    && (forall i :: 0 <= i < |all| && !(a <= i < b) ==> all[i].text == [] && all[i].cues == [])
    && (a < b ==> (all[a].text != [] || all[a].cues != []) && (all[b - 1].text != [] || all[b - 1].cues != []))
    && Newlines(value) == if a == b then 0 else CountBreaks(pieces) - a - (|all| - b)
  }

  lemma ValueShape(sanitize: string -> string, pieces: seq<Piece>) returns (a: nat, b: nat)
    ensures HasShape(sanitize, pieces, JoinText(KeptLines(sanitize, pieces)), a, b)
  {
    hide Finalize, SplitAll, Newlines, JoinText, FinalizeAll, ByStretch, DropBack, DropFront, Stretches;
    var lines := SplitAll(sanitize, pieces).lines;
    StretchCount(pieces);
    SplitCount(sanitize, pieces);
    a, b := DropIs(FinalizeAll(sanitize, lines));
    KeptNewlines(sanitize, lines, a, b);
  }

  lemma SplitCount(sanitize: string -> string, pieces: seq<Piece>)
    ensures |SplitAll(sanitize, pieces).lines| == |Stretches(pieces)|
  {
    SplitIsByStretch(sanitize, pieces);
  }

  lemma KeptNewlines(sanitize: string -> string, lines: seq<PieceLine>, a: nat, b: nat)
    requires a <= b <= |lines|
    ensures Newlines(JoinText(FinalizeAll(sanitize, lines)[a..b])) == if a == b then 0 else b - a - 1
  {
    hide Finalize, Newlines, JoinText;
    var kept := FinalizeAll(sanitize, lines)[a..b];
    forall i | 0 <= i < |kept| ensures Newlines(kept[i].text) == 0 { FinalizedNewlines(sanitize, lines[a + i]); }
    JoinNewlines(kept);
  }

  lemma DropIs(ls: seq<FinalLine>) returns (a: nat, b: nat)
    ensures a <= b <= |ls| && DropBack(DropFront(ls)) == ls[a..b]
    ensures forall i :: 0 <= i < |ls| && !(a <= i < b) ==> Blank(ls[i])
    ensures a < b ==> !Blank(ls[a]) && !Blank(ls[b - 1])
  {
    hide Blank, DropFront, DropBack;
    a := DropFrontIs(ls);
    var m := DropBackIs(ls[a..]);
    b := a + m;
    assert ls[a..][..m] == ls[a..b];
    assert forall i :: a <= i < |ls| ==> ls[a..][i - a] == ls[i];
  }

  lemma KeptLine(sanitize: string -> string, lines: seq<PieceLine>, l: FinalLine) returns (k: nat)
    requires l in DropBack(DropFront(FinalizeAll(sanitize, lines)))
    ensures k < |lines| && l == Finalize(sanitize, lines[k])
  {
    hide Finalize;
    var all := FinalizeAll(sanitize, lines);
    DropFrontMembers(all);
    DropBackMembers(DropFront(all));
    k :| 0 <= k < |all| && all[k] == l;
  }

  lemma KeptLinesAreGood(sanitize: string -> string, pieces: seq<Piece>)
    ensures forall i :: 0 <= i < |KeptLines(sanitize, pieces)| ==> GoodLine(KeptLines(sanitize, pieces)[i])
  {
    hide Finalize, FinalizeAll, GoodLine, SplitAll;
    var lines := SplitAll(sanitize, pieces).lines;
    var ls := KeptLines(sanitize, pieces);
    forall i | 0 <= i < |ls| ensures GoodLine(ls[i]) {
      assert ls[i] in ls;
      var k := KeptLine(sanitize, lines, ls[i]);
      FinalizeReads(sanitize, lines[k]);
    }
  }

  /** Exactly when the joined text has two adjacent spaces. */
  lemma SingleSpacesIff(sanitize: string -> string, pieces: seq<Piece>)
    ensures NoDoubleBlank(JoinText(KeptLines(sanitize, pieces))) <==> !HasOpenSeam(sanitize, pieces)
  {
    hide Finalize, SplitAll, OpenSeam, NoDoubleBlank, JoinText, DropBack, DropFront;
    var lines, ls := SplitAll(sanitize, pieces).lines, KeptLines(sanitize, pieces);
    JoinSingleSpaces(ls);
    forall i | 0 <= i < |ls| && !NoDoubleBlank(ls[i].text) ensures HasOpenSeam(sanitize, pieces) {
      assert ls[i] in ls;
      var k := KeptLine(sanitize, lines, ls[i]);
      SeamsDecide(sanitize, lines[k]);
    }
    forall k, i | 0 <= k < |lines| && OpenSeam(sanitize, lines[k], i)
      ensures exists j :: 0 <= j < |ls| && !NoDoubleBlank(ls[j].text)
    {
      SeamIsInside(sanitize, lines[k], i);
      SeamsDecide(sanitize, lines[k]);
      var j := SpacedLineIsKept(sanitize, lines, k);
    }
  }

  lemma SeamIsInside(sanitize: string -> string, line: PieceLine, i: int)
    requires OpenSeam(sanitize, line, i)
    ensures 0 <= i <= |line|
  {
  }

  lemma SpacedLineIsKept(sanitize: string -> string, lines: seq<PieceLine>, k: nat) returns (j: nat)
    requires k < |lines| && !NoDoubleBlank(Finalize(sanitize, lines[k]).text)
    ensures j < |DropBack(DropFront(FinalizeAll(sanitize, lines)))|
    ensures DropBack(DropFront(FinalizeAll(sanitize, lines)))[j] == Finalize(sanitize, lines[k])
  {
    hide Finalize, DropBack, DropFront;
    var all := FinalizeAll(sanitize, lines);
    var l := Finalize(sanitize, lines[k]);
    assert l == all[k] && l in all;
    assert l.text != [] && !Blank(l);
    DropFrontMembers(all);
    DropBackMembers(DropFront(all));
    var ls := DropBack(DropFront(all));
    j :| 0 <= j < |ls| && ls[j] == l;
  }

  /** Where sanitising settles on the pieces given, no two spaces are adjacent. */
  lemma SettledHasSingleSpaces(sanitize: string -> string, pieces: seq<Piece>)
    requires SettlesOn(sanitize, pieces)
    ensures NoDoubleBlank(JoinText(KeptLines(sanitize, pieces)))
  {
    hide Finalize, FinalizeAll, NoDoubleBlank, SettlesOn, SplitAll, Tidy, JoinText;
    var lines, ls := SplitAll(sanitize, pieces).lines, KeptLines(sanitize, pieces);
    SplitIsTidy(sanitize, pieces);
    forall i | 0 <= i < |ls| ensures NoDoubleBlank(ls[i].text) {
      assert ls[i] in ls;
      var k := KeptLine(sanitize, lines, ls[i]);
      TidyTextHasSingleSpaces(sanitize, lines[k]);
    }
    JoinSingleSpaces(ls);
  }

  /**
    Sanitising unescapes one level of entities at a time, and every piece is sanitised twice: a space
    escaped twice appears only after whitespace was collapsed across the pieces.
   */
  lemma EscapedSpaceIsDoubled(sanitize: string -> string)
    requires sanitize("a&amp;#32;") == "a&#32;" && sanitize("a&#32;") == "a " && sanitize(" b") == " b"
    ensures HasOpenSeam(sanitize, [Text(Span("a&amp;#32;", None)), Text(Span(" b", None))])
    ensures !NoDoubleBlank(JoinText(KeptLines(sanitize, [Text(Span("a&amp;#32;", None)), Text(Span(" b", None))])))
  {
    hide Normalize, RawLine, IsSpace;
    var a, b := Span("a&amp;#32;", None), Span(" b", None);
    var one, two := Span("a&#32;", None), Span(" b", None);
    EscapedNormalized(sanitize);
    NormalizedAsIs(sanitize, " b");
    TwoPieces(sanitize, a, b, one, two);
    OnePiece(sanitize, one);
    OnePiece(sanitize, two);
    var line := [one, two];
    assert SplitAll(sanitize, [Text(a), Text(b)]).lines[0] == line;
    assert line[..1] == [one] && line[1..] == [two];
    InkOf("a ", 0);
    InkOf(" b", 1);
    assert OpenSeam(sanitize, line, 1);
    SingleSpacesIff(sanitize, [Text(a), Text(b)]);
  }

  lemma InkOf(s: string, i: nat)
    requires i < |s| && 'a' <= s[i] <= 'z'
    ensures HasInk(s)
  {
    assert !IsSpace(s[i]);
  }

  lemma EscapedNormalized(sanitize: string -> string)
    requires sanitize("a&amp;#32;") == "a&#32;" && sanitize("a&#32;") == "a "
    ensures Normalize(sanitize, "a&amp;#32;") == "a&#32;" && Normalize(sanitize, "a&#32;") == "a "
  {
    CollapseFixes("a&#32;", false);
    CollapseFixes("a ", false);
  }

  lemma NormalizedAsIs(sanitize: string -> string, s: string)
    requires sanitize(s) == s && Collapsed(s)
    ensures Normalize(sanitize, s) == s
  {
    CollapseFixes(s, false);
  }

  lemma OnePiece(sanitize: string -> string, p: Span)
    ensures RawLine(sanitize, [p]) == Normalize(sanitize, p.raw)
  {
    hide Normalize;
    assert [p][..0] == [] && RawLine(sanitize, []) == "";
  }

  /** Two pieces of text without a break, the first with no space at its ends. */
  lemma TwoPieces(sanitize: string -> string, a: Span, b: Span, one: Span, two: Span)
    requires one == Span(Normalize(sanitize, a.raw), a.cue) && two == Span(Normalize(sanitize, b.raw), b.cue)
    requires one.raw != "" && two.raw != "" && one.raw[0] != ' ' && one.raw[|one.raw| - 1] != ' '
    ensures SplitAll(sanitize, [Text(a), Text(b)]).lines == [[one, two]]
  {
    hide Normalize;
    var none, x, y := Split([[]], true), Text(a), Text(b);
    assert SplitStep(sanitize, none, x) == Split([[one]], false) by {
      assert [] + [one] == [one];
      assert none.lines[0 := [one]] == [[one]];
    }
    assert [x][..0] == [] && [x, y][..1] == [x];
    assert SplitAll(sanitize, []) == none;
    assert SplitAll(sanitize, [x]) == SplitStep(sanitize, none, x);
    assert [one] + [two] == [one, two];
    assert [[one]][0 := [one, two]] == [[one, two]];
  }

  /**
    The same input with both pieces timed: the first cue takes in the whole line and the second one is
    lost, because the bytes of the escaped space are counted and the space itself is written.
   */
  lemma EscapedSpaceMovesCues(sanitize: string -> string, t: Timing, u: Timing)
    requires sanitize("a&amp;#32;") == "a&#32;" && sanitize("a&#32;") == "a " && sanitize("b") == "b"
    ensures var line := [Span("a&#32;", Some(t)), Span("b", Some(u))];
            && SplitAll(sanitize, [Text(Span("a&amp;#32;", Some(t))), Text(Span("b", Some(u)))]).lines == [line]
            && Finalize(sanitize, line).text == Encode("a b")
            && Finalize(sanitize, line).cues == [Cue(t.start, t.end, Encode("a b"), 0, 2, t.agentId)]
            && !BoundsAgree(sanitize, line)
  {
    hide Normalize, Encode, RawLine, ByteLength;
    var one, two := Span("a&#32;", Some(t)), Span("b", Some(u));
    var line := [one, two];
    EscapedNormalized(sanitize);
    NormalizedAsIs(sanitize, "b");
    TwoPieces(sanitize, Span("a&amp;#32;", Some(t)), Span("b", Some(u)), one, two);
    OnePiece(sanitize, one);
    OnePiece(sanitize, two);
    RawLineConcat(sanitize, [one], [two]);
    assert [one] + [two] == line && "a " + "b" == "a b";
    Untrimmed("a b");
    AsciiLength("a&#32;");
    AsciiLength("a ");
    AsciiLength("b");
    AsciiLength("a b");
    FirstBound(sanitize, line);
    NextBound(sanitize, line, 0);
    NextBound(sanitize, line, 1);
    assert line[..1] == [one];
    CuesAreOfPieces(sanitize, line);
    hide Finalize;
    var whole := Cue(t.start, t.end, Encode("a b"), 0, 2, t.agentId);
    assert CueOf(sanitize, line, 0) == Some(whole) by { assert Encode("a b")[0..3] == Encode("a b"); }
    assert CueOf(sanitize, line, 1) == None;
    assert CuesUpTo(sanitize, line, 1) == [whole];
    assert InSight(sanitize, line, Counted(line, 1)) == 3 && InSight(sanitize, line, OwnStart(sanitize, line, 1)) == 2;
  }

  lemma Untrimmed(s: string)
    requires s != "" && !IsSpace(s[0]) && !IsSpace(s[|s| - 1])
    ensures LeftTrimBytes(s) == 0 && TrimmedEnd(s) == |Encode(s)| && TrimSpace(s) == s
  {
    hide IsSpace, Encode;
  }

  /** Of plain ASCII every character is a byte. */
  lemma {:induction false} AsciiLength(s: string)
    requires forall i :: 0 <= i < |s| ==> s[i] < 128 as char
    ensures |Encode(s)| == |s|
  {
    if s != "" { AsciiLength(s[..|s| - 1]); }
  }
}
