/** Lyricsfile lines with their voices announced as agents. */
module LyricsfileLines {
  import opened Prelude
  import opened Lyrics
  import opened LyricsfileWords
  import opened LyricsfileVoices

  function Digit(d: nat): char
    requires d < 10
  { "0123456789"[d] }

  function Decimal(n: nat): string {
    if n < 10 then [Digit(n)] else Decimal(n / 10) + [Digit(n % 10)]
  }

  function VoiceId(v: nat): string { "voice-" + Decimal(v) }

  lemma {:induction false} DecimalInjective(m: nat, n: nat)
    requires Decimal(m) == Decimal(n)
    ensures m == n
  {
    var a, b := Decimal(m), Decimal(n);
    assert a[|a| - 1] == Digit(m % 10) && b[|b| - 1] == Digit(n % 10);
    if m >= 10 && n >= 10 {
      assert a[..|a| - 1] == Decimal(m / 10) && b[..|b| - 1] == Decimal(n / 10);
      DecimalInjective(m / 10, n / 10);
    }
  }

  /** Different voices are announced under different agent ids. */
  lemma VoiceIdInjective(u: nat, v: nat)
    requires VoiceId(u) == VoiceId(v)
    ensures u == v
  {
    assert Decimal(u) == VoiceId(u)[6..] && Decimal(v) == VoiceId(v)[6..];
    DecimalInjective(u, v);
  }

  ghost predicate AnyWords(es: seq<Entry>) { exists i :: 0 <= i < |es| && es[i].words != [] }

  lemma AnyWordsStep(es: seq<Entry>, i: nat)
    requires i < |es|
    ensures AnyWords(es[..i + 1]) <==> AnyWords(es[..i]) || es[i].words != []
  {
    var front, all := es[..i], es[..i + 1];
    if AnyWords(front) {
      var j :| 0 <= j < |front| && front[j].words != [];
      assert all[j].words != [];
    }
    if es[i].words != [] { assert all[i].words != []; }
    if AnyWords(all) {
      var j :| 0 <= j < |all| && all[j].words != [];
      assert j < i ==> front[j].words != [];
    }
  }

  /** Agents are announced when some line has cues and more than one voice is used. */
  ghost predicate Attributed(es: seq<Entry>) {
    AnyWords(es) && exists v :: v in Used(Voices(es)) && v > 0
  }

  ghost predicate IsLine(es: seq<Entry>, sanitize: Bytes -> Bytes, i: nat, agentId: string, line: Line)
    requires i < |es|
  {
    line.start == Some(es[i].start) && line.end == EndOf(es, i) &&
    IsLineOf(es[i], sanitize, agentId, line.cues, line.value)
  }

  method FreeVoice(active: map<nat, int>) returns (v: nat)
    ensures v == FreeFrom(active, 0)
  {
    v := 0;
    while v in active
      invariant FreeFrom(active, v) == FreeFrom(active, 0)
      decreases |AtLeast(active, v)|
    {
      assert v in AtLeast(active, v) && v !in AtLeast(active, v + 1);
      SubsetSize(AtLeast(active, v + 1), AtLeast(active, v));
      v := v + 1;
    }
  }

  /** Every line carries its own voice. */
  ghost predicate VoicedLines(es: seq<Entry>, sanitize: Bytes -> Bytes, voices: seq<nat>, lines: seq<Line>)
    requires |voices| == |es|
  {
    |lines| <= |es| && forall i :: 0 <= i < |lines| ==> IsLine(es, sanitize, i, VoiceId(voices[i]), lines[i])
  }

  /** The greatest voice seen, -1 before any. */
  ghost predicate IsTop(voices: seq<nat>, top: int) {
    if voices == [] then top == -1
    else (exists j :: 0 <= j < |voices| && voices[j] == top) && forall j :: 0 <= j < |voices| ==> voices[j] <= top
  }

  lemma TopStep(voices: seq<nat>, top: int, v: nat)
    requires IsTop(voices, top)
    ensures IsTop(voices + [v], if v > top then v else top)
  {
    var vs := voices + [v];
    assert vs[|voices|] == v;
    if voices != [] && v <= top {
      var j :| 0 <= j < |voices| && voices[j] == top;
      assert vs[j] == top;
    }
  }

  lemma AttributedIff(es: seq<Entry>, top: int)
    requires IsTop(Voices(es), top)
    ensures Attributed(es) <==> top > 0 && AnyWords(es)
  {
    var voices := Voices(es);
    if top > 0 {
      var j :| 0 <= j < |voices| && voices[j] == top;
      assert voices[j] in Used(voices);
    } else {
      forall v | v in Used(voices) ensures v <= 0 {
        var j :| 0 <= j < |voices| && voices[j] == v;
      }
    }
  }

  lemma NothingVoiced(es: seq<Entry>, sanitize: Bytes -> Bytes)
    ensures IsTop([], -1) && Allocate(es, 0).active == map[]
    ensures VoicedLines(es, sanitize, Voices(es), []) && !AnyWords(es[..0])
  {
  }

  /** The main loop. */
  method VoiceLines(es: seq<Entry>, sanitize: Bytes -> Bytes) returns (lines: seq<Line>, maxVoice: int, anyCues: bool)
    ensures |lines| == |es| && VoicedLines(es, sanitize, Voices(es), lines)
    ensures IsTop(Voices(es), maxVoice)
    ensures anyCues <==> AnyWords(es)
  {
    hide IsTop, IsLineOf, VoicedLines, AnyWords, Allocate, FreeFrom, BusyUntil, VoiceId, Purge, EndOf;
    NothingVoiced(es, sanitize);
    lines, maxVoice, anyCues := [], -1, false;
    var active: map<nat, int> := map[];
    ghost var voices := Voices(es);
    assert voices[..0] == [];
    for i := 0 to |es|
      invariant |lines| == i && active == Allocate(es, i).active
      invariant VoicedLines(es, sanitize, voices, lines)
      invariant IsTop(voices[..i], maxVoice)
      invariant anyCues <==> AnyWords(es[..i])
    {
      VoiceAt(es, i);
      ActiveStep(es, i);
      AnyWordsStep(es, i);
      active := Purge(active, es[i].start);
      var v := FreeVoice(active);
      TopStep(voices[..i], maxVoice, v);
      assert voices[..i] + [v] == voices[..i + 1];
      if v > maxVoice { maxVoice := v; }
      var cues, value := WordsToLineCues(es[i], sanitize, VoiceId(v));
      NoCuesWithoutWords(es[i], sanitize, VoiceId(v), cues, value);
      if |cues| > 0 { anyCues := true; }
      var line := Line(Some(es[i].start), EndOf(es, i), value, cues);
      AppendVoiced(es, sanitize, voices, lines, line);
      lines := lines + [line];
      active := active[v := BusyUntil(es, i)];
    }
    assert voices[..|es|] == voices && es[..|es|] == es;
  }

  lemma AppendVoiced(es: seq<Entry>, sanitize: Bytes -> Bytes, voices: seq<nat>, lines: seq<Line>, line: Line)
    requires |voices| == |es| && VoicedLines(es, sanitize, voices, lines) && |lines| < |es|
    requires IsLine(es, sanitize, |lines|, VoiceId(voices[|lines|]), line)
    ensures VoicedLines(es, sanitize, voices, lines + [line])
  {
  }

  lemma NoCuesWithoutWords(e: Entry, sanitize: Bytes -> Bytes, agentId: string, cues: seq<Cue>, value: Bytes)
    requires IsLineOf(e, sanitize, agentId, cues, value)
    ensures |cues| > 0 <==> e.words != []
  {
  }

  method StripAgents(es: seq<Entry>, sanitize: Bytes -> Bytes, full: seq<Line>) returns (lines: seq<Line>)
    requires |full| == |es| && VoicedLines(es, sanitize, Voices(es), full)
    ensures |lines| == |es| && forall i :: 0 <= i < |es| ==> IsLine(es, sanitize, i, "", lines[i])
  {
    lines := full;
    for i := 0 to |lines|
      invariant |lines| == |es|
      invariant forall j :: 0 <= j < i ==> IsLine(es, sanitize, j, "", lines[j])
      invariant forall j :: i <= j < |es| ==> lines[j] == full[j]
    {
      StrippedLine(es, sanitize, i, VoiceId(Voices(es)[i]), lines[i]);
      lines := lines[i := lines[i].(cues := Stripped(lines[i].cues))];
    }
  }

  lemma StrippedLine(es: seq<Entry>, sanitize: Bytes -> Bytes, i: nat, agentId: string, line: Line)
    requires i < |es| && IsLine(es, sanitize, i, agentId, line)
    ensures IsLine(es, sanitize, i, "", line.(cues := Stripped(line.cues)))
  {
  }

  /** Voice 0 is the main agent; the others are further voices. */
  function VoiceAgent(v: nat): Agent { Agent(VoiceId(v), if v == 0 then "main" else "voice") }

  lemma AgentIs(v: nat)
    ensures VoiceAgent(v) == Agent("voice-" + Decimal(v), if v == 0 then "main" else "voice")
  {
  }

  lemma FirstVoice()
    ensures Decimal(0) == "0" && "voice-" + Decimal(0) == "voice-0"
  {
  }

  /** Explicit end first, then the last word's, then the next entry's start. */
  lemma EndIs(es: seq<Entry>, i: nat)
    requires i < |es|
    ensures var ws := es[i].words;
            EndOf(es, i) == if es[i].end.Some? then es[i].end
                            else if ws != [] && ws[|ws| - 1].end.Some? then ws[|ws| - 1].end
                            else if i + 1 < |es| then Some(es[i + 1].start) else None
  {
  }

  /** Lines with their resolved ends and voices; agents 0..top when attribution is worth announcing. */
  method BuildLines(es: seq<Entry>, sanitize: Bytes -> Bytes) returns (lines: seq<Line>, agents: seq<Agent>)
    ensures |lines| == |es|
    ensures forall i :: 0 <= i < |es| ==>
              IsLine(es, sanitize, i, if Attributed(es) then VoiceId(Voices(es)[i]) else "", lines[i])
    ensures !Attributed(es) ==> agents == []
    ensures Attributed(es) ==> agents != [] && IsTop(Voices(es), |agents| - 1)
    ensures forall v :: 0 <= v < |agents| ==> agents[v] == VoiceAgent(v)
    ensures agents != [] ==> agents[0] == Agent("voice-0", "main")
    ensures forall v :: 0 < v < |agents| ==> agents[v].role == "voice" && agents[v].id == "voice-" + Decimal(v)
    ensures forall i :: 0 <= i < |es| ==> lines[i].start == Some(es[i].start)
    ensures forall i :: 0 <= i < |es| ==>
              var ws := es[i].words;
              lines[i].end == if es[i].end.Some? then es[i].end
                              else if ws != [] && ws[|ws| - 1].end.Some? then ws[|ws| - 1].end
                              else if i + 1 < |es| then Some(es[i + 1].start) else None
  {
    hide VoiceId, IsLineOf, Allocate, EndOf;
    FirstVoice();
    forall v: nat ensures VoiceAgent(v) == Agent("voice-" + Decimal(v), if v == 0 then "main" else "voice") { AgentIs(v); }
    forall i | 0 <= i < |es|
      ensures EndOf(es, i) == if es[i].end.Some? then es[i].end
                              else if es[i].words != [] && es[i].words[|es[i].words| - 1].end.Some?
                              then es[i].words[|es[i].words| - 1].end
                              else if i + 1 < |es| then Some(es[i + 1].start) else None
    {
      EndIs(es, i);
    }
    var maxVoice, anyCues;
    agents := [];
    lines, maxVoice, anyCues := VoiceLines(es, sanitize);
    AttributedIff(es, maxVoice);
    if maxVoice <= 0 || !anyCues {
      lines := StripAgents(es, sanitize, lines);
    } else {
      for v := 0 to maxVoice + 1
        invariant |agents| == v && forall u :: 0 <= u < v ==> agents[u] == VoiceAgent(u)
      {
        agents := agents + [VoiceAgent(v)];
      }
    }
  }

  function Stripped(cues: seq<Cue>): (cs: seq<Cue>)
    ensures |cs| == |cues| && forall i :: 0 <= i < |cs| ==> cs[i] == cues[i].(agentId := "")
  {
    seq(|cues|, i requires 0 <= i < |cues| => cues[i].(agentId := ""))
  }
}
