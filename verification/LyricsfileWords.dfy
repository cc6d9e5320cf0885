/** Lyricsfile words: the line value they spell and the byte range each of them has in it. */
module LyricsfileWords {
  import opened Prelude
  import opened Lyrics

  datatype Word = Word(text: Bytes, start: int, end: Option<int>)

  datatype Entry = Entry(text: Bytes, start: int, end: Option<int>, words: seq<Word>)

  /** The line value: the words' texts, one after the other. */
  function Joined(ws: seq<Word>): Bytes {
    if ws == [] then [] else Joined(ws[..|ws| - 1]) + ws[|ws| - 1].text
  }

  /** A word's own end, else the next word's start. */
  function WordEnd(ws: seq<Word>, i: nat): Option<int>
    requires i < |ws|
  {
    if ws[i].end.Some? then ws[i].end else if i + 1 < |ws| then Some(ws[i + 1].start) else None
  }

  /** The cue of word `i`: where its text lies in the joined value, an empty text counting one byte. */
  function WordCue(ws: seq<Word>, i: nat, agentId: string): Cue
    requires i < |ws|
  {
    var from := |Joined(ws[..i])|;
    Cue(Some(ws[i].start), WordEnd(ws, i), ws[i].text,
        from, if ws[i].text == [] then from else from + |ws[i].text| - 1, agentId)
  }

  ghost predicate IsLineOf(e: Entry, sanitize: Bytes -> Bytes, agentId: string, cues: seq<Cue>, value: Bytes) {
    if e.words == [] then cues == [] && value == sanitize(e.text)
    else
      && value == Joined(e.words) && |cues| == |e.words|
      && forall i :: 0 <= i < |cues| ==> cues[i] == WordCue(e.words, i, agentId)
  }

  lemma JoinedStep(ws: seq<Word>, i: nat)
    requires i < |ws|
    ensures Joined(ws[..i + 1]) == Joined(ws[..i]) + ws[i].text
  {
    assert ws[..i + 1][..i] == ws[..i];
  }

  method JoinWords(ws: seq<Word>) returns (value: Bytes)
    ensures value == Joined(ws)
  {
    value := [];
    for i := 0 to |ws|
      invariant value == Joined(ws[..i])
    {
      JoinedStep(ws, i);
      value := value + ws[i].text;
    }
    assert ws[..|ws|] == ws;
  }

  lemma NothingJoined(ws: seq<Word>)
    ensures Joined(ws[..0]) == []
  {
  }

  /** The cue has the word's start and text, and its own end or else the next word's start. */
  predicate IsWord(ws: seq<Word>, i: nat, agentId: string, c: Cue) {
    i < |ws| && c.start == Some(ws[i].start) && c.value == ws[i].text && c.agentId == agentId &&
    c.end == if ws[i].end.Some? then ws[i].end else if i + 1 < |ws| then Some(ws[i + 1].start) else None
  }

  /** The cues with their own ends only. */
  method CueWords(ws: seq<Word>, agentId: string) returns (cues: seq<Cue>)
    ensures |cues| == |ws| && forall j :: 0 <= j < |ws| ==> cues[j] == WordCue(ws, j, agentId).(end := ws[j].end)
  {
    hide Joined;
    NothingJoined(ws);
    cues := [];
    var cursor := 0;
    for i := 0 to |ws|
      invariant |cues| == i && cursor == |Joined(ws[..i])|
      invariant forall j :: 0 <= j < i ==> cues[j] == WordCue(ws, j, agentId).(end := ws[j].end)
    {
      JoinedStep(ws, i);
      var from := cursor;
      var to := from;
      if |ws[i].text| > 0 {
        to := from + |ws[i].text| - 1;
        cursor := to + 1;
      }
      var cue := Cue(Some(ws[i].start), ws[i].end, ws[i].text, from, to, agentId);
      assert cue == WordCue(ws, i, agentId).(end := ws[i].end);
      cues := cues + [cue];
    }
  }

  method WordsToLineCues(e: Entry, sanitize: Bytes -> Bytes, agentId: string) returns (cues: seq<Cue>, value: Bytes)
    ensures IsLineOf(e, sanitize, agentId, cues, value)
    ensures forall i :: 0 <= i < |cues| ==> IsWord(e.words, i, agentId, cues[i])
  {
    var ws := e.words;
    if ws == [] {
      return [], sanitize(e.text);
    }
    value := JoinWords(ws);
    cues := CueWords(ws, agentId);
    for i := 0 to |cues| - 1
      invariant |cues| == |ws|
      invariant forall j :: 0 <= j < |ws| ==>
                  cues[j] == WordCue(ws, j, agentId).(end := if j < i then WordEnd(ws, j) else ws[j].end)
    {
      if cues[i].end.None? {
        cues := cues[i := cues[i].(end := cues[i + 1].start)];
      }
    }
  }

  lemma {:induction false} JoinedPrefix(ws: seq<Word>, i: nat)
    requires i < |ws|
    ensures Joined(ws[..i]) + ws[i].text <= Joined(ws)
  {
    if i == |ws| - 1 {
      assert ws[..i] == ws[..|ws| - 1];
    } else {
      JoinedPrefix(ws[..|ws| - 1], i);
      assert ws[..|ws| - 1][..i] == ws[..i];
    }
  }

  lemma {:induction false} JoinedMonotone(ws: seq<Word>, i: nat, j: nat)
    requires i <= j <= |ws|
    ensures |Joined(ws[..i])| <= |Joined(ws[..j])|
    ensures |Joined(ws[..i])| == |Joined(ws[..j])| <==> forall k :: i <= k < j ==> ws[k].text == []
    decreases j - i
  {
    if i < j {
      JoinedMonotone(ws, i, j - 1);
      assert ws[..j][..j - 1] == ws[..j - 1];
    }
  }

  /** A non-empty word's range reads back its own text. */
  lemma WordCueReads(ws: seq<Word>, agentId: string, i: nat)
    requires i < |ws| && ws[i].text != []
    ensures Reads(Joined(ws), WordCue(ws, i, agentId))
  {
    JoinedPrefix(ws, i);
    var prefix := Joined(ws[..i]) + ws[i].text;
    assert Joined(ws)[..|prefix|] == prefix;
    assert Joined(ws)[|Joined(ws[..i])|..|prefix|] == prefix[|Joined(ws[..i])|..] == ws[i].text;
  }

  /** Ranges of non-empty words end before later ones begin. */
  lemma WordCuesInOrder(ws: seq<Word>, agentId: string, i: nat, j: nat)
    requires i < j < |ws| && ws[i].text != []
    ensures WordCue(ws, i, agentId).byteEnd < WordCue(ws, j, agentId).byteStart
  {
    JoinedStep(ws, i);
    JoinedMonotone(ws, i + 1, j);
  }

  /**
    Byte offsets are meant always to land inside the line value.  They do exactly when the word or
    a later one has text: an empty word at the end of a line points past its last byte.
   */
  lemma CueInsideIff(ws: seq<Word>, agentId: string, i: nat)
    requires i < |ws|
    ensures WordCue(ws, i, agentId).byteEnd < |Joined(ws)| <==> exists k :: i <= k < |ws| && ws[k].text != []
  {
    JoinedMonotone(ws, i, |ws|);
    assert ws[..|ws|] == ws;
    JoinedPrefix(ws, i);
  }
}
