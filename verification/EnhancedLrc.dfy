/**
  Enhanced LRC: inline word markers, their byte ranges in the stripped line, and lines repeated at
  several timestamps.
 */
module EnhancedLrc {
  import opened Prelude
  import opened Lyrics
  import opened LyricsText

  /** An inline marker <mm:ss.xx>: its place in the text and its time, if the time could be read. */
  datatype Marker = Marker(from: nat, to: nat, time: Option<int>)

  /** What the regular expression reports: matches inside the text, in order, not overlapping. */
  predicate IsMatchList(text: string, ms: seq<Marker>) {
    && (forall i :: 0 <= i < |ms| ==> ms[i].from <= ms[i].to <= |text|)
    && (forall i, j :: 0 <= i < j < |ms| ==> ms[i].to <= ms[j].from)
  }

  /** The text from a marker to the next one, or to the end. */
  function WordOf(text: string, ms: seq<Marker>, i: nat): string
    requires IsMatchList(text, ms) && i < |ms|
  {
    text[ms[i].to..if i + 1 < |ms| then ms[i + 1].from else |text|]
  }

  datatype Scan = Scan(raw: string, segs: seq<Segment>, trailing: Option<int>)

  /** One marker: unreadable times drop their text, an empty last word marks the end. */
  function ScanStep(text: string, ms: seq<Marker>, i: nat, st: Scan): Scan
    requires IsMatchList(text, ms) && i < |ms|
  {
    var word := WordOf(text, ms, i);
    if ms[i].time.None? then st
    else if word == "" then if i == |ms| - 1 then st.(trailing := ms[i].time) else st
    else
      Scan(st.raw + word,
           st.segs + [Segment(|Encode(st.raw)|, |Encode(st.raw + word)|, ms[i].time, None, "")],
           st.trailing)
  }

  function ScanAll(text: string, ms: seq<Marker>, n: nat): Scan
    requires IsMatchList(text, ms) && n <= |ms|
  {
    if n == 0 then Scan("", [], None) else ScanStep(text, ms, n - 1, ScanAll(text, ms, n - 1))
  }

  lemma AppendConsecutive(segs: seq<Segment>, from: nat, to: nat, time: Option<int>)
    requires Consecutive(segs) && from <= to && forall i :: 0 <= i < |segs| ==> segs[i].to <= from
    ensures var all := segs + [Segment(from, to, time, None, "")];
            Consecutive(all) && forall i :: 0 <= i < |all| ==> all[i].to <= to
  {
  }

  lemma {:induction false} ScanIsConsecutive(text: string, ms: seq<Marker>, n: nat)
    requires IsMatchList(text, ms) && n <= |ms|
    ensures var st := ScanAll(text, ms, n);
            Consecutive(st.segs) && (forall i :: 0 <= i < |st.segs| ==> st.segs[i].to <= |Encode(st.raw)|)
  {
    hide Encode;
    hide WordOf;
    if n > 0 {
      ScanIsConsecutive(text, ms, n - 1);
      var st := ScanAll(text, ms, n - 1);
      EncodeConcat(st.raw, WordOf(text, ms, n - 1));
      AppendConsecutive(st.segs, |Encode(st.raw)|, |Encode(st.raw + WordOf(text, ms, n - 1))|, ms[n - 1].time);
    }
  }

  /** The text with all markers taken out. */
  function Strip(text: string, ms: seq<Marker>, n: nat): string
    requires IsMatchList(text, ms) && n <= |ms|
  {
    if n == 0 then (if ms == [] then text else text[..ms[0].from])
    else Strip(text, ms, n - 1) + WordOf(text, ms, n - 1)
  }

  /** The line up to marker `n`, put together again from markers and words. */
  function Whole(text: string, ms: seq<Marker>, n: nat): string
    requires IsMatchList(text, ms) && n <= |ms|
  {
    if n == 0 then (if ms == [] then text else text[..ms[0].from])
    else Whole(text, ms, n - 1) + text[ms[n - 1].from..ms[n - 1].to] + WordOf(text, ms, n - 1)
  }

  /** The words are all there is between the markers. */
  lemma {:induction false} WordsAreBetween(text: string, ms: seq<Marker>, n: nat)
    requires IsMatchList(text, ms) && n <= |ms|
    ensures Whole(text, ms, n) == text[..if n < |ms| then ms[n].from else |text|]
  {
    if n > 0 {
      WordsAreBetween(text, ms, n - 1);
      var a, b, c := ms[n - 1].from, ms[n - 1].to, if n < |ms| then ms[n].from else |text|;
      assert text[..c] == text[..a] + text[a..b] + text[b..c];
    } else if ms == [] {
      assert text[..|text|] == text;
    }
  }

  function SetLastEnd(cues: seq<Cue>, end: Option<int>): (cs: seq<Cue>)
    ensures |cs| == |cues|
    ensures forall i :: 0 <= i < |cs| ==>
              cs[i] == if i == |cs| - 1 && end.Some? then cues[i].(end := end) else cues[i]
  {
    if end.None? || cues == [] then cues
    else cues[|cues| - 1 := cues[|cues| - 1].(end := end)]
  }

  method StripMarkers(text: string, ms: seq<Marker>) returns (out: string)
    requires IsMatchList(text, ms)
    ensures out == Strip(text, ms, |ms|)
  {
    out := if ms == [] then text else text[..ms[0].from];
    for i := 0 to |ms|
      invariant out == Strip(text, ms, i)
    {
      out := out + WordOf(text, ms, i);
    }
  }

  method ScanMarkers(text: string, ms: seq<Marker>) returns (st: Scan)
    requires IsMatchList(text, ms)
    ensures st == ScanAll(text, ms, |ms|)
  {
    hide Encode;
    hide WordOf;
    st := Scan("", [], None);
    for i := 0 to |ms|
      invariant st == ScanAll(text, ms, i)
    {
      if ms[i].time.None? { continue; }
      var word := WordOf(text, ms, i);
      if word == "" {
        if i == |ms| - 1 { st := st.(trailing := ms[i].time); }
        continue;
      }
      var rawStart := |Encode(st.raw)|;
      var raw := st.raw + word;
      st := Scan(raw, st.segs + [Segment(rawStart, |Encode(raw)|, ms[i].time, None, "")], st.trailing);
    }
  }

  method ClipSegments(raw: Bytes, left: nat, end: nat, segs: seq<Segment>) returns (cues: seq<Cue>)
    requires end <= |raw|
    ensures cues == ClipAll(raw, left, end, segs)
  {
    cues := [];
    for i := 0 to |segs|
      invariant cues == ClipAll(raw, left, end, segs[..i])
    {
      assert segs[..i + 1][..i] == segs[..i];
      if Survives(left, end, segs[i]) {
        cues := cues + [ClipCue(raw, left, end, segs[i])];
      }
    }
    assert segs[..|segs|] == segs;
  }

  /** The words that survive, as the caller may predict them: readable times with visible text. */
  function LineCues(text: string, ms: seq<Marker>): seq<Cue>
    requires IsMatchList(text, ms)
  {
    var st := ScanAll(text, ms, |ms|);
    TrimmedSlice(st.raw);
    SetLastEnd(ClipAll(Encode(st.raw), LeftTrimBytes(st.raw), TrimmedEnd(st.raw), st.segs), st.trailing)
  }

  /**
    Word cues of one line.  Each cue's byte range, read from the returned trimmed value, is its text,
    and ranges are ordered and disjoint; the last cue ends at a trailing marker.
   */
  method ParseEnhancedLine(text: string, ms: seq<Marker>) returns (value: Bytes, cues: seq<Cue>)
    requires IsMatchList(text, ms)
    ensures cues == LineCues(text, ms)
    ensures InOrder(cues) && forall i :: 0 <= i < |cues| ==> Reads(value, cues[i])
    ensures var st := ScanAll(text, ms, |ms|);
            value == Encode(TrimSpace(if st.segs == [] then Strip(text, ms, |ms|) else st.raw))
  {
    if ms == [] {
      NoMarkers(text, ms);
      return Encode(TrimSpace(text)), [];
    }
    var st := ScanMarkers(text, ms);
    if st.segs == [] {
      NoSegments(text, ms);
      var stripped := StripMarkers(text, ms);
      return Encode(TrimSpace(stripped)), [];
    }
    TrimmedSlice(st.raw);
    cues := ClipSegments(Encode(st.raw), LeftTrimBytes(st.raw), TrimmedEnd(st.raw), st.segs);
    CuesRead(text, ms);
    if st.trailing.Some? && |cues| > 0 {
      cues := cues[|cues| - 1 := cues[|cues| - 1].(end := st.trailing)];
    }
    value := Encode(TrimSpace(st.raw));
  }

  lemma NoMarkers(text: string, ms: seq<Marker>)
    requires IsMatchList(text, ms) && ms == []
    ensures LineCues(text, ms) == [] && Strip(text, ms, |ms|) == text && ScanAll(text, ms, |ms|).segs == []
  {
  }

  lemma NoSegments(text: string, ms: seq<Marker>)
    requires IsMatchList(text, ms) && ScanAll(text, ms, |ms|).segs == []
    ensures LineCues(text, ms) == []
  {
  }

  lemma CuesRead(text: string, ms: seq<Marker>)
    requires IsMatchList(text, ms)
    ensures var st := ScanAll(text, ms, |ms|);
            var cues := LineCues(text, ms);
            InOrder(cues) && forall i :: 0 <= i < |cues| ==> Reads(Encode(TrimSpace(st.raw)), cues[i])
  {
    ScanIsConsecutive(text, ms, |ms|);
    var st := ScanAll(text, ms, |ms|);
    hide ScanAll;
    TrimmedSlice(st.raw);
    ClipAllReads(Encode(st.raw), LeftTrimBytes(st.raw), TrimmedEnd(st.raw), st.segs);
  }

  /** The segments cover the collected text. */
  lemma {:induction false} ScanTiles(text: string, ms: seq<Marker>, n: nat)
    requires IsMatchList(text, ms) && n <= |ms|
    ensures Tiles(ScanAll(text, ms, n).segs, |Encode(ScanAll(text, ms, n).raw)|)
  {
    hide Encode, WordOf;
    if n > 0 {
      ScanTiles(text, ms, n - 1);
      var st, st' := ScanAll(text, ms, n - 1), ScanAll(text, ms, n);
      EncodeConcat(st.raw, WordOf(text, ms, n - 1));
      if st'.segs != st.segs {
        assert st'.segs[..|st.segs|] == st.segs;
      }
    } else {
      EncodeEmpty("");
    }
  }

  /** The cues' texts, joined, are the whole trimmed text that was collected. */
  lemma CuesTileTheLine(text: string, ms: seq<Marker>)
    requires IsMatchList(text, ms)
    ensures JoinValues(LineCues(text, ms)) == Encode(TrimSpace(ScanAll(text, ms, |ms|).raw))
  {
    ScanTiles(text, ms, |ms|);
    var st := ScanAll(text, ms, |ms|);
    hide ScanAll, Encode;
    TrimmedSlice(st.raw);
    var raw, left, end := Encode(st.raw), LeftTrimBytes(st.raw), TrimmedEnd(st.raw);
    ClipTiles(raw, left, end, st.segs, |raw|);
    SameValues(ClipAll(raw, left, end, st.segs), SetLastEnd(ClipAll(raw, left, end, st.segs), st.trailing));
  }

  lemma {:induction false} SameValues(a: seq<Cue>, b: seq<Cue>)
    requires |a| == |b| && forall i :: 0 <= i < |a| ==> a[i].value == b[i].value
    ensures JoinValues(a) == JoinValues(b)
  {
    if a != [] { SameValues(a[..|a| - 1], b[..|b| - 1]); }
  }

  /** Only a readable last marker with nothing after it is a trailing one. */
  lemma {:induction false} TrailingIs(text: string, ms: seq<Marker>, n: nat)
    requires IsMatchList(text, ms) && n <= |ms|
    ensures ScanAll(text, ms, n).trailing ==
            if n == |ms| > 0 && WordOf(text, ms, n - 1) == "" then ms[n - 1].time else None
  {
    hide Encode, WordOf;
    if n > 0 { TrailingIs(text, ms, n - 1); }
  }

  lemma {:induction false} SegmentsAreOpen(text: string, ms: seq<Marker>, n: nat)
    requires IsMatchList(text, ms) && n <= |ms|
    ensures forall k :: 0 <= k < |ScanAll(text, ms, n).segs| ==> ScanAll(text, ms, n).segs[k].end.None?
  {
    hide Encode, WordOf;
    if n > 0 { SegmentsAreOpen(text, ms, n - 1); }
  }

  /** The last cue ends at the time of a marker at the very end of the line; no other cue has an end. */
  lemma CueEndsAre(text: string, ms: seq<Marker>, c: nat)
    requires IsMatchList(text, ms) && c < |LineCues(text, ms)|
    ensures LineCues(text, ms)[c].end ==
            if c == |LineCues(text, ms)| - 1 && ms[|ms| - 1].to == |text| then ms[|ms| - 1].time else None
  {
    hide Encode, ScanAll, ClipAll;
    var st := ScanAll(text, ms, |ms|);
    TrimmedSlice(st.raw);
    var k := ClipOrigin(Encode(st.raw), LeftTrimBytes(st.raw), TrimmedEnd(st.raw), st.segs, c);
    SegmentsAreOpen(text, ms, |ms|);
    var i := ScanOrigin(text, ms, |ms|, k);
    TrailingIs(text, ms, |ms|);
    assert WordOf(text, ms, |ms| - 1) == "" <==> ms[|ms| - 1].to == |text|;
  }

  /** How much of the stripped text never enters the collected text. */
  function Lost(text: string, ms: seq<Marker>, n: nat): nat
    requires IsMatchList(text, ms) && n <= |ms|
  {
    if n == 0 then (if ms == [] then |text| else ms[0].from)
    else Lost(text, ms, n - 1) + if ms[n - 1].time.None? then |WordOf(text, ms, n - 1)| else 0
  }

  lemma {:induction false} LostIsTheDifference(text: string, ms: seq<Marker>, n: nat)
    requires IsMatchList(text, ms) && n <= |ms|
    ensures |ScanAll(text, ms, n).raw| + Lost(text, ms, n) == |Strip(text, ms, n)|
    ensures Lost(text, ms, n) == 0 ==> ScanAll(text, ms, n).raw == Strip(text, ms, n)
    ensures Lost(text, ms, n) == 0 <==>
            (if ms == [] then text == "" else ms[0].from == 0) &&
            forall i :: 0 <= i < n && ms[i].time.None? ==> WordOf(text, ms, i) == ""
  {
    hide Encode, WordOf;
    if n > 0 { LostIsTheDifference(text, ms, n - 1); }
  }

  /** Of a line with markers no text is lost exactly when it begins with one and each with text has a readable time. */
  lemma NothingLostIff(text: string, ms: seq<Marker>)
    requires IsMatchList(text, ms) && ms != []
    ensures ScanAll(text, ms, |ms|).raw == Strip(text, ms, |ms|) <==>
            ms[0].from == 0 && forall i :: 0 <= i < |ms| && ms[i].time.None? ==> WordOf(text, ms, i) == ""
  {
    LostIsTheDifference(text, ms, |ms|);
  }

  /** Every segment is one marker's word, at that marker's time. */
  lemma {:induction false} ScanOrigin(text: string, ms: seq<Marker>, n: nat, k: nat) returns (i: nat)
    requires IsMatchList(text, ms) && n <= |ms| && k < |ScanAll(text, ms, n).segs|
    ensures i < n && ms[i].time.Some?
    ensures var st := ScanAll(text, ms, n);
            st.segs[k].start == ms[i].time && st.segs[k].end.None? && st.segs[k].agentId == "" &&
            st.segs[k].from <= st.segs[k].to <= |Encode(st.raw)| &&
            Encode(st.raw)[st.segs[k].from..st.segs[k].to] == Encode(WordOf(text, ms, i))
  {
    hide Encode, WordOf;
    i := n - 1;
    var st, word := ScanAll(text, ms, i), WordOf(text, ms, i);
    EncodeConcat(st.raw, word);
    if k < |st.segs| {
      i := ScanOrigin(text, ms, i, k);
    } else {
      assert Encode(st.raw + word)[|Encode(st.raw)|..] == Encode(word);
    }
  }

  /** A cue starts at the time of a marker and holds text of the word after that very marker. */
  lemma CueBelongsToMarker(text: string, ms: seq<Marker>, c: nat) returns (i: nat, from: nat, upto: nat)
    requires IsMatchList(text, ms) && c < |LineCues(text, ms)|
    ensures i < |ms| && ms[i].time.Some? && LineCues(text, ms)[c].start == ms[i].time
    ensures from < upto <= |Encode(WordOf(text, ms, i))|
    ensures LineCues(text, ms)[c].value == Encode(WordOf(text, ms, i))[from..upto]
  {
    hide Encode, WordOf, ScanAll, ClipAll;
    var st := ScanAll(text, ms, |ms|);
    TrimmedSlice(st.raw);
    var raw, left, end := Encode(st.raw), LeftTrimBytes(st.raw), TrimmedEnd(st.raw);
    var k := ClipOrigin(raw, left, end, st.segs, c);
    i := ScanOrigin(text, ms, |ms|, k);
    var seg := st.segs[k];
    from, upto := ClipIsPart(raw, left, end, seg);
  }

  // ----- repeated lines -------------------------------------------------------------------

  function ShiftTime(t: Option<int>, d: int): Option<int> { if t.Some? then Some(t.value + d) else None }

  /** A copy of the cues with every time moved. */
  method ShiftCues(base: seq<Cue>, d: int) returns (out: seq<Cue>)
    ensures |out| == |base|
    ensures forall i :: 0 <= i < |base| ==>
              out[i] == base[i].(start := ShiftTime(base[i].start, d), end := ShiftTime(base[i].end, d))
  {
    out := [];
    for i := 0 to |base|
      invariant |out| == i
      invariant forall j :: 0 <= j < i ==>
                  out[j] == base[j].(start := ShiftTime(base[j].start, d), end := ShiftTime(base[j].end, d))
    {
      out := out + [base[i].(start := ShiftTime(base[i].start, d), end := ShiftTime(base[i].end, d))];
    }
  }

  /** When a cue sounds relative to its own line. */
  function Lead(line: Line, i: nat): Option<int>
    requires i < |line.cues|
  {
    if line.start.Some? && line.cues[i].start.Some? then Some(line.cues[i].start.value - line.start.value) else None
  }

  /**
    A line with several timestamps: one occurrence each, in order, all with the same text, byte
    ranges and cue offsets; the first one has the cues exactly as written.
   */
  method EmitOccurrences(value: Bytes, base: seq<Cue>, times: seq<int>) returns (lines: seq<Line>)
    ensures |lines| == |times|
    ensures forall k :: 0 <= k < |lines| ==>
              lines[k].start == Some(times[k]) && lines[k].end.None? && lines[k].value == value && |lines[k].cues| == |base|
    ensures forall k, i :: 0 <= k < |lines| && 0 <= i < |base| ==>
              Lead(lines[k], i) == (if base[i].start.Some? then Some(base[i].start.value - times[0]) else None)
    ensures forall k, i :: 0 <= k < |lines| && 0 <= i < |base| ==>
              lines[k].cues[i].(start := None, end := None) == base[i].(start := None, end := None)
    ensures lines != [] ==> lines[0].cues == base
  {
    lines := [];
    for k := 0 to |times|
      invariant |lines| == k
      invariant forall j :: 0 <= j < k ==>
                  lines[j].start == Some(times[j]) && lines[j].end.None? && lines[j].value == value && |lines[j].cues| == |base|
      invariant forall j, i :: 0 <= j < k && 0 <= i < |base| ==>
                  lines[j].cues[i] == base[i].(start := ShiftTime(base[i].start, times[j] - times[0]),
                                               end := ShiftTime(base[i].end, times[j] - times[0]))
    {
      var cues := ShiftCues(base, times[k] - times[0]);
      lines := lines + [Line(Some(times[k]), None, value, cues)];
    }
    if lines != [] {
      forall i | 0 <= i < |base| ensures lines[0].cues[i] == base[i] {
        assert ShiftTime(base[i].start, 0) == base[i].start && ShiftTime(base[i].end, 0) == base[i].end;
      }
    }
  }

  // ----- times ----------------------------------------------------------------------------

  type Digits = ds: seq<int> | forall i :: 0 <= i < |ds| ==> 0 <= ds[i] < 10

  function Number(ds: Digits): nat {
    if ds == [] then 0 else 10 * Number(ds[..|ds| - 1]) + ds[|ds| - 1]
  }

  /** [hh:]mm:ss[.fff]; one or two fraction digits count tenths or hundredths. */
  function ParseTime(hours: Digits, minutes: Digits, seconds: Digits, fraction: Digits): int {
    var millis := Number(fraction) * (if |fraction| == 2 then 10 else if |fraction| == 1 then 100 else 1);
    ((Number(hours) * 60 + Number(minutes)) * 60 + Number(seconds)) * 1000 + millis
  }

  function Pow10(w: nat): nat { if w == 0 then 1 else 10 * Pow10(w - 1) }

  /** The last `w` decimal digits of `n`, zeros in front. */
  function Padded(n: nat, w: nat): (ds: Digits)
    ensures |ds| == w
  {
    if w == 0 then [] else Padded(n / 10, w - 1) + [n % 10]
  }

  lemma {:induction false} NumberPadded(n: nat, w: nat)
    requires n < Pow10(w)
    ensures Number(Padded(n, w)) == n
  {
    if w > 0 {
      NumberPadded(n / 10, w - 1);
      assert Padded(n, w)[..w - 1] == Padded(n / 10, w - 1);
    }
  }

  /** Fields written with any number of digits, and up to three digits of a fraction, are read as their value. */
  lemma ParseTimeReads(h: nat, hw: nat, m: nat, mw: nat, s: nat, sw: nat, f: nat, fw: nat)
    requires h < Pow10(hw) && m < Pow10(mw) && s < Pow10(sw) && f < Pow10(fw) && fw <= 3
    ensures ParseTime(Padded(h, hw), Padded(m, mw), Padded(s, sw), Padded(f, fw)) ==
            ((h * 60 + m) * 60 + s) * 1000 + f * Pow10(3 - fw)
  {
    NumberPadded(h, hw);
    NumberPadded(m, mw);
    NumberPadded(s, sw);
    NumberPadded(f, fw);
    FractionScale(f, fw);
    hide Number, Padded, Pow10;
  }

  lemma FractionScale(f: nat, fw: nat)
    requires f < Pow10(fw) && fw <= 3
    ensures f * Pow10(3 - fw) == f * (if fw == 2 then 10 else if fw == 1 then 100 else 1)
  {
    assert Pow10(0) == 1 && Pow10(1) == 10 && Pow10(2) == 100;
    if fw == 0 { assert f == 0; }
  }

  /** Trailing zeros of the fraction do not matter. */
  lemma FractionWidth(hours: Digits, minutes: Digits, seconds: Digits, fraction: Digits)
    requires 1 <= |fraction| <= 2
    ensures ParseTime(hours, minutes, seconds, fraction + [0]) == ParseTime(hours, minutes, seconds, fraction)
  {
    assert (fraction + [0])[..|fraction|] == fraction;
  }
}
