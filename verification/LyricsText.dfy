/**
  Text as the lyrics parsers handle it: Unicode scalars on one side, UTF-8 bytes on the other,
  trimming in between, and the clipping of timed segments to the trimmed text.
 */
module LyricsText {
  import opened Prelude
  import opened Lyrics

  // ----- UTF-8 ----------------------------------------------------------------------------

  function EncodeChar(c: char): (bs: Bytes)
    ensures 1 <= |bs| <= 4
    ensures c == ' ' ==> bs == [32]
    ensures c != ' ' ==> 32 !in bs
  {
    var p := c as int;
    if p < 0x80 then [p]
    else if p < 0x800 then [0xC0 + p / 64, 0x80 + p % 64]
    else if p < 0x10000 then [0xE0 + p / 4096, 0x80 + p / 64 % 64, 0x80 + p % 64]
    else [0xF0 + p / 262144, 0x80 + p / 4096 % 64, 0x80 + p / 64 % 64, 0x80 + p % 64]
  }

  /** The code point that one to four bytes spell. */
  predicate Spells(bs: seq<int>, p: int) {
    match |bs|
    case 1 => p == bs[0] && p < 0x80
    case 2 => 0xC0 <= bs[0] < 0xE0 && p == (bs[0] - 0xC0) * 64 + (bs[1] - 0x80)
    case 3 => 0xE0 <= bs[0] < 0xF0 && p == (bs[0] - 0xE0) * 4096 + (bs[1] - 0x80) * 64 + (bs[2] - 0x80)
    case 4 => 0xF0 <= bs[0] && p == (bs[0] - 0xF0) * 262144 + (bs[1] - 0x80) * 4096 + (bs[2] - 0x80) * 64 + (bs[3] - 0x80)
    case _ => false
  }

  /** A character is spelt by its bytes. */
  lemma CharIsSpelt(c: char)
    ensures Spells(EncodeChar(c), c as int)
  {
    var p := c as int;
    var a := p / 64;
    var b := a / 64;
    if p >= 0x10000 {
      Quotient(p, 64);
      Quotient(p, 4096);
      SpeltInFour(p);
    } else if p >= 0x800 {
      Quotient(p, 64);
      assert EncodeChar(c) == [0xE0 + p / 4096, 0x80 + p / 64 % 64, 0x80 + p % 64];
      assert b == p / 4096;
    }
  }

  lemma Quotient(p: nat, n: nat)
    requires n == 64 || n == 4096
    ensures p / n / 64 == p / (n * 64)
  {
  }

  lemma SpeltInFour(p: nat)
    requires 0x10000 <= p < 0x110000 && p / 64 / 64 == p / 4096 && p / 4096 / 64 == p / 262144
    ensures Spells([0xF0 + p / 262144, 0x80 + p / 4096 % 64, 0x80 + p / 64 % 64, 0x80 + p % 64], p)
  {
    var a := p / 64;
    var b := a / 64;
    assert b / 64 == p / 262144;
  }

  function Encode(s: string): (bs: Bytes) {
    if s == "" then [] else Encode(s[..|s| - 1]) + EncodeChar(s[|s| - 1])
  }

  lemma {:induction false} EncodeConcat(a: string, b: string)
    ensures Encode(a + b) == Encode(a) + Encode(b)
  {
    hide EncodeChar;
    if b == "" {
      assert a + b == a;
    } else {
      var all, front, c := a + b, b[..|b| - 1], b[|b| - 1];
      EncodeConcat(a, front);
      assert all[..|all| - 1] == a + front && all[|all| - 1] == c;
      assert Encode(all) == Encode(a + front) + EncodeChar(c);
      assert Encode(a) + (Encode(front) + EncodeChar(c)) == Encode(a) + Encode(front) + EncodeChar(c);
    }
  }

  lemma {:induction false} EncodeEmpty(s: string)
    ensures Encode(s) == [] <==> s == ""
  {
  }

  predicate NoDoubleSpace(s: string) { forall i :: 0 <= i < |s| - 1 ==> !(s[i] == ' ' && s[i + 1] == ' ') }

  predicate NoDoubleBlank(bs: Bytes) { forall i :: 0 <= i < |bs| - 1 ==> !(bs[i] == 32 && bs[i + 1] == 32) }

  predicate EndsBlank(bs: Bytes) { bs != [] && bs[|bs| - 1] == 32 }

  /** Appending the bytes of one character. */
  lemma AppendChar(bs: Bytes, c: char)
    ensures NoDoubleBlank(bs + EncodeChar(c)) <==> NoDoubleBlank(bs) && !(EndsBlank(bs) && c == ' ')
    ensures EndsBlank(bs + EncodeChar(c)) <==> c == ' '
  {
    hide EncodeChar;
    var last := EncodeChar(c);
    var all := bs + last;
    assert last[|last| - 1] in last && all[|all| - 1] == last[|last| - 1];
    assert forall i :: 0 <= i < |bs| ==> all[i] == bs[i];
    if c == ' ' {
      assert all == bs + [32];
    } else {
      forall i | |bs| <= i < |all| ensures all[i] != 32 { assert all[i] == last[i - |bs|] && all[i] in last; }
    }
  }

  predicate EndsInSpace(s: string) { s != "" && s[|s| - 1] == ' ' }

  /** Adjacent blanks in the bytes are adjacent spaces in the text. */
  lemma {:induction false} DoubleBlankIff(s: string)
    ensures NoDoubleBlank(Encode(s)) <==> NoDoubleSpace(s)
    ensures EndsBlank(Encode(s)) <==> EndsInSpace(s)
  {
    hide EncodeChar;
    if s != "" {
      var front, c := s[..|s| - 1], s[|s| - 1];
      DoubleBlankIff(front);
      hide NoDoubleBlank, EndsBlank;
      AppendChar(Encode(front), c);
      NoDoubleSpaceStep(front, c);
      assert s == front + [c];
    }
  }

  lemma NoDoubleSpaceStep(front: string, c: char)
    ensures NoDoubleSpace(front + [c]) <==> NoDoubleSpace(front) && !(EndsInSpace(front) && c == ' ')
  {
    var s := front + [c];
    assert forall i :: 0 <= i < |front| ==> s[i] == front[i];
    if NoDoubleSpace(s) && EndsInSpace(front) { assert s[|front| - 1] == ' ' && s[|front| - 1 + 1] == c; }
  }

  // ----- trimming -------------------------------------------------------------------------

  /** unicode.IsSpace. */
  predicate IsSpace(c: char) {
    var p := c as int;
    9 <= p <= 13 || p == 0x20 || p == 0x85 || p == 0xA0 || p == 0x1680 || 0x2000 <= p <= 0x200A ||
    p == 0x2028 || p == 0x2029 || p == 0x202F || p == 0x205F || p == 0x3000
  }

  function TrimLeft(s: string): (t: string) {
    if s != "" && IsSpace(s[0]) then TrimLeft(s[1..]) else s
  }

  function TrimRight(s: string): (t: string) {
    if s != "" && IsSpace(s[|s| - 1]) then TrimRight(s[..|s| - 1]) else s
  }

  function TrimSpace(s: string): string { TrimRight(TrimLeft(s)) }

  predicate AllBlank(s: string) { forall i :: 0 <= i < |s| ==> IsSpace(s[i]) }

  lemma {:induction false} TrimLeftShape(s: string) returns (a: string)
    ensures s == a + TrimLeft(s) && AllBlank(a)
    ensures TrimLeft(s) != "" ==> !IsSpace(TrimLeft(s)[0])
    ensures TrimLeft(s) == "" ==> AllBlank(s)
  {
    hide IsSpace;
    if s != "" && IsSpace(s[0]) {
      var rest := TrimLeftShape(s[1..]);
      a := [s[0]] + rest;
      assert s == [s[0]] + s[1..];
    } else {
      a := "";
    }
  }

  lemma {:induction false} TrimRightShape(s: string) returns (b: string)
    ensures s == TrimRight(s) + b && AllBlank(b)
    ensures TrimRight(s) != "" ==> !IsSpace(TrimRight(s)[|TrimRight(s)| - 1])
    ensures TrimRight(s) == "" <==> AllBlank(s)
  {
    hide IsSpace;
    if s != "" && IsSpace(s[|s| - 1]) {
      var rest := TrimRightShape(s[..|s| - 1]);
      b := rest + [s[|s| - 1]];
      assert s == s[..|s| - 1] + [s[|s| - 1]];
    } else {
      b := "";
      assert s != "" ==> !IsSpace(s[|s| - 1]);
    }
  }

  lemma {:induction false} TrimRightSuffix(a: string, t: string)
    requires TrimRight(t) != ""
    ensures TrimRight(a + t) == a + TrimRight(t)
  {
    if IsSpace(t[|t| - 1]) {
      TrimRightSuffix(a, t[..|t| - 1]);
      assert (a + t)[..|a + t| - 1] == a + t[..|t| - 1];
    }
  }

  /** Bytes removed by TrimLeftFunc. */
  function LeftTrimBytes(s: string): int { |Encode(s)| - |Encode(TrimLeft(s))| }

  /** Where the text ends once trimmed on the right, but never before the left trim. */
  function TrimmedEnd(s: string): int {
    var end := |Encode(s)| - (|Encode(s)| - |Encode(TrimRight(s))|);
    if end < LeftTrimBytes(s) then LeftTrimBytes(s) else end
  }

  /** A text with a non-space splits into leading space, trimmed text and trailing space. */
  lemma TrimSpaceParts(s: string) returns (a: string, b: string)
    requires TrimLeft(s) != ""
    ensures s == a + TrimSpace(s) + b && TrimLeft(s) == TrimSpace(s) + b && TrimRight(s) == a + TrimSpace(s)
    ensures AllBlank(a) && AllBlank(b) && TrimSpace(s) != ""
    ensures !IsSpace(TrimSpace(s)[0]) && !IsSpace(TrimSpace(s)[|TrimSpace(s)| - 1])
  {
    hide IsSpace;
    a := TrimLeftShape(s);
    b := TrimRightShape(TrimLeft(s));
    TrimRightSuffix(a, TrimLeft(s));
    assert TrimLeft(s) == TrimSpace(s) + b;
  }

  lemma AllSpace(s: string)
    requires TrimLeft(s) == ""
    ensures TrimSpace(s) == "" && TrimRight(s) == "" && AllBlank(s)
  {
    var a := TrimLeftShape(s);
    var b := TrimRightShape(s);
  }

  /** The two byte bounds cut exactly the trimmed text out of the encoded one. */
  lemma TrimmedSlice(s: string)
    ensures 0 <= LeftTrimBytes(s) <= TrimmedEnd(s) <= |Encode(s)|
    ensures Encode(s)[LeftTrimBytes(s)..TrimmedEnd(s)] == Encode(TrimSpace(s))
  {
    if TrimLeft(s) == "" {
      AllSpace(s);
    } else {
      var a, b := TrimSpaceParts(s);
      EncodeConcat(a + TrimSpace(s), b);
      EncodeConcat(a, TrimSpace(s));
      EncodeConcat(TrimSpace(s), b);
    }
  }

  predicate HasInk(s: string) { exists i :: 0 <= i < |s| && !IsSpace(s[i]) }

  /** Two adjacent spaces with something visible on either side. */
  predicate DoubleInside(s: string, i: int) {
    0 <= i < |s| - 1 && s[i] == ' ' && s[i + 1] == ' ' && HasInk(s[..i]) && HasInk(s[i + 2..])
  }

  /** Trimming takes away exactly the adjacent spaces at the ends. */
  lemma TrimmedDoubleIff(s: string)
    ensures NoDoubleSpace(TrimSpace(s)) <==> forall i :: 0 <= i < |s| ==> !DoubleInside(s, i)
  {
    hide IsSpace, TrimLeft, TrimRight, TrimSpace, DoubleInside;
    if TrimLeft(s) == "" {
      AllSpace(s);
      forall i | 0 <= i < |s| ensures !DoubleInside(s, i) { NoInkNoDouble(s, i); }
    } else {
      var a, b := TrimSpaceParts(s);
      var t := TrimSpace(s);
      SpaceIsSpace();
      forall i | 0 <= i < |s| && DoubleInside(s, i) ensures !NoDoubleSpace(t) { InsideIsKept(s, a, t, b, i); }
      forall i | 0 <= i < |t| - 1 && t[i] == ' ' && t[i + 1] == ' ' ensures DoubleInside(s, |a| + i) { KeptIsInside(s, a, t, b, i); }
    }
  }

  lemma NoInkNoDouble(s: string, i: nat)
    requires AllBlank(s) && i < |s|
    ensures !DoubleInside(s, i)
  {
    hide IsSpace;
    assert forall x :: 0 <= x < i ==> s[..i][x] == s[x];
  }

  lemma SpaceIsSpace()
    ensures IsSpace(' ')
  {
  }

  lemma InsideIsKept(s: string, a: string, t: string, b: string, i: int)
    requires s == a + t + b && AllBlank(a) && AllBlank(b) && DoubleInside(s, i)
    ensures !NoDoubleSpace(t)
  {
    hide IsSpace;
    var x :| 0 <= x < |s[..i]| && !IsSpace(s[..i][x]);
    assert forall z :: 0 <= z < |a| ==> s[z] == a[z];
    assert x >= |a|;
    var tail := s[i + 2..];
    var y :| 0 <= y < |tail| && !IsSpace(tail[y]);
    assert tail[y] == s[i + 2 + y];
    assert forall z :: 0 <= z < |b| ==> s[|a| + |t| + z] == b[z];
    assert forall z :: |a| + |t| <= z < |s| ==> IsSpace(s[z]);
    assert i + 2 + y < |a| + |t|;
    assert t[i - |a|] == s[i] && t[i - |a| + 1] == s[i + 1];
  }

  lemma KeptIsInside(s: string, a: string, t: string, b: string, i: int)
    requires s == a + t + b && t != "" && !IsSpace(t[0]) && !IsSpace(t[|t| - 1]) && IsSpace(' ')
    requires 0 <= i < |t| - 1 && t[i] == ' ' && t[i + 1] == ' '
    ensures DoubleInside(s, |a| + i)
  {
    hide IsSpace;
    var p := |a| + i;
    assert s[p] == t[i] && s[p + 1] == t[i + 1];
    assert i > 0 && i + 1 < |t| - 1;
    assert s[..p][|a|] == t[0];
    assert s[p + 2..][|t| - 1 - i - 2] == t[|t| - 1];
  }

  // ----- timed segments -------------------------------------------------------------------

  /** A stretch [from, to) of the raw text with the timing it carries. */
  datatype Segment = Segment(from: nat, to: nat, start: Option<int>, end: Option<int>, agentId: string)

  predicate Consecutive(segs: seq<Segment>) {
    && (forall i :: 0 <= i < |segs| ==> segs[i].from <= segs[i].to)
    && (forall i, j :: 0 <= i < j < |segs| ==> segs[i].to <= segs[j].from)
  }

  function ClipFrom(left: nat, seg: Segment): nat { if seg.from < left then left else seg.from }

  function ClipTo(end: nat, seg: Segment): nat { if seg.to < end then seg.to else end }

  predicate Survives(left: nat, end: nat, seg: Segment) { ClipFrom(left, seg) < ClipTo(end, seg) }

  /** The cue of a segment, with its range counted from the start of the trimmed text. */
  function ClipCue(raw: Bytes, left: nat, end: nat, seg: Segment): Cue
    requires Survives(left, end, seg) && end <= |raw|
  {
    Cue(seg.start, seg.end, raw[ClipFrom(left, seg)..ClipTo(end, seg)],
        ClipFrom(left, seg) - left, ClipTo(end, seg) - left - 1, seg.agentId)
  }

  /** One cue for every segment that keeps some text, in order. */
  function ClipAll(raw: Bytes, left: nat, end: nat, segs: seq<Segment>): seq<Cue>
    requires end <= |raw|
  {
    if segs == [] then []
    else
      var last := segs[|segs| - 1];
      ClipAll(raw, left, end, segs[..|segs| - 1]) +
      (if Survives(left, end, last) then [ClipCue(raw, left, end, last)] else [])
  }

  lemma ClipCueReads(raw: Bytes, left: nat, end: nat, seg: Segment)
    requires left <= end <= |raw| && Survives(left, end, seg)
    ensures Reads(raw[left..end], ClipCue(raw, left, end, seg))
  {
    SliceOfSlice(raw, left, end, ClipFrom(left, seg), ClipTo(end, seg));
  }

  lemma SliceOfSlice(raw: Bytes, left: nat, end: nat, from: nat, to: nat)
    requires left <= from <= to <= end <= |raw|
    ensures raw[left..end][from - left..to - left] == raw[from..to]
  {
    var part, whole := raw[left..end][from - left..to - left], raw[from..to];
    assert |part| == |whole|;
    forall i | 0 <= i < |part| ensures part[i] == whole[i] {
      assert part[i] == raw[left..end][from - left + i];
    }
  }

  /** Every clipped cue reads its value from the trimmed text; ranges are ordered and disjoint. */
  lemma {:induction false} ClipAllReads(raw: Bytes, left: nat, end: nat, segs: seq<Segment>)
    requires left <= end <= |raw| && Consecutive(segs)
    ensures var cues := ClipAll(raw, left, end, segs);
            && (forall i :: 0 <= i < |cues| ==> Reads(raw[left..end], cues[i]))
            && InOrder(cues)
            && (forall i :: 0 <= i < |cues| && segs != [] ==> cues[i].byteEnd + left < segs[|segs| - 1].to)
  {
    if segs != [] {
      var front, last := segs[..|segs| - 1], segs[|segs| - 1];
      ClipAllReads(raw, left, end, front);
      var cues := ClipAll(raw, left, end, front);
      forall i | 0 <= i < |cues| ensures cues[i].byteEnd + left < last.from || last.from <= cues[i].byteEnd + left < last.to {
        assert front != [];
        assert front[|front| - 1].to <= last.from;
      }
      if Survives(left, end, last) { ClipCueReads(raw, left, end, last); }
    }
  }

  /** Every cue is the clipped text of a segment, with that segment's timing. */
  lemma {:induction false} ClipOrigin(raw: Bytes, left: nat, end: nat, segs: seq<Segment>, i: nat) returns (k: nat)
    requires left <= end <= |raw| && i < |ClipAll(raw, left, end, segs)|
    ensures k < |segs| && Survives(left, end, segs[k]) && ClipAll(raw, left, end, segs)[i] == ClipCue(raw, left, end, segs[k])
  {
    k := |segs| - 1;
    var front := segs[..k];
    if i < |ClipAll(raw, left, end, front)| {
      k := ClipOrigin(raw, left, end, front, i);
    }
  }

  /** A clipped cue holds part of its segment's text. */
  lemma ClipIsPart(raw: Bytes, left: nat, end: nat, seg: Segment) returns (from: nat, upto: nat)
    requires Survives(left, end, seg) && end <= |raw| && seg.to <= |raw|
    ensures from < upto <= seg.to - seg.from && ClipCue(raw, left, end, seg).value == raw[seg.from..seg.to][from..upto]
  {
    from, upto := ClipFrom(left, seg) - seg.from, ClipTo(end, seg) - seg.from;
  }

  /** The segments cover [0, upto) without gaps. */
  predicate Tiles(segs: seq<Segment>, upto: nat)
    decreases |segs|
  {
    if segs == [] then upto == 0
    else
      var last := segs[|segs| - 1];
      last.from <= last.to == upto && Tiles(segs[..|segs| - 1], last.from)
  }

  function JoinValues(cues: seq<Cue>): Bytes {
    if cues == [] then [] else JoinValues(cues[..|cues| - 1]) + cues[|cues| - 1].value
  }

  function Clamp(left: nat, end: nat, x: nat): nat
    requires left <= end
  {
    if x < left then left else if x < end then x else end
  }

  /** The cues of segments without gaps hold all of the trimmed text, each byte once. */
  lemma {:induction false} ClipTiles(raw: Bytes, left: nat, end: nat, segs: seq<Segment>, upto: nat)
    requires left <= end <= |raw| && Tiles(segs, upto)
    ensures JoinValues(ClipAll(raw, left, end, segs)) == raw[left..Clamp(left, end, upto)]
    decreases |segs|
  {
    if segs != [] {
      var front, last := segs[..|segs| - 1], segs[|segs| - 1];
      ClipTiles(raw, left, end, front, last.from);
      var cues := ClipAll(raw, left, end, front);
      if Survives(left, end, last) {
        var cue := ClipCue(raw, left, end, last);
        assert (cues + [cue])[..|cues|] == cues;
        assert Clamp(left, end, last.from) == ClipFrom(left, last) && Clamp(left, end, last.to) == ClipTo(end, last);
        assert raw[left..ClipTo(end, last)] == raw[left..ClipFrom(left, last)] + raw[ClipFrom(left, last)..ClipTo(end, last)];
      } else {
        assert Clamp(left, end, last.from) == Clamp(left, end, last.to);
        assert cues + [] == cues;
      }
    }
  }

  /** The characters trimmed are the white space of Unicode. */
  lemma SpacesAre(c: char)
    ensures IsSpace(c) <==>
            c as int in {0x9, 0xA, 0xB, 0xC, 0xD, 0x20, 0x85, 0xA0, 0x1680, 0x2000, 0x2001, 0x2002, 0x2003, 0x2004, 0x2005,
                         0x2006, 0x2007, 0x2008, 0x2009, 0x200A, 0x2028, 0x2029, 0x202F, 0x205F, 0x3000}
  {
  }
}
