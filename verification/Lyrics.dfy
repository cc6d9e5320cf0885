/** The lyrics data model shared by the parsers. */
module Lyrics {
  import opened Prelude

  type Byte = b: int | 0 <= b < 256

  /** A Go string: its bytes. */
  type Bytes = seq<Byte>

  /** A timed word; byteStart and byteEnd are an inclusive range of the line's value. */
  datatype Cue = Cue(start: Option<int>, end: Option<int>, value: Bytes, byteStart: int, byteEnd: int, agentId: string)

  datatype Line = Line(start: Option<int>, end: Option<int>, value: Bytes, cues: seq<Cue>)

  datatype Agent = Agent(id: string, role: string)

  /** The cue's range, read from `value`, is the cue's text. */
  predicate Reads(value: Bytes, c: Cue) {
    0 <= c.byteStart <= c.byteEnd < |value| && value[c.byteStart..c.byteEnd + 1] == c.value
  }

  /** Ranges come in order and do not share a byte. */
  predicate InOrder(cues: seq<Cue>) {
    forall i, j :: 0 <= i < j < |cues| ==> cues[i].byteEnd < cues[j].byteStart
  }
}
