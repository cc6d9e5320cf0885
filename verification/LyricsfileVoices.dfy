/**
  Lyricsfile lines: the streaming assignment of overlapping lines to voices, always the lowest
  voice that is free.
 */
module LyricsfileVoices {
  import opened Prelude
  import opened Lyrics
  import opened LyricsfileWords

  /** Explicit end, else the last word's end, else the next entry's start. */
  function LineEnd(e: Entry, nextStart: Option<int>): Option<int> {
    if e.end.Some? then e.end
    else if e.words != [] && e.words[|e.words| - 1].end.Some? then e.words[|e.words| - 1].end
    else nextStart
  }

  function EndOf(es: seq<Entry>, i: nat): Option<int>
    requires i < |es|
  {
    LineEnd(es[i], if i + 1 < |es| then Some(es[i + 1].start) else None)
  }

  /** Until when the line keeps its voice. */
  function BusyUntil(es: seq<Entry>, i: nat): int
    requires i < |es|
  {
    if EndOf(es, i).Some? then EndOf(es, i).value else es[i].start
  }

  // ----- what an assignment of voices should achieve --------------------------------------

  /** Line `i` sounds at instant `t`. */
  predicate SoundsAt(es: seq<Entry>, i: nat, t: int)
    requires i < |es|
  {
    es[i].start <= t < BusyUntil(es, i)
  }

  /** The earlier entries sounding at the instant line `j` starts. */
  function Ongoing(es: seq<Entry>, j: nat): set<nat>
    requires j < |es|
  {
    set i: nat | i < j && SoundsAt(es, i, es[j].start)
  }

  /** No line gets the voice of an earlier line that sounds when it starts. */
  ghost predicate NoOverlap(es: seq<Entry>, voices: seq<nat>) {
    |voices| == |es| && forall j, i :: 0 <= j < |es| && i in Ongoing(es, j) ==> voices[i] != voices[j]
  }

  /** Two lines sound at a common instant. */
  ghost predicate Overlap(es: seq<Entry>, i: nat, j: nat)
    requires i < |es| && j < |es|
  {
    exists t :: SoundsAt(es, i, t) && SoundsAt(es, j, t)
  }

  /** No two lines that sound at a common instant share a voice. */
  ghost predicate NeverTogether(es: seq<Entry>, voices: seq<nat>) {
    |voices| == |es| && forall i, j :: 0 <= i < j < |es| && Overlap(es, i, j) ==> voices[i] != voices[j]
  }

  function Used(voices: seq<nat>): set<nat> { set v | v in voices }

  /** Line `j` and the lines sounding when it starts. */
  function Depth(es: seq<Entry>, j: nat): nat
    requires j < |es|
  { |Ongoing(es, j)| + 1 }

  /** The starts do not go back. */
  ghost predicate Ascending(es: seq<Entry>) {
    forall i, j :: 0 <= i < j < |es| ==> es[i].start <= es[j].start
  }

  /** The voices taken when line `j` starts. */
  function Taken(es: seq<Entry>, voices: seq<nat>, j: nat): set<nat>
    requires j < |es| && j <= |voices|
  {
    set i | i in Ongoing(es, j) :: voices[i]
  }

  /** Every line gets the lowest voice not taken. */
  ghost predicate LowestFree(es: seq<Entry>, voices: seq<nat>) {
    |voices| == |es| &&
    forall j :: 0 <= j < |es| ==> IsLowestFree(Taken(es, voices, j), voices[j])
  }

  ghost predicate IsLowestFree(taken: set<nat>, v: nat) {
    v !in taken && forall u: nat :: u < v ==> u in taken
  }

  // ----- the streaming algorithm ----------------------------------------------------------

  function Purge(active: map<nat, int>, now: int): map<nat, int> {
    map v | v in active && active[v] > now :: active[v]
  }

  function AtLeast(active: map<nat, int>, v: nat): set<nat> { set u | u in active && u >= v }

  /** The first voice from `v` on that is not active. */
  function FreeFrom(active: map<nat, int>, v: nat): nat
    decreases |AtLeast(active, v)|
  {
    if v !in active then v
    else
      (assert AtLeast(active, v + 1) < AtLeast(active, v) by {
         assert v in AtLeast(active, v) && v !in AtLeast(active, v + 1);
       }
       SubsetSize(AtLeast(active, v + 1), AtLeast(active, v));
       FreeFrom(active, v + 1))
  }

  lemma SubsetSize(a: set<nat>, b: set<nat>)
    requires a < b
    ensures |a| < |b|
  {
    var x :| x in b && x !in a;
    SubsetLe(a, b - {x});
  }

  lemma {:induction false} SubsetLe<T>(a: set<T>, b: set<T>)
    requires a <= b
    ensures |a| <= |b|
  {
    if a != {} {
      var x :| x in a;
      SubsetLe(a - {x}, b - {x});
    }
  }

  lemma {:induction false} FreeFromIsLowest(active: map<nat, int>, v: nat)
    ensures v <= FreeFrom(active, v) && FreeFrom(active, v) !in active
    ensures forall u :: v <= u < FreeFrom(active, v) ==> u in active
    decreases |AtLeast(active, v)|
  {
    if v in active {
      assert v in AtLeast(active, v) && v !in AtLeast(active, v + 1);
      SubsetSize(AtLeast(active, v + 1), AtLeast(active, v));
      FreeFromIsLowest(active, v + 1);
    }
  }

  /** The voices of the first `n` entries, and who is active after them. */
  datatype Allocation = Allocation(voices: seq<nat>, active: map<nat, int>)

  function Allocate(es: seq<Entry>, n: nat): (a: Allocation)
    requires n <= |es|
    ensures |a.voices| == n
  {
    if n == 0 then Allocation([], map[]) else Place(es, n - 1, Allocate(es, n - 1))
  }

  /** One line: release the voices that have ended, take the lowest free one. */
  function Place(es: seq<Entry>, n: nat, a: Allocation): (b: Allocation)
    requires n < |es|
    ensures |b.voices| == |a.voices| + 1
  {
    var active := Purge(a.active, es[n].start);
    var v := FreeFrom(active, 0);
    Allocation(a.voices + [v], active[v := BusyUntil(es, n)])
  }

  function Voices(es: seq<Entry>): seq<nat> { Allocate(es, |es|).voices }

  lemma {:induction false} VoicesPrefix(es: seq<Entry>, n: nat, m: nat)
    requires n <= m <= |es|
    ensures Allocate(es, m).voices[..n] == Allocate(es, n).voices
  {
    if n < m { VoicesPrefix(es, n, m - 1); }
  }

  /** What `active` holds: ends of earlier lines, and all that are still going. */
  ghost predicate Tracks(es: seq<Entry>, n: nat, a: Allocation)
    requires n <= |es|
  {
    && |a.voices| == n
    && (forall v :: v in a.active ==> exists k :: Holds(es, n, a, v, k))
    && (forall k: nat :: k < n && BusyUntil(es, k) > es[n - 1].start ==> Holds(es, n, a, a.voices[k], k))
  }

  /** Voice `v` is active on behalf of line `k`. */
  ghost predicate Holds(es: seq<Entry>, n: nat, a: Allocation, v: nat, k: nat)
    requires n <= |es| && |a.voices| == n
  {
    k < n && a.voices[k] == v && v in a.active && a.active[v] == BusyUntil(es, k)
  }

  /** After the purge, exactly the voices of the ongoing lines are active. */
  lemma PurgedIsTaken(es: seq<Entry>, n: nat, a: Allocation)
    requires n < |es| && Ascending(es) && Tracks(es, n, a)
    ensures Purge(a.active, es[n].start).Keys == Taken(es, a.voices, n)
  {
    hide BusyUntil;
    var active := Purge(a.active, es[n].start);
    forall v | v in active ensures v in Taken(es, a.voices, n) {
      var k: nat :| Holds(es, n, a, v, k);
      assert es[k].start <= es[n].start;
      assert k in Ongoing(es, n);
    }
    forall v | v in Taken(es, a.voices, n) ensures v in active {
      var k :| k in Ongoing(es, n) && a.voices[k] == v;
      assert n > 0 ==> es[n - 1].start <= es[n].start;
      assert Holds(es, n, a, v, k);
    }
  }

  lemma PlaceTracks(es: seq<Entry>, n: nat, a: Allocation)
    requires n < |es| && Ascending(es) && Tracks(es, n, a)
    ensures Tracks(es, n + 1, Place(es, n, a))
  {
    hide BusyUntil;
    hide FreeFrom;
    var b, m := Place(es, n, a), n + 1;
    var active := Purge(a.active, es[n].start);
    var v := FreeFrom(active, 0);
    FreeFromIsLowest(active, 0);
    forall u | u in b.active ensures exists k :: Holds(es, m, b, u, k) {
      if u == v {
        assert Holds(es, m, b, u, n);
      } else {
        var k :| Holds(es, n, a, u, k);
        assert Holds(es, m, b, u, k);
      }
    }
    forall k: nat | k < n && BusyUntil(es, k) > es[n].start ensures Holds(es, m, b, b.voices[k], k) {
      assert n > 0 ==> es[n - 1].start <= es[n].start;
      assert Holds(es, n, a, a.voices[k], k);
      assert a.voices[k] in active;
    }
    assert Holds(es, m, b, b.voices[n], n);
  }

  lemma {:induction false} AllocateTracks(es: seq<Entry>, n: nat)
    requires n <= |es| && Ascending(es)
    ensures Tracks(es, n, Allocate(es, n))
  {
    if n > 0 {
      AllocateTracks(es, n - 1);
      PlaceTracks(es, n - 1, Allocate(es, n - 1));
    }
  }

  /** Line j's voice, and the voices before it, are settled once j entries are placed. */
  lemma VoiceAt(es: seq<Entry>, j: nat)
    requires j < |es|
    ensures Voices(es)[j] == FreeFrom(Purge(Allocate(es, j).active, es[j].start), 0)
    ensures Voices(es)[..j] == Allocate(es, j).voices
  {
    VoicesPrefix(es, j, |es|);
    VoicesPrefix(es, j + 1, |es|);
    assert Voices(es)[j] == Voices(es)[..j + 1][j];
  }

  lemma ActiveStep(es: seq<Entry>, j: nat)
    requires j < |es|
    ensures var active := Purge(Allocate(es, j).active, es[j].start);
            Allocate(es, j + 1).active == active[FreeFrom(active, 0) := BusyUntil(es, j)]
  {
  }

  /** On ascending entries the algorithm gives every line the lowest voice not taken. */
  lemma AllocatesLowestFree(es: seq<Entry>)
    requires Ascending(es)
    ensures LowestFree(es, Voices(es))
  {
    hide Allocate;
    forall j | 0 <= j < |es| ensures IsLowestFree(Taken(es, Voices(es), j), Voices(es)[j]) {
      var a := Allocate(es, j);
      AllocateTracks(es, j);
      PurgedIsTaken(es, j, a);
      FreeFromIsLowest(Purge(a.active, es[j].start), 0);
      VoiceAt(es, j);
      TakenByPrefix(es, Voices(es), j);
    }
  }

  lemma TakenByPrefix(es: seq<Entry>, voices: seq<nat>, j: nat)
    requires j < |es| && j <= |voices|
    ensures Taken(es, voices, j) == Taken(es, voices[..j], j)
  {
  }

  // ----- optimality -----------------------------------------------------------------------

  lemma {:induction false} ImageSize(xs: set<nat>, voices: seq<nat>)
    requires forall x :: x in xs ==> x < |voices|
    requires forall x, y :: x in xs && y in xs && x != y ==> voices[x] != voices[y]
    ensures |set x | x in xs :: voices[x]| == |xs|
  {
    if xs != {} {
      var x :| x in xs;
      ImageSize(xs - {x}, voices);
      assert (set y | y in xs :: voices[y]) == (set y | y in xs - {x} :: voices[y]) + {voices[x]};
    }
  }

  /** Lines sounding together need different voices, so no assignment does with fewer than the depth. */
  lemma DepthIsNeeded(es: seq<Entry>, voices: seq<nat>, j: nat)
    requires Ascending(es) && NoOverlap(es, voices) && j < |es|
    ensures Depth(es, j) <= |Used(voices)|
  {
    var together := Ongoing(es, j) + {j};
    forall x, y | x in together && y in together && x < y ensures voices[x] != voices[y] {
      assert x in Ongoing(es, y);
    }
    ImageSize(together, voices);
    SubsetLe((set x | x in together :: voices[x]), Used(voices));
  }

  function Below(v: nat): (us: set<nat>)
    ensures forall u: nat :: u in us <==> u < v
  {
    if v == 0 then {} else Below(v - 1) + {v - 1}
  }

  lemma {:induction false} BelowSize(v: nat)
    ensures |Below(v)| == v
  {
    if v > 0 { BelowSize(v - 1); }
  }

  /** For every map, the search stops within the number of active voices. */
  lemma SearchIsBounded(active: map<nat, int>)
    ensures FreeFrom(active, 0) <= |active|
  {
    FreeFromIsLowest(active, 0);
    BelowSize(FreeFrom(active, 0));
    SubsetLe(Below(FreeFrom(active, 0)), active.Keys);
  }

  /** A lowest-free voice is below the depth. */
  lemma LowestFreeBelowDepth(es: seq<Entry>, voices: seq<nat>, j: nat)
    requires LowestFree(es, voices) && j < |es|
    ensures voices[j] < Depth(es, j)
  {
    assert IsLowestFree(Taken(es, voices, j), voices[j]);
    BelowSize(voices[j]);
    SubsetLe(Below(voices[j]), Taken(es, voices, j));
    TakenSize(voices, Ongoing(es, j));
  }

  lemma {:induction false} TakenSize(voices: seq<nat>, xs: set<nat>)
    requires forall x :: x in xs ==> x < |voices|
    ensures |set x | x in xs :: voices[x]| <= |xs|
  {
    if xs != {} {
      var x :| x in xs;
      TakenSize(voices, xs - {x});
      assert (set y | y in xs :: voices[y]) == (set y | y in xs - {x} :: voices[y]) + {voices[x]};
    }
  }

  lemma LowestFreeNoOverlap(es: seq<Entry>, voices: seq<nat>)
    requires LowestFree(es, voices)
    ensures NoOverlap(es, voices)
  {
    forall j, i | 0 <= j < |es| && i in Ongoing(es, j) ensures voices[i] != voices[j] {
      assert voices[i] in Taken(es, voices, j);
      assert IsLowestFree(Taken(es, voices, j), voices[j]);
    }
  }

  /** The voices used are 0, 1, ..., top without gaps. */
  lemma UsedHasNoGaps(es: seq<Entry>, voices: seq<nat>, top: nat)
    requires LowestFree(es, voices) && es != []
    requires top in Used(voices) && forall v :: v in Used(voices) ==> v <= top
    ensures Used(voices) == Below(top + 1)
  {
    var j :| 0 <= j < |voices| && voices[j] == top;
    assert IsLowestFree(Taken(es, voices, j), top);
    forall u: nat | u < top ensures u in Used(voices) {
      assert u in Taken(es, voices, j);
      var i :| i in Ongoing(es, j) && voices[i] == u;
    }
  }

  /**
    Optimality: on ascending entries no two overlapping lines share a voice, the number of voices is
    the greatest number of lines sounding together at any line start, and no assignment needs fewer.
   */
  lemma VoicesAreOptimal(es: seq<Entry>, top: nat)
    requires Ascending(es) && es != []
    requires top in Used(Voices(es)) && forall v :: v in Used(Voices(es)) ==> v <= top
    ensures NoOverlap(es, Voices(es))
    ensures |Used(Voices(es))| == top + 1
    ensures (exists j :: 0 <= j < |es| && Depth(es, j) == top + 1) &&
            (forall j :: 0 <= j < |es| ==> Depth(es, j) <= top + 1)
    ensures forall other :: NoOverlap(es, other) ==> top + 1 <= |Used(other)|
  {
    var voices := Voices(es);
    AllocatesLowestFree(es);
    LowestFreeNoOverlap(es, voices);
    UsedHasNoGaps(es, voices, top);
    BelowSize(top + 1);
    forall j | 0 <= j < |es| ensures Depth(es, j) <= top + 1 { DepthIsNeeded(es, voices, j); }
    var j :| 0 <= j < |voices| && voices[j] == top;
    LowestFreeBelowDepth(es, voices, j);
    forall other | NoOverlap(es, other) ensures top + 1 <= |Used(other)| { DepthIsNeeded(es, other, j); }
  }

  // ----- common instants ------------------------------------------------------------------

  /** On ascending entries, two lines sound together exactly when the earlier one still does at a sounding line's start. */
  lemma OverlapIsOngoing(es: seq<Entry>, i: nat, j: nat)
    requires Ascending(es) && i < j < |es|
    ensures Overlap(es, i, j) <==> i in Ongoing(es, j) && SoundsAt(es, j, es[j].start)
  {
    hide BusyUntil;
    if t :| SoundsAt(es, i, t) && SoundsAt(es, j, t) {
      assert SoundsAt(es, i, es[j].start);
    }
  }

  /** The lines without a length share voice 0, the others keep theirs. */
  function SilentTogether(es: seq<Entry>, voices: seq<nat>): (vs: seq<nat>)
    requires |voices| == |es|
    ensures |vs| == |es|
    ensures forall j :: 0 <= j < |es| ==> vs[j] == if SoundsAt(es, j, es[j].start) then voices[j] else 0
  {
    seq(|es|, j requires 0 <= j < |es| => if SoundsAt(es, j, es[j].start) then voices[j] else 0)
  }

  lemma SilentMayShare(es: seq<Entry>, voices: seq<nat>)
    requires Ascending(es) && NoOverlap(es, voices)
    ensures NeverTogether(es, voices) && NeverTogether(es, SilentTogether(es, voices))
  {
    hide BusyUntil, Ongoing;
    forall i, j | 0 <= i < j < |es| && Overlap(es, i, j)
      ensures voices[i] != voices[j] && SilentTogether(es, voices)[i] == voices[i] && SilentTogether(es, voices)[j] == voices[j]
    {
      OverlapIsOngoing(es, i, j);
      OngoingSounds(es, i, j);
    }
  }

  lemma OngoingSounds(es: seq<Entry>, i: nat, j: nat)
    requires j < |es| && i in Ongoing(es, j)
    ensures i < j && SoundsAt(es, i, es[i].start)
  {
  }

  /** Lines sounding together at the start of a sounding line need voices of their own. */
  lemma SoundingDepthIsNeeded(es: seq<Entry>, voices: seq<nat>, j: nat)
    requires Ascending(es) && NeverTogether(es, voices) && j < |es| && SoundsAt(es, j, es[j].start)
    ensures Depth(es, j) <= |Used(voices)|
  {
    hide BusyUntil;
    var together := Ongoing(es, j) + {j};
    forall x, y | x in together && y in together && x < y ensures voices[x] != voices[y] {
      assert SoundsAt(es, x, es[j].start) && SoundsAt(es, y, es[j].start);
      assert Overlap(es, x, y);
    }
    ImageSize(together, voices);
    SubsetLe((set x | x in together :: voices[x]), Used(voices));
  }

  /** Some line that has a length starts together with as many sounding lines as there are voices. */
  ghost predicate DeepestSounds(es: seq<Entry>, n: nat) {
    exists j :: 0 <= j < |es| && SoundsAt(es, j, es[j].start) && Depth(es, j) == n
  }

  /**
    Optimality by common instants: on ascending entries lines that sound together never share a voice,
    and no assignment that achieves this uses fewer voices, exactly when one voice is used or some line
    that has a length reaches the depth.  A line without a length takes a voice of its own as well.
   */
  lemma OptimalForCommonInstantsIff(es: seq<Entry>, top: nat)
    requires Ascending(es) && es != []
    requires top in Used(Voices(es)) && forall v :: v in Used(Voices(es)) ==> v <= top
    ensures NeverTogether(es, Voices(es))
    ensures (forall other :: NeverTogether(es, other) ==> top + 1 <= |Used(other)|) <==> top == 0 || DeepestSounds(es, top + 1)
  {
    hide BusyUntil, Ongoing, Depth;
    var voices := Voices(es);
    AllocatesLowestFree(es);
    LowestFreeNoOverlap(es, voices);
    SilentMayShare(es, voices);
    if DeepestSounds(es, top + 1) {
      var j :| 0 <= j < |es| && SoundsAt(es, j, es[j].start) && Depth(es, j) == top + 1;
      forall other | NeverTogether(es, other) ensures top + 1 <= |Used(other)| { SoundingDepthIsNeeded(es, other, j); }
    } else if top == 0 {
      forall other | NeverTogether(es, other) ensures 1 <= |Used(other)| { assert other[0] in Used(other); }
    } else {
      forall j | 0 <= j < |es| ensures Depth(es, j) <= top + 1 { DepthWithin(es, voices, j, top); }
      FewerSuffice(es, top);
    }
  }

  lemma DepthWithin(es: seq<Entry>, voices: seq<nat>, j: nat, top: nat)
    requires Ascending(es) && NoOverlap(es, voices) && j < |es| && forall v :: v in Used(voices) ==> v <= top
    ensures Depth(es, j) <= top + 1
  {
    DepthIsNeeded(es, voices, j);
    BelowSize(top + 1);
    SubsetLe(Used(voices), Below(top + 1));
  }

  lemma FewerSuffice(es: seq<Entry>, top: nat)
    requires Ascending(es) && top > 0 && !DeepestSounds(es, top + 1)
    requires forall v :: v in Used(Voices(es)) ==> v <= top
    requires LowestFree(es, Voices(es)) && NoOverlap(es, Voices(es))
    requires forall j :: 0 <= j < |es| ==> Depth(es, j) <= top + 1
    ensures |Used(SilentTogether(es, Voices(es)))| <= top
  {
    var vs := SilentTogether(es, Voices(es));
    forall v | v in Used(vs) ensures v in Below(top) {
      var j :| 0 <= j < |vs| && vs[j] == v;
      if SoundsAt(es, j, es[j].start) { LowestFreeBelowDepth(es, Voices(es), j); }
    }
    BelowSize(top);
    SubsetLe(Used(vs), Below(top));
  }

  // ----- starts that go back --------------------------------------------------------------

  function Starts(es: seq<Entry>): (ts: seq<int>)
    ensures |ts| == |es| && forall i :: 0 <= i < |es| ==> ts[i] == es[i].start
  {
    seq(|es|, i requires 0 <= i < |es| => es[i].start)
  }

  /** No start stands above both an earlier and a later one. */
  ghost predicate NoPeak(ts: seq<int>) {
    forall i, k, j :: 0 <= i < k < j < |ts| ==> ts[k] <= ts[i] || ts[k] <= ts[j]
  }

  /** Lines with these starts never share a voice while sounding together, whatever their ends. */
  ghost predicate NeverShared(ts: seq<int>) {
    forall es: seq<Entry> :: Starts(es) == ts ==> NeverTogether(es, Voices(es))
  }

  /** A line keeps its voice until some start reaches its end. */
  lemma {:induction false} KeepsVoice(es: seq<Entry>, i: nat, n: nat)
    requires i < n <= |es| && forall k :: i < k < n ==> es[k].start < BusyUntil(es, i)
    ensures var a := Allocate(es, n); a.voices[i] in a.active && a.active[a.voices[i]] == BusyUntil(es, i)
    decreases n
  {
    hide BusyUntil, FreeFrom;
    var a := Allocate(es, n - 1);
    FreeFromIsLowest(Purge(a.active, es[n - 1].start), 0);
    if i < n - 1 { KeepsVoice(es, i, n - 1); }
  }

  /** While a line keeps its voice and has not ended, no later one gets it. */
  lemma KeptVoiceIsNotTaken(es: seq<Entry>, i: nat, j: nat)
    requires i < j < |es| && forall k :: i < k <= j ==> es[k].start < BusyUntil(es, i)
    ensures Voices(es)[i] != Voices(es)[j]
  {
    hide BusyUntil, FreeFrom, Allocate;
    KeepsVoice(es, i, j);
    VoiceAt(es, j);
    assert Voices(es)[..j][i] == Voices(es)[i];
    FreeFromIsLowest(Purge(Allocate(es, j).active, es[j].start), 0);
  }

  function Least(ts: seq<int>): (m: int)
    requires ts != []
    ensures forall i :: 0 <= i < |ts| ==> m <= ts[i]
  {
    if |ts| == 1 then ts[0] else if ts[0] <= Least(ts[1..]) then ts[0] else Least(ts[1..])
  }

  /** Lines `i` and `j` lasting until `until`, every other one over before anything starts. */
  function TwoLong(ts: seq<int>, i: nat, j: nat, until: int): (es: seq<Entry>)
    requires ts != []
    ensures Starts(es) == ts && |es| == |ts|
    ensures forall x :: 0 <= x < |es| ==> BusyUntil(es, x) == if x == i || x == j then until else Least(ts)
  {
    var es := seq(|ts|, x requires 0 <= x < |ts| => Entry([], ts[x], Some(if x == i || x == j then until else Least(ts)), []));
    assert Starts(es) == ts;
    es
  }

  ghost predicate ActiveUpTo(es: seq<Entry>, n: nat, bound: int)
    requires n <= |es|
  {
    forall v :: v in Allocate(es, n).active ==> Allocate(es, n).active[v] <= bound
  }

  lemma {:induction false} ActiveBelow(es: seq<Entry>, from: nat, n: nat, bound: int)
    requires from <= n <= |es| && ActiveUpTo(es, from, bound)
    requires forall x :: from <= x < n ==> BusyUntil(es, x) <= bound
    ensures ActiveUpTo(es, n, bound)
    decreases n
  {
    hide BusyUntil, FreeFrom;
    if from < n {
      ActiveBelow(es, from, n - 1, bound);
      ActiveStep(es, n - 1);
    }
  }

  lemma NoneActive(es: seq<Entry>, bound: int)
    ensures ActiveUpTo(es, 0, bound)
  {
  }

  /** When everything active has ended, the next line takes voice 0 and is alone. */
  lemma AllEnded(es: seq<Entry>, n: nat)
    requires n < |es| && ActiveUpTo(es, n, es[n].start)
    ensures Voices(es)[n] == 0
    ensures Allocate(es, n + 1).active == map[0 := BusyUntil(es, n)]
  {
    hide BusyUntil;
    assert Purge(Allocate(es, n).active, es[n].start) == map[];
    VoiceAt(es, n);
    ActiveStep(es, n);
  }

  /** One peak is enough: two long lines around it sound together and both get voice 0. */
  lemma PeakShares(ts: seq<int>, i: nat, k: nat, j: nat)
    requires i < k < j < |ts| && ts[k] > ts[i] && ts[k] > ts[j]
    ensures var es := TwoLong(ts, i, j, ts[k]);
            Overlap(es, i, j) && Voices(es)[i] == 0 && Voices(es)[j] == 0
  {
    hide Allocate, BusyUntil, Purge, TwoLong, ActiveUpTo;
    var es, low := TwoLong(ts, i, j, ts[k]), Least(ts);
    StartsAre(ts, es);
    NoneActive(es, low);
    ActiveBelow(es, 0, i, low);
    ActiveIsOver(es, i, low);
    AllEnded(es, i);
    NoneActive(es, ts[k]);
    ActiveBelow(es, 0, k, ts[k]);
    AllEnded(es, k);
    OnlyActive(es, k + 1, low);
    ActiveBelow(es, k + 1, j, low);
    ActiveIsOver(es, j, low);
    AllEnded(es, j);
    var t := if ts[i] < ts[j] then ts[j] else ts[i];
    assert SoundsAt(es, i, t) && SoundsAt(es, j, t);
  }

  lemma StartsAre(ts: seq<int>, es: seq<Entry>)
    requires Starts(es) == ts && |es| == |ts|
    ensures forall i :: 0 <= i < |es| ==> es[i].start == ts[i]
  {
    assert forall i :: 0 <= i < |es| ==> Starts(es)[i] == es[i].start;
  }

  lemma ActiveIsOver(es: seq<Entry>, n: nat, low: int)
    requires n < |es| && ActiveUpTo(es, n, low) && low <= es[n].start
    ensures ActiveUpTo(es, n, es[n].start)
  {
  }

  lemma OnlyActive(es: seq<Entry>, n: nat, end: int)
    requires n <= |es| && Allocate(es, n).active == map[0 := end]
    ensures ActiveUpTo(es, n, end)
  {
  }

  /**
    Lines that sound together never share a voice, whatever their ends, exactly when no start stands
    above both an earlier and a later one.
   */
  lemma NeverSharedIff(ts: seq<int>)
    ensures NeverShared(ts) <==> NoPeak(ts)
  {
    hide BusyUntil;
    if NoPeak(ts) {
      forall es: seq<Entry> | Starts(es) == ts ensures NeverTogether(es, Voices(es)) {
        forall i, j | 0 <= i < j < |es| && Overlap(es, i, j) ensures Voices(es)[i] != Voices(es)[j] {
          StartsAre(ts, es);
          var t :| SoundsAt(es, i, t) && SoundsAt(es, j, t);
          assert forall k :: i < k < j ==> ts[k] <= ts[i] || ts[k] <= ts[j];
          KeptVoiceIsNotTaken(es, i, j);
        }
      }
    } else {
      var i, k, j :| 0 <= i < k < j < |ts| && ts[k] > ts[i] && ts[k] > ts[j];
      PeakShares(ts, i, k, j);
    }
  }

  /** Lines [0, 10), [10, 10) and [5, 10): the first and the last sound together on one voice. */
  lemma BackwardStartShares() returns (es: seq<Entry>)
    ensures Starts(es) == [0, 10, 5] && Overlap(es, 0, 2) && Voices(es)[0] == Voices(es)[2]
  {
    PeakShares([0, 10, 5], 0, 1, 2);
    es := TwoLong([0, 10, 5], 0, 2, 10);
  }
}
