/**
 * The "conglomerate beat" check of a metrical hypothesis
 * (src/metdetection/meter/lpcfg/MetricalLpcfgMetricalModelState.java, checkConglomerateBeatMatch):
 * the notes of one voice that fall in the beat of its first unchecked note are painted into a
 * one-beat quantum array, and the beat level is matched when they fill the beat exactly, with
 * at least two notes whose boxed lengths differ: lengths that are unequal, or equal but 128 or
 * more, since the lengths are compared as `Integer` objects.
 */
module Conglomerates {
  import opened JavaInt
  import opened Beats
  import opened MidiNotes
  import opened QuantumRuns
  import opened LpcfgTrees
  import opened MetricalMatches
  import TreeFactory

  /** A note as a span of tacti: its start and its length. */
  datatype Span = Span(start: int, length: int)

  /**
   * The span of a note in the tacti of a hypothesis: the tactus of its onset beat moved back by
   * the anacrusis, and at least one tactus long.
   */
  function NoteTacti(n: MidiNote, beats: seq<Beat>, tactiPerMeasure: int, g: Geometry): (s: Span)
    requires GeometryValid(g) && TreeFactory.NoteFits(n, beats)
    ensures s.length >= 1
  {
    var onsetBeat := OnsetBeat(n, beats);
    var offsetBeat := OffsetBeat(n, beats);
    var startTactus := TactusNormalized(tactiPerMeasure, beats[0], onsetBeat.measure, onsetBeat.beat);
    var endTactus := TactusNormalized(tactiPerMeasure, beats[0], offsetBeat.measure, offsetBeat.beat);
    var length := if endTactus - startTactus > 1 then endTactus - startTactus else 1;
    Span(startTactus - g.anacrusis * g.subBeatLength, length)
  }

  /** The span the conglomerate check uses: also moved forward by the anacrusis' partial beat. */
  function BeatSpan(n: MidiNote, beats: seq<Beat>, tactiPerMeasure: int, g: Geometry): (s: Span)
    requires GeometryValid(g) && TreeFactory.NoteFits(n, beats)
    ensures s.length == NoteTacti(n, beats, tactiPerMeasure, g).length
    ensures s.start == NoteTacti(n, beats, tactiPerMeasure, g).start + PartialBeatShift(g)
  {
    var s := NoteTacti(n, beats, tactiPerMeasure, g);
    Span(s.start + PartialBeatShift(g), s.length)
  }

  /** The number of the beat that holds the last beat of the tracker, in the same tacti. */
  function LastBeatNum(beats: seq<Beat>, tactiPerMeasure: int, g: Geometry): int
    requires GeometryValid(g) && |beats| > 0
  {
    var last := beats[|beats| - 1];
    var lastTactus := TactusNormalized(tactiPerMeasure, beats[0], last.measure, last.beat);
    JDiv(lastTactus - g.anacrusis * g.subBeatLength + PartialBeatShift(g), BeatLength(g))
  }

  // ---------------------------------------------------------------------------
  // Painting the beat

  /**
   * One note painted into the tracking array: ONSET at its offset and TIE over the rest of
   * its length inside the array, everything else as it was.
   */
  function Paint(q: seq<Quantum>, offset: int, len: int): (r: seq<Quantum>)
    requires 0 <= offset < |q|
    ensures |r| == |q| && r[offset] == Onset
    ensures forall j :: 0 <= j < |q| && j != offset ==>
      r[j] == (if offset < j < offset + len then Tie else q[j])
  {
    seq(|q|, j requires 0 <= j < |q| => if j == offset then Onset else if offset < j < offset + len then Tie else q[j])
  }

  /** The outcome of scanning the notes after the first: the array, how many notes joined the
   *  beat, and whether a note of a later beat stopped the scan. */
  datatype Scan = Scan(quantums: seq<Quantum>, consumed: nat, stopped: bool)

  /**
   * The scan of the later notes: each note in beat `beatNum` is painted at its offset; the
   * first note of another beat stops the scan, and marks the boundary slot with an ONSET when
   * it starts exactly on a beat. A note of the same beat at a negative offset is an array
   * index Java rejects, given as `None`.
   */
  function ScanBeat(q: seq<Quantum>, spans: seq<Span>, beatNum: int, bl: int): (r: Option<Scan>)
    requires bl > 0 && |q| == bl + 1
    ensures r.Some? ==> |r.value.quantums| == bl + 1 && r.value.consumed <= |spans|
    ensures r.Some? && r.value.stopped ==> r.value.consumed < |spans|
    ensures r.Some? && !r.value.stopped ==> r.value.consumed == |spans|
    decreases |spans|
  {
    if |spans| == 0 then Some(Scan(q, 0, false))
    else
      var s := spans[0];
      var offset := JRem(s.start, bl);
      if JDiv(s.start, bl) != beatNum then
        Some(Scan(if offset == 0 then q[bl := Onset] else q, 0, true))
      else if offset < 0 then None
      else
        match ScanBeat(Paint(q, offset, s.length), spans[1..], beatNum, bl)
        case None => None
        case Some(r) => Some(r.(consumed := r.consumed + 1))
  }

  /** The positions in `q[..t]` that hold an ONSET, in order. */
  function OnsetsTo(q: seq<Quantum>, t: int): (os: seq<int>)
    requires 0 <= t <= |q|
    ensures forall i :: 0 <= i < |os| ==> 0 <= os[i] < t && q[os[i]] == Onset
    ensures forall i, j :: 0 <= i < j < |os| ==> os[i] < os[j]
    ensures forall k :: 0 <= k < t && q[k] == Onset ==> k in os
  {
    if t == 0 then [] else OnsetsTo(q, t - 1) + (if q[t - 1] == Onset then [t - 1] else [])
  }

  /** The length of each note of the beat: from its onset to the next, the last to the boundary. */
  function Lengths(onsets: seq<int>, bl: int): (ls: seq<int>)
    requires |onsets| > 0
    ensures |ls| == |onsets|
  {
    seq(|onsets|, k requires 0 <= k < |onsets| =>
      if k + 1 < |onsets| then onsets[k + 1] - onsets[k] else bl - onsets[k])
  }

  predicate AllEqual(ls: seq<int>)
  {
    forall i :: 1 <= i < |ls| ==> ls[i] == ls[i - 1]
  }

  /** Autoboxing (`Integer.valueOf`) shares one object per value only from -128 to 127, the
   *  default cache; every other value is boxed into a fresh object. */
  predicate Cached(n: int)
  {
    -128 <= n <= 127
  }

  /** `!=` on two separately boxed `Integer`s compares references: unequal values always differ,
   *  and equal values differ too unless they are cached. */
  predicate BoxesDiffer(a: int, b: int)
  {
    a != b || !Cached(a)
  }

  /** No two neighbouring boxed lengths differ by reference. */
  predicate SameBoxes(ls: seq<int>)
  {
    forall i :: 1 <= i < |ls| ==> !BoxesDiffer(ls[i], ls[i - 1])
  }

  /** The boxed comparison finds no difference exactly when the lengths are all equal and, if
   *  there are two or more, cached. */
  lemma SameBoxesIff(ls: seq<int>)
    ensures SameBoxes(ls) <==> AllEqual(ls) && (|ls| >= 2 ==> Cached(ls[0]))
  {
    if AllEqual(ls) && |ls| >= 2 && Cached(ls[0]) {
      forall i | 1 <= i < |ls|
        ensures !BoxesDiffer(ls[i], ls[i - 1])
      {
        EqualToFirst(ls, i);
      }
    }
    if SameBoxes(ls) && |ls| >= 2 {
      assert !BoxesDiffer(ls[1], ls[0]);
    }
  }

  predicate NoRest(q: seq<Quantum>, bl: int)
    requires 0 <= bl <= |q|
  {
    forall t :: 0 <= t < bl ==> q[t] != Rest
  }

  /**
   * A painted beat that makes a conglomerate BEAT match: no note is tied over the boundary, no
   * REST inside the beat, at least two onsets, and boxed note lengths of which some neighbours
   * differ by reference.
   */
  predicate BeatPattern(q: seq<Quantum>, bl: int)
    requires 0 <= bl < |q|
  {
    var onsets := OnsetsTo(q, bl);
    q[bl] != Tie && NoRest(q, bl) && |onsets| >= 2 && !SameBoxes(Lengths(onsets, bl))
  }

  function Sum(ls: seq<int>): int
  {
    if |ls| == 0 then 0 else Sum(ls[..|ls| - 1]) + ls[|ls| - 1]
  }

  /**
   * The lengths of a beat's notes are positive and add up to the part of the beat from the
   * first onset to the boundary.
   */
  lemma {:induction false} LengthsTile(q: seq<Quantum>, bl: int)
    requires 0 <= bl <= |q| && |OnsetsTo(q, bl)| > 0
    ensures var os := OnsetsTo(q, bl);
      (forall k :: 0 <= k < |os| ==> Lengths(os, bl)[k] > 0) && Sum(Lengths(os, bl)) == bl - os[0]
  {
    var os := OnsetsTo(q, bl);
    SumOfGaps(os, bl, |os|);
    assert Lengths(os, bl)[..|os|] == Lengths(os, bl);
  }

  /** The first `n` lengths add up to the gap from the first onset to the `n`-th boundary. */
  lemma {:induction false} SumOfGaps(os: seq<int>, bl: int, n: int)
    requires 0 < n <= |os|
    ensures Sum(Lengths(os, bl)[..n]) == (if n < |os| then os[n] else bl) - os[0]
  {
    var ls := Lengths(os, bl);
    if n > 1 {
      SumOfGaps(os, bl, n - 1);
      assert ls[..n][..n - 1] == ls[..n - 1];
    } else {
      assert ls[..1][..0] == [];
    }
    if n == |os| {
      assert ls[..n] == ls;
    }
  }

  /**
   * Lengths the boxed comparison finds the same are an even subdivision: notes starting on the
   * beat divide it into that many equal parts, each shorter than 128 tacti when there are two
   * or more. Only then does the check score no conglomerate match.
   */
  lemma EvenSubdivision(q: seq<Quantum>, bl: int)
    requires 0 <= bl <= |q| && |OnsetsTo(q, bl)| > 0 && OnsetsTo(q, bl)[0] == 0
    requires SameBoxes(Lengths(OnsetsTo(q, bl), bl))
    ensures var os := OnsetsTo(q, bl);
      |os| * Lengths(os, bl)[0] == bl && (|os| >= 2 ==> Lengths(os, bl)[0] <= 127)
  {
    var os := OnsetsTo(q, bl);
    var ls := Lengths(os, bl);
    SameBoxesIff(ls);
    LengthsTile(q, bl);
    ConstantSum(ls, |ls|);
    assert ls[..|ls|] == ls;
  }

  /**
   * Equal lengths of 128 or more still match: their boxes are distinct objects, so a beat
   * evenly divided into such notes is a BEAT pattern.
   */
  lemma LargeEqualLengthsMatch(q: seq<Quantum>, bl: int)
    requires 0 <= bl < |q| && q[bl] != Tie && NoRest(q, bl) && |OnsetsTo(q, bl)| >= 2
    requires AllEqual(Lengths(OnsetsTo(q, bl), bl)) && Lengths(OnsetsTo(q, bl), bl)[0] >= 128
    ensures BeatPattern(q, bl)
  {
    SameBoxesIff(Lengths(OnsetsTo(q, bl), bl));
  }

  lemma {:induction false} ConstantSum(ls: seq<int>, n: int)
    requires 0 < n <= |ls| && AllEqual(ls)
    ensures Sum(ls[..n]) == n * ls[0]
  {
    if n > 1 {
      ConstantSum(ls, n - 1);
      assert ls[..n][..n - 1] == ls[..n - 1];
      EqualToFirst(ls, n - 1);
    } else {
      assert ls[..1][..0] == [];
    }
  }

  lemma {:induction false} EqualToFirst(ls: seq<int>, k: int)
    requires AllEqual(ls) && 0 <= k < |ls|
    ensures ls[k] == ls[0]
  {
    if k > 0 {
      EqualToFirst(ls, k - 1);
    }
  }

  // ---------------------------------------------------------------------------
  // One check

  /** `s` is what is left of `t` after dropping some notes at its front. */
  predicate IsSuffix(s: seq<MidiNote>, t: seq<MidiNote>)
  {
    |s| <= |t| && s == t[|t| - |s|..]
  }

  /** The outcome of one check: whether to check the voice again, its notes left to check, and
   *  whether a BEAT match was found. */
  datatype Check = Check(again: bool, remaining: seq<MidiNote>, matched: bool)

  predicate AllFit(notes: seq<MidiNote>, beats: seq<Beat>)
  {
    forall i :: 0 <= i < |notes| ==> TreeFactory.NoteFits(notes[i], beats)
  }

  function BeatSpans(notes: seq<MidiNote>, beats: seq<Beat>, tactiPerMeasure: int, g: Geometry): (ss: seq<Span>)
    requires GeometryValid(g) && AllFit(notes, beats)
    ensures |ss| == |notes|
    ensures forall i :: 0 <= i < |notes| ==> ss[i] == BeatSpan(notes[i], beats, tactiPerMeasure, g)
  {
    seq(|notes|, i requires 0 <= i < |notes| => BeatSpan(notes[i], beats, tactiPerMeasure, g))
  }

  /**
   * `checkConglomerateBeatMatch(voiceNotes)`. With no notes, or while the first note's beat is
   * the tracker's last, nothing happens and the voice is not checked again. A first note off
   * the beat grid is dropped. Otherwise the first note and the later notes of its beat are
   * dropped and painted; a BEAT match ends the checking of the voice, and any other outcome
   * checks it again when a note beyond the one that stopped the scan remains. `None` is the
   * array index Java rejects.
   */
  function Conglomerate(notes: seq<MidiNote>, beats: seq<Beat>, tactiPerMeasure: int, g: Geometry)
    : (r: Option<Check>)
    requires GeometryValid(g) && |beats| > 0 && AllFit(notes, beats)
    ensures r.Some? ==> IsSuffix(r.value.remaining, notes)
    ensures r.Some? && r.value.again ==> |r.value.remaining| < |notes|
    ensures r.Some? && r.value.matched ==> !r.value.again
  {
    if |notes| == 0 then Some(Check(false, notes, false))
    else
      var bl := BeatLength(g);
      var spans := BeatSpans(notes, beats, tactiPerMeasure, g);
      var first := spans[0];
      var firstBeatNum := JDiv(first.start, bl);
      if firstBeatNum == LastBeatNum(beats, tactiPerMeasure, g) then
        Some(Check(false, notes, false))
      else if JRem(first.start, bl) != 0 then
        Some(Check(|notes| > 1, notes[1..], false))
      else
        PaintedCheck(notes, spans, bl)
  }

  /** The check once its first note starts a beat: that note painted, the later notes of its
   *  beat scanned, and the outcome judged. */
  function PaintedCheck(notes: seq<MidiNote>, spans: seq<Span>, bl: int): Option<Check>
    requires |notes| > 0 && |spans| == |notes| && bl > 0
  {
    var first := spans[0];
    Judge(notes, ScanBeat(Paint(TreeFactory.Rests(bl + 1), 0, first.length), spans[1..], JDiv(first.start, bl), bl), bl)
  }

  /** The end of a check whose first note was painted and whose later notes were scanned. */
  function Judge(notes: seq<MidiNote>, scan: Option<Scan>, bl: int): (r: Option<Check>)
    requires |notes| > 0 && bl > 0
    requires scan.Some? ==> |scan.value.quantums| == bl + 1 && scan.value.consumed < |notes|
    requires scan.Some? && !scan.value.stopped ==> scan.value.consumed == |notes| - 1
    ensures r.Some? ==> IsSuffix(r.value.remaining, notes) && |r.value.remaining| < |notes|
    ensures r.Some? && r.value.matched ==> !r.value.again
  {
    match scan
    case None => None
    case Some(sc) =>
      var remaining := notes[1 + sc.consumed..];
      if BeatPattern(sc.quantums, bl) then Some(Check(false, remaining, true))
      else Some(Check(sc.stopped && 2 + sc.consumed < |notes|, remaining, false))
  }

  /** A suffix of notes that all fit the beats fits them too. */
  lemma SuffixFits(s: seq<MidiNote>, t: seq<MidiNote>, beats: seq<Beat>)
    requires IsSuffix(s, t) && AllFit(t, beats)
    ensures AllFit(s, beats)
  {
    var k := |t| - |s|;
    forall i | 0 <= i < |s| ensures TreeFactory.NoteFits(s[i], beats) {
      assert s[i] == t[k + i];
    }
  }

  /** A suffix of a suffix is a suffix. */
  lemma SuffixTransitive(r: seq<MidiNote>, s: seq<MidiNote>, t: seq<MidiNote>)
    requires IsSuffix(r, s) && IsSuffix(s, t)
    ensures IsSuffix(r, t)
  {
    assert r == t[|t| - |s|..][|s| - |r|..];
  }

  /** `while (checkConglomerateBeatMatch(voice));`: check one voice until told to stop. */
  function DrainVoice(notes: seq<MidiNote>, beats: seq<Beat>, tactiPerMeasure: int, g: Geometry)
    : (r: Option<Check>)
    requires GeometryValid(g) && |beats| > 0 && AllFit(notes, beats)
    ensures r.Some? ==> !r.value.again && IsSuffix(r.value.remaining, notes)
    decreases |notes|
  {
    match Conglomerate(notes, beats, tactiPerMeasure, g)
    case None => None
    case Some(c) =>
      if c.again then
        SuffixFits(c.remaining, notes, beats);
        match DrainVoice(c.remaining, beats, tactiPerMeasure, g)
        case None => None
        case Some(d) =>
          SuffixTransitive(d.remaining, c.remaining, notes);
          Some(d)
      else Some(c)
  }

  /** The notes after the first fit the beats, and their spans are the later spans. */
  lemma TailSpans(notes: seq<MidiNote>, beats: seq<Beat>, tactiPerMeasure: int, g: Geometry)
    requires GeometryValid(g) && AllFit(notes, beats) && |notes| > 0
    ensures AllFit(notes[1..], beats)
    ensures BeatSpans(notes[1..], beats, tactiPerMeasure, g) == BeatSpans(notes, beats, tactiPerMeasure, g)[1..]
  {
    SuffixFits(notes[1..], notes, beats);
  }

  /** The case of `Conglomerate` in which the first note starts a beat before the last. */
  lemma ConglomeratePainted(notes: seq<MidiNote>, beats: seq<Beat>, tactiPerMeasure: int, g: Geometry,
                             bl: int, first: Span, firstBeatNum: int)
    requires GeometryValid(g) && |beats| > 0 && AllFit(notes, beats) && |notes| > 0
    requires bl == BeatLength(g) && first == BeatSpan(notes[0], beats, tactiPerMeasure, g)
    requires firstBeatNum == JDiv(first.start, bl) && firstBeatNum != LastBeatNum(beats, tactiPerMeasure, g)
    requires JRem(first.start, bl) == 0
    ensures Conglomerate(notes, beats, tactiPerMeasure, g)
      == PaintedCheck(notes, BeatSpans(notes, beats, tactiPerMeasure, g), bl)
  {
  }

  // ---------------------------------------------------------------------------
  // The check, on an array

  /** Paint one note into the tracking array in place. */
  method PaintInto(quantums: array<Quantum>, offset: int, len: int)
    requires 0 <= offset < quantums.Length
    modifies quantums
    ensures quantums[..] == Paint(old(quantums[..]), offset, len)
  {
    quantums[offset] := Onset;
    var tactus := offset + 1;
    while tactus - offset < len && tactus < quantums.Length
      invariant offset + 1 <= tactus <= quantums.Length
      invariant tactus == offset + 1 || tactus <= offset + len
      invariant forall j :: 0 <= j < quantums.Length ==>
        quantums[j] == (if j == offset then Onset
                        else if offset < j < tactus then Tie
                        else old(quantums[j]))
      decreases quantums.Length - tactus
    {
      quantums[tactus] := Tie;
      tactus := tactus + 1;
    }
    assert forall j :: 0 <= j < quantums.Length ==> quantums[j] == Paint(old(quantums[..]), offset, len)[j];
    assert quantums[..] == Paint(old(quantums[..]), offset, len);
  }

  /** One step of the scan, unfolded. */
  lemma ScanStep(q: seq<Quantum>, spans: seq<Span>, beatNum: int, bl: int)
    requires bl > 0 && |q| == bl + 1 && |spans| > 0
    requires JDiv(spans[0].start, bl) == beatNum && JRem(spans[0].start, bl) >= 0
    ensures JRem(spans[0].start, bl) < |q|
    ensures ScanBeat(q, spans, beatNum, bl)
            == Bump(ScanBeat(Paint(q, JRem(spans[0].start, bl), spans[0].length), spans[1..], beatNum, bl))
  {
  }

  /** A note of another beat stops the scan. */
  lemma ScanStop(q: seq<Quantum>, spans: seq<Span>, beatNum: int, bl: int)
    requires bl > 0 && |q| == bl + 1 && |spans| > 0 && JDiv(spans[0].start, bl) != beatNum
    ensures ScanBeat(q, spans, beatNum, bl)
            == Some(Scan(if JRem(spans[0].start, bl) == 0 then q[bl := Onset] else q, 0, true))
  {
  }

  /** A note of the same beat at a negative offset is rejected. */
  lemma ScanNegative(q: seq<Quantum>, spans: seq<Span>, beatNum: int, bl: int)
    requires bl > 0 && |q| == bl + 1 && |spans| > 0
    requires JDiv(spans[0].start, bl) == beatNum && JRem(spans[0].start, bl) < 0
    ensures ScanBeat(q, spans, beatNum, bl).None?
  {
  }

  /** A scan result with one more note consumed. */
  function Bump(r: Option<Scan>): Option<Scan>
  {
    match r
    case None => None
    case Some(s) => Some(s.(consumed := s.consumed + 1))
  }

  function BumpBy(r: Option<Scan>, n: nat): Option<Scan>
  {
    match r
    case None => None
    case Some(s) => Some(s.(consumed := s.consumed + n))
  }

  lemma BumpByBump(r: Option<Scan>, n: nat)
    ensures BumpBy(Bump(r), n) == BumpBy(r, n + 1)
  {
  }

  /**
   * The scan loop of `checkConglomerateBeatMatch` over the notes after the first, painting into
   * the array; `ok` is false at the negative array index.
   */
  method ScanInto(quantums: array<Quantum>, notes: seq<MidiNote>, beats: seq<Beat>, tactiPerMeasure: int,
                  g: Geometry, beatNum: int) returns (ok: bool, consumed: nat, stopped: bool)
    requires GeometryValid(g) && AllFit(notes, beats) && quantums.Length == BeatLength(g) + 1
    modifies quantums
    ensures var r := ScanBeat(old(quantums[..]), BeatSpans(notes, beats, tactiPerMeasure, g), beatNum, BeatLength(g));
      ok == r.Some? && (ok ==> r.value == Scan(quantums[..], consumed, stopped))
  {
    var bl := BeatLength(g);
    ghost var spans := BeatSpans(notes, beats, tactiPerMeasure, g);
    ghost var whole := ScanBeat(quantums[..], spans, beatNum, bl);
    assert spans[0..] == spans;
    var i := 0;
    while i < |notes|
      invariant 0 <= i <= |notes|
      invariant whole == BumpBy(ScanBeat(quantums[..], spans[i..], beatNum, bl), i)
    {
      var s := BeatSpan(notes[i], beats, tactiPerMeasure, g);
      var offset := JRem(s.start, bl);
      assert spans[i..][0] == s;
      if JDiv(s.start, bl) != beatNum {
        ScanStop(quantums[..], spans[i..], beatNum, bl);
        if offset == 0 {
          quantums[bl] := Onset;
        }
        return true, i, true;
      }
      if offset < 0 {
        ScanNegative(quantums[..], spans[i..], beatNum, bl);
        return false, 0, false;
      }
      ghost var before := quantums[..];
      ScanStep(before, spans[i..], beatNum, bl);
      assert spans[i..][1..] == spans[i + 1..];
      PaintInto(quantums, offset, s.length);
      BumpByBump(ScanBeat(quantums[..], spans[i + 1..], beatNum, bl), i);
      i := i + 1;
    }
    return true, i, false;
  }

  /** The onset loop: `noRest` is false at the first REST, else `onsets` are the ONSET slots. */
  method CollectOnsets(quantums: array<Quantum>, bl: int) returns (noRest: bool, onsets: seq<int>)
    requires 0 <= bl <= quantums.Length
    ensures noRest == NoRest(quantums[..], bl)
    ensures noRest ==> onsets == OnsetsTo(quantums[..], bl)
  {
    onsets := [];
    for tactus := 0 to bl
      invariant NoRest(quantums[..], tactus)
      invariant onsets == OnsetsTo(quantums[..], tactus)
    {
      if quantums[tactus] == Rest {
        return false, onsets;
      }
      if quantums[tactus] == Onset {
        onsets := onsets + [tactus];
      }
    }
    noRest := true;
  }

  /** The length loop: the gaps between onsets, then the gap to the boundary. */
  method NoteLengths(onsets: seq<int>, bl: int) returns (lengths: seq<int>)
    requires |onsets| > 0
    ensures lengths == Lengths(onsets, bl)
  {
    lengths := [];
    for i := 1 to |onsets|
      invariant |lengths| == i - 1
      invariant forall k :: 0 <= k < i - 1 ==> lengths[k] == onsets[k + 1] - onsets[k]
    {
      lengths := lengths + [onsets[i] - onsets[i - 1]];
    }
    lengths := lengths + [bl - onsets[|onsets| - 1]];
  }

  /** The comparison loop: whether two neighbouring boxed lengths differ by reference. */
  method SomeLengthDiffers(lengths: seq<int>) returns (differs: bool)
    requires |lengths| > 0
    ensures differs == !SameBoxes(lengths)
    ensures differs <==> !AllEqual(lengths) || (|lengths| >= 2 && !Cached(lengths[0]))
  {
    SameBoxesIff(lengths);
    for i := 1 to |lengths|
      invariant forall k :: 1 <= k < i ==> !BoxesDiffer(lengths[k], lengths[k - 1])
    {
      if BoxesDiffer(lengths[i], lengths[i - 1]) {
        return true;
      }
    }
    return false;
  }

  /** The final tests on a painted beat: the BEAT-match pattern. */
  method IsBeatPattern(quantums: array<Quantum>, bl: int) returns (matched: bool)
    requires 0 <= bl < quantums.Length
    ensures matched == BeatPattern(quantums[..], bl)
  {
    if quantums[bl] == Tie {
      return false;
    }
    var noRest, onsets := CollectOnsets(quantums, bl);
    if !noRest || |onsets| < 2 {
      return false;
    }
    var lengths := NoteLengths(onsets, bl);
    matched := SomeLengthDiffers(lengths);
  }

  /**
   * `checkConglomerateBeatMatch(voiceNotes)` on a one-beat tracking array: the check's outcome
   * as `Conglomerate` gives it, with `ok` false where Java rejects an array index.
   */
  method CheckConglomerateBeatMatch(notes: seq<MidiNote>, beats: seq<Beat>, tactiPerMeasure: int, g: Geometry)
    returns (ok: bool, check: Check)
    requires GeometryValid(g) && |beats| > 0 && AllFit(notes, beats)
    ensures var r := Conglomerate(notes, beats, tactiPerMeasure, g);
      ok == r.Some? && (ok ==> check == r.value)
  {
    if |notes| == 0 {
      return true, Check(false, notes, false);
    }
    var bl := BeatLength(g);
    var first := BeatSpan(notes[0], beats, tactiPerMeasure, g);
    var firstBeatNum := JDiv(first.start, bl);
    if firstBeatNum == LastBeatNum(beats, tactiPerMeasure, g) {
      return true, Check(false, notes, false);
    }
    if JRem(first.start, bl) != 0 {
      return true, Check(|notes| > 1, notes[1..], false);
    }
    ConglomeratePainted(notes, beats, tactiPerMeasure, g, bl, first, firstBeatNum);
    ok, check := CheckPainted(notes, beats, tactiPerMeasure, g, first, firstBeatNum);
  }

  /** `checkConglomerateBeatMatch` once its first note starts a beat before the tracker's last:
   *  paint that note, scan the rest of its beat, and judge the pattern. */
  method CheckPainted(notes: seq<MidiNote>, beats: seq<Beat>, tactiPerMeasure: int, g: Geometry,
                      first: Span, firstBeatNum: int) returns (ok: bool, check: Check)
    requires GeometryValid(g) && |beats| > 0 && AllFit(notes, beats) && |notes| > 0
    requires first == BeatSpan(notes[0], beats, tactiPerMeasure, g)
    requires firstBeatNum == JDiv(first.start, BeatLength(g))
    ensures var r := PaintedCheck(notes, BeatSpans(notes, beats, tactiPerMeasure, g), BeatLength(g));
      ok == r.Some? && (ok ==> check == r.value)
  {
    var bl := BeatLength(g);
    var quantums := new Quantum[bl + 1](_ => Rest);
    assert quantums[..] == TreeFactory.Rests(bl + 1);
    PaintInto(quantums, 0, first.length);
    var rest := notes[1..];
    TailSpans(notes, beats, tactiPerMeasure, g);
    ghost var spans := BeatSpans(notes, beats, tactiPerMeasure, g);
    ghost var scan := ScanBeat(quantums[..], spans[1..], firstBeatNum, bl);
    assert spans[0] == first;
    assert PaintedCheck(notes, spans, bl) == Judge(notes, scan, bl);
    var scanned, consumed, stopped := ScanInto(quantums, rest, beats, tactiPerMeasure, g, firstBeatNum);
    if !scanned {
      return false, Check(false, notes, false);
    }
    assert scan == Some(Scan(quantums[..], consumed, stopped));
    check := JudgeInto(quantums, notes, bl, consumed, stopped);
    ok := true;
  }

  /** The end of `checkConglomerateBeatMatch` once the beat is painted: the pattern test and
   *  the notes left over. */
  method JudgeInto(quantums: array<Quantum>, notes: seq<MidiNote>, bl: int, consumed: nat, stopped: bool)
    returns (check: Check)
    requires |notes| > 0 && bl > 0 && quantums.Length == bl + 1 && consumed < |notes|
    requires !stopped ==> consumed == |notes| - 1
    ensures Judge(notes, Some(Scan(quantums[..], consumed, stopped)), bl) == Some(check)
  {
    var remaining := notes[1 + consumed..];
    var matched := IsBeatPattern(quantums, bl);
    if matched {
      check := Check(false, remaining, true);
    } else {
      check := Check(stopped && 2 + consumed < |notes|, remaining, false);
    }
  }

  /** `while (checkConglomerateBeatMatch(voiceNotes));`: the last check's outcome, or `ok` false
   *  where one of the checks throws. */
  method DrainVoiceChecks(notes: seq<MidiNote>, beats: seq<Beat>, tactiPerMeasure: int, g: Geometry)
    returns (ok: bool, check: Check)
    requires GeometryValid(g) && |beats| > 0 && AllFit(notes, beats)
    ensures var r := DrainVoice(notes, beats, tactiPerMeasure, g);
      ok == r.Some? && (ok ==> check == r.value)
  {
    var voiceNotes := notes;
    ok, check := CheckConglomerateBeatMatch(voiceNotes, beats, tactiPerMeasure, g);
    while ok && check.again
      invariant AllFit(voiceNotes, beats)
      invariant DrainVoice(voiceNotes, beats, tactiPerMeasure, g) == DrainVoice(notes, beats, tactiPerMeasure, g)
      invariant var r := Conglomerate(voiceNotes, beats, tactiPerMeasure, g);
        ok == r.Some? && (ok ==> check == r.value)
      decreases |voiceNotes|
    {
      SuffixFits(check.remaining, voiceNotes, beats);
      voiceNotes := check.remaining;
      ok, check := CheckConglomerateBeatMatch(voiceNotes, beats, tactiPerMeasure, g);
    }
  }
}
