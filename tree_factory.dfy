/**
 * Building the grammar tree of one measure of one voice
 * (src/metdetection/meter/lpcfg/MetricalLpcfgTreeFactory.java): notes are painted onto a
 * measure-sized REST array, which is cut into beats and sub-beats.
 */
module TreeFactory {
  import opened JavaInt
  import opened QuantumRuns
  import opened Terminals
  import opened Beats
  import opened MidiNotes
  import opened LpcfgTrees

  /**
   * What the nonterminal class computes and is not part of this model: the type a new
   * nonterminal starts with, the type `fixChildrenTypes` gives child `i` of a child list, and
   * the transition string and head derived from a finished child list.
   */
  datatype Annotator = Annotator(
    newType: Level -> string,
    childType: (seq<Node>, int) -> string,
    transitionOf: seq<Node> -> string,
    headOf: (Level, seq<Node>) -> Head)

  // ---------------------------------------------------------------------------
  // Painting notes onto the quantum array

  function Rests(n: nat): (s: seq<Quantum>)
    ensures |s| == n && forall i :: 0 <= i < n ==> s[i] == Rest
  {
    seq(n, _ => Rest)
  }

  /** `addQuantum`: the slot takes the new value unless it holds an ONSET. */
  function Put(s: seq<Quantum>, q: Quantum, index: int): (r: seq<Quantum>)
    requires 0 <= index < |s|
    ensures |r| == |s| && r[index] == (if s[index] == Onset then Onset else q)
    ensures forall j :: 0 <= j < |s| && j != index ==> r[j] == s[j]
  {
    if s[index] == Onset then s else s[index := q]
  }

  /** The first index at or after `from` holding beat `b`. */
  function FirstIndexOf(beats: seq<Beat>, b: Beat, from: nat): (i: int)
    requires from <= |beats| && b in beats[from..]
    ensures from <= i < |beats| && beats[i] == b
    ensures forall j :: from <= j < i ==> beats[j] != b
    decreases |beats| - from
  {
    if beats[from] == b then from
    else
      assert b in beats[from + 1..] by {
        var k :| from <= k < |beats| && beats[k] == b;
        assert beats[from + 1..][k - from - 1] == b;
      }
      FirstIndexOf(beats, b, from + 1)
  }

  /** Where the TIE loop of `addNote` started at `i` stops: at the window end, at the end of
   *  the beats, or at the offset beat, whichever comes first. */
  function TieEnd(beats: seq<Beat>, i: int, last: int, offsetBeat: Beat): (e: int)
    requires 0 <= i <= |beats|
    ensures i <= e <= |beats|
    ensures e >= last || e == |beats| || beats[e] == offsetBeat
    ensures e == i || e <= last
    ensures forall k :: i <= k < e ==> beats[k] != offsetBeat
    decreases |beats| - i
  {
    if i < last && i < |beats| && beats[i] != offsetBeat then TieEnd(beats, i + 1, last, offsetBeat)
    else i
  }

  /**
   * The array after `addNote`, slot by slot: slot `j` stands for beat index `j + first`. The
   * onset index gets an ONSET, the indices strictly between it and `stop` get a TIE, and no
   * ONSET already present is overwritten.
   */
  function PaintNote(s: seq<Quantum>, onsetIndex: int, stop: int, first: int): (r: seq<Quantum>)
    ensures |r| == |s|
  {
    seq(|s|, j requires 0 <= j < |s| =>
      if s[j] == Onset then Onset
      else if j + first == onsetIndex then Onset
      else if onsetIndex < j + first < stop then Tie
      else s[j])
  }

  /** A note whose beat lookups are defined on `beats`. */
  predicate NoteFits(n: MidiNote, beats: seq<Beat>)
  {
    |beats| > 0 && beats[0].time <= n.onsetTime && beats[0].time <= n.offsetTime
    && TimesInRange(n.onsetTime, beats) && TimesInRange(n.offsetTime, beats)
  }

  /** The beat index `addNote` finds for the note's onset. */
  function OnsetIndex(n: MidiNote, beats: seq<Beat>): (i: int)
    requires NoteFits(n, beats)
    ensures 0 <= i < |beats| && beats[i] == OnsetBeat(n, beats)
  {
    OnsetBeatSpec(n, beats);
    FirstIndexOf(beats, OnsetBeat(n, beats), 0)
  }

  /** The beat index at which `addNote` stops writing TIEs. */
  function NoteStop(n: MidiNote, beats: seq<Beat>, last: int): int
    requires NoteFits(n, beats)
  {
    TieEnd(beats, OnsetIndex(n, beats) + 1, last, OffsetBeat(n, beats))
  }

  /** All notes painted in list order. */
  function PaintNotes(s: seq<Quantum>, notes: seq<MidiNote>, beats: seq<Beat>, first: int, last: int)
    : (r: seq<Quantum>)
    requires forall i :: 0 <= i < |notes| ==> NoteFits(notes[i], beats)
    ensures |r| == |s|
  {
    if |notes| == 0 then s
    else
      var n := notes[|notes| - 1];
      PaintNote(PaintNotes(s, notes[..|notes| - 1], beats, first, last),
                OnsetIndex(n, beats), NoteStop(n, beats, last), first)
  }

  lemma MulMonotonic(a: int, b: int, c: int)
    requires a >= 0 && b <= c
    ensures a * b <= a * c
  {
    assert a * c == a * b + a * (c - b);
  }

  /** The number of quanta in one measure: `subBeatLength * beatsPerMeasure * subBeatsPerBeat`. */
  function MeasureLength(measure: Measure, subBeatLength: int): (n: nat)
    requires subBeatLength >= 0 && measure.beatsPerMeasure > 0 && measure.subBeatsPerBeat > 0
  {
    MulMonotonic(subBeatLength, 0, measure.beatsPerMeasure);
    MulMonotonic(subBeatLength * measure.beatsPerMeasure, 0, measure.subBeatsPerBeat);
    subBeatLength * measure.beatsPerMeasure * measure.subBeatsPerBeat
  }

  /** The beat index of the first quantum of measure `measureNum`, after the anacrusis. */
  function FirstBeatIndex(measure: Measure, subBeatLength: int, anacrusisLengthSubBeats: int,
                          measureNum: int): int
    requires subBeatLength >= 0 && measure.beatsPerMeasure > 0 && measure.subBeatsPerBeat > 0
  {
    MeasureLength(measure, subBeatLength) * measureNum + subBeatLength * anacrusisLengthSubBeats
  }

  /** The quantum array `makeTree` builds for one measure: all REST, then each note painted. */
  function MeasureQuantums(notes: seq<MidiNote>, beats: seq<Beat>, measure: Measure,
                           subBeatLength: int, anacrusisLengthSubBeats: int, measureNum: int)
    : (q: seq<Quantum>)
    requires subBeatLength >= 0 && measure.beatsPerMeasure > 0 && measure.subBeatsPerBeat > 0
    requires forall i :: 0 <= i < |notes| ==> NoteFits(notes[i], beats)
    ensures |q| == MeasureLength(measure, subBeatLength)
  {
    var length := MeasureLength(measure, subBeatLength);
    var first := FirstBeatIndex(measure, subBeatLength, anacrusisLengthSubBeats, measureNum);
    PaintNotes(Rests(length), notes, beats, first, first + length)
  }

  // ---------------------------------------------------------------------------
  // Properties of painting

  /** Painting never removes an ONSET. */
  lemma {:induction false} OnsetsKept(s: seq<Quantum>, notes: seq<MidiNote>, beats: seq<Beat>,
                                      first: int, last: int, j: int)
    requires forall i :: 0 <= i < |notes| ==> NoteFits(notes[i], beats)
    requires 0 <= j < |s| && s[j] == Onset
    ensures PaintNotes(s, notes, beats, first, last)[j] == Onset
  {
    if |notes| > 0 {
      OnsetsKept(s, notes[..|notes| - 1], beats, first, last, j);
    }
  }

  /** After painting, every note whose onset index lies in the window has an ONSET there. */
  lemma {:induction false} OnsetsMarked(s: seq<Quantum>, notes: seq<MidiNote>, beats: seq<Beat>,
                                        first: int, last: int, k: int)
    requires forall i :: 0 <= i < |notes| ==> NoteFits(notes[i], beats)
    requires |s| == last - first
    requires 0 <= k < |notes| && first <= OnsetIndex(notes[k], beats) < last
    ensures PaintNotes(s, notes, beats, first, last)[OnsetIndex(notes[k], beats) - first] == Onset
    decreases |notes|, 1
  {
    var prefix := notes[..|notes| - 1];
    assert forall i :: 0 <= i < |prefix| ==> NoteFits(prefix[i], beats) by {
      forall i | 0 <= i < |prefix| ensures NoteFits(prefix[i], beats) {
        assert prefix[i] == notes[i];
      }
    }
    var n := notes[|notes| - 1];
    var p := PaintNotes(s, prefix, beats, first, last);
    var j := OnsetIndex(notes[k], beats) - first;
    var onset := OnsetIndex(n, beats);
    assert PaintNotes(s, notes, beats, first, last) == PaintNote(p, onset, NoteStop(n, beats, last), first);
    if k < |notes| - 1 {
      OnsetsMarkedBefore(s, notes, beats, first, last, k);
    } else {
      assert j + first == onset;
    }
    PaintNoteOnset(p, onset, NoteStop(n, beats, last), first, j);
  }

  /** `OnsetsMarked` for a note before the last one, which the last note leaves an ONSET. */
  lemma {:induction false} OnsetsMarkedBefore(s: seq<Quantum>, notes: seq<MidiNote>, beats: seq<Beat>,
                                              first: int, last: int, k: int)
    requires forall i :: 0 <= i < |notes| ==> NoteFits(notes[i], beats)
    requires |s| == last - first
    requires 0 <= k < |notes| - 1 && first <= OnsetIndex(notes[k], beats) < last
    ensures PaintNotes(s, notes[..|notes| - 1], beats, first, last)[OnsetIndex(notes[k], beats) - first] == Onset
    decreases |notes|, 0
  {
    var prefix := notes[..|notes| - 1];
    assert forall i :: 0 <= i < |prefix| ==> NoteFits(prefix[i], beats) by {
      forall i | 0 <= i < |prefix| ensures NoteFits(prefix[i], beats) {
        assert prefix[i] == notes[i];
      }
    }
    assert prefix[k] == notes[k];
    OnsetsMarked(s, prefix, beats, first, last, k);
  }

  /** `addNote` leaves an ONSET at its onset slot and at every slot that already held one. */
  lemma PaintNoteOnset(s: seq<Quantum>, onsetIndex: int, stop: int, first: int, j: int)
    requires 0 <= j < |s| && (s[j] == Onset || j + first == onsetIndex)
    ensures PaintNote(s, onsetIndex, stop, first)[j] == Onset
  {
  }

  /** A slot that is not an ONSET becomes a TIE exactly when a note holds over it, and
   *  otherwise keeps its value. */
  lemma PaintNoteSlot(s: seq<Quantum>, onsetIndex: int, stop: int, first: int, j: int)
    requires 0 <= j < |s| && s[j] != Onset && j + first != onsetIndex
    ensures PaintNote(s, onsetIndex, stop, first)[j] == Tie <==>
      (onsetIndex < j + first < stop || s[j] == Tie)
    ensures PaintNote(s, onsetIndex, stop, first)[j] == Rest <==>
      (!(onsetIndex < j + first < stop) && s[j] == Rest)
  {
  }

  /** A measure with no notes is all REST. */
  lemma EmptyMeasure(beats: seq<Beat>, measure: Measure, subBeatLength: int,
                     anacrusisLengthSubBeats: int, measureNum: int)
    requires subBeatLength >= 0 && measure.beatsPerMeasure > 0 && measure.subBeatsPerBeat > 0
    ensures MeasureQuantums([], beats, measure, subBeatLength, anacrusisLengthSubBeats, measureNum)
            == Rests(MeasureLength(measure, subBeatLength))
  {
  }

  // ---------------------------------------------------------------------------
  // Painting, imperatively

  /** `addQuantum`. */
  method AddQuantum(quantum: Quantum, quantums: array<Quantum>, index: int)
    requires 0 <= index < quantums.Length
    modifies quantums
    ensures quantums[..] == Put(old(quantums[..]), quantum, index)
  {
    if quantums[index] != Onset {
      quantums[index] := quantum;
    }
  }

  /** The ONSET step of `addNote`: inside the window, the onset slot takes an ONSET. */
  function MarkOnset(s: seq<Quantum>, onsetIndex: int, first: int): (r: seq<Quantum>)
    ensures |r| == |s|
  {
    if first <= onsetIndex < first + |s| then Put(s, Onset, onsetIndex - first) else s
  }

  /** The TIE loop of `addNote` from beat index `from` up to `stop`: every slot in between that
   *  is not an ONSET becomes a TIE. */
  function PaintTies(s: seq<Quantum>, from: int, stop: int, first: int): (r: seq<Quantum>)
    ensures |r| == |s|
  {
    seq(|s|, j requires 0 <= j < |s| =>
      if s[j] == Onset then Onset
      else if from <= j + first < stop then Tie
      else s[j])
  }

  /** A note is painted by its ONSET step followed by its TIE loop. */
  lemma PaintNoteSteps(s: seq<Quantum>, onsetIndex: int, stop: int, first: int)
    ensures PaintNote(s, onsetIndex, stop, first)
         == PaintTies(MarkOnset(s, onsetIndex, first), onsetIndex + 1, stop, first)
  {
  }

  lemma PaintTiesStep(s: seq<Quantum>, from: int, b: int, first: int)
    requires from <= b < first + |s|
    ensures PaintTies(s, from, b + 1, first) ==
      if b >= first then Put(PaintTies(s, from, b, first), Tie, b - first)
      else PaintTies(s, from, b, first)
  {
  }

  lemma PaintTiesNone(s: seq<Quantum>, from: int, first: int)
    ensures PaintTies(s, from, from, first) == s
  {
  }

  /** The search loop of `addNote`: the first index of the beat. */
  method IndexOfBeat(beats: seq<Beat>, b: Beat) returns (index: int)
    requires b in beats
    ensures index == FirstIndexOf(beats, b, 0)
  {
    ghost var target := FirstIndexOf(beats, b, 0);
    index := 0;
    while beats[index] != b
      invariant 0 <= index <= target
      invariant forall j :: 0 <= j < index ==> beats[j] != b
      decreases target - index
    {
      index := index + 1;
    }
  }

  /** The TIE loop of `addNote`, starting at beat index `start`. */
  method AddTies(quantums: array<Quantum>, beats: seq<Beat>, offsetBeat: Beat, start: int,
                 firstBeatIndex: int, lastBeatIndex: int)
    requires 0 <= start <= |beats|
    requires quantums.Length == lastBeatIndex - firstBeatIndex
    modifies quantums
    ensures quantums[..] == PaintTies(old(quantums[..]), start,
                                      TieEnd(beats, start, lastBeatIndex, offsetBeat), firstBeatIndex)
  {
    ghost var s := quantums[..];
    PaintTiesNone(s, start, firstBeatIndex);
    var beatIndex := start;
    while beatIndex < lastBeatIndex && beatIndex < |beats| && beats[beatIndex] != offsetBeat
      invariant start <= beatIndex <= |beats|
      invariant TieEnd(beats, beatIndex, lastBeatIndex, offsetBeat) == TieEnd(beats, start, lastBeatIndex, offsetBeat)
      invariant quantums[..] == PaintTies(s, start, beatIndex, firstBeatIndex)
      decreases |beats| - beatIndex
    {
      PaintTiesStep(s, start, beatIndex, firstBeatIndex);
      if beatIndex >= firstBeatIndex {
        AddQuantum(Tie, quantums, beatIndex - firstBeatIndex);
      }
      beatIndex := beatIndex + 1;
    }
  }

  /** `addNote`: ONSET at the onset beat, then TIEs up to the offset beat, inside the window. */
  method AddNote(note: MidiNote, quantums: array<Quantum>, beats: seq<Beat>,
                 firstBeatIndex: int, lastBeatIndex: int)
    requires NoteFits(note, beats)
    requires quantums.Length == lastBeatIndex - firstBeatIndex
    modifies quantums
    ensures quantums[..] == PaintNote(old(quantums[..]), OnsetIndex(note, beats),
                                      NoteStop(note, beats, lastBeatIndex), firstBeatIndex)
  {
    var onsetBeat := GetOnsetBeat(note, beats);
    var offsetBeat := GetOffsetBeat(note, beats);
    OnsetBeatSpec(note, beats);
    PaintNoteSteps(quantums[..], OnsetIndex(note, beats), NoteStop(note, beats, lastBeatIndex), firstBeatIndex);

    var beatIndex := IndexOfBeat(beats, onsetBeat);
    if beatIndex >= firstBeatIndex && beatIndex < lastBeatIndex {
      AddQuantum(Onset, quantums, beatIndex - firstBeatIndex);
    }
    AddTies(quantums, beats, offsetBeat, beatIndex + 1, firstBeatIndex, lastBeatIndex);
  }

  // ---------------------------------------------------------------------------
  // Cutting the array into beats and sub-beats

  /** Part `k` of `n` equal parts (`Arrays.copyOfRange(q, len * k, len * (k + 1))` with
   *  `len = q.length / n`); a remainder left over at the end belongs to no part. */
  function Part(q: seq<Quantum>, n: int, k: int): (p: seq<Quantum>)
    requires n > 0 && 0 <= k < n
    ensures |p| == |q| / n
  {
    var len := |q| / n;
    PartFits(|q|, n, k);
    q[len * k..len * (k + 1)]
  }

  lemma PartFits(total: nat, n: int, k: int)
    requires n > 0 && 0 <= k < n
    ensures 0 <= (total / n) * k <= (total / n) * (k + 1) <= total
  {
    var len := total / n;
    MulMonotonic(len, 0, k);
    MulMonotonic(len, k, k + 1);
    MulMonotonic(len, k + 1, n);
  }

  /** A nonterminal labelled from its finished child list. */
  function Labelled(level: Level, children: seq<Node>, ann: Annotator): (n: Node)
    ensures n.Inner? && n.level == level && n.children == children
  {
    Inner(level, ann.newType(level), ann.transitionOf(children), ann.headOf(level, children), children)
  }

  function WithType(n: Node, typeString: string): (r: Node)
    ensures n.Leaf? ==> r == n
    ensures n.Inner? ==> r.Inner? && r.level == n.level && r.children == n.children
  {
    if n.Leaf? then n else n.(typeString := typeString)
  }

  /** `fixChildrenTypes`: each child takes the type the annotator gives its position. */
  function FixChildrenTypes(children: seq<Node>, ann: Annotator): (r: seq<Node>)
    ensures |r| == |children|
    ensures forall i :: 0 <= i < |r| ==> r[i].Leaf? == children[i].Leaf?
    ensures forall i :: 0 <= i < |r| ==> r[i].Leaf? ==> r[i] == children[i]
    ensures forall i :: 0 <= i < |r| ==> r[i].Inner? ==>
      r[i].level == children[i].level && r[i].children == children[i].children
  {
    var r := seq(|children|, i requires 0 <= i < |children| => WithType(children[i], ann.childType(children, i)));
    assert forall i :: 0 <= i < |r| ==> r[i] == WithType(children[i], ann.childType(children, i));
    r
  }

  /** `makeSubBeatNonterminal`: a SUB_BEAT holding one terminal of base length 1. */
  function SubBeatNode(q: seq<Quantum>, ann: Annotator): Node
  {
    Labelled(SubBeat, [Leaf(NewTerminal(q, 1))], ann)
  }

  /** The first `count` of `n` equal parts of `q`. */
  function PartsTo(q: seq<Quantum>, n: int, count: int): (ps: seq<seq<Quantum>>)
    requires 0 <= count <= n
    ensures |ps| == count
  {
    if count == 0 then [] else PartsTo(q, n, count - 1) + [Part(q, n, count - 1)]
  }

  lemma {:induction false} PartsToAt(q: seq<Quantum>, n: int, count: int, i: int)
    requires 0 <= i < count <= n
    ensures PartsTo(q, n, count)[i] == Part(q, n, i)
  {
    if i < count - 1 {
      PartsToAt(q, n, count - 1, i);
    }
  }

  /** One node per part, in order. */
  function MapNodes(parts: seq<seq<Quantum>>, f: seq<Quantum> -> Node): (r: seq<Node>)
    ensures |r| == |parts|
  {
    if |parts| == 0 then [] else MapNodes(parts[..|parts| - 1], f) + [f(parts[|parts| - 1])]
  }

  lemma {:induction false} MapNodesAt(parts: seq<seq<Quantum>>, f: seq<Quantum> -> Node, i: int)
    requires 0 <= i < |parts|
    ensures MapNodes(parts, f)[i] == f(parts[i])
  {
    if i < |parts| - 1 {
      MapNodesAt(parts[..|parts| - 1], f, i);
    }
  }

  lemma MapNodesSnoc(parts: seq<seq<Quantum>>, p: seq<Quantum>, f: seq<Quantum> -> Node)
    ensures MapNodes(parts + [p], f) == MapNodes(parts, f) + [f(p)]
  {
    assert (parts + [p])[..|parts|] == parts;
  }

  function SubBeatMaker(ann: Annotator): seq<Quantum> -> Node
  {
    q => SubBeatNode(q, ann)
  }

  /** The SUB_BEAT nonterminals of the first `count` sub-beats. */
  function SubBeatNodes(q: seq<Quantum>, subBeatsPerBeat: int, count: int, ann: Annotator): (r: seq<Node>)
    requires 0 <= count <= subBeatsPerBeat
    ensures |r| == count
  {
    MapNodes(PartsTo(q, subBeatsPerBeat, count), SubBeatMaker(ann))
  }

  lemma SubBeatNodesAt(q: seq<Quantum>, subBeatsPerBeat: int, count: int, ann: Annotator, i: int)
    requires 0 <= i < count <= subBeatsPerBeat
    ensures SubBeatNodes(q, subBeatsPerBeat, count, ann)[i] == SubBeatNode(Part(q, subBeatsPerBeat, i), ann)
  {
    MapNodesAt(PartsTo(q, subBeatsPerBeat, count), SubBeatMaker(ann), i);
    PartsToAt(q, subBeatsPerBeat, count, i);
  }

  lemma SubBeatNodesStep(q: seq<Quantum>, subBeatsPerBeat: int, count: int, ann: Annotator)
    requires 0 <= count < subBeatsPerBeat
    ensures SubBeatNodes(q, subBeatsPerBeat, count + 1, ann)
         == SubBeatNodes(q, subBeatsPerBeat, count, ann) + [SubBeatNode(Part(q, subBeatsPerBeat, count), ann)]
  {
    MapNodesSnoc(PartsTo(q, subBeatsPerBeat, count), Part(q, subBeatsPerBeat, count), SubBeatMaker(ann));
  }

  /** `makeBeatNonterminal`: one terminal child when the beat reduces to a single symbol,
   *  otherwise one SUB_BEAT child per sub-beat. */
  function BeatNode(q: seq<Quantum>, subBeatsPerBeat: int, ann: Annotator): Node
    requires subBeatsPerBeat > 0
  {
    var beatTerminal := NewTerminal(q, subBeatsPerBeat);
    if |beatTerminal.reducedPattern| == 1 then Labelled(BeatLevel, [Leaf(beatTerminal)], ann)
    else Labelled(BeatLevel, FixChildrenTypes(SubBeatNodes(q, subBeatsPerBeat, subBeatsPerBeat, ann), ann), ann)
  }

  function BeatMaker(subBeatsPerBeat: int, ann: Annotator): seq<Quantum> -> Node
    requires subBeatsPerBeat > 0
  {
    q => BeatNode(q, subBeatsPerBeat, ann)
  }

  /** The BEAT nonterminals of the first `count` beats. */
  function BeatNodes(q: seq<Quantum>, beatsPerMeasure: int, subBeatsPerBeat: int, count: int, ann: Annotator)
    : (r: seq<Node>)
    requires 0 <= count <= beatsPerMeasure && subBeatsPerBeat > 0
    ensures |r| == count
  {
    MapNodes(PartsTo(q, beatsPerMeasure, count), BeatMaker(subBeatsPerBeat, ann))
  }

  lemma BeatNodesAt(q: seq<Quantum>, beatsPerMeasure: int, subBeatsPerBeat: int, count: int,
                    ann: Annotator, i: int)
    requires 0 <= i < count <= beatsPerMeasure && subBeatsPerBeat > 0
    ensures BeatNodes(q, beatsPerMeasure, subBeatsPerBeat, count, ann)[i]
         == BeatNode(Part(q, beatsPerMeasure, i), subBeatsPerBeat, ann)
  {
    MapNodesAt(PartsTo(q, beatsPerMeasure, count), BeatMaker(subBeatsPerBeat, ann), i);
    PartsToAt(q, beatsPerMeasure, count, i);
  }

  lemma BeatNodesStep(q: seq<Quantum>, beatsPerMeasure: int, subBeatsPerBeat: int, count: int,
                      ann: Annotator)
    requires 0 <= count < beatsPerMeasure && subBeatsPerBeat > 0
    ensures BeatNodes(q, beatsPerMeasure, subBeatsPerBeat, count + 1, ann)
         == BeatNodes(q, beatsPerMeasure, subBeatsPerBeat, count, ann)
            + [BeatNode(Part(q, beatsPerMeasure, count), subBeatsPerBeat, ann)]
  {
    MapNodesSnoc(PartsTo(q, beatsPerMeasure, count), Part(q, beatsPerMeasure, count),
                 BeatMaker(subBeatsPerBeat, ann));
  }

  /** The tree `makeTree(quantums, beatsPerMeasure, subBeatsPerBeat)` builds. */
  function MeasureTree(q: seq<Quantum>, beatsPerMeasure: int, subBeatsPerBeat: int, ann: Annotator)
    : Tree
    requires beatsPerMeasure > 0 && subBeatsPerBeat > 0
  {
    Tree(Measure(beatsPerMeasure, subBeatsPerBeat),
         Labelled(MeasureLevel,
                  FixChildrenTypes(BeatNodes(q, beatsPerMeasure, subBeatsPerBeat, beatsPerMeasure, ann), ann), ann))
  }

  // ---------------------------------------------------------------------------
  // Properties of the tree shape

  /** The root is a MEASURE nonterminal with one BEAT child per beat, child `k` built from
   *  part `k` of the array. */
  lemma MeasureTreeShape(q: seq<Quantum>, beatsPerMeasure: int, subBeatsPerBeat: int, ann: Annotator,
                         k: int)
    requires beatsPerMeasure > 0 && subBeatsPerBeat > 0 && 0 <= k < beatsPerMeasure
    ensures var t := MeasureTree(q, beatsPerMeasure, subBeatsPerBeat, ann);
      t.measure == Measure(beatsPerMeasure, subBeatsPerBeat)
      && t.root.Inner? && t.root.level == MeasureLevel
      && |t.root.children| == beatsPerMeasure
      && t.root.children[k].Inner? && t.root.children[k].level == BeatLevel
      && t.root.children[k].children == BeatNode(Part(q, beatsPerMeasure, k), subBeatsPerBeat, ann).children
  {
    BeatNodesAt(q, beatsPerMeasure, subBeatsPerBeat, beatsPerMeasure, ann, k);
  }

  /** A beat has a single terminal child exactly when its terminal (of base length
   *  subBeatsPerBeat) reduces to one symbol; otherwise it has subBeatsPerBeat SUB_BEAT
   *  children, each holding exactly the terminal of its part. */
  lemma BeatNodeShape(q: seq<Quantum>, subBeatsPerBeat: int, ann: Annotator, j: int)
    requires subBeatsPerBeat > 0 && 0 <= j < subBeatsPerBeat
    ensures var b := BeatNode(q, subBeatsPerBeat, ann);
      b.Inner? && b.level == BeatLevel
      && (|NewTerminal(q, subBeatsPerBeat).reducedPattern| == 1 <==>
            b.children == [Leaf(NewTerminal(q, subBeatsPerBeat))])
      && (|NewTerminal(q, subBeatsPerBeat).reducedPattern| != 1 ==>
            |b.children| == subBeatsPerBeat
            && b.children[j].Inner? && b.children[j].level == SubBeat
            && b.children[j].children == [Leaf(NewTerminal(Part(q, subBeatsPerBeat, j), 1))])
  {
    var t := NewTerminal(q, subBeatsPerBeat);
    if |t.reducedPattern| != 1 {
      var subs := SubBeatNodes(q, subBeatsPerBeat, subBeatsPerBeat, ann);
      SubBeatNodesAt(q, subBeatsPerBeat, subBeatsPerBeat, ann, j);
      if subBeatsPerBeat == 1 {
        assert FixChildrenTypes(subs, ann)[0].Inner?;
      }
    }
  }

  /** Concatenation of a list of arrays. */
  function Concat(parts: seq<seq<Quantum>>): seq<Quantum>
  {
    if |parts| == 0 then [] else Concat(parts[..|parts| - 1]) + parts[|parts| - 1]
  }

  lemma {:induction false} PartsPrefix(q: seq<Quantum>, n: int, m: int)
    requires n > 0 && 0 <= m <= n
    ensures (|q| / n) * m <= |q|
    ensures Concat(PartsTo(q, n, m)) == q[..(|q| / n) * m]
  {
    var len := |q| / n;
    if m > 0 {
      PartsPrefix(q, n, m - 1);
      PartFits(|q|, n, m - 1);
      assert PartsTo(q, n, m)[..m - 1] == PartsTo(q, n, m - 1);
      assert q[..len * (m - 1)] + q[len * (m - 1)..len * m] == q[..len * m];
    }
  }

  /** When the length divides evenly, the parts concatenate back to the whole array. */
  lemma PartsConcat(q: seq<Quantum>, n: int)
    requires n > 0 && |q| % n == 0
    ensures Concat(PartsTo(q, n, n)) == q
  {
    PartsPrefix(q, n, n);
    assert (|q| / n) * n == |q|;
  }

  // ---------------------------------------------------------------------------
  // Building the tree, imperatively

  /** `Arrays.copyOfRange` within the array. */
  method CopyOfRange(a: array<Quantum>, from: int, to: int) returns (b: array<Quantum>)
    requires 0 <= from <= to <= a.Length
    ensures fresh(b) && b[..] == a[from..to]
  {
    b := new Quantum[to - from];
    forall i | 0 <= i < to - from {
      b[i] := a[from + i];
    }
  }

  /** `makeSubBeatNonterminal`. */
  method MakeSubBeatNonterminal(quantums: array<Quantum>, ann: Annotator) returns (node: Node)
    ensures node == SubBeatNode(quantums[..], ann)
  {
    var t := MakeTerminal(quantums, 1);
    node := Labelled(SubBeat, [Leaf(t)], ann);
  }

  /** One pass of the sub-beat loops of `makeBeatNonterminal`: copy sub-beat `k` and build its
   *  nonterminal. */
  method MakeSubBeatAt(quantums: array<Quantum>, subBeatsPerBeat: int, k: int, ann: Annotator)
    returns (child: Node)
    requires 0 <= k < subBeatsPerBeat
    ensures child == SubBeatNode(Part(quantums[..], subBeatsPerBeat, k), ann)
  {
    var subBeatLength := quantums.Length / subBeatsPerBeat;
    ghost var part := Part(quantums[..], subBeatsPerBeat, k);
    PartFits(quantums.Length, subBeatsPerBeat, k);
    var slice := CopyOfRange(quantums, subBeatLength * k, subBeatLength * (k + 1));
    assert slice[..] == part;
    child := MakeSubBeatNonterminal(slice, ann);
  }

  /** The sub-beat part of `makeBeatNonterminal`: one SUB_BEAT nonterminal per sub-beat. */
  method MakeSubBeatNonterminals(quantums: array<Quantum>, subBeatsPerBeat: int, ann: Annotator)
    returns (children: seq<Node>)
    requires subBeatsPerBeat > 0
    ensures children == SubBeatNodes(quantums[..], subBeatsPerBeat, subBeatsPerBeat, ann)
  {
    children := [];
    for subBeat := 0 to subBeatsPerBeat
      invariant children == SubBeatNodes(quantums[..], subBeatsPerBeat, subBeat, ann)
    {
      var child := MakeSubBeatAt(quantums, subBeatsPerBeat, subBeat, ann);
      SubBeatNodesStep(quantums[..], subBeatsPerBeat, subBeat, ann);
      children := children + [child];
    }
  }

  /** `makeBeatNonterminal`. */
  method MakeBeatNonterminal(quantums: array<Quantum>, subBeatsPerBeat: int, ann: Annotator)
    returns (node: Node)
    requires subBeatsPerBeat > 0
    ensures node == BeatNode(quantums[..], subBeatsPerBeat, ann)
  {
    var beatTerminal := MakeTerminal(quantums, subBeatsPerBeat);
    if |beatTerminal.reducedPattern| == 1 {
      node := Labelled(BeatLevel, [Leaf(beatTerminal)], ann);
    } else {
      var children := MakeSubBeatNonterminals(quantums, subBeatsPerBeat, ann);
      node := Labelled(BeatLevel, FixChildrenTypes(children, ann), ann);
    }
  }

  /** One pass of the beat loops of `makeTree`: copy beat `k` and build its nonterminal. */
  method MakeBeatAt(quantums: array<Quantum>, beatsPerMeasure: int, subBeatsPerBeat: int, k: int,
                    ann: Annotator) returns (child: Node)
    requires 0 <= k < beatsPerMeasure && subBeatsPerBeat > 0
    ensures child == BeatNode(Part(quantums[..], beatsPerMeasure, k), subBeatsPerBeat, ann)
  {
    var beatLength := quantums.Length / beatsPerMeasure;
    ghost var part := Part(quantums[..], beatsPerMeasure, k);
    PartFits(quantums.Length, beatsPerMeasure, k);
    var slice := CopyOfRange(quantums, beatLength * k, beatLength * (k + 1));
    assert slice[..] == part;
    child := MakeBeatNonterminal(slice, subBeatsPerBeat, ann);
  }

  /** `makeTree(quantums, beatsPerMeasure, subBeatsPerBeat)`. */
  method MakeTreeOfQuantums(quantums: array<Quantum>, beatsPerMeasure: int, subBeatsPerBeat: int,
                            ann: Annotator) returns (tree: Tree)
    requires beatsPerMeasure > 0 && subBeatsPerBeat > 0
    ensures tree == MeasureTree(quantums[..], beatsPerMeasure, subBeatsPerBeat, ann)
  {
    var children: seq<Node> := [];
    for beat := 0 to beatsPerMeasure
      invariant children == BeatNodes(quantums[..], beatsPerMeasure, subBeatsPerBeat, beat, ann)
    {
      var child := MakeBeatAt(quantums, beatsPerMeasure, subBeatsPerBeat, beat, ann);
      BeatNodesStep(quantums[..], beatsPerMeasure, subBeatsPerBeat, beat, ann);
      children := children + [child];
    }
    tree := Tree(Measure(beatsPerMeasure, subBeatsPerBeat),
                 Labelled(MeasureLevel, FixChildrenTypes(children, ann), ann));
  }

  /** The note loop of `makeTree`: each note painted in list order. */
  method AddNotes(notes: seq<MidiNote>, quantums: array<Quantum>, beats: seq<Beat>,
                  firstBeatIndex: int, lastBeatIndex: int)
    requires forall i :: 0 <= i < |notes| ==> NoteFits(notes[i], beats)
    requires quantums.Length == lastBeatIndex - firstBeatIndex
    modifies quantums
    ensures quantums[..] == PaintNotes(old(quantums[..]), notes, beats, firstBeatIndex, lastBeatIndex)
  {
    ghost var s := quantums[..];
    for i := 0 to |notes|
      invariant quantums[..] == PaintNotes(s, notes[..i], beats, firstBeatIndex, lastBeatIndex)
    {
      AddNote(notes[i], quantums, beats, firstBeatIndex, lastBeatIndex);
      assert notes[..i + 1][..i] == notes[..i];
    }
    assert notes[..|notes|] == notes;
  }

  /** The first part of `makeTree(notes, ...)`: the measure's quantum array, all REST with
   *  each note painted in. */
  method PaintMeasure(notes: seq<MidiNote>, beats: seq<Beat>, measure: Measure, subBeatLength: int,
                      anacrusisLengthSubBeats: int, measureNum: int) returns (quantums: array<Quantum>)
    requires subBeatLength >= 0 && measure.beatsPerMeasure > 0 && measure.subBeatsPerBeat > 0
    requires forall i :: 0 <= i < |notes| ==> NoteFits(notes[i], beats)
    ensures fresh(quantums)
    ensures quantums[..] == MeasureQuantums(notes, beats, measure, subBeatLength,
                                            anacrusisLengthSubBeats, measureNum)
  {
    var measureLength := MeasureLength(measure, subBeatLength);
    quantums := new Quantum[measureLength](_ => Rest);
    var firstBeatIndex := FirstBeatIndex(measure, subBeatLength, anacrusisLengthSubBeats, measureNum);
    var lastBeatIndex := firstBeatIndex + measureLength;
    assert quantums[..] == Rests(measureLength);
    AddNotes(notes, quantums, beats, firstBeatIndex, lastBeatIndex);
  }

  /** `makeTree(notes, beats, measure, subBeatLength, anacrusisLengthSubBeats, measureNum)`. */
  method MakeTree(notes: seq<MidiNote>, beats: seq<Beat>, measure: Measure, subBeatLength: int,
                  anacrusisLengthSubBeats: int, measureNum: int, ann: Annotator) returns (tree: Tree)
    requires subBeatLength >= 0 && measure.beatsPerMeasure > 0 && measure.subBeatsPerBeat > 0
    requires forall i :: 0 <= i < |notes| ==> NoteFits(notes[i], beats)
    ensures tree == MeasureTree(MeasureQuantums(notes, beats, measure, subBeatLength,
                                                anacrusisLengthSubBeats, measureNum),
                                measure.beatsPerMeasure, measure.subBeatsPerBeat, ann)
  {
    var quantums := PaintMeasure(notes, beats, measure, subBeatLength, anacrusisLengthSubBeats, measureNum);
    tree := MakeTreeOfQuantums(quantums, measure.beatsPerMeasure, measure.subBeatsPerBeat, ann);
  }
}
