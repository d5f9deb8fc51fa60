/**
 * What `handleIncoming` and `close` of a metrical hypothesis with a measure do, stated on values
 * (src/metdetection/meter/lpcfg/MetricalLpcfgMetricalModelState.java): the parse loops over
 * `parseStep`, the guarded `updateMatchType`, and their composition. The class in
 * `MetricalStates` is proved to compute exactly these.
 */
module MetricalSteps {
  import opened JavaInt
  import opened Beats
  import opened MidiNotes
  import opened LpcfgTrees
  import opened MetricalMatches
  import opened Conglomerates
  import opened MatchUpdates
  import opened ParseSteps
  import NoteTracks
  import Voices
  import TreeFactory

  /** What `parseStep` changes: the measure counters, the begun flags, the unfinished notes and
   *  the trees added to the local grammar (whose counts and score follow from them). */
  datatype Parse = Parse(measureNum: int, nextMeasureIndex: int, hasBegun: seq<bool>,
                         unfinished: seq<seq<MidiNote>>, trees: seq<Tree>)

  /** One flag per voice, and every unfinished note fits the beats. */
  predicate ParseFits(p: Parse, beats: seq<Beat>)
  {
    |p.hasBegun| == |p.unfinished| && AllVoicesFit(p.unfinished, beats)
  }

  /** Every voice's unfinished notes are gone: `allNotesFinished`. */
  predicate AllFinished(unfinished: seq<seq<MidiNote>>)
  {
    forall v :: 0 <= v < |unfinished| ==> |unfinished[v]| == 0
  }

  /** The length of a measure in beat indices. */
  function Span(g: Geometry): (n: nat)
    requires GeometryValid(g)
    ensures n > 0
  {
    PositiveProduct(g.subBeatLength, g.measure.beatsPerMeasure);
    PositiveProduct(g.subBeatLength * g.measure.beatsPerMeasure, g.measure.subBeatsPerBeat);
    TreeFactory.MeasureLength(g.measure, g.subBeatLength)
  }

  lemma RemainingFits(voices: seq<seq<MidiNote>>, beats: seq<Beat>, nextMeasureIndex: int)
    requires AllVoicesFit(voices, beats)
    ensures AllVoicesFit(NoteTracks.RemainingNotes(voices, beats, nextMeasureIndex), beats)
  {
    forall v | 0 <= v < |voices|
      ensures AllFit(NoteTracks.RemainingNotes(voices, beats, nextMeasureIndex)[v], beats)
    {
      NoteTracks.UnfinishedFits(voices[v], beats, nextMeasureIndex);
    }
  }

  /**
   * `parseStep`: each voice's tree of the current measure is built; the scored ones are added
   * to the local grammar, the voices with a non-empty tree are marked begun, the notes the
   * measure finished are dropped, and the next measure is one measure on.
   */
  function ParseStep(g: Geometry, p: Parse, beats: seq<Beat>, o: Oracles): (r: Parse)
    requires GeometryValid(g) && ParseFits(p, beats)
    ensures ParseFits(r, beats) && p.trees <= r.trees
  {
    var trees := VoiceTrees(p.unfinished, beats, g, p.measureNum, o.annotator);
    RemainingFits(p.unfinished, beats, p.nextMeasureIndex);
    Parse(p.measureNum + 1, p.nextMeasureIndex + Span(g), BegunAfter(trees, p.hasBegun, o),
          NoteTracks.RemainingNotes(p.unfinished, beats, p.nextMeasureIndex),
          p.trees + ScoredTrees(trees, p.hasBegun, o))
  }

  /**
   * The loop of `handleIncoming`, `while (beats.size() > nextMeasureIndex) parseStep()`: the
   * next measure ends up at or past the last beat, and it stays put if it already was.
   */
  function ParseComplete(g: Geometry, p: Parse, beats: seq<Beat>, o: Oracles): (r: Parse)
    requires GeometryValid(g) && ParseFits(p, beats)
    ensures ParseFits(r, beats) && p.trees <= r.trees
    ensures r.nextMeasureIndex >= |beats| && r.measureNum >= p.measureNum
    ensures p.nextMeasureIndex >= |beats| ==> r == p
    decreases |beats| - p.nextMeasureIndex
  {
    if |beats| > p.nextMeasureIndex then ParseComplete(g, ParseStep(g, p, beats, o), beats, o) else p
  }

  /** A step taken once the next measure is at or past the last beat finishes every note. */
  lemma StepPastLastBeat(g: Geometry, p: Parse, beats: seq<Beat>, o: Oracles)
    requires GeometryValid(g) && ParseFits(p, beats) && p.nextMeasureIndex >= |beats|
    ensures AllFinished(ParseStep(g, p, beats, o).unfinished)
  {
    forall v | 0 <= v < |p.unfinished|
      ensures NoteTracks.Unfinished(p.unfinished[v], beats, p.nextMeasureIndex) == []
    {
      NoteTracks.UnfinishedPastLastBeat(p.unfinished[v], beats, p.nextMeasureIndex);
    }
  }

  /**
   * The loop of `close`, `while (!allNotesFinished()) parseStep()`: it ends with every note
   * finished, since a step taken past the last beat finishes them all.
   */
  function ParseRest(g: Geometry, p: Parse, beats: seq<Beat>, o: Oracles): (r: Parse)
    requires GeometryValid(g) && ParseFits(p, beats)
    ensures ParseFits(r, beats) && p.trees <= r.trees && AllFinished(r.unfinished)
    ensures r.measureNum >= p.measureNum
    ensures AllFinished(p.unfinished) ==> r == p
    decreases if p.nextMeasureIndex >= |beats| then 0 else |beats| - p.nextMeasureIndex + 1,
              if AllFinished(p.unfinished) then 0 else 1
  {
    if AllFinished(p.unfinished) then p
    else
      var q := ParseStep(g, p, beats, o);
      if p.nextMeasureIndex >= |beats| then
        StepPastLastBeat(g, p, beats, o);
        ParseRest(g, q, beats, o)
      else
        ParseRest(g, q, beats, o)
  }

  /** A hypothesis with a measure, as its operations see it: counters, parse and check queues. */
  datatype Hyp = Hyp(counters: Counters, parse: Parse, queue: seq<MidiNote>, beatQueues: seq<seq<MidiNote>>)

  predicate HypFits(h: Hyp, beats: seq<Beat>)
  {
    ParseFits(h.parse, beats) && AllVoicesFit(h.beatQueues, beats) && AllFit(h.queue, beats)
  }

  /**
   * The first half of `handleIncoming`: the notes are queued for the match checks unless the
   * hypothesis is fully matched, and `addNewVoices` files them; `None` where that throws.
   */
  function Receiving(h: Hyp, notes: seq<MidiNote>, voices: seq<Voices.Voice>, beats: seq<Beat>): (r: Option<Hyp>)
    requires HypFits(h, beats) && AllFit(notes, beats) && NoteTracks.VoicesFit(voices, beats)
    ensures r.Some? ==> HypFits(r.value, beats) && r.value.counters == h.counters
    ensures r.Some? ==>
      r.value.parse.trees == h.parse.trees && r.value.parse.measureNum == h.parse.measureNum
      && r.value.parse.nextMeasureIndex == h.parse.nextMeasureIndex
    ensures r.Some? && !IsFullyMatched(h.counters) ==> r.value.queue == h.queue + notes
    ensures IsFullyMatched(h.counters) ==> r.Some? ==> r.value.queue == h.queue
  {
    var queued := if IsFullyMatched(h.counters) then h.queue else h.queue + notes;
    var t := NoteTracks.Tracks(h.parse.unfinished, h.parse.hasBegun, h.beatQueues);
    match NoteTracks.AddVoices(t, voices, notes, h.counters.beat > 0, 0)
    case None => None
    case Some(u) =>
      NoteTracks.AddVoicesFits(t, voices, notes, h.counters.beat > 0, 0, beats);
      NoteTracks.AppendFits(h.queue, notes, beats);
      Some(Hyp(h.counters, h.parse.(hasBegun := u.begun, unfinished := u.unfinished), queued, u.beatQueues))
  }

  /**
   * `if (!isFullyMatched()) updateMatchType()`: a fully matched hypothesis is left alone;
   * otherwise the counters only grow, and the check queue is left drained up to the last beat
   * unless the hypothesis is decided. `None` where Java throws, as on an empty beat list.
   */
  function MatchStep(g: Geometry, h: Hyp, beats: seq<Beat>, tactiPerMeasure: int): (r: Option<Hyp>)
    requires GeometryValid(g) && HypFits(h, beats)
    ensures r.Some? ==> HypFits(r.value, beats) && NoLess(h.counters, r.value.counters) && r.value.parse == h.parse
    ensures r.Some? && |beats| > 0 ==>
      Decided(r.value.counters) || |r.value.queue| == 0 || r.value.queue[0].offsetTime > beats[|beats| - 1].time
    ensures IsFullyMatched(h.counters) ==> r == Some(h)
    ensures !IsFullyMatched(h.counters) && |beats| == 0 ==> r.None?
  {
    if IsFullyMatched(h.counters) then Some(h)
    else if |beats| == 0 then None
    else
      match UpdateMatches(g, h.counters, h.beatQueues, h.queue, beats, tactiPerMeasure)
      case None => None
      case Some(u) => Some(Hyp(u.counters, h.parse, u.queue, u.beatQueues))
  }

  /** `handleIncoming` after the notes arrived: parse the complete measures, then update the
   *  match type unless fully matched. */
  function Advancing(g: Geometry, h: Hyp, beats: seq<Beat>, tactiPerMeasure: int, o: Oracles): (r: Option<Hyp>)
    requires GeometryValid(g) && HypFits(h, beats)
    ensures r.Some? ==>
      HypFits(r.value, beats) && NoLess(h.counters, r.value.counters)
      && r.value.parse.nextMeasureIndex >= |beats| && h.parse.trees <= r.value.parse.trees
  {
    MatchStep(g, h.(parse := ParseComplete(g, h.parse, beats, o)), beats, tactiPerMeasure)
  }

  /** `handleIncoming` of a hypothesis with a measure. */
  function Incoming(g: Geometry, h: Hyp, notes: seq<MidiNote>, voices: seq<Voices.Voice>, beats: seq<Beat>,
                    tactiPerMeasure: int, o: Oracles): (r: Option<Hyp>)
    requires GeometryValid(g) && HypFits(h, beats) && AllFit(notes, beats) && NoteTracks.VoicesFit(voices, beats)
    ensures r.Some? ==>
      HypFits(r.value, beats) && NoLess(h.counters, r.value.counters)
      && r.value.parse.nextMeasureIndex >= |beats| && h.parse.trees <= r.value.parse.trees
  {
    match Receiving(h, notes, voices, beats)
    case None => None
    case Some(h1) => Advancing(g, h1, beats, tactiPerMeasure, o)
  }

  /** `close` of a hypothesis with a measure, up to the keep decision: parse until every note
   *  is finished, then update the match type unless fully matched. */
  function Closing(g: Geometry, h: Hyp, beats: seq<Beat>, tactiPerMeasure: int, o: Oracles): (r: Option<Hyp>)
    requires GeometryValid(g) && HypFits(h, beats)
    ensures r.Some? ==>
      HypFits(r.value, beats) && NoLess(h.counters, r.value.counters)
      && AllFinished(r.value.parse.unfinished) && h.parse.trees <= r.value.parse.trees
    ensures IsFullyMatched(h.counters) ==> r.Some? && r.value.counters == h.counters
  {
    MatchStep(g, h.(parse := ParseRest(g, h.parse, beats, o)), beats, tactiPerMeasure)
  }

  /** Elimination is permanent: a wrong hypothesis stays wrong through every step. */
  lemma WrongStaysWrong(g: Geometry, h: Hyp, notes: seq<MidiNote>, voices: seq<Voices.Voice>, beats: seq<Beat>,
                        tactiPerMeasure: int, o: Oracles)
    requires GeometryValid(g) && HypFits(h, beats) && AllFit(notes, beats) && NoteTracks.VoicesFit(voices, beats)
    requires IsWrong(h.counters)
    ensures var r := Incoming(g, h, notes, voices, beats, tactiPerMeasure, o); r.Some? ==> IsWrong(r.value.counters)
    ensures var r := Closing(g, h, beats, tactiPerMeasure, o); r.Some? ==> IsWrong(r.value.counters)
  {
    var r := Incoming(g, h, notes, voices, beats, tactiPerMeasure, o);
    if r.Some? {
      NoLessKeepsMatches(h.counters, r.value.counters);
    }
    var s := Closing(g, h, beats, tactiPerMeasure, o);
    if s.Some? {
      NoLessKeepsMatches(h.counters, s.value.counters);
    }
  }

  /** A fully matched hypothesis skips the match checks: its counters stay as they were and only
   *  parsing goes on. */
  lemma FullyMatchedOnlyParses(g: Geometry, h: Hyp, notes: seq<MidiNote>, voices: seq<Voices.Voice>,
                               beats: seq<Beat>, tactiPerMeasure: int, o: Oracles)
    requires GeometryValid(g) && HypFits(h, beats) && AllFit(notes, beats) && NoteTracks.VoicesFit(voices, beats)
    requires IsFullyMatched(h.counters)
    ensures var r := Incoming(g, h, notes, voices, beats, tactiPerMeasure, o);
      r.Some? <==> Receiving(h, notes, voices, beats).Some?
    ensures var r := Incoming(g, h, notes, voices, beats, tactiPerMeasure, o);
      r.Some? ==> r.value.counters == h.counters && r.value.queue == h.queue
  {
  }
}
