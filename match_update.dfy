/**
 * What the match update of a metrical hypothesis computes
 * (src/metdetection/meter/lpcfg/MetricalLpcfgMetricalModelState.java): the check of one
 * finished note, split at the grid of a level already matched, and the update run over the
 * queued notes, first the conglomerate beat check voice by voice and then the note checks.
 * These are the values the methods of the hypothesis class compute in place.
 */
module MatchUpdates {
  import opened JavaInt
  import opened Beats
  import opened MidiNotes
  import opened LpcfgTrees
  import opened MetricalMatches
  import opened Conglomerates
  import TreeFactory

  /** A hypothesis that will take no more matches: eliminated, or matched at both levels. */
  predicate Decided(c: Counters)
  {
    IsWrong(c) || IsFullyMatched(c)
  }

  /** The check of one segment of a note: a segment of length 0 is not checked. */
  function CheckSegment(g: Geometry, c: Counters, start: int, len: int): (r: Counters)
    requires GeometryValid(g)
    ensures NoLess(c, r) && Total(r) <= Total(c) + 1
    ensures len == 0 ==> r == c
  {
    if len != 0 then AddOptional(c, Classify(g, c, start, len)) else c
  }

  /**
   * `updateMatchType(note)`: the note's span, moved back by the anacrusis, is split at the grid
   * of a matched level; the prefix is checked, and the middle and postfix only while the
   * hypothesis is not yet decided.
   */
  function NoteMatch(g: Geometry, c: Counters, n: MidiNote, beats: seq<Beat>, tactiPerMeasure: int)
    : (r: Counters)
    requires GeometryValid(g) && TreeFactory.NoteFits(n, beats)
    ensures NoLess(c, r) && Total(r) <= Total(c) + 3
  {
    var span := NoteTacti(n, beats, tactiPerMeasure, g);
    var s := Split(g, c, span.start, span.length);
    var c1 := CheckSegment(g, c, s.prefixStart, s.prefixLength);
    var c2 := if Decided(c1) then c1 else CheckSegment(g, c1, s.middleStart, s.middleLength);
    if Decided(c2) then c2 else CheckSegment(g, c2, s.postfixStart, s.postfixLength)
  }

  /**
   * Before any level is matched a note is not split: the whole note, from its onset tactus
   * for its full length, is classified at once.
   */
  lemma NoteMatchUnsplit(g: Geometry, c: Counters, n: MidiNote, beats: seq<Beat>, tactiPerMeasure: int)
    requires GeometryValid(g) && TreeFactory.NoteFits(n, beats)
    requires c.subBeat == 0 && c.beat == 0 && !IsWrong(c)
    ensures var span := NoteTacti(n, beats, tactiPerMeasure, g);
      NoteMatch(g, c, n, beats, tactiPerMeasure) == AddOptional(c, Classify(g, c, span.start, span.length))
  {
    var span := NoteTacti(n, beats, tactiPerMeasure, g);
    assert Split(g, c, span.start, span.length) == Segments(span.start, 0, span.start, span.length,
                                                             span.start + span.length, 0);
  }

  /** Queued notes and the counters after the note checks of one update. */
  datatype Drained = Drained(counters: Counters, queue: seq<MidiNote>)

  /**
   * The loop of `updateMatchType()` over `notesToCheck`: while the hypothesis is undecided and
   * the first queued note ended no later than the last beat, check it and drop it.
   */
  function DrainChecks(g: Geometry, c: Counters, queue: seq<MidiNote>, beats: seq<Beat>,
                       tactiPerMeasure: int, lastTime: int): (r: Drained)
    requires GeometryValid(g) && AllFit(queue, beats)
    ensures NoLess(c, r.counters) && IsSuffix(r.queue, queue)
    ensures Decided(r.counters) || |r.queue| == 0 || r.queue[0].offsetTime > lastTime
    ensures Decided(c) ==> r == Drained(c, queue)
    decreases |queue|
  {
    if Decided(c) || |queue| == 0 || queue[0].offsetTime > lastTime then Drained(c, queue)
    else
      SuffixFits(queue[1..], queue, beats);
      var r := DrainChecks(g, NoteMatch(g, c, queue[0], beats, tactiPerMeasure), queue[1..], beats,
                           tactiPerMeasure, lastTime);
      SuffixTransitive(r.queue, queue[1..], queue);
      r
  }

  /** Only notes that ended no later than the last beat are ever checked and dropped. */
  lemma {:induction false} DrainedNotesEnded(g: Geometry, c: Counters, queue: seq<MidiNote>, beats: seq<Beat>,
                                             tactiPerMeasure: int, lastTime: int, i: int)
    requires GeometryValid(g) && AllFit(queue, beats)
    requires 0 <= i < |queue| - |DrainChecks(g, c, queue, beats, tactiPerMeasure, lastTime).queue|
    ensures queue[i].offsetTime <= lastTime
    decreases |queue|
  {
    if i > 0 {
      SuffixFits(queue[1..], queue, beats);
      DrainedNotesEnded(g, NoteMatch(g, c, queue[0], beats, tactiPerMeasure), queue[1..], beats,
                        tactiPerMeasure, lastTime, i - 1);
    }
  }

  /** Every notes queue of a list fits the beats. */
  predicate AllVoicesFit(voices: seq<seq<MidiNote>>, beats: seq<Beat>)
  {
    forall v :: 0 <= v < |voices| ==> AllFit(voices[v], beats)
  }

  /** The per-voice beat queues and the counters after the conglomerate checks of one update. */
  datatype Beaten = Beaten(counters: Counters, voices: seq<seq<MidiNote>>)

  /**
   * The loop of `updateMatchType()` over `notesToCheckBeats` from voice `vi` on: while the
   * hypothesis is not wrong and has no BEAT match, check the voice until it says to stop, count
   * a BEAT match if the check found one, and then clear every queue. `None` is an array index
   * Java rejects.
   */
  function ConglomerateVoices(g: Geometry, c: Counters, voices: seq<seq<MidiNote>>, vi: nat,
                              beats: seq<Beat>, tactiPerMeasure: int): (r: Option<Beaten>)
    requires GeometryValid(g) && |beats| > 0 && AllVoicesFit(voices, beats)
    ensures r.Some? ==> NoLess(c, r.value.counters)
    ensures r.Some? ==> r.value.counters.subBeat == c.subBeat && r.value.counters.wrong == c.wrong
    ensures r.Some? && r.value.counters.beat != c.beat ==>
      c.beat == 0 && r.value.counters.beat == 1 && r.value.voices == []
    ensures IsWrong(c) || c.beat > 0 ==> r == Some(Beaten(c, voices))
    ensures r.Some? ==> AllVoicesFit(r.value.voices, beats)
    decreases |voices| - vi
  {
    if IsWrong(c) || c.beat > 0 || vi >= |voices| then Some(Beaten(c, voices))
    else
      match DrainVoice(voices[vi], beats, tactiPerMeasure, g)
      case None => None
      case Some(d) =>
        if d.matched then Some(Beaten(AddMatch(c, BeatMatch), []))
        else
          SuffixFits(d.remaining, voices[vi], beats);
          ConglomerateVoices(g, c, voices[vi := d.remaining], vi + 1, beats, tactiPerMeasure)
  }

  /** The queues and counters after a whole match update. */
  datatype Update = Update(counters: Counters, beatQueues: seq<seq<MidiNote>>, queue: seq<MidiNote>)

  /**
   * `updateMatchType()`: the conglomerate checks, then the note checks against the time of the
   * last beat.
   */
  function UpdateMatches(g: Geometry, c: Counters, beatQueues: seq<seq<MidiNote>>, queue: seq<MidiNote>,
                         beats: seq<Beat>, tactiPerMeasure: int): (r: Option<Update>)
    requires GeometryValid(g) && |beats| > 0 && AllVoicesFit(beatQueues, beats) && AllFit(queue, beats)
    ensures r.Some? ==> NoLess(c, r.value.counters) && IsSuffix(r.value.queue, queue)
    ensures r.Some? ==> AllVoicesFit(r.value.beatQueues, beats) && AllFit(r.value.queue, beats)
    ensures r.Some? ==>
      Decided(r.value.counters) || |r.value.queue| == 0 || r.value.queue[0].offsetTime > beats[|beats| - 1].time
    ensures Decided(c) ==> r == Some(Update(c, beatQueues, queue))
  {
    match ConglomerateVoices(g, c, beatQueues, 0, beats, tactiPerMeasure)
    case None => None
    case Some(b) =>
      var d := DrainChecks(g, b.counters, queue, beats, tactiPerMeasure, beats[|beats| - 1].time);
      NoLessTransitive(c, b.counters, d.counters);
      SuffixFits(d.queue, queue, beats);
      Some(Update(d.counters, b.voices, d.queue))
  }

  /**
   * The update a hypothesis without a measure makes: Java dereferences the missing measure as
   * soon as a voice has notes to check for a beat match (while no beat match or elimination is
   * recorded), or a queued note has ended (while undecided); otherwise nothing changes.
   */
  predicate MeasurelessUpdateOk(c: Counters, beatQueues: seq<seq<MidiNote>>, queue: seq<MidiNote>,
                                beats: seq<Beat>)
  {
    (IsWrong(c) || c.beat > 0 || forall v :: 0 <= v < |beatQueues| ==> |beatQueues[v]| == 0)
    && |beats| > 0
    && (Decided(c) || |queue| == 0 || queue[0].offsetTime > beats[|beats| - 1].time)
  }
}
