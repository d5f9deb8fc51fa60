/**
 * One metrical hypothesis (src/metdetection/meter/lpcfg/MetricalLpcfgMetricalModelState.java):
 * a measure, sub-beat length and anacrusis, the notes it still has to parse and to check, the
 * counts of the matches its checks found, and the score of the measures parsed so far.
 */
module MetricalStates {
  import opened JavaInt
  import opened Beats
  import opened MidiNotes
  import opened LpcfgTrees
  import opened MetricalMatches
  import opened Conglomerates
  import opened MatchUpdates
  import opened ParseSteps
  import opened MetricalSteps
  import NoteTracks
  import opened Lpcfgs
  import opened ProbabilityTrackers
  import Voices
  import TreeFactory

  /** What a hypothesis reads from the voice and beat hypotheses it is joined with:
   *  `voiceState.getVoices()`, `beatState.getBeats()` and `beatState.getTactiPerMeasure()`,
   *  which do not change while one of its operations runs. */
  datatype View = View(voices: seq<Voices.Voice>, beats: seq<Beat>, tactiPerMeasure: int)

  /** The fields of a hypothesis other than its match counters. */
  datatype Fields = Fields(logProbability: real, measureNum: int, nextMeasureIndex: int,
                           hasBegun: seq<bool>, unfinishedNotes: seq<seq<MidiNote>>,
                           notesToCheck: seq<MidiNote>, notesToCheckBeats: seq<seq<MidiNote>>,
                           voiceState: object?, beatState: object?)

  /** `MetricalLpcfgMetricalModelState`. */
  class MetricalLpcfgState {
    const subBeatLength: int
    const anacrusisLength: int
    const measure: Option<Measure>
    const grammar: Lpcfgs.Grammar
    const localGrammar: Lpcfgs.Grammar
    const oracles: Oracles

    var logProbability: real
    var measureNum: int
    var nextMeasureIndex: int
    var hasBegun: seq<bool>
    var unfinishedNotes: seq<seq<MidiNote>>
    var notesToCheck: seq<MidiNote>
    var notesToCheckBeats: seq<seq<MidiNote>>
    var subBeatMatches: nat
    var beatMatches: nat
    var wrongMatches: nat
    var voiceState: object?
    var beatState: object?

    /** The three match counters. */
    function Tally(): Counters
      reads this
    {
      Counters(subBeatMatches, beatMatches, wrongMatches)
    }

    function Others(): Fields
      reads this
    {
      Fields(logProbability, measureNum, nextMeasureIndex, hasBegun, unfinishedNotes,
             notesToCheck, notesToCheckBeats, voiceState, beatState)
    }

    /** What `parseStep` changes, as a value. */
    function ParseView(): Parse
      reads this, localGrammar
    {
      Parse(measureNum, nextMeasureIndex, hasBegun, unfinishedNotes, localGrammar.trees)
    }

    /** What `handleIncoming` and `close` change, as a value; with `Valid()` it fixes the local
     *  counts and the score too. */
    function Snapshot(): Hyp
      reads this, localGrammar
    {
      Hyp(Tally(), ParseView(), notesToCheck, notesToCheckBeats)
    }

    /** A hypothesis with a measure, whose lengths are positive and whose anacrusis is shorter
     *  than a measure, as every first-step branch's is. */
    predicate Ready()
    {
      measure.Some? && GeometryValid(Geometry(subBeatLength, measure.value, anacrusisLength))
      && anacrusisLength < SubBeatsPerMeasure(measure.value)
    }

    /** The grid of the hypothesis, from which `updateMatchType` takes its beat and measure lengths. */
    function Geo(): (g: Geometry)
      requires Ready()
      ensures GeometryValid(g) && g.anacrusis < SubBeatsPerMeasure(g.measure)
    {
      Geometry(subBeatLength, measure.value, anacrusisLength)
    }

    /**
     * Where a hypothesis stands: one `hasBegun` flag per voice; a measure, if chosen, with
     * positive lengths, and the next measure's first beat index just past the measure being
     * parsed; and its own local grammar, apart from the shared one.
     */
    ghost predicate Placed()
      reads this, grammar, localGrammar
    {
      |hasBegun| == |unfinishedNotes|
      && (measure.Some? ==>
            Ready() && nextMeasureIndex > 0
            && nextMeasureIndex == TreeFactory.FirstBeatIndex(measure.value, subBeatLength, anacrusisLength, measureNum)
                                   + TreeFactory.MeasureLength(measure.value, subBeatLength))
      && (measure.None? ==> nextMeasureIndex == 0 && measureNum == 0)
      && grammar != localGrammar && grammar.probabilities != localGrammar.probabilities
    }

    /**
     * What every hypothesis keeps: it is placed, its local grammar holds exactly the counts of
     * its trees, and its score is the shared grammar's log probability of those trees.
     */
    ghost predicate Valid()
      reads this, grammar, localGrammar, grammar.probabilities, localGrammar.probabilities
    {
      Placed()
      && localGrammar.probabilities.Tables() == CountsOf(localGrammar.trees)
      && logProbability == ScoreOf(grammar.probabilities.Tables(), localGrammar.trees, oracles.smoothing)
    }

    /** Every note the hypothesis tracks fits the beats. */
    predicate Fits(beats: seq<Beat>)
      reads this
    {
      AllVoicesFit(unfinishedNotes, beats) && AllVoicesFit(notesToCheckBeats, beats)
      && AllFit(notesToCheck, beats)
    }

    /** A hypothesis with no measure yet, from which the first step branches. */
    constructor(grammar: Lpcfgs.Grammar, oracles: Oracles)
      ensures this.grammar == grammar && this.oracles == oracles
      ensures measure.None? && subBeatLength == 0 && anacrusisLength == 0
      ensures Tally() == Counters(0, 0, 0)
      ensures Others() == Fields(0.0, 0, 0, [], [], [], [], null, null)
      ensures fresh(localGrammar) && fresh(localGrammar.probabilities) && localGrammar.trees == []
      ensures Valid()
    {
      var local := new Lpcfgs.Grammar();
      subBeatLength := 0;
      anacrusisLength := 0;
      measure := None;
      this.grammar := grammar;
      this.oracles := oracles;
      subBeatMatches := 0;
      beatMatches := 0;
      wrongMatches := 0;
      localGrammar := local;
      logProbability := 0.0;
      measureNum := 0;
      nextMeasureIndex := 0;
      unfinishedNotes := [];
      notesToCheck := [];
      notesToCheckBeats := [];
      hasBegun := [];
      voiceState := null;
      beatState := null;
    }

    /**
     * The copying constructor, as `deepCopy` and the first step branches call it: the counters,
     * score and lists of `state` with a deep copy of its local grammar. A hypothesis taking a
     * measure while its next measure index is 0 positions that index: at the anacrusis' end, in
     * measure -1, when there is an anacrusis, and otherwise one measure in.
     */
    constructor Branch(state: MetricalLpcfgState, grammar: Lpcfgs.Grammar, measure: Option<Measure>,
                       terminalLength: int, anacrusisLength: int)
      requires state.Valid() && grammar == state.grammar
      requires measure.Some? ==> GeometryValid(Geometry(terminalLength, measure.value, anacrusisLength))
                                 && anacrusisLength < SubBeatsPerMeasure(measure.value)
      requires measure.None? ==> state.measure.None?
      requires state.measure.Some? ==>
        measure == state.measure && terminalLength == state.subBeatLength && anacrusisLength == state.anacrusisLength
      ensures subBeatLength == terminalLength && this.anacrusisLength == anacrusisLength
      ensures this.measure == measure && this.grammar == grammar && oracles == state.oracles
      ensures Tally() == state.Tally()
      ensures var nmi := state.nextMeasureIndex;
        Others() == state.Others().(
          measureNum := if measure.Some? && nmi == 0 && anacrusisLength != 0 then -1 else state.measureNum,
          nextMeasureIndex :=
            if measure.Some? && nmi == 0 then
              (if anacrusisLength != 0 then anacrusisLength * terminalLength
               else TreeFactory.MeasureLength(measure.value, terminalLength))
            else nmi)
      ensures fresh(localGrammar) && fresh(localGrammar.probabilities)
      ensures localGrammar.trees == state.localGrammar.trees
      ensures localGrammar.probabilities.Tables() == state.localGrammar.probabilities.Tables()
      ensures Valid()
    {
      var local := state.localGrammar.DeepCopy();
      subBeatLength := terminalLength;
      this.anacrusisLength := anacrusisLength;
      this.measure := measure;
      this.grammar := grammar;
      oracles := state.oracles;
      subBeatMatches := state.subBeatMatches;
      beatMatches := state.beatMatches;
      wrongMatches := state.wrongMatches;
      logProbability := state.logProbability;
      var num := state.measureNum;
      var next := state.nextMeasureIndex;
      if measure.Some? && next == 0 {
        if anacrusisLength != 0 {
          next := anacrusisLength * terminalLength;
          num := -1;
          PositiveProduct(anacrusisLength, terminalLength);
        } else {
          next := TreeFactory.MeasureLength(measure.value, terminalLength);
          PositiveProduct(terminalLength, measure.value.beatsPerMeasure);
          PositiveProduct(terminalLength * measure.value.beatsPerMeasure, measure.value.subBeatsPerBeat);
        }
      }
      measureNum := num;
      nextMeasureIndex := next;
      unfinishedNotes := state.unfinishedNotes;
      notesToCheckBeats := state.notesToCheckBeats;
      hasBegun := state.hasBegun;
      localGrammar := local;
      notesToCheck := state.notesToCheck;
      voiceState := state.voiceState;
      beatState := state.beatState;
    }

    /** `deepCopy`. */
    method DeepCopy() returns (copy: MetricalLpcfgState)
      requires Valid()
      ensures fresh(copy) && fresh(copy.localGrammar) && fresh(copy.localGrammar.probabilities)
      ensures copy.subBeatLength == subBeatLength && copy.anacrusisLength == anacrusisLength
      ensures copy.measure == measure && copy.grammar == grammar && copy.oracles == oracles
      ensures copy.Tally() == Tally() && copy.Others() == Others()
      ensures copy.localGrammar.trees == localGrammar.trees
      ensures copy.localGrammar.probabilities.Tables() == localGrammar.probabilities.Tables()
      ensures copy.Valid()
    {
      copy := new MetricalLpcfgState.Branch(this, grammar, measure, subBeatLength, anacrusisLength);
    }

    method SetVoiceState(voiceState: object?)
      modifies this
      ensures Tally() == old(Tally()) && Others() == old(Others()).(voiceState := voiceState)
    {
      this.voiceState := voiceState;
    }

    method SetBeatState(beatState: object?)
      modifies this
      ensures Tally() == old(Tally()) && Others() == old(Others()).(beatState := beatState)
    {
      this.beatState := beatState;
    }

    // -------------------------------------------------------------------------
    // Matching

    /** `addMatch`: one more match of the given kind. */
    method AddMatch(m: MatchKind)
      modifies this
      ensures Tally() == MetricalMatches.AddMatch(old(Tally()), m) && Others() == old(Others())
    {
      match m
      case SubBeatMatch => subBeatMatches := subBeatMatches + 1;
      case BeatMatch => beatMatches := beatMatches + 1;
      case WrongMatch => wrongMatches := wrongMatches + 1;
    }

    /** `updateMatchType(startTactus, noteLengthTacti)`: record what the span is classified as. */
    method UpdateMatchSpan(start: int, len: int)
      requires Ready() && len != 0
      modifies this
      ensures Tally() == AddOptional(old(Tally()), Classify(Geo(), old(Tally()), start, len))
      ensures Others() == old(Others())
    {
      var m := Classify(Geo(), Tally(), start, len);
      if m.Some? {
        AddMatch(m.value);
      }
    }

    /** `updateMatchType(note)`: check the note's segments, stopping once decided. */
    method UpdateMatchNote(note: MidiNote, beats: seq<Beat>, tactiPerMeasure: int)
      requires Ready() && TreeFactory.NoteFits(note, beats)
      modifies this
      ensures Tally() == NoteMatch(Geo(), old(Tally()), note, beats, tactiPerMeasure)
      ensures Others() == old(Others())
    {
      var span := NoteTacti(note, beats, tactiPerMeasure, Geo());
      var s := Split(Geo(), Tally(), span.start, span.length);
      if s.prefixLength != 0 {
        UpdateMatchSpan(s.prefixStart, s.prefixLength);
      }
      if !Decided(Tally()) && s.middleLength != 0 {
        UpdateMatchSpan(s.middleStart, s.middleLength);
      }
      if !Decided(Tally()) && s.postfixLength != 0 {
        UpdateMatchSpan(s.postfixStart, s.postfixLength);
      }
    }

    /** `while (checkConglomerateBeatMatch(notesToCheckBeats.get(voiceIndex)));`: the checks drop
     *  notes from the front of the voice's queue, and a BEAT match found is counted. */
    method DrainVoiceQueue(voiceIndex: int, beats: seq<Beat>, tactiPerMeasure: int) returns (ok: bool)
      requires Ready() && |beats| > 0 && 0 <= voiceIndex < |notesToCheckBeats|
      requires AllFit(notesToCheckBeats[voiceIndex], beats)
      modifies this
      ensures var r := DrainVoice(old(notesToCheckBeats[voiceIndex]), beats, tactiPerMeasure, Geo());
        ok == r.Some?
        && (ok ==>
              Tally() == (if r.value.matched then MetricalMatches.AddMatch(old(Tally()), BeatMatch) else old(Tally()))
              && Others() == old(Others()).(notesToCheckBeats := old(notesToCheckBeats)[voiceIndex := r.value.remaining]))
    {
      var check;
      ok, check := DrainVoiceChecks(notesToCheckBeats[voiceIndex], beats, tactiPerMeasure, Geo());
      if !ok {
        return;
      }
      notesToCheckBeats := notesToCheckBeats[voiceIndex := check.remaining];
      if check.matched {
        AddMatch(BeatMatch);
      }
    }

    /** The loop of `updateMatchType()` over the voices' beat queues. */
    method CheckConglomerates(beats: seq<Beat>, tactiPerMeasure: int) returns (ok: bool)
      requires Ready() && |beats| > 0 && AllVoicesFit(notesToCheckBeats, beats)
      modifies this
      ensures var r := ConglomerateVoices(Geo(), old(Tally()), old(notesToCheckBeats), 0, beats, tactiPerMeasure);
        ok == r.Some?
        && (ok ==> Tally() == r.value.counters && Others() == old(Others()).(notesToCheckBeats := r.value.voices))
    {
      var voiceIndex := 0;
      while !IsWrong(Tally()) && beatMatches == 0 && voiceIndex < |notesToCheckBeats|
        invariant 0 <= voiceIndex && AllVoicesFit(notesToCheckBeats, beats)
        invariant ConglomerateVoices(Geo(), Tally(), notesToCheckBeats, voiceIndex, beats, tactiPerMeasure)
          == ConglomerateVoices(Geo(), old(Tally()), old(notesToCheckBeats), 0, beats, tactiPerMeasure)
        invariant Others() == old(Others()).(notesToCheckBeats := notesToCheckBeats)
        decreases if beatMatches > 0 then 0 else 1, |notesToCheckBeats| - voiceIndex
      {
        ghost var queues := notesToCheckBeats;
        ok := DrainVoiceQueue(voiceIndex, beats, tactiPerMeasure);
        if !ok {
          return;
        }
        SuffixFits(notesToCheckBeats[voiceIndex], queues[voiceIndex], beats);
        if beatMatches > 0 {
          notesToCheckBeats := [];
        }
        voiceIndex := voiceIndex + 1;
      }
      ok := true;
    }

    /** The loop of `updateMatchType()` over `notesToCheck`, against the last beat's time. */
    method CheckQueuedNotes(beats: seq<Beat>, tactiPerMeasure: int)
      requires Ready() && |beats| > 0 && AllFit(notesToCheck, beats)
      modifies this
      ensures var d := DrainChecks(Geo(), old(Tally()), old(notesToCheck), beats, tactiPerMeasure, beats[|beats| - 1].time);
        Tally() == d.counters && Others() == old(Others()).(notesToCheck := d.queue)
    {
      var lastTime := beats[|beats| - 1].time;
      while !IsWrong(Tally()) && !IsFullyMatched(Tally()) && |notesToCheck| > 0 && notesToCheck[0].offsetTime <= lastTime
        invariant AllFit(notesToCheck, beats)
        invariant DrainChecks(Geo(), Tally(), notesToCheck, beats, tactiPerMeasure, lastTime)
          == DrainChecks(Geo(), old(Tally()), old(notesToCheck), beats, tactiPerMeasure, lastTime)
        invariant Others() == old(Others()).(notesToCheck := notesToCheck)
        decreases |notesToCheck|
      {
        var note := notesToCheck[0];
        SuffixFits(notesToCheck[1..], notesToCheck, beats);
        notesToCheck := notesToCheck[1..];
        UpdateMatchNote(note, beats, tactiPerMeasure);
      }
    }

    /** `updateMatchType()`: `ok` is false where Java throws, which it does before changing
     *  anything when there are no beats. */
    method UpdateMatchType(beats: seq<Beat>, tactiPerMeasure: int) returns (ok: bool)
      requires Ready() && AllVoicesFit(notesToCheckBeats, beats) && AllFit(notesToCheck, beats)
      modifies this
      ensures |beats| == 0 ==> !ok && Tally() == old(Tally()) && Others() == old(Others())
      ensures |beats| > 0 ==>
        var r := UpdateMatches(Geo(), old(Tally()), old(notesToCheckBeats), old(notesToCheck), beats, tactiPerMeasure);
        ok == r.Some?
        && (ok ==> Tally() == r.value.counters
                   && Others() == old(Others()).(notesToCheck := r.value.queue, notesToCheckBeats := r.value.beatQueues))
    {
      if |beats| == 0 {
        return false;
      }
      ok := CheckConglomerates(beats, tactiPerMeasure);
      if !ok {
        return;
      }
      CheckQueuedNotes(beats, tactiPerMeasure);
    }

    // -------------------------------------------------------------------------
    // Parsing

    /** `logProbability += grammar.getTreeLogProbability(tree); localGrammar.addTree(tree);`. */
    method ScoreTree(tree: Tree)
      requires Placed()
      modifies this, localGrammar, localGrammar.probabilities
      ensures Placed() && localGrammar.probabilities == old(localGrammar.probabilities)
      ensures localGrammar.trees == old(localGrammar.trees) + [tree]
      ensures localGrammar.probabilities.Tables() == AddEvents(old(localGrammar.probabilities.Tables()), TreeEvents(tree))
      ensures logProbability
              == old(logProbability) + SumLogProbability(grammar.probabilities.Tables(), TreeEvents(tree), oracles.smoothing)
      ensures Tally() == old(Tally()) && Others() == old(Others()).(logProbability := logProbability)
    {
      logProbability := logProbability + grammar.TreeProbability(tree, oracles.smoothing);
      localGrammar.AddTree(tree);
    }

    /** What the loop of `parseStep` changes. */
    function Current(): Progress<Counts>
      reads this, localGrammar, localGrammar.probabilities
    {
      Progress(hasBegun, localGrammar.trees, localGrammar.probabilities.Tables(), logProbability)
    }

    /** One pass of the loop of `parseStep`, given the voice's tree. */
    method ParseVoice(voiceIndex: int, tree: Tree)
      requires Placed() && 0 <= voiceIndex < |hasBegun|
      modifies this, localGrammar, localGrammar.probabilities
      ensures Placed() && localGrammar.probabilities == old(localGrammar.probabilities)
      ensures Current() == VoiceStep(old(Current()), tree, voiceIndex, TreeCounts,
                                         TreeScores(grammar.probabilities.Tables(), oracles.smoothing), oracles)
      ensures Tally() == old(Tally())
      ensures Others() == old(Others()).(logProbability := logProbability, hasBegun := hasBegun)
    {
      if !oracles.isEmpty(tree) {
        var begun := hasBegun[voiceIndex];
        if !begun {
          hasBegun := hasBegun[voiceIndex := true];
        }
        if begun || !oracles.startsWithRest(tree) {
          ScoreTree(tree);
        }
      }
    }

    /** `removeFinishedNotes`. */
    method RemoveFinishedNotes(beats: seq<Beat>)
      requires AllVoicesFit(unfinishedNotes, beats)
      modifies this
      ensures Tally() == old(Tally())
      ensures Others() == old(Others()).(unfinishedNotes :=
                NoteTracks.RemainingNotes(old(unfinishedNotes), beats, nextMeasureIndex))
    {
      ghost var voices := unfinishedNotes;
      for v := 0 to |unfinishedNotes|
        invariant |unfinishedNotes| == |voices|
        invariant forall j :: 0 <= j < |voices| ==>
          unfinishedNotes[j] == if j < v then NoteTracks.Unfinished(voices[j], beats, nextMeasureIndex) else voices[j]
        invariant Tally() == old(Tally()) && Others() == old(Others()).(unfinishedNotes := unfinishedNotes)
      {
        var kept := NoteTracks.RemoveFinished(unfinishedNotes[v], beats, nextMeasureIndex);
        unfinishedNotes := unfinishedNotes[v := kept];
      }
    }

    /** The loop of `parseStep` over the voices, given their trees. */
    method ParseVoices(trees: seq<Tree>)
      requires Placed() && |trees| == |hasBegun|
      modifies this, localGrammar, localGrammar.probabilities
      ensures Placed() && localGrammar.probabilities == old(localGrammar.probabilities)
      ensures Current() == ParsedTo(old(Current()), trees, TreeCounts,
                                       TreeScores(grammar.probabilities.Tables(), oracles.smoothing), oracles, |trees|)
      ensures Tally() == old(Tally())
      ensures Others() == old(Others()).(logProbability := logProbability, hasBegun := hasBegun)
    {
      for v := 0 to |trees|
        invariant Placed() && localGrammar.probabilities == old(localGrammar.probabilities)
        invariant Current() == ParsedTo(old(Current()), trees, TreeCounts,
                                         TreeScores(grammar.probabilities.Tables(), oracles.smoothing), oracles, v)
        invariant Tally() == old(Tally())
        invariant Others() == old(Others()).(logProbability := logProbability, hasBegun := hasBegun)
      {
        ParseVoice(v, trees[v]);
      }
    }

    /**
     * The scoring loop of `parseStep` over given voice trees, with what it keeps: the voices
     * with a non-empty tree are marked begun, the scored trees are added to the local grammar,
     * and its counts and the score stay those of the trees it holds.
     */
    method ScoreStep(trees: seq<Tree>)
      requires Valid() && |trees| == |hasBegun|
      modifies this, localGrammar, localGrammar.probabilities
      ensures Valid() && Tally() == old(Tally()) && localGrammar.probabilities == old(localGrammar.probabilities)
      ensures var scored := ScoredTrees(trees, old(hasBegun), oracles);
        localGrammar.trees == old(localGrammar.trees) + scored
        && Others() == old(Others()).(
             logProbability := old(logProbability) + ScoreOf(grammar.probabilities.Tables(), scored, oracles.smoothing),
             hasBegun := BegunAfter(trees, old(hasBegun), oracles))
    {
      ghost var p0 := Current();
      ParseVoices(trees);
      ParsedAll(p0, trees, grammar.probabilities.Tables(), oracles);
      ScoreOfConcat(grammar.probabilities.Tables(), old(localGrammar.trees), ScoredTrees(trees, old(hasBegun), oracles),
                    oracles.smoothing);
    }

    /** The end of `parseStep`: drop the notes the measure finished and move on one measure. */
    method NextMeasure(beats: seq<Beat>)
      requires Valid() && Ready() && Fits(beats)
      modifies this
      ensures Valid() && Fits(beats) && Tally() == old(Tally())
      ensures Others() == old(Others()).(
             measureNum := old(measureNum) + 1,
             nextMeasureIndex := old(nextMeasureIndex) + TreeFactory.MeasureLength(measure.value, subBeatLength),
             unfinishedNotes := NoteTracks.RemainingNotes(old(unfinishedNotes), beats, old(nextMeasureIndex)))
    {
      RemoveFinishedNotes(beats);
      forall v | 0 <= v < |unfinishedNotes| ensures AllFit(unfinishedNotes[v], beats) {
        NoteTracks.UnfinishedFits(old(unfinishedNotes)[v], beats, nextMeasureIndex);
      }
      var length := subBeatLength * measure.value.beatsPerMeasure * measure.value.subBeatsPerBeat;
      assert length == TreeFactory.MeasureLength(measure.value, subBeatLength);
      assert length * (measureNum + 1) == length * measureNum + length;
      nextMeasureIndex := nextMeasureIndex + length;
      measureNum := measureNum + 1;
    }

    /**
     * `parseStep`: build each voice's tree for the current measure, score and add them
     * (`ScoreStep`), then drop the notes the measure finished and move on one measure
     * (`NextMeasure`); stated here as what the parse loops of `handleIncoming` and `close` use.
     */
    method ParseOneStep(beats: seq<Beat>)
      requires Valid() && Ready() && Fits(beats)
      modifies this, localGrammar, localGrammar.probabilities
      ensures Valid() && Fits(beats) && Tally() == old(Tally())
        && localGrammar.probabilities == old(localGrammar.probabilities)
      ensures measureNum == old(measureNum) + 1 && nextMeasureIndex == old(nextMeasureIndex) + MeasureSpan()
      ensures unfinishedNotes == NoteTracks.RemainingNotes(old(unfinishedNotes), beats, old(nextMeasureIndex))
      ensures ParseView() == ParseStep(Geo(), old(ParseView()), beats, oracles)
      ensures notesToCheck == old(notesToCheck) && notesToCheckBeats == old(notesToCheckBeats)
      ensures voiceState == old(voiceState) && beatState == old(beatState)
    {
      var trees := MakeVoiceTrees(unfinishedNotes, beats, Geo(), measureNum, oracles.annotator);
      ScoreStep(trees);
      NextMeasure(beats);
    }

    /** `allNotesFinished`. */
    method AllNotesFinished() returns (finished: bool)
      ensures finished <==> forall v :: 0 <= v < |unfinishedNotes| ==> |unfinishedNotes[v]| == 0
    {
      for v := 0 to |unfinishedNotes|
        invariant forall j :: 0 <= j < v ==> |unfinishedNotes[j]| == 0
      {
        if |unfinishedNotes[v]| != 0 {
          return false;
        }
      }
      return true;
    }

    /** The per-voice lists of the hypothesis. */
    function Lists(): NoteTracks.Tracks
      reads this
    {
      NoteTracks.Tracks(unfinishedNotes, hasBegun, notesToCheckBeats)
    }

    /** One pass of the loop of `addNewVoices`, for voice `voiceIndex`; `ok` is false where Java
     *  throws, at a list index out of range. */
    method AddVoiceAt(voiceIndex: int, voice: Voices.Voice, notes: seq<MidiNote>) returns (ok: bool)
      requires voiceIndex >= 0
      modifies this
      ensures var r := NoteTracks.AddVoice(old(Lists()), voiceIndex, voice, notes, old(beatMatches) > 0);
        ok == r.Some?
        && (ok ==> Tally() == old(Tally())
                   && Others() == old(Others()).(unfinishedNotes := r.value.unfinished, hasBegun := r.value.begun,
                                                 notesToCheckBeats := r.value.beatQueues))
    {
      if !NoteTracks.Contains(notes, voice.mostRecentNote) {
        return true;
      }
      var newNotes, newVoice := NoteTracks.CollectNewNotes(Voices.Notes(voice), notes);
      var beatMatched := beatMatches > 0;
      if newVoice {
        if voiceIndex > |unfinishedNotes| || voiceIndex > |hasBegun| || (!beatMatched && voiceIndex > |notesToCheckBeats|) {
          return false;
        }
        unfinishedNotes := NoteTracks.Insert(unfinishedNotes, voiceIndex, newNotes);
        hasBegun := NoteTracks.Insert(hasBegun, voiceIndex, false);
        if !beatMatched {
          notesToCheckBeats := NoteTracks.Insert(notesToCheckBeats, voiceIndex, newNotes);
        }
      } else {
        if voiceIndex >= |unfinishedNotes| || (!beatMatched && voiceIndex >= |notesToCheckBeats|) {
          return false;
        }
        unfinishedNotes := unfinishedNotes[voiceIndex := unfinishedNotes[voiceIndex] + newNotes];
        if !beatMatched {
          notesToCheckBeats := notesToCheckBeats[voiceIndex := notesToCheckBeats[voiceIndex] + newNotes];
        }
      }
      ok := true;
    }

    /**
     * `addNewVoices`: file the notes of every voice whose most recent note just arrived, as a new
     * list when the whole voice is new and at the end of its list otherwise.
     */
    method AddNewVoices(notes: seq<MidiNote>, voices: seq<Voices.Voice>) returns (ok: bool)
      modifies this
      ensures var r := NoteTracks.AddVoices(old(Lists()), voices, notes, old(beatMatches) > 0, 0);
        ok == r.Some?
        && (ok ==> Tally() == old(Tally())
                   && Others() == old(Others()).(unfinishedNotes := r.value.unfinished, hasBegun := r.value.begun,
                                                 notesToCheckBeats := r.value.beatQueues))
    {
      for voiceIndex := 0 to |voices|
        invariant NoteTracks.AddVoices(Lists(), voices, notes, beatMatches > 0, voiceIndex)
                  == NoteTracks.AddVoices(old(Lists()), voices, notes, old(beatMatches) > 0, 0)
        invariant Tally() == old(Tally())
        invariant Others() == old(Others()).(unfinishedNotes := unfinishedNotes, hasBegun := hasBegun,
                                             notesToCheckBeats := notesToCheckBeats)
      {
        ok := AddVoiceAt(voiceIndex, voices[voiceIndex], notes);
        if !ok {
          return;
        }
      }
      ok := true;
    }

    /** The length of this hypothesis' measures, in beat indices. */
    function MeasureSpan(): (n: nat)
      requires Ready()
      ensures n > 0
    {
      PositiveProduct(subBeatLength, measure.value.beatsPerMeasure);
      PositiveProduct(subBeatLength * measure.value.beatsPerMeasure, measure.value.subBeatsPerBeat);
      TreeFactory.MeasureLength(measure.value, subBeatLength)
    }

    /**
     * The loop of `handleIncoming` that runs `parseStep` while the beats reach past the next
     * measure: afterwards the next measure starts at or past the last beat, every measure parsed
     * was complete, and the trees parsed are added after the ones before.
     */
    method ParseCompleteMeasures(beats: seq<Beat>)
      requires Valid() && Ready() && Fits(beats)
      modifies this, localGrammar, localGrammar.probabilities
      ensures Valid() && Fits(beats) && Tally() == old(Tally())
        && localGrammar.probabilities == old(localGrammar.probabilities)
      ensures nextMeasureIndex >= |beats| && measureNum >= old(measureNum)
      ensures measureNum > old(measureNum) ==> nextMeasureIndex - MeasureSpan() < |beats|
      ensures old(nextMeasureIndex) >= |beats| ==> Others() == old(Others()) && localGrammar.trees == old(localGrammar.trees)
      ensures ParseView() == ParseComplete(Geo(), old(ParseView()), beats, oracles)
      ensures notesToCheck == old(notesToCheck) && notesToCheckBeats == old(notesToCheckBeats)
      ensures voiceState == old(voiceState) && beatState == old(beatState)
    {
      while |beats| > nextMeasureIndex
        invariant Valid() && Fits(beats) && Tally() == old(Tally())
        && localGrammar.probabilities == old(localGrammar.probabilities)
        invariant ParseComplete(Geo(), ParseView(), beats, oracles) == ParseComplete(Geo(), old(ParseView()), beats, oracles)
        invariant measureNum >= old(measureNum)
        invariant measureNum > old(measureNum) ==> nextMeasureIndex - MeasureSpan() < |beats|
        invariant old(nextMeasureIndex) >= |beats| ==> measureNum == old(measureNum)
        invariant measureNum == old(measureNum) ==> Others() == old(Others()) && localGrammar.trees == old(localGrammar.trees)
        invariant old(localGrammar.trees) <= localGrammar.trees
        invariant notesToCheck == old(notesToCheck) && notesToCheckBeats == old(notesToCheckBeats)
        invariant voiceState == old(voiceState) && beatState == old(beatState)
        decreases |beats| - nextMeasureIndex
      {
        ParseOneStep(beats);
      }
    }

    /**
     * The loop of `close` that runs `parseStep` until every voice's unfinished notes are gone.
     * It ends: once the next measure starts at or past the last beat, one more step finishes
     * every note.
     */
    method ParseRemaining(beats: seq<Beat>)
      requires Valid() && Ready() && Fits(beats)
      modifies this, localGrammar, localGrammar.probabilities
      ensures Valid() && Fits(beats) && Tally() == old(Tally())
        && localGrammar.probabilities == old(localGrammar.probabilities)
      ensures ParseView() == ParseRest(Geo(), old(ParseView()), beats, oracles)
      ensures notesToCheck == old(notesToCheck) && notesToCheckBeats == old(notesToCheckBeats)
      ensures voiceState == old(voiceState) && beatState == old(beatState)
    {
      var finished := AllNotesFinished();
      while !finished
        invariant Valid() && Fits(beats) && Tally() == old(Tally())
        && localGrammar.probabilities == old(localGrammar.probabilities)
        invariant finished <==> AllFinished(unfinishedNotes)
        invariant ParseRest(Geo(), ParseView(), beats, oracles) == ParseRest(Geo(), old(ParseView()), beats, oracles)
        invariant notesToCheck == old(notesToCheck) && notesToCheckBeats == old(notesToCheckBeats)
        invariant voiceState == old(voiceState) && beatState == old(beatState)
        decreases if nextMeasureIndex >= |beats| then 0 else |beats| - nextMeasureIndex + 1, if finished then 0 else 1
      {
        ghost var view := ParseView();
        ParseOneStep(beats);
        if view.nextMeasureIndex >= |beats| {
          StepPastLastBeat(Geo(), view, beats, oracles);
        }
        finished := AllNotesFinished();
      }
    }

    // -------------------------------------------------------------------------
    // Branching

    /** What the first-step branches copy from a hypothesis without a measure and update. */
    function Waiting(): Pending
      reads this
    {
      Pending(Tally(), notesToCheckBeats, notesToCheck)
    }

    /** One candidate of `getAllFirstStepBranches`: the copy for the measure and anacrusis, with
     *  its match type updated. */
    method BranchAt(m: Measure, anacrusis: int, view: View) returns (ok: bool, s: MetricalLpcfgState)
      requires Valid() && measure.None? && Fits(view.beats) && |view.beats| > 0
      requires PositiveMeasure(m) && 0 <= anacrusis < SubBeatsPerMeasure(m)
      ensures ok == BranchUpdate(Waiting(), m, anacrusis, view).Some?
      ensures fresh(s) && fresh(s.localGrammar) && fresh(s.localGrammar.probabilities)
      ensures ok ==> s.Valid()
      ensures s.measure == Some(m) && s.subBeatLength == 1 && s.anacrusisLength == anacrusis
      ensures s.grammar == grammar && s.oracles == oracles
      ensures s.localGrammar.trees == localGrammar.trees
      ensures ok ==>
        var c := BranchUpdate(Waiting(), m, anacrusis, view).value;
        s.Tally() == c.counters
        && s.Others() == Others().(
             measureNum := if anacrusis != 0 then -1 else 0,
             nextMeasureIndex := if anacrusis != 0 then anacrusis else TreeFactory.MeasureLength(m, 1),
             notesToCheck := c.queue, notesToCheckBeats := c.beatQueues)
    {
      s := new MetricalLpcfgState.Branch(this, grammar, Some(m), 1, anacrusis);
      ghost var before := s.Others();
      ok := s.UpdateMatchType(view.beats, view.tactiPerMeasure);
      if ok {
        assert s.Others() == before.(notesToCheck := s.notesToCheck, notesToCheckBeats := s.notesToCheckBeats);
        assert s.Placed();
      }
    }

    /**
     * One pass of the inner loop of `getAllFirstStepBranches`: the branch for anacrusis `a`,
     * kept when it is not wrong; `anacrusis` are the positions kept so far, `indices` after.
     */
    method BranchStep(ghost p: Pending, m: Measure, a: nat, view: View, ghost outs: seq<Option<Update>>,
                      ghost anacrusis: seq<int>)
      returns (ok: bool, kept: seq<MetricalLpcfgState>, ghost indices: seq<int>)
      requires Valid() && measure.None? && Fits(view.beats) && |view.beats| > 0 && PositiveMeasure(m)
      requires p == Waiting() && PendingFits(p, view.beats) && UpdatesOf(outs, p, m, view) && a < |outs|
      requires KeptOf(outs[..a]) == Some(anacrusis)
      ensures ok == outs[a].Some? && (!ok ==> KeptOf(outs).None?)
      ensures ok ==> KeptOf(outs[..a + 1]) == Some(anacrusis + indices)
      ensures ok ==> (|kept| == 1 <==> !IsWrong(outs[a].value.counters))
      ensures |kept| <= 1 && indices == if |kept| == 1 then [a] else []
      ensures forall i :: 0 <= i < |kept| ==>
        fresh(kept[i]) && fresh(kept[i].localGrammar) && fresh(kept[i].localGrammar.probabilities)
        && kept[i].anacrusisLength == a && IsBranch(kept[i], m, outs[a], grammar, oracles)
    {
      var s;
      ok, s := BranchAt(m, a, view);
      KeptOfStep(outs, a, anacrusis);
      if ok && !IsWrong(s.Tally()) {
        kept, indices := [s], [a];
      } else {
        kept, indices := [], [];
        assert anacrusis + indices == anacrusis;
      }
    }

    /**
     * The inner loop of `getAllFirstStepBranches`, over the anacrusis lengths of one measure,
     * given the match updates `outs` of their branches: one branch per anacrusis whose update
     * is not wrong, in increasing order, and failure once an update throws.
     */
    method BranchMeasure(m: Measure, view: View, ghost outs: seq<Option<Update>>)
      returns (ok: bool, branches: seq<MetricalLpcfgState>)
      requires Valid() && measure.None? && Fits(view.beats) && |view.beats| > 0
      requires PendingFits(Waiting(), view.beats) && MeasureUpdates(outs, Waiting(), m, view)
      ensures ok == KeptOf(outs).Some?
      ensures ok ==> |branches| == |KeptOf(outs).value|
      ensures ok ==> forall i :: 0 <= i < |branches| ==> branches[i].anacrusisLength == KeptOf(outs).value[i]
      ensures forall s :: s in branches ==> fresh(s) && fresh(s.localGrammar) && fresh(s.localGrammar.probabilities)
      ensures forall s :: s in branches ==>
        0 <= s.anacrusisLength < |outs| && IsBranch(s, m, outs[s.anacrusisLength], grammar, oracles)
    {
      ghost var p := Waiting();
      ghost var anacrusis: seq<int> := [];
      branches := [];
      var subBeatsPerMeasure := LoopBound(m);
      if subBeatsPerMeasure <= 0 {
        // the anacrusis loop runs zero times
        return true, branches;
      }
      for a := 0 to subBeatsPerMeasure
        invariant p == Waiting()
        invariant KeptOf(outs[..a]) == Some(anacrusis) && |branches| == |anacrusis|
        invariant forall i :: 0 <= i < |branches| ==>
          fresh(branches[i]) && fresh(branches[i].localGrammar) && fresh(branches[i].localGrammar.probabilities)
        invariant forall i :: 0 <= i < |branches| ==>
          branches[i].anacrusisLength == anacrusis[i] && 0 <= anacrusis[i] < a
          && IsBranch(branches[i], m, outs[anacrusis[i]], grammar, oracles)
      {
        var fine, kept;
        ghost var indices;
        fine, kept, indices := BranchStep(p, m, a, view, outs, anacrusis);
        if !fine {
          return false, branches;
        }
        branches, anacrusis := branches + kept, anacrusis + indices;
      }
      assert outs[..|outs|] == outs;
      ok := true;
    }

    /**
     * The loop of `getAllFirstStepBranches` over the measures of the grammar: the branches
     * `BranchMeasure` keeps for each measure, one group per measure, given the updates `outs`
     * of their candidates; failure as soon as one update throws.
     */
    method BranchMeasures(view: View, measures: seq<Measure>, ghost outs: seq<seq<Option<Update>>>)
      returns (ok: bool, states: seq<MetricalLpcfgState>, ghost groups: seq<seq<MetricalLpcfgState>>)
      requires Valid() && measure.None? && Fits(view.beats) && |view.beats| > 0
      requires PendingFits(Waiting(), view.beats) && |outs| == |measures|
      requires forall i :: 0 <= i < |measures| ==> MeasureUpdates(outs[i], Waiting(), measures[i], view)
      ensures ok <==> forall i :: 0 <= i < |measures| ==> KeptOf(outs[i]).Some?
      ensures ok ==> |groups| == |measures| && states == Flatten(groups)
      ensures ok ==> forall i :: 0 <= i < |groups| ==> GroupKept(groups[i], outs[i])
      ensures forall i :: 0 <= i < |groups| ==> forall s :: s in groups[i] ==> BranchOfMeasure(s, i, measures, outs, grammar, oracles)
      ensures forall s :: s in states ==> fresh(s) && fresh(s.localGrammar) && fresh(s.localGrammar.probabilities)
      ensures forall s :: s in states ==> FirstBranch(s, grammar, oracles)
    {
      ghost var p := Waiting();
      groups, states := [], [];
      for i := 0 to |measures|
        invariant p == Waiting()
        invariant |groups| == i && states == Flatten(groups)
        invariant forall k :: 0 <= k < i ==> GroupKept(groups[k], outs[k])
        invariant forall j :: 0 <= j < |states| ==>
          fresh(states[j]) && fresh(states[j].localGrammar) && fresh(states[j].localGrammar.probabilities)
        invariant forall k :: 0 <= k < i ==> forall s :: s in groups[k] ==> BranchOfMeasure(s, k, measures, outs, grammar, oracles)
      {
        var fine;
        fine, states, groups := GroupStep(view, measures, outs, i, states, groups);
        if !fine {
          ok := false;
          GroupsBranch(states, groups, measures, outs);
          return;
        }
      }
      ok := true;
      GroupsBranch(states, groups, measures, outs);
    }

    /** One pass of the loop of `getAllFirstStepBranches` over the measures: the group of the
     *  `i`th measure, after the groups before it. */
    method GroupStep(view: View, measures: seq<Measure>, ghost outs: seq<seq<Option<Update>>>, i: nat,
                     states: seq<MetricalLpcfgState>, ghost groups: seq<seq<MetricalLpcfgState>>)
      returns (ok: bool, states': seq<MetricalLpcfgState>, ghost groups': seq<seq<MetricalLpcfgState>>)
      requires Valid() && measure.None? && Fits(view.beats) && |view.beats| > 0
      requires PendingFits(Waiting(), view.beats) && |outs| == |measures| && i < |measures|
      requires MeasureUpdates(outs[i], Waiting(), measures[i], view)
      requires |groups| == i && states == Flatten(groups)
      requires forall k :: 0 <= k < i ==> GroupKept(groups[k], outs[k])
      requires forall k :: 0 <= k < i ==> forall s :: s in groups[k] ==> BranchOfMeasure(s, k, measures, outs, grammar, oracles)
      ensures ok == KeptOf(outs[i]).Some?
      ensures !ok ==> states' == states && groups' == groups
      ensures ok ==> |groups'| == i + 1 && states' == Flatten(groups')
      ensures ok ==> forall k :: 0 <= k < i + 1 ==> GroupKept(groups'[k], outs[k])
      ensures states <= states' && forall j :: |states| <= j < |states'| ==>
        fresh(states'[j]) && fresh(states'[j].localGrammar) && fresh(states'[j].localGrammar.probabilities)
      ensures forall k :: 0 <= k < |groups'| ==> forall s :: s in groups'[k] ==> BranchOfMeasure(s, k, measures, outs, grammar, oracles)
    {
      var branches;
      ok, branches := BranchMeasure(measures[i], view, outs[i]);
      if !ok {
        return ok, states, groups;
      }
      FlattenSnoc(groups, branches);
      groups' := groups + [branches];
      states' := states + branches;
    }

    /** Every member of the flattened groups is a first-step branch of its group's measure. */
    lemma GroupsBranch(states: seq<MetricalLpcfgState>, groups: seq<seq<MetricalLpcfgState>>,
                       measures: seq<Measure>, outs: seq<seq<Option<Update>>>)
      requires states == Flatten(groups)
      requires forall i :: 0 <= i < |groups| ==> forall s :: s in groups[i] ==> BranchOfMeasure(s, i, measures, outs, grammar, oracles)
      ensures forall s :: s in states ==> FirstBranch(s, grammar, oracles)
    {
      forall s | s in states
        ensures FirstBranch(s, grammar, oracles)
      {
        FlattenMember(groups, s);
        var k :| 0 <= k < |groups| && s in groups[k];
        assert BranchOfMeasure(s, k, measures, outs, grammar, oracles);
      }
    }

    /** No note queued for the match checks has ended by the last beat yet. */
    predicate StillWaiting(view: View)
      reads this
      requires |notesToCheck| > 0 && |view.beats| > 0
    {
      view.beats[|view.beats| - 1].time < notesToCheck[0].offsetTime
    }

    /**
     * `getAllFirstStepBranches`: while no queued note has ended, the hypothesis itself; then
     * the branches of `BranchMeasures` for the measures of the grammar (`measures`, each once),
     * whose candidates have the updates `outs`. Java throws when no note is queued or there is
     * no beat.
     */
    method FirstStepBranches(view: View)
      returns (ok: bool, states: seq<MetricalLpcfgState>, measures: seq<Measure>,
               ghost outs: seq<seq<Option<Update>>>, ghost groups: seq<seq<MetricalLpcfgState>>)
      requires Valid() && measure.None? && Fits(view.beats)
      requires forall t :: t in grammar.trees ==> Branchable(t.measure)
      ensures |notesToCheck| == 0 || |view.beats| == 0 ==> !ok
      ensures |notesToCheck| > 0 && |view.beats| > 0 && StillWaiting(view) ==> ok && states == [this]
      ensures |notesToCheck| > 0 && |view.beats| > 0 && !StillWaiting(view) ==>
        PendingFits(Waiting(), view.beats)
        && (forall i, j :: 0 <= i < j < |measures| ==> measures[i] != measures[j])
        && (forall m :: m in measures <==> exists t :: t in grammar.trees && t.measure == m)
        && |outs| == |measures|
        && (forall i :: 0 <= i < |measures| ==>
              Branchable(measures[i]) && outs[i] == MeasureOutcomes(Waiting(), measures[i], view))
        && (ok <==> forall i :: 0 <= i < |measures| ==> KeptOf(outs[i]).Some?)
        && (ok ==> |groups| == |measures| && states == Flatten(groups)
                   && forall i :: 0 <= i < |groups| ==> GroupKept(groups[i], outs[i]))
        && (forall s :: s in states ==> fresh(s) && fresh(s.localGrammar) && fresh(s.localGrammar.probabilities))
        && (forall i :: 0 <= i < |groups| ==>
              forall s :: s in groups[i] ==> BranchOfMeasure(s, i, measures, outs, grammar, oracles))
        && (forall s :: s in states ==> FirstBranch(s, grammar, oracles))
    {
      measures, outs, groups := [], [], [];
      if |notesToCheck| == 0 || |view.beats| == 0 {
        ok, states := false, [];
        return;
      }
      if StillWaiting(view) {
        ok, states := true, [this];
        return;
      }
      ghost var p := Waiting();
      assert PendingFits(p, view.beats);
      measures := grammar.GetMeasureList();
      assert forall i :: 0 <= i < |measures| ==> measures[i] in measures;
      outs := seq(|measures|, i requires 0 <= i < |measures| => MeasureOutcomes(p, measures[i], view));
      forall i | 0 <= i < |measures|
        ensures MeasureUpdates(outs[i], p, measures[i], view)
      {
        MeasureOutcomesAreUpdates(p, measures[i], view);
      }
      ok, states, groups := BranchMeasures(view, measures, outs);
    }

    // -------------------------------------------------------------------------
    // Incoming notes

    /** The first half of `handleIncoming`: queue the notes for the match checks unless the
     *  hypothesis is fully matched, then `addNewVoices`. */
    method Receive(notes: seq<MidiNote>, view: View) returns (ok: bool)
      requires Valid() && Fits(view.beats) && AllFit(notes, view.beats) && NoteTracks.VoicesFit(view.voices, view.beats)
      modifies this
      ensures var queued := if IsFullyMatched(old(Tally())) then old(notesToCheck) else old(notesToCheck) + notes;
        var r := NoteTracks.AddVoices(old(Lists()), view.voices, notes, old(beatMatches) > 0, 0);
        ok == r.Some?
        && (ok ==> Tally() == old(Tally())
                   && Others() == old(Others()).(unfinishedNotes := r.value.unfinished, hasBegun := r.value.begun,
                                                 notesToCheckBeats := r.value.beatQueues, notesToCheck := queued))
      ensures ok ==> Valid() && Fits(view.beats)
      ensures ok == Receiving(old(Snapshot()), notes, view.voices, view.beats).Some?
      ensures ok ==> Snapshot() == Receiving(old(Snapshot()), notes, view.voices, view.beats).value
    {
      if !IsFullyMatched(Tally()) {
        NoteTracks.AppendFits(notesToCheck, notes, view.beats);
        notesToCheck := notesToCheck + notes;
      }
      ghost var before := Others();
      ok := AddNewVoices(notes, view.voices);
      if ok {
        NoteTracks.AddVoicesFits(old(Lists()), view.voices, notes, old(beatMatches) > 0, 0, view.beats);
        assert Placed();
      }
    }

    /** The part of `handleIncoming` for a hypothesis with a measure, after the notes arrived. */
    method Advance(view: View) returns (ok: bool, states: seq<MetricalLpcfgState>)
      requires Valid() && measure.Some? && Fits(view.beats)
      modifies this, localGrammar, localGrammar.probabilities
      ensures ok == Advancing(Geo(), old(Snapshot()), view.beats, view.tactiPerMeasure, oracles).Some?
      ensures ok ==>
        Valid() && Fits(view.beats)
        && Snapshot() == Advancing(Geo(), old(Snapshot()), view.beats, view.tactiPerMeasure, oracles).value
        && voiceState == old(voiceState) && beatState == old(beatState)
        && states == (if IsWrong(Tally()) then [] else [this])
    {
      ParseCompleteMeasures(view.beats);
      if !IsFullyMatched(Tally()) {
        ok := MatchParsed(view);
        if !ok {
          states := [];
          return;
        }
      } else {
        ok := true;
      }
      states := if IsWrong(Tally()) then [] else [this];
    }

    /** `updateMatchType` after the complete measures were parsed, for a hypothesis not yet
     *  fully matched. */
    method MatchParsed(view: View) returns (ok: bool)
      requires Valid() && measure.Some? && Fits(view.beats) && nextMeasureIndex >= |view.beats|
      requires !IsFullyMatched(Tally())
      modifies this
      ensures ok == MatchStep(Geo(), old(Snapshot()), view.beats, view.tactiPerMeasure).Some?
      ensures ok ==>
        Valid() && Fits(view.beats) && Snapshot() == MatchStep(Geo(), old(Snapshot()), view.beats, view.tactiPerMeasure).value
        && voiceState == old(voiceState) && beatState == old(beatState)
    {
      ghost var h := Snapshot();
      ghost var before := Others();
      ok := UpdateMatchType(view.beats, view.tactiPerMeasure);
      if ok {
        ghost var r := UpdateMatches(Geo(), h.counters, h.beatQueues, h.queue, view.beats, view.tactiPerMeasure);
        assert Tally() == r.value.counters;
        assert Others() == before.(notesToCheck := r.value.queue, notesToCheckBeats := r.value.beatQueues);
        assert ParseView() == h.parse;
        assert Placed();
      }
    }

    /** The part of `handleIncoming` for a hypothesis without a measure: its first-step branches. */
    method Branches(view: View) returns (ok: bool, states: seq<MetricalLpcfgState>)
      requires Valid() && measure.None? && Fits(view.beats)
      requires forall t :: t in grammar.trees ==> Branchable(t.measure)
      ensures ok ==> forall s :: s in states ==>
        s == this
        || (fresh(s) && s.Valid() && s.measure.Some? && s.subBeatLength == 1 && s.grammar == grammar
            && s.oracles == oracles && !IsWrong(s.Tally()))
    {
      var measures;
      ghost var outs, groups;
      ok, states, measures, outs, groups := FirstStepBranches(view);
    }

    /**
     * `handleIncoming`: receive the notes; with a measure, parse every complete measure, update
     * the match type unless fully matched, and keep the hypothesis unless it is wrong; without
     * one, branch on the first step. `ok` is false where Java throws.
     */
    method HandleIncoming(notes: seq<MidiNote>, view: View) returns (ok: bool, states: seq<MetricalLpcfgState>)
      requires Valid() && Fits(view.beats) && AllFit(notes, view.beats) && NoteTracks.VoicesFit(view.voices, view.beats)
      requires measure.None? ==> forall t :: t in grammar.trees ==> Branchable(t.measure)
      modifies this, localGrammar, localGrammar.probabilities
      ensures ok ==> Valid() && Fits(view.beats)
      ensures measure.Some? ==>
        ok == Incoming(Geo(), old(Snapshot()), notes, view.voices, view.beats, view.tactiPerMeasure, oracles).Some?
      ensures ok && measure.Some? ==>
        Snapshot() == Incoming(Geo(), old(Snapshot()), notes, view.voices, view.beats, view.tactiPerMeasure, oracles).value
        && voiceState == old(voiceState) && beatState == old(beatState)
        && states == (if IsWrong(Tally()) then [] else [this])
      ensures ok && measure.None? ==> forall s :: s in states ==>
        s == this
        || (fresh(s) && s.Valid() && s.measure.Some? && s.subBeatLength == 1 && s.grammar == grammar
            && s.oracles == oracles && !IsWrong(s.Tally()))
    {
      ok := Receive(notes, view);
      if !ok {
        states := [];
        return;
      }
      if measure.Some? {
        ok, states := Advance(view);
      } else {
        ok, states := Branches(view);
      }
    }

    // -------------------------------------------------------------------------
    // Closing

    /** `close` for a hypothesis with a measure: parse until every note is finished, update the
     *  match type unless fully matched, and keep the hypothesis only if it is fully matched and
     *  not wrong. */
    method CloseMeasured(view: View) returns (ok: bool, states: seq<MetricalLpcfgState>)
      requires Valid() && measure.Some? && Fits(view.beats)
      modifies this, localGrammar, localGrammar.probabilities
      ensures ok == Closing(Geo(), old(Snapshot()), view.beats, view.tactiPerMeasure, oracles).Some?
      ensures ok ==>
        Valid() && Fits(view.beats)
        && Snapshot() == Closing(Geo(), old(Snapshot()), view.beats, view.tactiPerMeasure, oracles).value
        && voiceState == old(voiceState) && beatState == old(beatState)
      ensures ok ==> states == (if !IsWrong(Tally()) && IsFullyMatched(Tally()) then [this] else [])
      ensures !ok ==> states == []
    {
      ParseRemaining(view.beats);
      states := [];
      if !IsFullyMatched(Tally()) {
        ok := UpdateMatchType(view.beats, view.tactiPerMeasure);
        if !ok {
          return;
        }
        assert Placed();
      }
      ok := true;
      if !IsWrong(Tally()) && IsFullyMatched(Tally()) {
        states := [this];
      }
    }

    /**
     * `close`: with a measure, `CloseMeasured`. Without one, Java throws as soon as a note is
     * left to parse or the match update needs the measure (`MeasurelessUpdateOk`); otherwise
     * nothing changes and the hypothesis is kept only if fully matched and not wrong.
     */
    method Close(view: View) returns (ok: bool, states: seq<MetricalLpcfgState>)
      requires Valid() && Fits(view.beats)
      modifies this, localGrammar, localGrammar.probabilities
      ensures measure.None? ==>
        (ok <==> (forall v :: 0 <= v < |unfinishedNotes| ==> |unfinishedNotes[v]| == 0)
                 && (IsFullyMatched(Tally()) || MeasurelessUpdateOk(Tally(), notesToCheckBeats, notesToCheck, view.beats)))
        && Tally() == old(Tally()) && Others() == old(Others()) && localGrammar.trees == old(localGrammar.trees)
      ensures ok ==> Valid() && Fits(view.beats) && NoLess(old(Tally()), Tally())
      ensures ok ==> forall v :: 0 <= v < |unfinishedNotes| ==> |unfinishedNotes[v]| == 0
      ensures ok ==> states == (if !IsWrong(Tally()) && IsFullyMatched(Tally()) then [this] else [])
      ensures measure.Some? ==>
        ok == Closing(Geo(), old(Snapshot()), view.beats, view.tactiPerMeasure, oracles).Some?
        && (ok ==> Snapshot() == Closing(Geo(), old(Snapshot()), view.beats, view.tactiPerMeasure, oracles).value
                   && voiceState == old(voiceState) && beatState == old(beatState))
    {
      if measure.Some? {
        ok, states := CloseMeasured(view);
        return;
      }
      states := [];
      var finished := AllNotesFinished();
      if !finished {
        return false, [];
      }
      if !IsFullyMatched(Tally()) && !MeasurelessUpdateOk(Tally(), notesToCheckBeats, notesToCheck, view.beats) {
        return false, [];
      }
      ok := true;
      if !IsWrong(Tally()) && IsFullyMatched(Tally()) {
        states := [this];
      }
    }

    // -------------------------------------------------------------------------
    // Ordering

    /**
     * `compareTo`: `null` sorts after every hypothesis (the result is -1); then higher scores first, with the order flipped when
     * either score is exactly 0; then by sub-beat length and anacrusis; then, with a measure, by
     * the measure ordering (not part of this model, passed as `measureOrder`); states that reach
     * this point are equal only when they share both paired states, and otherwise the result is 1.
     */
    method CompareTo(o: MetricalLpcfgState?, measureOrder: (Measure, Option<Measure>) -> int) returns (c: int)
      ensures o == null ==> c == -1
      ensures o != null && logProbability != o.logProbability ==>
        c == (if o.logProbability == 0.0 || logProbability == 0.0 then -RealCompare(o.logProbability, logProbability)
              else RealCompare(o.logProbability, logProbability))
      ensures o != null && logProbability != o.logProbability && logProbability != 0.0 && o.logProbability != 0.0 ==>
        (c < 0 <==> logProbability > o.logProbability)
      ensures o != null && logProbability == o.logProbability && subBeatLength != o.subBeatLength ==>
        c == IntCompare(subBeatLength, o.subBeatLength)
      ensures o != null && logProbability == o.logProbability && subBeatLength == o.subBeatLength
              && anacrusisLength != o.anacrusisLength ==>
        c == IntCompare(anacrusisLength, o.anacrusisLength)
      ensures c == 0 <==>
        (o != null && logProbability == o.logProbability && subBeatLength == o.subBeatLength
         && anacrusisLength == o.anacrusisLength && (measure.Some? ==> measureOrder(measure.value, o.measure) == 0)
         && voiceState == o.voiceState && beatState == o.beatState)
      ensures o != null && logProbability == o.logProbability && subBeatLength == o.subBeatLength
              && anacrusisLength == o.anacrusisLength && measure.Some? && measureOrder(measure.value, o.measure) != 0 ==>
        c == measureOrder(measure.value, o.measure)
      ensures o != null && logProbability == o.logProbability && subBeatLength == o.subBeatLength
              && anacrusisLength == o.anacrusisLength && (measure.Some? ==> measureOrder(measure.value, o.measure) == 0)
              && !(voiceState == o.voiceState && beatState == o.beatState) ==>
        c == 1
    {
      if o == null {
        return -1;
      }
      c := RealCompare(o.logProbability, logProbability);
      if c != 0 {
        return if o.logProbability == 0.0 || logProbability == 0.0 then -c else c;
      }
      c := IntCompare(subBeatLength, o.subBeatLength);
      if c != 0 {
        return c;
      }
      c := IntCompare(anacrusisLength, o.anacrusisLength);
      if c != 0 {
        return c;
      }
      if measure.Some? {
        c := measureOrder(measure.value, o.measure);
        if c != 0 {
          return c;
        }
      }
      c := if voiceState == o.voiceState && beatState == o.beatState then 0 else 1;
    }
  }

  /** The counters and queues a hypothesis without a measure hands to its first-step branches. */
  datatype Pending = Pending(counters: Counters, beatQueues: seq<seq<MidiNote>>, queue: seq<MidiNote>)

  /** The pending queues fit the beats, and there is a last beat to check against. */
  predicate PendingFits(p: Pending, beats: seq<Beat>)
  {
    |beats| > 0 && AllVoicesFit(p.beatQueues, beats) && AllFit(p.queue, beats)
  }

  /**
   * The counters and queues a first-step branch for measure `m`, with sub-beat length 1 and
   * anacrusis `anacrusis`, has after its `updateMatchType()`; `None` where that throws.
   */
  function BranchUpdate(p: Pending, m: Measure, anacrusis: int, view: View): Option<Update>
    requires PositiveMeasure(m) && anacrusis >= 0 && PendingFits(p, view.beats)
  {
    UpdateMatches(Geometry(1, m, anacrusis), p.counters, p.beatQueues, p.queue, view.beats, view.tactiPerMeasure)
  }

  /** The elements of the groups, group after group. */
  function Flatten<T>(groups: seq<seq<T>>): seq<T>
  {
    if |groups| == 0 then [] else Flatten(groups[..|groups| - 1]) + groups[|groups| - 1]
  }

  /** A member of the flattened groups is a member of one of them. */
  lemma {:induction false} FlattenMember<T>(groups: seq<seq<T>>, x: T)
    requires x in Flatten(groups)
    ensures exists k :: 0 <= k < |groups| && x in groups[k]
    decreases |groups|
  {
    var n := |groups| - 1;
    if x !in groups[n] {
      FlattenMember(groups[..n], x);
      var k :| 0 <= k < n && x in groups[..n][k];
      assert x in groups[k];
    }
  }

  lemma FlattenSnoc<T>(groups: seq<seq<T>>, g: seq<T>)
    ensures Flatten(groups + [g]) == Flatten(groups) + g
  {
    assert (groups + [g])[..|groups|] == groups;
  }

  /** The match updates of the branches for the first `n` anacrusis lengths, in order. */
  function Outcomes(p: Pending, m: Measure, view: View, n: nat): (r: seq<Option<Update>>)
    requires PositiveMeasure(m) && PendingFits(p, view.beats)
    ensures |r| == n
  {
    seq(n, a requires 0 <= a => BranchUpdate(p, m, a, view))
  }

  /**
   * `outs` holds the match updates of the branches for every anacrusis length of `m`. The
   * trigger keeps the updates from being unfolded where no branch is built.
   */
  ghost predicate UpdatesOf(outs: seq<Option<Update>>, p: Pending, m: Measure, view: View)
    requires PositiveMeasure(m) && PendingFits(p, view.beats)
  {
    |outs| == SubBeatsPerMeasure(m)
    && forall a {:trigger BranchUpdate(p, m, a, view)} :: 0 <= a < |outs| ==> outs[a] == BranchUpdate(p, m, a, view)
  }

  lemma OutcomesAreUpdates(p: Pending, m: Measure, view: View)
    requires PositiveMeasure(m) && PendingFits(p, view.beats)
    ensures SubBeatsPerMeasure(m) > 0 && UpdatesOf(Outcomes(p, m, view, SubBeatsPerMeasure(m)), p, m, view)
  {
    PositiveProduct(m.beatsPerMeasure, m.subBeatsPerBeat);
  }

  /**
   * The match updates of the branches `getAllFirstStepBranches` builds for `m`: none when its
   * 32-bit sub-beat count is not positive, since the anacrusis loop then runs zero times.
   */
  function MeasureOutcomes(p: Pending, m: Measure, view: View): (r: seq<Option<Update>>)
    requires Branchable(m) && PendingFits(p, view.beats)
    ensures LoopBound(m) <= 0 <==> |r| == 0
    ensures |r| == if LoopBound(m) <= 0 then 0 else SubBeatsPerMeasure(m)
  {
    if LoopBound(m) <= 0 then [] else Outcomes(p, m, view, SubBeatsPerMeasure(m))
  }

  /** `outs` holds the match updates of the branches the anacrusis loop builds for `m`. */
  ghost predicate MeasureUpdates(outs: seq<Option<Update>>, p: Pending, m: Measure, view: View)
    requires PendingFits(p, view.beats)
  {
    if LoopBound(m) <= 0 then outs == []
    else PositiveMeasure(m) && SubBeatsPerMeasure(m) == LoopBound(m) && UpdatesOf(outs, p, m, view)
  }

  lemma MeasureOutcomesAreUpdates(p: Pending, m: Measure, view: View)
    requires Branchable(m) && PendingFits(p, view.beats)
    ensures MeasureUpdates(MeasureOutcomes(p, m, view), p, m, view)
  {
    if LoopBound(m) > 0 {
      OutcomesAreUpdates(p, m, view);
    }
  }

  /**
   * The positions of the outcomes whose branches the enumeration keeps, those that are not
   * wrong, in increasing order; `None` when one of them threw, which ends the enumeration.
   */
  function KeptOf(outs: seq<Option<Update>>): Option<seq<int>>
    decreases |outs|
  {
    if |outs| == 0 then Some([])
    else
      match KeptOf(outs[..|outs| - 1])
      case None => None
      case Some(l) =>
        match outs[|outs| - 1]
        case None => None
        case Some(u) => if IsWrong(u.counters) then Some(l) else Some(l + [|outs| - 1])
  }

  /** The anacrusis lengths of `m` whose branches the enumeration keeps. */
  function Kept(p: Pending, m: Measure, view: View): Option<seq<int>>
    requires PositiveMeasure(m) && PendingFits(p, view.beats)
  {
    PositiveProduct(m.beatsPerMeasure, m.subBeatsPerBeat);
    KeptOf(Outcomes(p, m, view, SubBeatsPerMeasure(m)))
  }

  /** The enumeration fails exactly when the match update of some anacrusis throws. */
  lemma KeptFails(p: Pending, m: Measure, view: View)
    requires PositiveMeasure(m) && PendingFits(p, view.beats)
    ensures Kept(p, m, view).Some? <==>
      forall a :: 0 <= a < SubBeatsPerMeasure(m) ==> BranchUpdate(p, m, a, view).Some?
  {
    PositiveProduct(m.beatsPerMeasure, m.subBeatsPerBeat);
    var outs := Outcomes(p, m, view, SubBeatsPerMeasure(m));
    KeptOfFails(outs);
    assert forall a :: 0 <= a < |outs| ==> outs[a] == BranchUpdate(p, m, a, view);
  }

  /**
   * When it succeeds, the enumeration keeps exactly the anacrusis lengths whose counters are not
   * wrong after the match update, each once and in increasing order.
   */
  lemma KeptMembers(p: Pending, m: Measure, view: View)
    requires PositiveMeasure(m) && PendingFits(p, view.beats) && Kept(p, m, view).Some?
    ensures forall a :: a in Kept(p, m, view).value <==>
      0 <= a < SubBeatsPerMeasure(m) && BranchUpdate(p, m, a, view).Some?
      && !IsWrong(BranchUpdate(p, m, a, view).value.counters)
    ensures var l := Kept(p, m, view).value; forall i, j :: 0 <= i < j < |l| ==> l[i] < l[j]
  {
    PositiveProduct(m.beatsPerMeasure, m.subBeatsPerBeat);
    var outs := Outcomes(p, m, view, SubBeatsPerMeasure(m));
    KeptOfMembers(outs);
    assert forall a :: 0 <= a < |outs| ==> outs[a] == BranchUpdate(p, m, a, view);
  }

  /** The enumeration over outcomes fails exactly when one of them is a failure. */
  lemma {:induction false} KeptOfFails(outs: seq<Option<Update>>)
    ensures KeptOf(outs).Some? <==> forall a :: 0 <= a < |outs| ==> outs[a].Some?
    decreases |outs|
  {
    if |outs| > 0 {
      var init := outs[..|outs| - 1];
      KeptOfFails(init);
      assert forall a :: 0 <= a < |init| ==> init[a] == outs[a];
    }
  }

  /** The positions kept are those of outcomes that are not wrong, in increasing order. */
  lemma {:induction false} KeptOfMembers(outs: seq<Option<Update>>)
    requires KeptOf(outs).Some?
    ensures forall a :: a in KeptOf(outs).value <==>
      0 <= a < |outs| && outs[a].Some? && !IsWrong(outs[a].value.counters)
    ensures var l := KeptOf(outs).value; forall i, j :: 0 <= i < j < |l| ==> l[i] < l[j]
    ensures forall a :: a in KeptOf(outs).value ==> a < |outs|
    decreases |outs|
  {
    if |outs| > 0 {
      var init := outs[..|outs| - 1];
      assert KeptOf(init).Some?;
      KeptOfMembers(init);
      assert forall a :: 0 <= a < |init| ==> init[a] == outs[a];
      var l := KeptOf(init).value;
      forall i | 0 <= i < |l|
        ensures l[i] < |init|
      {
        assert l[i] in l;
      }
    }
  }

  lemma KeptOfSnoc(outs: seq<Option<Update>>, u: Option<Update>)
    ensures KeptOf(outs + [u]) ==
      match KeptOf(outs)
      case None => None
      case Some(l) =>
        match u
        case None => None
        case Some(v) => if IsWrong(v.counters) then Some(l) else Some(l + [|outs|])
  {
    assert (outs + [u])[..|outs|] == outs;
  }

  /** One more outcome of the enumeration: failure for good, or one more position kept unless
   *  its update is wrong. */
  lemma KeptOfStep(outs: seq<Option<Update>>, a: nat, kept: seq<int>)
    requires a < |outs| && KeptOf(outs[..a]) == Some(kept)
    ensures outs[a].None? ==> KeptOf(outs).None?
    ensures outs[a].Some? ==>
      KeptOf(outs[..a + 1]) == Some(if IsWrong(outs[a].value.counters) then kept else kept + [a])
  {
    assert outs[..a + 1] == outs[..a] + [outs[a]];
    KeptOfSnoc(outs[..a], outs[a]);
    if outs[a].None? {
      KeptOfPrefixFailed(outs, a + 1);
    }
  }

  /** Once the enumeration has failed on a prefix of the outcomes, it fails on all of them. */
  lemma {:induction false} KeptOfPrefixFailed(outs: seq<Option<Update>>, n: nat)
    requires n <= |outs| && KeptOf(outs[..n]).None?
    ensures KeptOf(outs).None?
    decreases |outs| - n
  {
    if n < |outs| {
      assert outs[..n + 1] == outs[..n] + [outs[n]];
      KeptOfSnoc(outs[..n], outs[n]);
      KeptOfPrefixFailed(outs, n + 1);
    } else {
      assert outs[..n] == outs;
    }
  }

  /** The group holds one branch per position the enumeration keeps over `outs`, in order. */
  ghost predicate GroupKept(group: seq<MetricalLpcfgState>, outs: seq<Option<Update>>)
    reads group
  {
    KeptOf(outs).Some? && |group| == |KeptOf(outs).value|
    && forall j :: 0 <= j < |group| ==> group[j].anacrusisLength == KeptOf(outs).value[j]
  }

  /** `s` is a first-step branch for the `i`th measure, whose candidates have the updates `outs[i]`. */
  ghost predicate BranchOfMeasure(s: MetricalLpcfgState, i: int, measures: seq<Measure>,
                                  outs: seq<seq<Option<Update>>>, grammar: Lpcfgs.Grammar, oracles: Oracles)
    reads s, s.grammar, s.localGrammar, s.grammar.probabilities, s.localGrammar.probabilities
  {
    0 <= i < |measures| && i < |outs| && 0 <= s.anacrusisLength < |outs[i]|
    && IsBranch(s, measures[i], outs[i][s.anacrusisLength], grammar, oracles)
  }

  /**
   * `s` is a first-step branch for measure `m` whose match update was `u`: a valid hypothesis
   * of the same grammar with sub-beat length 1, and the counters of an update that succeeded
   * and is not wrong.
   */
  ghost predicate IsBranch(s: MetricalLpcfgState, m: Measure, u: Option<Update>, grammar: Lpcfgs.Grammar,
                           oracles: Oracles)
    reads s, s.grammar, s.localGrammar, s.grammar.probabilities, s.localGrammar.probabilities
  {
    FirstBranch(s, grammar, oracles) && s.measure == Some(m)
    && u.Some? && s.Tally() == u.value.counters
  }

  /** `s` is a first-step branch of some measure: a valid hypothesis of the same grammar with a
   *  measure, sub-beat length 1, and counters that are not wrong. */
  ghost predicate FirstBranch(s: MetricalLpcfgState, grammar: Lpcfgs.Grammar, oracles: Oracles)
    reads s, s.grammar, s.localGrammar, s.grammar.probabilities, s.localGrammar.probabilities
  {
    s.Valid() && s.measure.Some? && s.subBeatLength == 1
    && s.grammar == grammar && s.oracles == oracles && !IsWrong(s.Tally())
  }

  /** A measure with positive beats per measure and sub-beats per beat. */
  predicate PositiveMeasure(m: Measure)
  {
    m.beatsPerMeasure > 0 && m.subBeatsPerBeat > 0
  }

  /** The sub-beats in a measure: the anacrusis lengths `getAllFirstStepBranches` tries. */
  function SubBeatsPerMeasure(m: Measure): int
  {
    m.beatsPerMeasure * m.subBeatsPerBeat
  }

  /** The bound of the anacrusis loop of `getAllFirstStepBranches`: the product of the two
   *  counts as a Java `int`. */
  function LoopBound(m: Measure): int
  {
    Wrap32(SubBeatsPerMeasure(m))
  }

  /**
   * A measure whose anacrusis loop is modelled: the loop runs zero times, or the measure is
   * positive and its sub-beat count fits in an `int`. Left out: a positive bound from two
   * negative counts or from an overflowing product.
   */
  predicate Branchable(m: Measure)
  {
    LoopBound(m) <= 0 || (PositiveMeasure(m) && SubBeatsPerMeasure(m) == LoopBound(m))
  }
}
