/**
 * The metrical state that reads the time signature from the input file
 * (src/metdetection/meter/fromfile/FromFileMetricalModelState.java). Its measure never changes;
 * only its time cursor follows the incoming notes.
 */
module FromFileMetricals {
  import opened JavaInt
  import opened MidiNotes
  import opened LpcfgTrees
  import opened FromFileVoices
  import opened FromFileBeats

  class MetricalFromFile {
    /** The measure of the piece's first time signature. */
    var measure: Measure
    /** The onset time of the notes most recently handed in. */
    var mostRecentTime: int
    /** The voice-splitting state this state is paired with (`null` until it is set). */
    var voiceState: VoiceSplittingFromFile?
    /** The beat-tracking state this state is paired with (`null` until it is set). */
    var beatState: BeatTrackingFromFile?

    /** The public constructor, given the measure read from the file; the time starts at 0. */
    constructor(measure: Measure)
      ensures this.measure == measure && mostRecentTime == 0
      ensures voiceState == null && beatState == null
    {
      this.measure := measure;
      mostRecentTime := 0;
      voiceState := null;
      beatState := null;
    }

    /** The private constructor used by `deepCopy`: the paired states are left unset. */
    constructor Of(measure: Measure, mostRecentTime: int)
      ensures this.measure == measure && this.mostRecentTime == mostRecentTime
      ensures voiceState == null && beatState == null
    {
      this.measure := measure;
      this.mostRecentTime := mostRecentTime;
      voiceState := null;
      beatState := null;
    }

    /** `deepCopy`: a new state with the same measure and time and no paired states. */
    method DeepCopy() returns (c: MetricalFromFile)
      ensures fresh(c)
      ensures c.measure == measure && c.mostRecentTime == mostRecentTime
      ensures c.voiceState == null && c.beatState == null
    {
      c := new MetricalFromFile.Of(measure, mostRecentTime);
    }

    /** `setVoiceState`, inherited from the metrical base class. */
    method SetVoiceState(v: VoiceSplittingFromFile?)
      modifies this
      ensures voiceState == v && beatState == old(beatState)
      ensures measure == old(measure) && mostRecentTime == old(mostRecentTime)
    {
      voiceState := v;
    }

    /** `setBeatState`, inherited from the metrical base class. */
    method SetBeatState(b: BeatTrackingFromFile?)
      modifies this
      ensures beatState == b && voiceState == old(voiceState)
      ensures measure == old(measure) && mostRecentTime == old(mostRecentTime)
    {
      beatState := b;
    }

    /** `getScore`: the file's measure is certain. */
    function Score(): real
    {
      1.0
    }

    /** `handleIncoming`: move the time to the first incoming note's onset; the result is `{this}`. */
    method HandleIncoming(notes: seq<MidiNote>) returns (states: seq<MetricalFromFile>)
      requires |notes| > 0
      modifies this
      ensures mostRecentTime == notes[0].onsetTime && measure == old(measure)
      ensures voiceState == old(voiceState) && beatState == old(beatState)
      ensures states == [this]
    {
      mostRecentTime := notes[0].onsetTime;
      states := [this];
    }

    /** `close`: nothing changes; the result is `{this}`. */
    method Close() returns (states: seq<MetricalFromFile>)
      ensures states == [this]
    {
      states := [this];
    }

    /**
     * `compareTo`: `null` sorts last; then by time and by measure (the measure ordering is not
     * part of this model and comes in as `measureOrder`); states that reach this point are equal
     * only when they share both paired states, and otherwise the result is 1.
     */
    method CompareTo(o: MetricalFromFile?, measureOrder: (Measure, Measure) -> int) returns (c: int)
      ensures o == null ==> c == -1
      ensures o != null && mostRecentTime != o.mostRecentTime ==> c == IntCompare(mostRecentTime, o.mostRecentTime)
      ensures o != null && mostRecentTime == o.mostRecentTime && measureOrder(measure, o.measure) != 0 ==>
        c == measureOrder(measure, o.measure)
      ensures c == 0 <==>
        (o != null && mostRecentTime == o.mostRecentTime && measureOrder(measure, o.measure) == 0
         && voiceState == o.voiceState && beatState == o.beatState)
      ensures o != null && mostRecentTime == o.mostRecentTime && measureOrder(measure, o.measure) == 0
              && !(voiceState == o.voiceState && beatState == o.beatState) ==>
        c == 1
    {
      if o == null {
        return -1;
      }
      c := IntCompare(mostRecentTime, o.mostRecentTime);
      if c != 0 {
        return c;
      }
      c := measureOrder(measure, o.measure);
      if c != 0 {
        return c;
      }
      c := if voiceState == o.voiceState && beatState == o.beatState then 0 else 1;
    }
  }
}
