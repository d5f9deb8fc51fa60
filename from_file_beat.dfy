/**
 * The beat-tracking state that reads its beats from the input file
 * (src/metdetection/beat/fromfile/FromFileBeatTrackingModelState.java). The beat list is fixed;
 * a cursor over it advances as notes arrive, so that `GetBeats` shows only the beats that lie no
 * later than the most recent note.
 */
module FromFileBeats {
  import opened JavaInt
  import opened MidiNotes
  import opened Beats
  import opened FromFileVoices

  /** Beats in non-decreasing order of time. */
  predicate Sorted(beats: seq<Beat>)
  {
    forall i, j :: 0 <= i <= j < |beats| ==> beats[i].time <= beats[j].time
  }

  /** The beats at the front of the list that lie no later than `time`. */
  function VisiblePrefix(beats: seq<Beat>, time: int): (r: seq<Beat>)
    ensures |r| <= |beats|
  {
    if |beats| == 0 || beats[0].time > time then [] else [beats[0]] + VisiblePrefix(beats[1..], time)
  }

  /**
   * On sorted beats the visible prefix is a prefix of the list, and it holds exactly the beats
   * whose time is at most `time`.
   */
  lemma {:induction false} VisiblePrefixExact(beats: seq<Beat>, time: int)
    requires Sorted(beats)
    ensures VisiblePrefix(beats, time) == beats[..|VisiblePrefix(beats, time)|]
    ensures forall j :: 0 <= j < |beats| ==> (j < |VisiblePrefix(beats, time)| <==> beats[j].time <= time)
  {
    if |beats| > 0 && beats[0].time <= time {
      var rest := beats[1..];
      assert Sorted(rest) by {
        forall i, j | 0 <= i <= j < |rest| ensures rest[i].time <= rest[j].time {
          assert rest[i] == beats[i + 1] && rest[j] == beats[j + 1];
        }
      }
      VisiblePrefixExact(rest, time);
      var n := |VisiblePrefix(rest, time)|;
      assert beats[..n + 1] == [beats[0]] + rest[..n];
      forall j | 0 <= j < |beats| ensures (j < n + 1 <==> beats[j].time <= time) {
        if j > 0 { assert beats[j] == rest[j - 1]; }
      }
    }
  }

  /** A cut point that passes only beats at or before `time`, and stops at the first later one, is the visible prefix. */
  lemma CutIsVisiblePrefix(beats: seq<Beat>, time: int, i: int)
    requires Sorted(beats) && 0 <= i <= |beats|
    requires forall j :: 0 <= j < i ==> beats[j].time <= time
    requires i == |beats| || beats[i].time > time
    ensures beats[..i] == VisiblePrefix(beats, time)
  {
    VisiblePrefixExact(beats, time);
    if i > 0 {
      assert beats[i - 1].time <= time;
    }
    if i < |beats| {
      assert beats[i].time > time;
    }
  }

  /** The beat-by-beat loop of `compareTo`: the first non-zero beat comparison, else 0. */
  function CompareBeatLists(a: seq<Beat>, b: seq<Beat>): int
    requires |a| == |b|
  {
    if |a| == 0 then 0
    else
      var c := Beats.CompareTo(a[0], Some(b[0]));
      if c != 0 then c else CompareBeatLists(a[1..], b[1..])
  }

  /** Two beat lists compare as 0 exactly when their beats agree pairwise in measure and beat. */
  lemma {:induction false} CompareBeatListsZero(a: seq<Beat>, b: seq<Beat>)
    requires |a| == |b|
    ensures CompareBeatLists(a, b) == 0 <==>
      forall i :: 0 <= i < |a| ==> a[i].measure == b[i].measure && a[i].beat == b[i].beat
  {
    if |a| > 0 {
      CompareBeatListsZero(a[1..], b[1..]);
      if CompareBeatLists(a, b) == 0 {
        forall i | 0 <= i < |a| ensures a[i].measure == b[i].measure && a[i].beat == b[i].beat {
          if i > 0 { assert a[i] == a[1..][i - 1] && b[i] == b[1..][i - 1]; }
        }
      }
      if forall i :: 0 <= i < |a| ==> a[i].measure == b[i].measure && a[i].beat == b[i].beat {
        forall i | 0 <= i < |a| - 1
          ensures a[1..][i].measure == b[1..][i].measure && a[1..][i].beat == b[1..][i].beat
        {
          assert a[1..][i] == a[i + 1] && b[1..][i] == b[i + 1];
        }
      }
    }
  }

  class BeatTrackingFromFile {
    /** All beats of the piece, in file order. */
    var beats: seq<Beat>
    /** How many beats the cursor has passed. */
    var mostRecentIndex: int
    /** The onset time of the notes most recently handed in. */
    var mostRecentTime: int
    /** The voice-splitting state this state is paired with (`null` until it is set). */
    var voiceState: VoiceSplittingFromFile?

    /** The cursor lies within the beat list. */
    predicate Valid()
      reads this
    {
      0 <= mostRecentIndex <= |beats|
    }

    /** Every beat the cursor has passed lies at or before the current time. */
    predicate Consistent()
      reads this
    {
      Valid() && forall j :: 0 <= j < mostRecentIndex ==> beats[j].time <= mostRecentTime
    }

    /** The public constructor, given the beats of the piece; cursor and time start at 0. */
    constructor(beats: seq<Beat>)
      ensures this.beats == beats && mostRecentIndex == 0 && mostRecentTime == 0 && voiceState == null
      ensures Consistent()
    {
      this.beats := beats;
      mostRecentIndex := 0;
      mostRecentTime := 0;
      voiceState := null;
    }

    /** The private copy constructor: it shares the beat list and the voice state. */
    constructor Copy(state: BeatTrackingFromFile)
      ensures beats == state.beats && mostRecentIndex == state.mostRecentIndex
      ensures mostRecentTime == state.mostRecentTime && voiceState == state.voiceState
    {
      beats := state.beats;
      mostRecentIndex := state.mostRecentIndex;
      mostRecentTime := state.mostRecentTime;
      voiceState := state.voiceState;
    }

    /** `deepCopy`: a new state with this state's cursor, time, beats and voice state. */
    method DeepCopy() returns (c: BeatTrackingFromFile)
      ensures fresh(c)
      ensures c.beats == beats && c.mostRecentIndex == mostRecentIndex
      ensures c.mostRecentTime == mostRecentTime && c.voiceState == voiceState
    {
      c := new BeatTrackingFromFile.Copy(this);
    }

    /** `setVoiceState`, inherited from the beat-tracking base class. */
    method SetVoiceState(v: VoiceSplittingFromFile?)
      modifies this
      ensures voiceState == v
      ensures beats == old(beats) && mostRecentIndex == old(mostRecentIndex)
      ensures mostRecentTime == old(mostRecentTime)
    {
      voiceState := v;
    }

    /**
     * `getBeats`: advance the cursor past every beat at or before the current time, stopping at
     * the first later beat, and return the beats before the cursor. On sorted beats, with the
     * time never moved backwards, that is exactly the visible prefix.
     */
    method GetBeats() returns (result: seq<Beat>)
      requires Valid()
      modifies this
      ensures beats == old(beats) && mostRecentTime == old(mostRecentTime) && voiceState == old(voiceState)
      ensures Valid() && old(mostRecentIndex) <= mostRecentIndex
      ensures result == beats[..mostRecentIndex]
      ensures forall j :: old(mostRecentIndex) <= j < mostRecentIndex ==> beats[j].time <= mostRecentTime
      ensures mostRecentIndex == |beats| || beats[mostRecentIndex].time > mostRecentTime
      ensures old(Consistent()) ==> Consistent()
      ensures old(Consistent()) && Sorted(beats) ==> result == VisiblePrefix(beats, mostRecentTime)
    {
      while mostRecentIndex < |beats| && beats[mostRecentIndex].time <= mostRecentTime
        invariant old(mostRecentIndex) <= mostRecentIndex <= |beats|
        invariant beats == old(beats) && mostRecentTime == old(mostRecentTime) && voiceState == old(voiceState)
        invariant forall j :: old(mostRecentIndex) <= j < mostRecentIndex ==> beats[j].time <= mostRecentTime
        decreases |beats| - mostRecentIndex
      {
        mostRecentIndex := mostRecentIndex + 1;
      }
      result := beats[..mostRecentIndex];
      if old(Consistent()) && Sorted(beats) {
        CutIsVisiblePrefix(beats, mostRecentTime, mostRecentIndex);
      }
    }

    /** `getScore`: a file-driven state is never scored. */
    function Score(): real
    {
      0.0
    }

    /**
     * `handleIncoming`: move the time to the first incoming note's onset; the result is `{this}`.
     * Moving the time forward keeps every passed beat at or before it.
     */
    method HandleIncoming(notes: seq<MidiNote>) returns (states: seq<BeatTrackingFromFile>)
      requires |notes| > 0
      modifies this
      ensures mostRecentTime == notes[0].onsetTime
      ensures beats == old(beats) && mostRecentIndex == old(mostRecentIndex) && voiceState == old(voiceState)
      ensures states == [this]
      ensures old(Consistent()) && old(mostRecentTime) <= mostRecentTime ==> Consistent()
    {
      mostRecentTime := notes[0].onsetTime;
      states := [this];
    }

    /**
     * `close`: pass every beat and move the time to the last beat's; the result is `{this}`. On
     * sorted beats every beat is then visible.
     */
    method Close() returns (states: seq<BeatTrackingFromFile>)
      requires |beats| > 0
      modifies this
      ensures beats == old(beats) && voiceState == old(voiceState)
      ensures mostRecentIndex == |beats| && mostRecentTime == beats[|beats| - 1].time
      ensures states == [this]
      ensures Sorted(beats) ==> Consistent() && VisiblePrefix(beats, mostRecentTime) == beats
    {
      mostRecentIndex := |beats|;
      mostRecentTime := beats[|beats| - 1].time;
      states := [this];
      if Sorted(beats) {
        CutIsVisiblePrefix(beats, mostRecentTime, |beats|);
      }
    }

    /**
     * `compareTo`: `null` sorts last; then by the total score of this state and its voice state
     * (higher first), by number of beats, beat by beat, and finally `this` and `o` are equal only
     * when they share the very same voice state. Since file-driven scores are all 0, the result
     * is 0 exactly when the beat lists agree beat by beat and the voice state is shared.
     */
    method CompareTo(o: BeatTrackingFromFile?) returns (c: int)
      requires voiceState != null
      requires o != null ==> o.voiceState != null
      ensures o == null ==> c == -1
      ensures o != null ==>
        var scores := RealCompare(o.Score() + o.voiceState.Score(), Score() + voiceState.Score());
        c == (if scores != 0 then scores
              else if |beats| != |o.beats| then |beats| - |o.beats|
              else if CompareBeatLists(beats, o.beats) != 0 then CompareBeatLists(beats, o.beats)
              else if voiceState == o.voiceState then 0 else 1)
      ensures c == 0 <==>
        (o != null && |beats| == |o.beats| && voiceState == o.voiceState
         && forall i :: 0 <= i < |beats| ==>
              beats[i].measure == o.beats[i].measure && beats[i].beat == o.beats[i].beat)
    {
      if o == null {
        return -1;
      }
      c := RealCompare(o.Score() + o.voiceState.Score(), Score() + voiceState.Score());
      if c != 0 {
        return c;
      }
      c := |beats| - |o.beats|;
      if c != 0 {
        return c;
      }
      CompareBeatListsZero(beats, o.beats);
      var i := 0;
      while i < |beats|
        invariant 0 <= i <= |beats|
        invariant CompareBeatLists(beats, o.beats) == CompareBeatLists(beats[i..], o.beats[i..])
      {
        c := Beats.CompareTo(beats[i], Some(o.beats[i]));
        if c != 0 {
          return c;
        }
        assert beats[i..][1..] == beats[i + 1..] && o.beats[i..][1..] == o.beats[i + 1..];
        i := i + 1;
      }
      c := if voiceState == o.voiceState then 0 else 1;
    }
  }
}
