/**
 * The per-voice note lists a metrical hypothesis keeps
 * (src/metdetection/meter/lpcfg/MetricalLpcfgMetricalModelState.java): how `addNewVoices`
 * files the notes of each voice that just received one, and which notes
 * `removeFinishedNotes` drops once the parse has passed their offset.
 */
module NoteTracks {
  import opened JavaInt
  import opened Beats
  import opened MidiNotes
  import Voices
  import opened Conglomerates
  import opened MatchUpdates
  import TreeFactory

  // ---------------------------------------------------------------------------
  // Filing new notes

  /** `notes.contains(x)`: some incoming note is `equals` to `x`. */
  predicate Contains(notes: seq<MidiNote>, x: MidiNote)
  {
    exists j :: 0 <= j < |notes| && MidiNotes.Equals(x, Some(notes[j]))
  }

  /** The notes of a voice that are among the incoming ones, in the voice's order. */
  function NewNotes(voiceNotes: seq<MidiNote>, notes: seq<MidiNote>): (r: seq<MidiNote>)
    ensures |r| <= |voiceNotes|
    decreases |voiceNotes|
  {
    if |voiceNotes| == 0 then []
    else
      var last := voiceNotes[|voiceNotes| - 1];
      NewNotes(voiceNotes[..|voiceNotes| - 1], notes) + (if Contains(notes, last) then [last] else [])
  }

  /** The kept notes are exactly the voice's notes that are among the incoming ones, in order. */
  lemma {:induction false} NewNotesMembers(voiceNotes: seq<MidiNote>, notes: seq<MidiNote>)
    ensures forall x :: x in NewNotes(voiceNotes, notes) <==> x in voiceNotes && Contains(notes, x)
    ensures (forall k :: 0 <= k < |voiceNotes| ==> Contains(notes, voiceNotes[k])) ==>
      NewNotes(voiceNotes, notes) == voiceNotes
    decreases |voiceNotes|
  {
    if |voiceNotes| > 0 {
      var front := voiceNotes[..|voiceNotes| - 1];
      NewNotesMembers(front, notes);
      assert voiceNotes == front + [voiceNotes[|voiceNotes| - 1]];
    }
  }

  /** Every note of a voice is among the incoming ones: `addNewVoices`' test for a new voice. */
  predicate AllNew(voiceNotes: seq<MidiNote>, notes: seq<MidiNote>)
  {
    forall k :: 0 <= k < |voiceNotes| ==> Contains(notes, voiceNotes[k])
  }

  /** The inner loop of `addNewVoices`: collect the voice's new notes, and whether all are new. */
  method CollectNewNotes(voiceNotes: seq<MidiNote>, notes: seq<MidiNote>) returns (newNotes: seq<MidiNote>, newVoice: bool)
    ensures newNotes == NewNotes(voiceNotes, notes) && newVoice == AllNew(voiceNotes, notes)
  {
    newNotes := [];
    newVoice := true;
    for k := 0 to |voiceNotes|
      invariant newNotes == NewNotes(voiceNotes[..k], notes)
      invariant newVoice == AllNew(voiceNotes[..k], notes)
    {
      CollectStep(voiceNotes, notes, k);
      if !Contains(notes, voiceNotes[k]) {
        newVoice := false;
      } else {
        newNotes := newNotes + [voiceNotes[k]];
      }
    }
    assert voiceNotes[..|voiceNotes|] == voiceNotes;
  }

  lemma CollectStep(voiceNotes: seq<MidiNote>, notes: seq<MidiNote>, k: int)
    requires 0 <= k < |voiceNotes|
    ensures NewNotes(voiceNotes[..k + 1], notes)
      == NewNotes(voiceNotes[..k], notes) + (if Contains(notes, voiceNotes[k]) then [voiceNotes[k]] else [])
    ensures AllNew(voiceNotes[..k + 1], notes) == (AllNew(voiceNotes[..k], notes) && Contains(notes, voiceNotes[k]))
  {
    assert voiceNotes[..k + 1][..k] == voiceNotes[..k];
    assert voiceNotes[..k + 1][k] == voiceNotes[k];
  }

  /** `x` inserted into `s` at index `i`, as `List.add(i, x)` does. */
  function Insert<T>(s: seq<T>, i: int, x: T): (r: seq<T>)
    requires 0 <= i <= |s|
    ensures |r| == |s| + 1 && r[i] == x
    ensures forall k :: 0 <= k < i ==> r[k] == s[k]
    ensures forall k :: i < k < |r| ==> r[k] == s[k - 1]
  {
    s[..i] + [x] + s[i..]
  }

  /** A hypothesis' per-voice lists: unfinished notes, whether each voice has begun, and the
   *  notes still to check for a conglomerate beat match. */
  datatype Tracks = Tracks(unfinished: seq<seq<MidiNote>>, begun: seq<bool>, beatQueues: seq<seq<MidiNote>>)

  /**
   * One pass of the loop of `addNewVoices`, for voice `i`: if its most recent note is new, the
   * voice's new notes are inserted as a new list at index `i` when all of the voice's notes
   * are new, and appended to list `i` otherwise; the beat queues are left alone once a BEAT
   * match is recorded. `None` is the list index Java rejects.
   */
  function AddVoice(t: Tracks, i: int, voice: Voices.Voice, notes: seq<MidiNote>, beatMatched: bool)
    : (r: Option<Tracks>)
    requires i >= 0
  {
    if !Contains(notes, voice.mostRecentNote) then Some(t)
    else
      var voiceNotes := Voices.Notes(voice);
      var newNotes := NewNotes(voiceNotes, notes);
      if AllNew(voiceNotes, notes) then
        if i > |t.unfinished| || i > |t.begun| || (!beatMatched && i > |t.beatQueues|) then None
        else
          Some(Tracks(Insert(t.unfinished, i, newNotes), Insert(t.begun, i, false),
                      if beatMatched then t.beatQueues else Insert(t.beatQueues, i, newNotes)))
      else
        if i >= |t.unfinished| || (!beatMatched && i >= |t.beatQueues|) then None
        else
          Some(Tracks(t.unfinished[i := t.unfinished[i] + newNotes], t.begun,
                      if beatMatched then t.beatQueues
                      else t.beatQueues[i := t.beatQueues[i] + newNotes]))
  }

  /** The loop of `addNewVoices` from voice `i` on. */
  function AddVoices(t: Tracks, voices: seq<Voices.Voice>, notes: seq<MidiNote>, beatMatched: bool, i: nat)
    : (r: Option<Tracks>)
    decreases |voices| - i
  {
    if i >= |voices| then Some(t)
    else
      match AddVoice(t, i, voices[i], notes, beatMatched)
      case None => None
      case Some(t') => AddVoices(t', voices, notes, beatMatched, i + 1)
  }

  /** Every note of every voice fits the beats. */
  predicate VoicesFit(voices: seq<Voices.Voice>, beats: seq<Beat>)
  {
    forall i :: 0 <= i < |voices| ==> AllFit(Voices.Notes(voices[i]), beats)
  }

  /** Lists that fit the beats, and as many `begun` flags as unfinished lists. */
  predicate TracksFit(t: Tracks, beats: seq<Beat>)
  {
    AllVoicesFit(t.unfinished, beats) && AllVoicesFit(t.beatQueues, beats) && |t.begun| == |t.unfinished|
  }

  lemma NewNotesFit(voiceNotes: seq<MidiNote>, notes: seq<MidiNote>, beats: seq<Beat>)
    requires AllFit(voiceNotes, beats)
    ensures AllFit(NewNotes(voiceNotes, notes), beats)
  {
    NewNotesMembers(voiceNotes, notes);
    var r := NewNotes(voiceNotes, notes);
    forall k | 0 <= k < |r| ensures TreeFactory.NoteFits(r[k], beats) {
      assert r[k] in voiceNotes;
    }
  }

  lemma AppendFits(a: seq<MidiNote>, b: seq<MidiNote>, beats: seq<Beat>)
    requires AllFit(a, beats) && AllFit(b, beats)
    ensures AllFit(a + b, beats)
  {
    forall k | 0 <= k < |a + b| ensures TreeFactory.NoteFits((a + b)[k], beats) {
      if k >= |a| { assert (a + b)[k] == b[k - |a|]; }
    }
  }

  /** Filing a voice's notes keeps every list fitting the beats and the lists' lengths in step. */
  lemma AddVoiceFits(t: Tracks, i: int, voice: Voices.Voice, notes: seq<MidiNote>, beatMatched: bool,
                     beats: seq<Beat>)
    requires i >= 0 && TracksFit(t, beats) && AllFit(Voices.Notes(voice), beats)
    requires AddVoice(t, i, voice, notes, beatMatched).Some?
    ensures TracksFit(AddVoice(t, i, voice, notes, beatMatched).value, beats)
  {
    var newNotes := NewNotes(Voices.Notes(voice), notes);
    NewNotesFit(Voices.Notes(voice), notes, beats);
    if Contains(notes, voice.mostRecentNote) && !AllNew(Voices.Notes(voice), notes) {
      AppendFits(t.unfinished[i], newNotes, beats);
      if !beatMatched {
        AppendFits(t.beatQueues[i], newNotes, beats);
      }
    }
  }

  /** `addNewVoices` keeps the lists fitting the beats and as many `begun` flags as unfinished
   *  lists. */
  lemma {:induction false} AddVoicesFits(t: Tracks, voices: seq<Voices.Voice>, notes: seq<MidiNote>,
                                         beatMatched: bool, i: nat, beats: seq<Beat>)
    requires TracksFit(t, beats) && VoicesFit(voices, beats)
    requires AddVoices(t, voices, notes, beatMatched, i).Some?
    ensures TracksFit(AddVoices(t, voices, notes, beatMatched, i).value, beats)
    decreases |voices| - i
  {
    if i < |voices| {
      AddVoiceFits(t, i, voices[i], notes, beatMatched, beats);
      AddVoicesFits(AddVoice(t, i, voices[i], notes, beatMatched).value, voices, notes, beatMatched, i + 1, beats);
    }
  }

  // ---------------------------------------------------------------------------
  // Dropping finished notes

  /** `List.lastIndexOf`: the last index holding `b`, or -1. */
  function LastIndexOf(beats: seq<Beat>, b: Beat): (i: int)
    ensures -1 <= i < |beats|
    ensures i >= 0 ==> beats[i] == b && forall j :: i < j < |beats| ==> beats[j] != b
    ensures i == -1 <==> b !in beats
    decreases |beats|
  {
    if |beats| == 0 then -1
    else if beats[|beats| - 1] == b then |beats| - 1
    else LastIndexOf(beats[..|beats| - 1], b)
  }

  /**
   * The test of `removeFinishedNotes`: the last index of the note's offset beat lies before the
   * next measure's first beat, or on it when that is not the last beat tracked.
   */
  predicate Finished(n: MidiNote, beats: seq<Beat>, nextMeasureIndex: int)
    requires TreeFactory.NoteFits(n, beats)
  {
    var lastIndex := LastIndexOf(beats, OffsetBeat(n, beats));
    (lastIndex != |beats| - 1 && lastIndex == nextMeasureIndex) || lastIndex < nextMeasureIndex
  }

  /** The notes of a voice `removeFinishedNotes` keeps, in order. */
  function Unfinished(notes: seq<MidiNote>, beats: seq<Beat>, nextMeasureIndex: int): (r: seq<MidiNote>)
    requires AllFit(notes, beats)
    ensures |r| <= |notes|
    decreases |notes|
  {
    if |notes| == 0 then []
    else
      var front := notes[..|notes| - 1];
      var last := notes[|notes| - 1];
      SuffixFits([], notes, beats);
      PrefixFits(front, notes, beats);
      Unfinished(front, beats, nextMeasureIndex) + (if Finished(last, beats, nextMeasureIndex) then [] else [last])
  }

  lemma PrefixFits(s: seq<MidiNote>, t: seq<MidiNote>, beats: seq<Beat>)
    requires AllFit(t, beats) && |s| <= |t| && s == t[..|s|]
    ensures AllFit(s, beats)
  {
    forall k | 0 <= k < |s| ensures TreeFactory.NoteFits(s[k], beats) {
      assert s[k] == t[k];
    }
  }

  /** A note is kept exactly when it is one of the voice's notes and is not finished. */
  lemma {:induction false} UnfinishedMembers(notes: seq<MidiNote>, beats: seq<Beat>, nextMeasureIndex: int)
    requires AllFit(notes, beats)
    ensures forall x :: x in Unfinished(notes, beats, nextMeasureIndex) ==> x in notes
    ensures forall k :: 0 <= k < |notes| ==>
      (notes[k] in Unfinished(notes, beats, nextMeasureIndex) <==> !Finished(notes[k], beats, nextMeasureIndex))
    decreases |notes|
  {
    if |notes| > 0 {
      var front := notes[..|notes| - 1];
      PrefixFits(front, notes, beats);
      UnfinishedMembers(front, beats, nextMeasureIndex);
      assert notes == front + [notes[|notes| - 1]];
      forall k | 0 <= k < |notes|
        ensures notes[k] in Unfinished(notes, beats, nextMeasureIndex) <==> !Finished(notes[k], beats, nextMeasureIndex)
      {
        if k < |front| {
          assert notes[k] == front[k];
        }
        if Finished(notes[k], beats, nextMeasureIndex) {
          // A finished value is finished wherever it occurs, so no copy of it is kept either.
          forall x | x in Unfinished(front, beats, nextMeasureIndex) ensures x != notes[k] {
            var j :| 0 <= j < |front| && front[j] == x;
          }
        }
      }
    }
  }

  /** The kept notes fit the beats. */
  lemma UnfinishedFits(notes: seq<MidiNote>, beats: seq<Beat>, nextMeasureIndex: int)
    requires AllFit(notes, beats)
    ensures AllFit(Unfinished(notes, beats, nextMeasureIndex), beats)
  {
    UnfinishedMembers(notes, beats, nextMeasureIndex);
    var r := Unfinished(notes, beats, nextMeasureIndex);
    forall k | 0 <= k < |r| ensures TreeFactory.NoteFits(r[k], beats) {
      assert r[k] in notes;
    }
  }

  /** Once the next measure starts at or past the last beat tracked, every note is finished. */
  lemma {:induction false} UnfinishedPastLastBeat(notes: seq<MidiNote>, beats: seq<Beat>, nextMeasureIndex: int)
    requires AllFit(notes, beats) && nextMeasureIndex >= |beats|
    ensures Unfinished(notes, beats, nextMeasureIndex) == []
    decreases |notes|
  {
    if |notes| > 0 {
      var front := notes[..|notes| - 1];
      PrefixFits(front, notes, beats);
      UnfinishedPastLastBeat(front, beats, nextMeasureIndex);
    }
  }

  /** `removeFinishedNotes` on every voice. */
  function RemainingNotes(voices: seq<seq<MidiNote>>, beats: seq<Beat>, nextMeasureIndex: int)
    : (r: seq<seq<MidiNote>>)
    requires AllVoicesFit(voices, beats)
    ensures |r| == |voices|
    ensures forall v :: 0 <= v < |voices| ==> r[v] == Unfinished(voices[v], beats, nextMeasureIndex)
  {
    seq(|voices|, v requires 0 <= v < |voices| => Unfinished(voices[v], beats, nextMeasureIndex))
  }

  /** The inner loop of `removeFinishedNotes`, which removes at `i` and steps back (`i--`). */
  method RemoveFinished(voice: seq<MidiNote>, beats: seq<Beat>, nextMeasureIndex: int) returns (kept: seq<MidiNote>)
    requires AllFit(voice, beats)
    ensures kept == Unfinished(voice, beats, nextMeasureIndex)
  {
    kept := voice;
    var i := 0;
    ghost var done := 0;
    while i < |kept|
      invariant Scanned(voice, done, kept, i, beats, nextMeasureIndex)
      decreases |kept| - i
    {
      ScannedStep(voice, done, kept, i, beats, nextMeasureIndex);
      if Finished(kept[i], beats, nextMeasureIndex) {
        kept := kept[..i] + kept[i + 1..];
      } else {
        i := i + 1;
      }
      done := done + 1;
    }
    ScannedDone(voice, done, kept, i, beats, nextMeasureIndex);
  }

  /** The state of the inner loop of `removeFinishedNotes` after `done` notes of the voice: the
   *  first `i` entries are what it kept of them, and the rest is still the voice's. */
  ghost predicate Scanned(voice: seq<MidiNote>, done: int, kept: seq<MidiNote>, i: int, beats: seq<Beat>,
                          nextMeasureIndex: int)
  {
    AllFit(voice, beats) && 0 <= done <= |voice|
    && kept == KeptSoFar(voice, done, beats, nextMeasureIndex) + voice[done..]
    && i == |KeptSoFar(voice, done, beats, nextMeasureIndex)|
  }

  lemma ScannedStep(voice: seq<MidiNote>, done: int, kept: seq<MidiNote>, i: int, beats: seq<Beat>,
                    nextMeasureIndex: int)
    requires Scanned(voice, done, kept, i, beats, nextMeasureIndex) && 0 <= i < |kept|
    ensures TreeFactory.NoteFits(kept[i], beats)
    ensures Finished(kept[i], beats, nextMeasureIndex) ==>
      Scanned(voice, done + 1, kept[..i] + kept[i + 1..], i, beats, nextMeasureIndex)
    ensures !Finished(kept[i], beats, nextMeasureIndex) ==>
      Scanned(voice, done + 1, kept, i + 1, beats, nextMeasureIndex)
  {
    KeptSoFarStep(voice, done, beats, nextMeasureIndex);
    var before := KeptSoFar(voice, done, beats, nextMeasureIndex);
    assert kept[..i] == before && kept[i] == voice[done] && kept[i + 1..] == voice[done + 1..];
    if Finished(kept[i], beats, nextMeasureIndex) {
      assert kept[..i] + kept[i + 1..] == before + voice[done + 1..];
    } else {
      assert kept == (before + [voice[done]]) + voice[done + 1..];
    }
  }

  lemma ScannedDone(voice: seq<MidiNote>, done: int, kept: seq<MidiNote>, i: int, beats: seq<Beat>,
                    nextMeasureIndex: int)
    requires Scanned(voice, done, kept, i, beats, nextMeasureIndex) && i >= |kept|
    ensures kept == Unfinished(voice, beats, nextMeasureIndex)
  {
  }

  /** What the inner loop of `removeFinishedNotes` has kept of the first `done` notes. */
  function KeptSoFar(voice: seq<MidiNote>, done: nat, beats: seq<Beat>, nextMeasureIndex: int): (r: seq<MidiNote>)
    requires AllFit(voice, beats) && done <= |voice|
    ensures done == |voice| ==> r == Unfinished(voice, beats, nextMeasureIndex)
  {
    PrefixFits(voice[..done], voice, beats);
    assert done == |voice| ==> voice[..done] == voice;
    Unfinished(voice[..done], beats, nextMeasureIndex)
  }

  /** One more note of the voice looked at: it is kept exactly when it is not finished. */
  lemma KeptSoFarStep(voice: seq<MidiNote>, done: nat, beats: seq<Beat>, nextMeasureIndex: int)
    requires AllFit(voice, beats) && done < |voice|
    ensures KeptSoFar(voice, done + 1, beats, nextMeasureIndex)
      == KeptSoFar(voice, done, beats, nextMeasureIndex)
         + (if Finished(voice[done], beats, nextMeasureIndex) then [] else [voice[done]])
    ensures voice[done..] == [voice[done]] + voice[done + 1..]
  {
    PrefixFits(voice[..done + 1], voice, beats);
    PrefixFits(voice[..done], voice, beats);
    assert voice[..done + 1][..done] == voice[..done];
  }
}
