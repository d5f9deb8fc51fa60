/**
 * A MIDI note and the beat lookups made from it (src/metdetection/utils/MidiNote.java).
 * A note is a value here: each setter returns the updated note.
 */
module MidiNotes {
  import opened JavaInt
  import opened Beats

  datatype MidiNote = MidiNote(
    pitch: int, velocity: int,
    onsetTime: int, onsetTick: int,
    offsetTime: int, offsetTick: int,
    correctVoice: int, guessedVoice: int)

  /** The constructor: the note starts with offset time and tick 0. */
  function NewNote(key: int, velocity: int, onsetTime: int, onsetTick: int,
                   correctVoice: int, guessedVoice: int): (n: MidiNote)
    ensures n.pitch == key && n.velocity == velocity && n.onsetTime == onsetTime
    ensures n.onsetTick == onsetTick && n.correctVoice == correctVoice && n.guessedVoice == guessedVoice
    ensures n.offsetTime == 0 && n.offsetTick == 0
    ensures IsActive(n)
  {
    MidiNote(key, velocity, onsetTime, onsetTick, 0, 0, correctVoice, guessedVoice)
  }

  /** A note is active, that is still sounding, until an offset time is given. */
  predicate IsActive(n: MidiNote)
  {
    n.offsetTime == 0
  }

  function SetOnset(n: MidiNote, onsetTime: int, onsetTick: int): MidiNote
  {
    n.(onsetTime := onsetTime, onsetTick := onsetTick)
  }

  function SetOffset(n: MidiNote, offsetTime: int, offsetTick: int): MidiNote
  {
    n.(offsetTime := offsetTime, offsetTick := offsetTick)
  }

  /** `close` sets the offset; the note stays active only if the offset time is 0. */
  function Close(n: MidiNote, offsetTime: int, offsetTick: int): (c: MidiNote)
    ensures IsActive(c) <==> offsetTime == 0
    ensures c.onsetTime == n.onsetTime && c.onsetTick == n.onsetTick && c.pitch == n.pitch
    ensures c.velocity == n.velocity && c.correctVoice == n.correctVoice && c.guessedVoice == n.guessedVoice
    ensures c.offsetTime == offsetTime && c.offsetTick == offsetTick
  {
    SetOffset(n, offsetTime, offsetTick)
  }

  function SetCorrectVoice(n: MidiNote, correctVoice: int): MidiNote
  {
    n.(correctVoice := correctVoice)
  }

  function SetGuessedVoice(n: MidiNote, voice: int): MidiNote
  {
    n.(guessedVoice := voice)
  }

  /** `getDurationTime`: the offset time minus the onset time. */
  function DurationTime(n: MidiNote): (d: int)
    ensures d + n.onsetTime == n.offsetTime
  {
    n.offsetTime - n.onsetTime
  }

  /** `overlaps`: strict intersection of the two tick intervals; `null` overlaps nothing. */
  predicate Overlaps(n: MidiNote, other: Option<MidiNote>)
  {
    other.Some? && n.onsetTick < other.value.offsetTick && n.offsetTick > other.value.onsetTick
  }

  lemma OverlapsSymmetric(a: MidiNote, b: MidiNote)
    ensures Overlaps(a, Some(b)) <==> Overlaps(b, Some(a))
  {
  }

  /** Tick `t` lies inside note `n`. */
  predicate SoundsAt(n: MidiNote, t: int)
  {
    n.onsetTick <= t < n.offsetTick
  }

  /** Two notes overlap exactly when some tick lies inside both of them. */
  lemma OverlapsIffSharedTick(a: MidiNote, b: MidiNote)
    requires a.onsetTick < a.offsetTick && b.onsetTick < b.offsetTick
    ensures Overlaps(a, Some(b)) <==> exists t :: SoundsAt(a, t) && SoundsAt(b, t)
  {
    if Overlaps(a, Some(b)) {
      var t := if a.onsetTick < b.onsetTick then b.onsetTick else a.onsetTick;
      assert SoundsAt(a, t) && SoundsAt(b, t);
    }
  }

  /** The fields `compareTo` looks at, in the order it looks at them. */
  function SortKey(n: MidiNote): seq<int>
  {
    [n.onsetTick, n.offsetTick, n.pitch, n.velocity, n.correctVoice, n.guessedVoice]
  }

  /** Lexicographic order on integer sequences of equal length. */
  predicate LexLess(a: seq<int>, b: seq<int>)
    requires |a| == |b|
  {
    |a| > 0 && (a[0] < b[0] || (a[0] == b[0] && LexLess(a[1..], b[1..])))
  }

  /** `compareTo`: lexicographic on (onset tick, offset tick, pitch, velocity, correct voice,
   *  guessed voice); `null` sorts first. Onset and offset times are not compared. */
  function CompareTo(n: MidiNote, other: Option<MidiNote>): (c: int)
    ensures other.None? ==> c == 1
    ensures c == -1 || c == 0 || c == 1
    ensures other.Some? ==> (c == 0 <==> SortKey(n) == SortKey(other.value))
  {
    if other.None? then 1
    else
      var o := other.value;
      var result := IntCompare(n.onsetTick, o.onsetTick);
      if result != 0 then result
      else
        var result := IntCompare(n.offsetTick, o.offsetTick);
        if result != 0 then result
        else
          var result := IntCompare(n.pitch, o.pitch);
          if result != 0 then result
          else
            var result := IntCompare(n.velocity, o.velocity);
            if result != 0 then result
            else
              var result := IntCompare(n.correctVoice, o.correctVoice);
              if result != 0 then result
              else IntCompare(n.guessedVoice, o.guessedVoice)
  }

  lemma LexLessCons(x: int, y: int, a: seq<int>, b: seq<int>)
    requires |a| == |b|
    ensures LexLess([x] + a, [y] + b) <==> x < y || (x == y && LexLess(a, b))
  {
    assert ([x] + a)[1..] == a && ([y] + b)[1..] == b;
  }

  /** The order `compareTo` computes is the lexicographic order of the sort keys. */
  lemma CompareToLexicographic(a: MidiNote, b: MidiNote)
    ensures CompareTo(a, Some(b)) < 0 <==> LexLess(SortKey(a), SortKey(b))
  {
    LexLessCons(a.guessedVoice, b.guessedVoice, [], []);
    LexLessCons(a.correctVoice, b.correctVoice, [a.guessedVoice], [b.guessedVoice]);
    LexLessCons(a.velocity, b.velocity, [a.correctVoice, a.guessedVoice], [b.correctVoice, b.guessedVoice]);
    LexLessCons(a.pitch, b.pitch, SortKey(a)[3..], SortKey(b)[3..]);
    LexLessCons(a.offsetTick, b.offsetTick, SortKey(a)[2..], SortKey(b)[2..]);
    LexLessCons(a.onsetTick, b.onsetTick, SortKey(a)[1..], SortKey(b)[1..]);
  }

  lemma CompareToAntisymmetric(a: MidiNote, b: MidiNote)
    ensures CompareTo(a, Some(b)) == -CompareTo(b, Some(a))
  {
  }

  /** `equals`: `compareTo` returns 0. */
  predicate Equals(n: MidiNote, other: Option<MidiNote>)
  {
    other.Some? && CompareTo(n, other) == 0
  }

  /** Equality ignores the onset and offset times. */
  lemma EqualsIgnoresTimes(n: MidiNote, onsetTime: int, offsetTime: int)
    ensures Equals(n, Some(n.(onsetTime := onsetTime, offsetTime := offsetTime)))
  {
  }

  const NOTE_NAMES: seq<string> := ["C", "C#", "D", "D#", "E", "F", "F#", "G", "G#", "A", "A#", "B"]

  /** `getNoteName`: pitch class name followed by the octave `pitch / 12 - 1`, in Java's
   *  truncating arithmetic; a negative pitch class makes the Java array access fail. */
  function GetNoteName(pitch: int): (name: Option<string>)
    ensures name.None? <==> pitch < 0 && pitch % 12 != 0
    ensures name.Some? ==> |name.value| > 1
  {
    var index := JRem(pitch, 12);
    if index < 0 then None
    else
      JRemZeroIff(pitch, 12);
      Some(NOTE_NAMES[index] + IntToString(JDiv(pitch, 12) - 1))
  }

  lemma MiddleC()
    ensures GetNoteName(60) == Some("C4")
  {
    assert JRem(60, 12) == 0 && JDiv(60, 12) == 5;
    assert IntToString(4) == "4";
    NoteNameParts(60);
    assert NOTE_NAMES[0] == "C";
    assert GetNoteName(60).value == "C" + "4";
    assert "C" + "4" == "C4";
  }

  /** Each pitch-class name is one letter, possibly followed by a sharp. */
  lemma NoteNameShape(i: int)
    requires 0 <= i < 12
    ensures |NOTE_NAMES[i]| == 1 || (|NOTE_NAMES[i]| == 2 && NOTE_NAMES[i][1] == '#')
    ensures forall j :: 0 <= j < 12 && NOTE_NAMES[j] == NOTE_NAMES[i] ==> j == i
  {
  }

  lemma NoteNameParts(p: int)
    requires GetNoteName(p).Some?
    ensures 0 <= JRem(p, 12) < 12
    ensures GetNoteName(p).value == NOTE_NAMES[JRem(p, 12)] + IntToString(JDiv(p, 12) - 1)
  {
  }

  /** A pitch-class name followed by a decimal number can be split back into the two. */
  lemma NameSplit(np: string, op: string, nq: string, oq: string)
    requires |np| == 1 || (|np| == 2 && np[1] == '#')
    requires |nq| == 1 || (|nq| == 2 && nq[1] == '#')
    requires |op| > 0 && (IsDigit(op[0]) || op[0] == '-')
    requires |oq| > 0 && (IsDigit(oq[0]) || oq[0] == '-')
    requires np + op == nq + oq
    ensures np == nq && op == oq
  {
    assert (np + op)[1] == (nq + oq)[1];
    assert np == (np + op)[..|np|] == nq;
    assert op == (np + op)[|np|..] == oq;
  }

  /** Two pitches with the same name are the same pitch. */
  lemma NoteNameInjective(p: int, q: int)
    requires GetNoteName(p).Some? && GetNoteName(p) == GetNoteName(q)
    ensures p == q
  {
    NoteNameParts(p);
    NoteNameParts(q);
    var i, j := JRem(p, 12), JRem(q, 12);
    NoteNameShape(i);
    NoteNameShape(j);
    NameSplit(NOTE_NAMES[i], IntToString(JDiv(p, 12) - 1), NOTE_NAMES[j], IntToString(JDiv(q, 12) - 1));
    IntToStringInjective(JDiv(p, 12) - 1, JDiv(q, 12) - 1);
    JDivRem(p, 12);
    JDivRem(q, 12);
  }

  /** Beats listed in order of time. */
  predicate SortedByTime(beats: seq<Beat>)
  {
    forall i, j :: 0 <= i < j < |beats| ==> beats[i].time <= beats[j].time
  }

  /** Index `i` is where the beat times step over `time`. */
  predicate Crossing(beats: seq<Beat>, time: int, i: int)
  {
    1 <= i < |beats| && beats[i - 1].time <= time < beats[i].time
  }

  /** The pairs `getBeatsAroundTime` may return: the two beats at a crossing, or else the
   *  last beat twice. */
  ghost predicate AroundPair(beats: seq<Beat>, time: int, early: Beat, late: Beat)
    requires |beats| > 0
  {
    (exists i :: Crossing(beats, time, i) && early == beats[i - 1] && late == beats[i])
    || (early == beats[|beats| - 1] && late == beats[|beats| - 1])
  }

  /** Between a first beat at or before `time` and a last beat after it there is a crossing. */
  lemma {:induction false} CrossingExists(beats: seq<Beat>, time: int)
    requires |beats| > 0 && beats[0].time <= time < beats[|beats| - 1].time
    ensures exists i :: Crossing(beats, time, i)
  {
    if beats[|beats| - 2].time <= time {
      assert Crossing(beats, time, |beats| - 1);
    } else {
      CrossingExists(beats[..|beats| - 1], time);
      var i :| Crossing(beats[..|beats| - 1], time, i);
      assert Crossing(beats, time, i);
    }
  }

  /** The binary search of `getBeatsAroundTime` on the index range `[min, max]`. The Java code
   *  reads index `mid - 1`, which stays in range because the first beat is not after `time`. */
  function BeatsAround(time: int, beats: seq<Beat>, min: int, max: int): (around: seq<Beat>)
    requires |beats| > 0 && beats[0].time <= time
    requires 0 <= min && max < |beats|
    ensures |around| == 2
    decreases max - min
  {
    if min > max then [beats[|beats| - 1], beats[|beats| - 1]]
    else
      var mid := (min + max) / 2;
      if beats[mid].time > time && beats[mid - 1].time <= time then beats[mid - 1..mid + 1]
      else if beats[mid].time <= time then BeatsAround(time, beats, mid + 1, max)
      else BeatsAround(time, beats, min, mid - 1)
  }

  /** The search returns the two beats at a crossing or the last beat twice; on time-sorted
   *  beats it returns the last beat twice exactly when no beat is after `time`. */
  lemma {:induction false} BeatsAroundSpec(time: int, beats: seq<Beat>, min: int, max: int)
    requires |beats| > 0 && beats[0].time <= time
    requires 0 <= min && max < |beats|
    ensures var around := BeatsAround(time, beats, min, max);
      AroundPair(beats, time, around[0], around[1])
    ensures SortedByTime(beats) && (forall i :: Crossing(beats, time, i) ==> min <= i <= max) ==>
      var around := BeatsAround(time, beats, min, max);
      (around == [beats[|beats| - 1], beats[|beats| - 1]] <==> beats[|beats| - 1].time <= time)
    decreases max - min
  {
    var last := beats[|beats| - 1];
    if min > max {
      if SortedByTime(beats) && (forall i :: Crossing(beats, time, i) ==> min <= i <= max)
         && time < last.time {
        CrossingExists(beats, time);
      }
    } else {
      var mid := (min + max) / 2;
      if beats[mid].time > time && beats[mid - 1].time <= time {
        assert Crossing(beats, time, mid);
        if SortedByTime(beats) {
          assert beats[mid - 1..mid + 1][0] == beats[mid - 1];
        }
      } else if beats[mid].time <= time {
        BeatsAroundSpec(time, beats, mid + 1, max);
      } else {
        BeatsAroundSpec(time, beats, min, mid - 1);
      }
    }
  }

  lemma {:induction false} BeatsAroundInBeats(time: int, beats: seq<Beat>, min: int, max: int)
    requires |beats| > 0 && beats[0].time <= time
    requires 0 <= min && max < |beats|
    ensures BeatsAround(time, beats, min, max)[0] in beats
    ensures BeatsAround(time, beats, min, max)[1] in beats
    decreases max - min
  {
    if min <= max {
      var mid := (min + max) / 2;
      if beats[mid].time > time && beats[mid - 1].time <= time {
        assert beats[mid - 1..mid + 1] == [beats[mid - 1], beats[mid]];
      } else if beats[mid].time <= time {
        BeatsAroundInBeats(time, beats, mid + 1, max);
      } else {
        BeatsAroundInBeats(time, beats, min, mid - 1);
      }
    }
  }

  /** `getBeatsAroundTime`: the binary search, as a loop over `min` and `max`. */
  method GetBeatsAroundTime(time: int, beats: seq<Beat>) returns (around: seq<Beat>)
    requires |beats| > 0 && beats[0].time <= time
    ensures around == BeatsAround(time, beats, 0, |beats| - 1)
  {
    var min, max := 0, |beats| - 1;
    while min <= max
      invariant 0 <= min && max < |beats|
      invariant BeatsAround(time, beats, min, max) == BeatsAround(time, beats, 0, |beats| - 1)
      decreases max - min
    {
      var mid := (min + max) / 2;
      if beats[mid].time > time && beats[mid - 1].time <= time {
        around := beats[mid - 1..mid + 1];
        assert around == BeatsAround(time, beats, min, max);
        return;
      } else if beats[mid].time <= time {
        min := mid + 1;
      } else {
        max := mid - 1;
      }
    }
    around := [beats[|beats| - 1], beats[|beats| - 1]];
  }

  /** The beat `getOnsetBeat` keeps from a pair: the later one only if strictly closer. */
  function NearerOnset(time: int, early: Beat, late: Beat): (b: Beat)
    ensures b == early || b == late
    ensures Abs(time - b.time) <= Abs(time - early.time)
    ensures Abs(time - b.time) <= Abs(time - late.time)
    ensures Abs(time - early.time) == Abs(time - late.time) ==> b == early
  {
    if Abs(time - late.time) < Abs(time - early.time) then late else early
  }

  /** The beat `getOffsetBeat` keeps from a pair: the later one unless it is more than one
   *  time unit farther away than the earlier one. */
  function NearerOffset(time: int, early: Beat, late: Beat): (b: Beat)
    ensures b == early || b == late
    ensures b == late <==> Abs(time - late.time) <= Abs(time - early.time) + 1
  {
    if Abs(time - late.time) - 1 <= Abs(time - early.time) then late else early
  }

  /** Times for which the distances compared against `Long.MAX_VALUE` are below it. */
  predicate TimesInRange(time: int, beats: seq<Beat>)
  {
    0 <= time < LONG_MAX && forall i :: 0 <= i < |beats| ==> 0 <= beats[i].time < LONG_MAX
  }

  /** The nearest-beat loop shared by `getOnsetBeat` (`strict`) and `getOffsetBeat`. */
  method ClosestBeat(time: int, beatList: seq<Beat>, strict: bool) returns (closest: Beat)
    requires |beatList| == 2
    requires TimesInRange(time, beatList)
    ensures closest == if strict then NearerOnset(time, beatList[0], beatList[1])
                       else NearerOffset(time, beatList[0], beatList[1])
  {
    var minDiff := LONG_MAX;
    var closestBeat: Option<Beat> := None;
    for k := 0 to |beatList|
      invariant k == 0 ==> closestBeat.None? && minDiff == LONG_MAX
      invariant k >= 1 ==> closestBeat.Some? && minDiff == Abs(time - closestBeat.value.time)
      invariant k == 1 ==> closestBeat == Some(beatList[0])
      invariant k == 2 ==> closestBeat == Some(if strict then NearerOnset(time, beatList[0], beatList[1])
                                               else NearerOffset(time, beatList[0], beatList[1]))
    {
      var diff := Abs(time - beatList[k].time);
      if (strict && diff < minDiff) || (!strict && diff - 1 <= minDiff) {
        minDiff := diff;
        closestBeat := Some(beatList[k]);
      }
    }
    closest := closestBeat.value;
  }

  /** The beat `getOnsetBeat` returns. */
  function OnsetBeat(n: MidiNote, beats: seq<Beat>): (b: Beat)
    requires |beats| > 0 && beats[0].time <= n.onsetTime
  {
    var around := BeatsAround(n.onsetTime, beats, 0, |beats| - 1);
    NearerOnset(n.onsetTime, around[0], around[1])
  }

  /** The beat `getOffsetBeat` returns. */
  function OffsetBeat(n: MidiNote, beats: seq<Beat>): (b: Beat)
    requires |beats| > 0 && beats[0].time <= n.offsetTime
  {
    var around := BeatsAround(n.offsetTime, beats, 0, |beats| - 1);
    NearerOffset(n.offsetTime, around[0], around[1])
  }

  /** The onset beat is one of the beats, the nearer of the pair around the onset time. */
  lemma OnsetBeatSpec(n: MidiNote, beats: seq<Beat>)
    requires |beats| > 0 && beats[0].time <= n.onsetTime
    ensures OnsetBeat(n, beats) in beats
    ensures exists early, late :: AroundPair(beats, n.onsetTime, early, late)
                                  && OnsetBeat(n, beats) == NearerOnset(n.onsetTime, early, late)
  {
    BeatsAroundSpec(n.onsetTime, beats, 0, |beats| - 1);
  }

  lemma OffsetBeatSpec(n: MidiNote, beats: seq<Beat>)
    requires |beats| > 0 && beats[0].time <= n.offsetTime
    ensures OffsetBeat(n, beats) in beats
    ensures exists early, late :: AroundPair(beats, n.offsetTime, early, late)
                                  && OffsetBeat(n, beats) == NearerOffset(n.offsetTime, early, late)
  {
    BeatsAroundSpec(n.offsetTime, beats, 0, |beats| - 1);
  }

  /** The pair found around a time lies within the range of the beats' times. */
  lemma AroundInRange(time: int, beats: seq<Beat>)
    requires |beats| > 0 && beats[0].time <= time
    requires TimesInRange(time, beats)
    ensures TimesInRange(time, BeatsAround(time, beats, 0, |beats| - 1))
  {
    var around := BeatsAround(time, beats, 0, |beats| - 1);
    BeatsAroundInBeats(time, beats, 0, |beats| - 1);
    forall i | 0 <= i < |around|
      ensures 0 <= around[i].time < LONG_MAX
    {
      var j :| 0 <= j < |beats| && beats[j] == around[i];
    }
  }

  /** `getOnsetBeat`: the nearer of the beats around the onset time, the earlier on a tie. */
  method GetOnsetBeat(n: MidiNote, beats: seq<Beat>) returns (closest: Beat)
    requires |beats| > 0 && beats[0].time <= n.onsetTime
    requires TimesInRange(n.onsetTime, beats)
    ensures closest == OnsetBeat(n, beats)
  {
    var beatList := GetBeatsAroundTime(n.onsetTime, beats);
    AroundInRange(n.onsetTime, beats);
    closest := ClosestBeat(n.onsetTime, beatList, true);
  }

  /** `getOffsetBeat`: the later of the beats around the offset time unless it is more than
   *  one unit farther away. */
  method GetOffsetBeat(n: MidiNote, beats: seq<Beat>) returns (closest: Beat)
    requires |beats| > 0 && beats[0].time <= n.offsetTime
    requires TimesInRange(n.offsetTime, beats)
    ensures closest == OffsetBeat(n, beats)
  {
    var beatList := GetBeatsAroundTime(n.offsetTime, beats);
    AroundInRange(n.offsetTime, beats);
    closest := ClosestBeat(n.offsetTime, beatList, false);
  }
}
