/**
 * The voice-splitting state that reads the gold-standard voices from the input file
 * (src/metdetection/voice/fromfile/FromFileVoiceSplittingModelState.java). Its voices are fixed
 * when it is built; only the time cursor moves, and `GetVoices` shows each voice as it stood at
 * that time.
 */
module FromFileVoices {
  import opened JavaInt
  import opened MidiNotes
  import opened Voices

  // ---------------------------------------------------------------------------
  // Building the chains

  /** The chain built by `new Voice(notes[0])` followed by `new Voice(notes[i], previous)`. */
  function Chain(notes: seq<MidiNote>): (v: Voice)
    requires |notes| >= 1
    decreases |notes|
  {
    if |notes| == 1 then Single(notes[0]) else Extend(Chain(notes[..|notes| - 1]), notes[|notes| - 1])
  }

  /** A chain lists exactly the notes it was built from, in the same order. */
  lemma {:induction false} ChainNotes(notes: seq<MidiNote>)
    requires |notes| >= 1
    ensures Notes(Chain(notes)) == notes
    decreases |notes|
  {
    if |notes| > 1 {
      ChainNotes(notes[..|notes| - 1]);
      assert notes[..|notes| - 1] + [notes[|notes| - 1]] == notes;
    }
  }

  /** The gold-standard voices that have at least one note, in their original order. */
  function NonEmpty(gold: seq<seq<MidiNote>>): (r: seq<seq<MidiNote>>)
    ensures forall k :: 0 <= k < |r| ==> |r[k]| >= 1
    ensures |r| <= |gold|
  {
    if |gold| == 0 then []
    else if |gold[|gold| - 1]| == 0 then NonEmpty(gold[..|gold| - 1])
    else NonEmpty(gold[..|gold| - 1]) + [gold[|gold| - 1]]
  }

  /** One chain per list of notes. */
  function Chains(lists: seq<seq<MidiNote>>): (r: seq<Voice>)
    requires forall k :: 0 <= k < |lists| ==> |lists[k]| >= 1
    ensures |r| == |lists|
  {
    if |lists| == 0 then [] else Chains(lists[..|lists| - 1]) + [Chain(lists[|lists| - 1])]
  }

  /** The k-th chain holds the notes of the k-th list. */
  lemma {:induction false} ChainsNotes(lists: seq<seq<MidiNote>>, k: int)
    requires forall k :: 0 <= k < |lists| ==> |lists[k]| >= 1
    requires 0 <= k < |lists|
    ensures Notes(Chains(lists)[k]) == lists[k]
    decreases |lists|
  {
    if k == |lists| - 1 {
      ChainNotes(lists[k]);
    } else {
      ChainsNotes(lists[..|lists| - 1], k);
    }
  }

  /** Every note of every gold-standard voice has its offset set. */
  predicate AllOffsetsSet(gold: seq<seq<MidiNote>>)
  {
    forall i, j :: 0 <= i < |gold| && 0 <= j < |gold[i]| ==> gold[i][j].offsetTime != 0
  }

  /** The inner loop of the constructor: chain one non-empty voice, failing on a note without offset. */
  method BuildChain(notes: seq<MidiNote>) returns (r: Option<Voice>)
    requires |notes| >= 1
    ensures r.Some? <==> forall j :: 0 <= j < |notes| ==> notes[j].offsetTime != 0
    ensures r.Some? ==> r.value == Chain(notes)
  {
    var v := Single(notes[0]);
    if notes[0].offsetTime == 0 {
      return None;
    }
    var i := 1;
    while i < |notes|
      invariant 1 <= i <= |notes|
      invariant v == Chain(notes[..i])
      invariant forall j :: 0 <= j < i ==> notes[j].offsetTime != 0
    {
      assert notes[..i + 1][..i] == notes[..i];
      v := Extend(v, notes[i]);
      if notes[i].offsetTime == 0 {
        return None;
      }
      i := i + 1;
    }
    assert notes[..i] == notes;
    return Some(v);
  }

  /**
   * The constructor's loop: one chain per non-empty gold-standard voice, in order; `None` stands
   * for the exception raised when some note has no offset.
   */
  method BuildVoices(gold: seq<seq<MidiNote>>) returns (r: Option<seq<Voice>>)
    ensures r.Some? <==> AllOffsetsSet(gold)
    ensures r.Some? ==> r.value == Chains(NonEmpty(gold))
  {
    var voices: seq<Voice> := [];
    var i := 0;
    while i < |gold|
      invariant 0 <= i <= |gold|
      invariant AllOffsetsSet(gold[..i])
      invariant voices == Chains(NonEmpty(gold[..i]))
    {
      var ok;
      ok, voices := BuildOne(gold, i, voices);
      if !ok {
        return None;
      }
      i := i + 1;
    }
    assert gold[..i] == gold;
    return Some(voices);
  }

  /** One turn of the constructor's loop: chain voice `i` if it has notes. */
  method BuildOne(gold: seq<seq<MidiNote>>, i: nat, voices: seq<Voice>) returns (ok: bool, next: seq<Voice>)
    requires i < |gold| && AllOffsetsSet(gold[..i]) && voices == Chains(NonEmpty(gold[..i]))
    ensures !ok ==> !AllOffsetsSet(gold)
    ensures ok ==> AllOffsetsSet(gold[..i + 1]) && next == Chains(NonEmpty(gold[..i + 1]))
  {
    var chain := None;
    if |gold[i]| > 0 {
      chain := BuildChain(gold[i]);
      if chain.None? {
        NoOffsetFails(gold, i);
        return false, voices;
      }
    }
    BuildStep(gold, i, chain);
    next := voices + if chain.Some? then [chain.value] else [];
    ok := true;
  }

  /** A voice with a note lacking its offset makes the whole construction fail. */
  lemma NoOffsetFails(gold: seq<seq<MidiNote>>, i: int)
    requires 0 <= i < |gold|
    requires !forall j :: 0 <= j < |gold[i]| ==> gold[i][j].offsetTime != 0
    ensures !AllOffsetsSet(gold)
  {
    var j :| 0 <= j < |gold[i]| && gold[i][j].offsetTime == 0;
    assert gold[i][j].offsetTime == 0;
  }

  /** One turn of the constructor's loop, for the chain `BuildChain` returned for voice `i`. */
  lemma BuildStep(gold: seq<seq<MidiNote>>, i: int, chain: Option<Voice>)
    requires 0 <= i < |gold| && AllOffsetsSet(gold[..i])
    requires |gold[i]| == 0 ==> chain.None?
    requires |gold[i]| > 0 ==>
      (chain.Some? && chain.value == Chain(gold[i])
       && forall j :: 0 <= j < |gold[i]| ==> gold[i][j].offsetTime != 0)
    ensures AllOffsetsSet(gold[..i + 1])
    ensures Chains(NonEmpty(gold[..i + 1])) ==
      Chains(NonEmpty(gold[..i])) + (if chain.Some? then [chain.value] else [])
  {
    var g := gold[..i + 1];
    assert g[..i] == gold[..i] && g[i] == gold[i];
    if |gold[i]| > 0 {
      var l := NonEmpty(gold[..i]) + [gold[i]];
      assert l[..|l| - 1] == NonEmpty(gold[..i]);
    }
  }

  // ---------------------------------------------------------------------------
  // Truncation to the current time

  /** The latest node of `v` whose note starts no later than `time`, if there is one. */
  function Truncate(v: Voice, time: int): Option<Voice>
    decreases v
  {
    if v.mostRecentNote.onsetTime <= time then Some(v)
    else if v.previous.None? then None
    else Truncate(v.previous.value, time)
  }

  /**
   * Truncation keeps a prefix of the chain that ends at or before `time` and drops exactly the
   * notes that start after it; with no such prefix every note starts after `time`.
   */
  lemma {:induction false} TruncateIsLatestPrefix(v: Voice, time: int)
    ensures Truncate(v, time).Some? ==>
      var u := Truncate(v, time).value;
      u.mostRecentNote.onsetTime <= time && Notes(u) <= Notes(v)
      && forall j :: |Notes(u)| <= j < |Notes(v)| ==> Notes(v)[j].onsetTime > time
    ensures Truncate(v, time).None? ==>
      forall j :: 0 <= j < |Notes(v)| ==> Notes(v)[j].onsetTime > time
    decreases v
  {
    if v.mostRecentNote.onsetTime > time && v.previous.Some? {
      var p := v.previous.value;
      TruncateIsLatestPrefix(p, time);
      assert Notes(v) == Notes(p) + [v.mostRecentNote];
    }
  }

  /** The walk back along one chain in `getVoices`. */
  method TruncateVoice(v: Voice, time: int) returns (r: Option<Voice>)
    ensures r == Truncate(v, time)
  {
    var node := Some(v);
    while node.Some? && node.value.mostRecentNote.onsetTime > time
      invariant node.Some? ==> Truncate(node.value, time) == Truncate(v, time)
      invariant node.None? ==> Truncate(v, time).None?
      decreases Length(node)
    {
      node := node.value.previous;
    }
    r := node;
  }

  /** The voices as they stood at `time`: each truncated, those left without notes dropped. */
  function CurrentVoices(voices: seq<Voice>, time: int): (r: seq<Voice>)
    ensures |r| <= |voices|
  {
    if |voices| == 0 then []
    else
      var rest := CurrentVoices(voices[..|voices| - 1], time);
      var last := Truncate(voices[|voices| - 1], time);
      if last.Some? then rest + [last.value] else rest
  }

  /** Every current voice is a truncation of one of the stored voices and ends by `time`. */
  lemma {:induction false} CurrentVoicesSound(voices: seq<Voice>, time: int, k: int)
    requires 0 <= k < |CurrentVoices(voices, time)|
    ensures exists i :: 0 <= i < |voices| && Truncate(voices[i], time) == Some(CurrentVoices(voices, time)[k])
    ensures CurrentVoices(voices, time)[k].mostRecentNote.onsetTime <= time
    decreases |voices|
  {
    var n := |voices| - 1;
    var rest := CurrentVoices(voices[..n], time);
    if k < |rest| {
      CurrentVoicesSound(voices[..n], time, k);
      var i :| 0 <= i < n && Truncate(voices[..n][i], time) == Some(rest[k]);
      assert voices[..n][i] == voices[i];
    } else {
      assert Truncate(voices[n], time) == Some(CurrentVoices(voices, time)[k]);
      TruncateIsLatestPrefix(voices[n], time);
    }
  }

  // ---------------------------------------------------------------------------
  // Ordering

  /** The voice-by-voice loop of `compareTo`: the first non-zero voice comparison, else 0. */
  function CompareVoiceLists(a: seq<Voice>, b: seq<Voice>): int
    requires |a| == |b|
  {
    if |a| == 0 then 0
    else
      var c := Voices.CompareTo(a[0], Some(b[0]));
      if c != 0 then c else CompareVoiceLists(a[1..], b[1..])
  }

  /** Two voice lists compare as 0 exactly when their voices pairwise have the same keys. */
  lemma {:induction false} CompareVoiceListsZero(a: seq<Voice>, b: seq<Voice>)
    requires |a| == |b|
    ensures CompareVoiceLists(a, b) == 0 <==> forall i :: 0 <= i < |a| ==> Keys(a[i]) == Keys(b[i])
  {
    if |a| > 0 {
      CompareToZeroIff(a[0], b[0]);
      CompareVoiceListsZero(a[1..], b[1..]);
      if CompareVoiceLists(a, b) == 0 {
        forall i | 0 <= i < |a| ensures Keys(a[i]) == Keys(b[i]) {
          if i > 0 { assert a[i] == a[1..][i - 1] && b[i] == b[1..][i - 1]; }
        }
      }
      if forall i :: 0 <= i < |a| ==> Keys(a[i]) == Keys(b[i]) {
        forall i | 0 <= i < |a| - 1 ensures Keys(a[1..][i]) == Keys(b[1..][i]) {
          assert a[1..][i] == a[i + 1] && b[1..][i] == b[i + 1];
        }
      }
    }
  }

  class VoiceSplittingFromFile {
    /** One chain per non-empty gold-standard voice. */
    var voices: seq<Voice>
    /** The onset time of the notes most recently handed in. */
    var mostRecentTime: int

    /** The state after the constructor's loop has built `voices`. */
    constructor Init(voices: seq<Voice>)
      ensures this.voices == voices && mostRecentTime == 0
    {
      this.voices := voices;
      mostRecentTime := 0;
    }

    /**
     * The public constructor: `null` stands for the exception raised when a gold-standard note
     * has no offset.
     */
    static method FromGoldStandard(gold: seq<seq<MidiNote>>) returns (s: VoiceSplittingFromFile?)
      ensures s == null <==> !AllOffsetsSet(gold)
      ensures s != null ==> fresh(s) && s.mostRecentTime == 0 && s.voices == Chains(NonEmpty(gold))
    {
      var built := BuildVoices(gold);
      if built.None? {
        return null;
      }
      s := new VoiceSplittingFromFile.Init(built.value);
    }

    /** `getVoices`: each voice truncated to `mostRecentTime`, empty ones dropped, order kept. */
    method GetVoices() returns (current: seq<Voice>)
      ensures current == CurrentVoices(voices, mostRecentTime)
    {
      current := [];
      var i := 0;
      while i < |voices|
        invariant 0 <= i <= |voices|
        invariant current == CurrentVoices(voices[..i], mostRecentTime)
      {
        assert voices[..i + 1][..i] == voices[..i];
        var v := TruncateVoice(voices[i], mostRecentTime);
        if v.Some? {
          current := current + [v.value];
        }
        i := i + 1;
      }
      assert voices[..i] == voices;
    }

    /** `handleIncoming`: move the cursor to the first incoming note's onset; the result is `{this}`. */
    method HandleIncoming(notes: seq<MidiNote>) returns (states: seq<VoiceSplittingFromFile>)
      requires |notes| > 0
      modifies this
      ensures mostRecentTime == notes[0].onsetTime && voices == old(voices)
      ensures states == [this]
    {
      mostRecentTime := notes[0].onsetTime;
      states := [this];
    }

    /** `close`: move the cursor one tick on; the result is `{this}`. */
    method Close() returns (states: seq<VoiceSplittingFromFile>)
      modifies this
      ensures mostRecentTime == old(mostRecentTime) + 1 && voices == old(voices)
      ensures states == [this]
    {
      mostRecentTime := mostRecentTime + 1;
      states := [this];
    }

    /** `getScore`: a file-driven state is never scored. */
    function Score(): real
    {
      0.0
    }

    /**
     * `compareTo`: `null` sorts last; then by time, by number of voices, and voice by voice.
     * The result is 0 exactly when the times and voice counts agree and every pair of voices has
     * the same keys.
     */
    method CompareTo(o: VoiceSplittingFromFile?) returns (c: int)
      ensures o == null ==> c == -1
      ensures o != null ==>
        c == (if mostRecentTime != o.mostRecentTime then IntCompare(mostRecentTime, o.mostRecentTime)
              else if |voices| != |o.voices| then |voices| - |o.voices|
              else CompareVoiceLists(voices, o.voices))
      ensures c == 0 <==>
        (o != null && mostRecentTime == o.mostRecentTime && |voices| == |o.voices|
         && forall i :: 0 <= i < |voices| ==> Keys(voices[i]) == Keys(o.voices[i]))
    {
      if o == null {
        return -1;
      }
      c := IntCompare(mostRecentTime, o.mostRecentTime);
      if c != 0 {
        return c;
      }
      c := |voices| - |o.voices|;
      if c != 0 {
        return c;
      }
      CompareVoiceListsZero(voices, o.voices);
      var i := 0;
      while i < |voices|
        invariant 0 <= i <= |voices|
        invariant CompareVoiceLists(voices, o.voices) == CompareVoiceLists(voices[i..], o.voices[i..])
      {
        c := Voices.CompareTo(voices[i], Some(o.voices[i]));
        if c != 0 {
          return c;
        }
        assert voices[i..][1..] == voices[i + 1..] && o.voices[i..][1..] == o.voices[i + 1..];
        i := i + 1;
      }
      return 0;
    }
  }
}
