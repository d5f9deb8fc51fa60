/**
 * A voice (src/metdetection/voice/Voice.java): an immutable chain of notes in which each node
 * knows only its most recent note and the voice it extends. Voices that split share their
 * common prefix. A chain is a value here; see `CompareTo` for why reference identity of the
 * shared prefixes does not change any result.
 */
module Voices {
  import opened JavaInt
  import opened MidiNotes

  datatype Voice = Voice(mostRecentNote: MidiNote, previous: Option<Voice>)

  /** A voice of one note. */
  function Single(note: MidiNote): (v: Voice)
    ensures Notes(v) == [note]
  {
    Voice(note, None)
  }

  /** `new Voice(note, prev)`: the voice `prev` followed by `note`. */
  function Extend(prev: Voice, note: MidiNote): (v: Voice)
    ensures Notes(v) == Notes(prev) + [note]
    ensures NumNotes(v) == NumNotes(prev) + 1
  {
    Voice(note, Some(prev))
  }

  /** `getNumNotes`: the length of the chain. */
  function NumNotes(v: Voice): (n: nat)
    ensures n >= 1
    decreases v
  {
    if v.previous.None? then 1 else 1 + NumNotes(v.previous.value)
  }

  /** `getNotes`: the notes of the chain, oldest first. */
  function Notes(v: Voice): (s: seq<MidiNote>)
    decreases v
  {
    (if v.previous.None? then [] else Notes(v.previous.value)) + [v.mostRecentNote]
  }

  /** The list `getNotes` builds ends with the most recent note and has `getNumNotes` entries. */
  lemma {:induction false} NotesShape(v: Voice)
    ensures |Notes(v)| == NumNotes(v) && Notes(v)[|Notes(v)| - 1] == v.mostRecentNote
    decreases v
  {
    if v.previous.Some? {
      NotesShape(v.previous.value);
    }
  }

  // ---------------------------------------------------------------------------
  // Correct notes

  /** How many notes of the chain carry each correct (gold-standard) voice. */
  function CorrectVoices(v: Voice): multiset<int>
    decreases v
  {
    multiset{v.mostRecentNote.correctVoice}
    + (if v.previous.None? then multiset{} else CorrectVoices(v.previous.value))
  }

  /** The correct voices of the part of the chain not yet visited. */
  function Remaining(node: Option<Voice>): multiset<int>
  {
    if node.None? then multiset{} else CorrectVoices(node.value)
  }

  function Length(node: Option<Voice>): nat
  {
    if node.None? then 0 else NumNotes(node.value)
  }

  /** No correct voice occurs more often than the chain has notes. */
  lemma {:induction false} CorrectVoicesBound(v: Voice, c: int)
    ensures CorrectVoices(v)[c] <= NumNotes(v)
    decreases v
  {
    if v.previous.Some? {
      CorrectVoicesBound(v.previous.value, c);
    }
  }

  /** `getNumNotesCorrect`: the largest number of notes of the chain sharing one correct voice,
   *  counted in a map from correct voice to count and then maximised over the map's values. */
  method NumNotesCorrect(v: Voice) returns (maxCount: int)
    ensures forall c :: CorrectVoices(v)[c] <= maxCount
    ensures exists c :: c in CorrectVoices(v) && CorrectVoices(v)[c] == maxCount
    ensures 1 <= maxCount <= NumNotes(v)
  {
    var counts, channels := CountCorrectVoices(v);
    assert v.mostRecentNote.correctVoice in counts;
    maxCount := MaxCount(counts, channels);
    var best :| best in counts && counts[best] == maxCount;
    CorrectVoicesBound(v, best);
  }

  /** `counts` maps each element of `seen` to its multiplicity, and nothing else; `channels`
   *  lists the keys of `counts` once each. */
  ghost predicate Tally(counts: map<int, int>, channels: seq<int>, seen: multiset<int>)
  {
    (forall c :: c in counts <==> c in seen) && (forall c :: c in counts ==> counts[c] == seen[c])
    && (forall c :: c in counts <==> c in channels)
    && (forall i, j :: 0 <= i < j < |channels| ==> channels[i] != channels[j])
  }

  /** The body of the counting loop: put 0 for a channel not yet seen, then add 1 to it. */
  method CountChannel(counts: map<int, int>, channels: seq<int>, ghost seen: multiset<int>, channel: int)
    returns (counts': map<int, int>, channels': seq<int>)
    requires Tally(counts, channels, seen)
    ensures Tally(counts', channels', seen + multiset{channel})
  {
    counts', channels' := counts, channels;
    if channel !in counts' {
      counts', channels' := counts'[channel := 0], channels' + [channel];
    }
    counts' := counts'[channel := counts'[channel] + 1];
  }

  /** The first loop of `getNumNotesCorrect`: a map from each correct voice of the chain to the
   *  number of its notes. `channels` lists the map's keys in the order they were first put,
   *  which stands for the map's own iteration order. */
  method CountCorrectVoices(v: Voice) returns (counts: map<int, int>, channels: seq<int>)
    ensures Tally(counts, channels, CorrectVoices(v))
  {
    counts, channels := map[], [];
    ghost var seen: multiset<int> := multiset{};
    var node := Some(v);
    while node.Some?
      invariant seen + Remaining(node) == CorrectVoices(v)
      invariant Tally(counts, channels, seen)
      decreases Length(node)
    {
      var channel := node.value.mostRecentNote.correctVoice;
      counts, channels := CountChannel(counts, channels, seen, channel);
      seen := seen + multiset{channel};
      node := node.value.previous;
    }
  }

  /** The second loop of `getNumNotesCorrect`: the largest of the map's values, starting from
   *  -1, visiting the keys in the order `channels` lists them. */
  method MaxCount(counts: map<int, int>, channels: seq<int>) returns (maxCount: int)
    requires forall i :: 0 <= i < |channels| ==> channels[i] in counts
    requires forall c :: c in counts ==> c in channels
    ensures forall c :: c in counts ==> counts[c] <= maxCount
    ensures maxCount == -1 || exists c :: c in counts && counts[c] == maxCount
  {
    maxCount := -1;
    ghost var best := 0;
    for i := 0 to |channels|
      invariant forall j :: 0 <= j < i ==> counts[channels[j]] <= maxCount
      invariant maxCount == -1 || (best in counts && counts[best] == maxCount)
    {
      if maxCount < counts[channels[i]] {
        maxCount, best := counts[channels[i]], channels[i];
      }
    }
  }

  // ---------------------------------------------------------------------------
  // Correct links

  /** `list.indexOf(note)`: the first position holding a note `equals` to `note`, or -1. */
  function IndexOf(list: seq<MidiNote>, note: MidiNote): (i: int)
    ensures -1 <= i < |list|
    ensures i >= 0 ==> MidiNotes.Equals(note, Some(list[i]))
    ensures i == -1 <==> forall j :: 0 <= j < |list| ==> !MidiNotes.Equals(note, Some(list[j]))
  {
    if |list| == 0 then -1
    else if MidiNotes.Equals(note, Some(list[0])) then 0
    else
      var j := IndexOf(list[1..], note);
      assert forall k :: 1 <= k < |list| ==> list[k] == list[1..][k - 1];
      if j == -1 then -1 else j + 1
  }

  /** The number of consecutive pairs of the chain whose notes share their correct voice. */
  function SameVoiceLinks(v: Voice): (n: nat)
    decreases v
  {
    if v.previous.None? then 0
    else
      SameVoiceLinks(v.previous.value)
      + (if v.mostRecentNote.correctVoice == v.previous.value.mostRecentNote.correctVoice then 1 else 0)
  }

  lemma {:induction false} SameVoiceLinksBound(v: Voice)
    ensures SameVoiceLinks(v) <= NumNotes(v) - 1
    decreases v
  {
    if v.previous.Some? {
      SameVoiceLinksBound(v.previous.value);
    }
  }

  /** Every note of the chain names a gold-standard voice that holds it. */
  predicate InGold(v: Voice, goldStandard: seq<seq<MidiNote>>)
    decreases v
  {
    var c := v.mostRecentNote.correctVoice;
    0 <= c < |goldStandard| && IndexOf(goldStandard[c], v.mostRecentNote) >= 0
    && (v.previous.Some? ==> InGold(v.previous.value, goldStandard))
  }

  /** `getNumLinksCorrect`: walk the chain newest first; each link whose two notes share a
   *  correct voice counts when the earlier note sits right before the later one in that
   *  gold-standard voice. The position of the current note is cached in `index` while links
   *  keep matching. `None` stands for the exception Java throws when a correct voice is not an
   *  index of the gold standard, or when a note is missing from its gold-standard voice (the
   *  `get(--index)` with `index == -1`). */
  method NumLinksCorrect(v: Voice, goldStandard: seq<seq<MidiNote>>) returns (r: Option<int>)
    ensures r.Some? ==> 0 <= r.value <= SameVoiceLinks(v) <= NumNotes(v) - 1
    ensures InGold(v, goldStandard) ==> r.Some?
  {
    SameVoiceLinksBound(v);
    var count := 0;
    var index := -1;
    var node := v;
    while node.previous.Some?
      invariant count + SameVoiceLinks(node) <= SameVoiceLinks(v)
      invariant 0 <= count
      invariant InGold(v, goldStandard) ==> InGold(node, goldStandard)
      invariant -1 <= index
      invariant index != -1 ==> 0 <= node.mostRecentNote.correctVoice < |goldStandard|
                                && index < |goldStandard[node.mostRecentNote.correctVoice]|
      decreases NumNotes(node)
    {
      var guessedPrev := node.previous.value.mostRecentNote;
      var note := node.mostRecentNote;
      if note.correctVoice == guessedPrev.correctVoice {
        var channel := note.correctVoice;
        if !(0 <= channel < |goldStandard|) {
          return None;
        }
        if index == -1 {
          index := IndexOf(goldStandard[channel], note);
        }
        if index != 0 {
          index := index - 1;
          if index < 0 {
            return None;
          }
          if MidiNotes.Equals(goldStandard[channel][index], Some(guessedPrev)) {
            count := count + 1;
          } else {
            index := -1;
          }
        } else {
          index := -1;
        }
      } else {
        index := -1;
      }
      node := node.previous.value;
    }
    r := Some(count);
  }

  // ---------------------------------------------------------------------------
  // Order

  /** `compareTo`: the most recent notes first, then the previous voices; `null` sorts last,
   *  a voice whose chain ends first sorts after a longer one, and identical previous voices
   *  give 0. Java tests reference identity there; two distinct but equal-valued chains reach
   *  the same 0 by recursing to their first notes, so value equality gives the same result. */
  function CompareTo(v: Voice, other: Option<Voice>): (c: int)
    ensures other.None? ==> c == -1
    decreases v
  {
    if other.None? then -1
    else
      var o := other.value;
      var result := MidiNotes.CompareTo(v.mostRecentNote, Some(o.mostRecentNote));
      if result != 0 then result
      else if v.previous == o.previous then 0
      else if v.previous.None? then 1
      else CompareTo(v.previous.value, o.previous)
  }

  /** The sort keys of the notes of a chain, oldest first. */
  function Keys(v: Voice): seq<seq<int>>
    decreases v
  {
    (if v.previous.None? then [] else Keys(v.previous.value)) + [SortKey(v.mostRecentNote)]
  }

  lemma {:induction false} KeysLength(v: Voice)
    ensures |Keys(v)| == NumNotes(v)
    decreases v
  {
    if v.previous.Some? {
      KeysLength(v.previous.value);
    }
  }

  /** `compareTo` is 0 exactly when the two chains have the same length and their notes
   *  compare equal position by position. */
  lemma {:induction false} CompareToZeroIff(a: Voice, b: Voice)
    ensures CompareTo(a, Some(b)) == 0 <==> Keys(a) == Keys(b)
    decreases a
  {
    KeysLength(a);
    KeysLength(b);
    var ka, kb := Keys(a), Keys(b);
    assert ka[|ka| - 1] == SortKey(a.mostRecentNote) && kb[|kb| - 1] == SortKey(b.mostRecentNote);
    if SortKey(a.mostRecentNote) == SortKey(b.mostRecentNote) {
      match (a.previous, b.previous)
      case (None, None) =>
      case (None, Some(pb)) =>
        KeysLength(pb);
      case (Some(pa), None) =>
        KeysLength(pa);
      case (Some(pa), Some(pb)) =>
        CompareToZeroIff(pa, pb);
        assert ka[..|ka| - 1] == Keys(pa) && kb[..|kb| - 1] == Keys(pb);
    }
  }

  /** A voice compares equal to itself. */
  lemma CompareToReflexive(v: Voice)
    ensures CompareTo(v, Some(v)) == 0
  {
    CompareToZeroIff(v, v);
  }

  /** `equals`: another voice that `compareTo` calls 0. */
  predicate Equals(v: Voice, other: Option<Voice>)
  {
    other.Some? && CompareTo(v, other) == 0
  }
}
