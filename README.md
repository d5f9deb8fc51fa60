# Metrical structure detection: a verified model

This project models the core of a metrical-structure detector for symbolic music. A song is a stream of notes with onset and offset times and a grid of beats at tatum resolution. The detector works out three things:
- the meter: beats per measure and sub-beats per beat;
- the length of a sub-beat in tatums;
- the length of the anacrusis (pick-up), counted in sub-beats.

It has two halves:

- **The rhythm grammar** is a lexicalised probabilistic grammar over measure, beat and sub-beat trees.
  - A measure of one voice becomes a tree whose leaves are terminals. A terminal is a run-length-reduced pattern of onsets, ties and rests.
  - Every node carries a head: the length and offset of its most salient note.
  - A probability tracker holds three count tables: transitions, heads and measure heads. Each has a level-only back-off key.
  - The grammar keeps a set of trees and a tracker whose counts are always the sum of its trees' contributions.
- **The incremental hypothesis search** is a joint search over voice, beat and metrical states.
  - A metrical state first branches over every measure the grammar knows and every anacrusis.
  - It then checks sub-beat, beat and measure matches for each note.
  - Once a measure is fixed, it parses each completed measure of every voice into a tree and scores the tree against the grammar.
  - The joint model keeps the cross product of the three kinds of state, each wired to the one below it.

An evaluation module scores a guess against the correct meter. It reports true and false positives on the sub-beat, beat and measure levels, plus an F1 score.

The model is written in Dafny.
- Immutable objects become datatypes.
- Objects whose fields change become classes with `modifies` frames.
- Loops become methods with invariants, proved against specification functions.
- Java's truncating `/` and `%`, `Integer.compare` and `Double.compare`, and 32-bit hash wrap-around are written out in `java_int.dfy`.

## Model

| member | source | states |
|---|---|---|
| `MathUtils.GcfDividesBoth` | src/metdetection/utils/MathUtils.java:58-64 | for non-negative inputs, `getGCF(a, b)` divides both `a` and `b` |
| `MathUtils.GcfGreatest` | src/metdetection/utils/MathUtils.java:58-64 | for non-negative inputs, every positive common divisor of `a` and `b` divides `getGCF(a, b)` |
| `MathUtils.GcfPositive` | src/metdetection/utils/MathUtils.java:58-64 | for non-negative inputs that are not both zero, the factor is positive |
| `MathUtils.GcfNonNegative` | src/metdetection/utils/MathUtils.java:58-64 | for non-negative inputs, the factor is never negative |
| `MathUtils.GcfZero` | src/metdetection/utils/MathUtils.java:58-64 | `getGCF(a, 0) == a` for every `a`, and `getGCF(0, b) == b` for non-negative `b` |
| `MathUtils.GcfSymmetric` | src/metdetection/utils/MathUtils.java:58-64 | on non-negative inputs, the factor does not depend on the argument order |
| `MathUtils.GcfOne` | src/metdetection/utils/MathUtils.java:58-64 | the factor of 1 and any non-negative number is 1 |
| `MathUtils.GetMaxIndex` | src/metdetection/utils/MathUtils.java:37-49 | -1 exactly for an empty array; otherwise an index whose value is at least every element and strictly greater than every earlier one, so the first maximum |
| `Beats.DefaultBeat` | src/metdetection/beat/Beat.java:34-36 | the no-argument beat has measure, beat, time and tick all 0 |
| `Beats.ShallowCopy` | src/metdetection/beat/Beat.java:59-61 | the copy and the original are `equals` to each other, both ways |
| `Beats.EqualsIsIdentity` | src/metdetection/beat/Beat.java:111-119 | `equals` holds exactly when the other object is a beat with all four fields the same |
| `Beats.HashCode` | src/metdetection/beat/Beat.java:122-124 | the hash `beat * 50 + measure`, taken with 32-bit wrap-around, is a Java `int` |
| `Beats.EqualsHashCode` | src/metdetection/beat/Beat.java:111-124 | equal beats have equal hash codes |
| `Beats.CompareTo` | src/metdetection/beat/Beat.java:127-138 | `null` gives -1; otherwise 0 iff measure and beat agree, and negative iff (measure, beat) is lexicographically smaller; time and tick are ignored |
| `Beats.CompareToAntisymmetric` | src/metdetection/beat/Beat.java:127-138 | swapping the operands negates the result |
| `Beats.CompareZeroWithoutEquals` | src/metdetection/beat/Beat.java:111-138 | two beats that differ only in time compare as 0 but are not `equals` |
| `MidiNotes.NewNote` | src/metdetection/utils/MidiNote.java:73-82 | the constructor keeps the given key, velocity, onset and voices, sets both offsets to 0 and gives an active note |
| `MidiNotes.Close` | src/metdetection/utils/MidiNote.java:101-123 | closing sets exactly the two offsets and keeps onset, pitch, velocity and both voices; the note is then active iff the new offset time is 0 |
| `MidiNotes.DurationTime` | src/metdetection/utils/MidiNote.java:186-188 | onset time plus duration is the offset time |
| `MidiNotes.OverlapsSymmetric` | src/metdetection/utils/MidiNote.java:132-143 | `overlaps` is symmetric |
| `MidiNotes.OverlapsIffSharedTick` | src/metdetection/utils/MidiNote.java:132-143 | for two non-empty notes, `overlaps` holds iff some tick sounds in both |
| `MidiNotes.CompareTo` | src/metdetection/utils/MidiNote.java:316-347 | `null` gives 1; the result is -1, 0 or 1, and 0 iff onset tick, offset tick, pitch, velocity, correct voice and guessed voice all agree |
| `MidiNotes.CompareToLexicographic` | src/metdetection/utils/MidiNote.java:316-347 | the result is negative iff the six compared fields are lexicographically smaller |
| `MidiNotes.CompareToAntisymmetric` | src/metdetection/utils/MidiNote.java:316-347 | swapping the operands negates the result |
| `MidiNotes.EqualsIgnoresTimes` | src/metdetection/utils/MidiNote.java:307-347 | `equals` (via `compareTo == 0`) ignores the onset and offset times |
| `MidiNotes.GetNoteName` | src/metdetection/utils/MidiNote.java:356-360 | Java throws (`None`) exactly for a negative pitch not divisible by 12, where the remainder indexes below the array; otherwise the name is a letter and an octave |
| `MidiNotes.MiddleC` | src/metdetection/utils/MidiNote.java:356-360 | pitch 60 is named "C4" |
| `MidiNotes.NoteNameParts` | src/metdetection/utils/MidiNote.java:356-360 | the name is the entry at Java's `pitch % 12` followed by the decimal `pitch / 12 - 1` |
| `MidiNotes.NoteNameInjective` | src/metdetection/utils/MidiNote.java:356-360 | distinct pitches get distinct names |
| `MidiNotes.BeatsAroundSpec` | src/metdetection/utils/MidiNote.java:278-299 | the binary search returns beats `(b[i-1], b[i])` with `b[i-1].time <= t < b[i].time`, or the last beat twice; on time-sorted beats the last beat twice iff the last beat is at or before `t` |
| `MidiNotes.BeatsAroundInBeats` | src/metdetection/utils/MidiNote.java:278-299 | both returned beats come from the list |
| `MidiNotes.GetBeatsAroundTime` | src/metdetection/utils/MidiNote.java:278-299 | the `while` loop computes the recursive binary search `BeatsAround` over the whole list |
| `MidiNotes.NearerOnset` | src/metdetection/utils/MidiNote.java:244-259 | one of the two beats, no farther from the time than either, and the earlier one on a tie |
| `MidiNotes.NearerOffset` | src/metdetection/utils/MidiNote.java:261-276 | the later beat exactly when it is at most one time unit farther than the earlier one |
| `MidiNotes.ClosestBeat` | src/metdetection/utils/MidiNote.java:247-258 | the scan over the two-beat list with a strict (`<`) or a loose (`diff - 1 <=`) test picks `NearerOnset` or `NearerOffset` |
| `MidiNotes.OnsetBeatSpec` | src/metdetection/utils/MidiNote.java:244-259 | the onset beat is a beat of the list and the nearer (earlier on a tie) of the pair around the onset |
| `MidiNotes.OffsetBeatSpec` | src/metdetection/utils/MidiNote.java:261-276 | the offset beat is a beat of the list, chosen by the loose test from the pair around the offset |
| `MidiNotes.GetOnsetBeat` | src/metdetection/utils/MidiNote.java:244-259 | the method returns the onset beat the functions define |
| `MidiNotes.GetOffsetBeat` | src/metdetection/utils/MidiNote.java:261-276 | the method returns the offset beat the functions define |
| `Voices.Single` | src/metdetection/voice/Voice.java:47-49 | a one-note voice lists exactly that note |
| `Voices.Extend` | src/metdetection/voice/Voice.java:37-40 | a voice built on `previous` lists the previous notes followed by the new one, and is one note longer |
| `Voices.NumNotes` | src/metdetection/voice/Voice.java:120-126 | a chain has at least one note |
| `Voices.NotesShape` | src/metdetection/voice/Voice.java:120-139 | `getNotes` has `getNumNotes` elements, oldest first, and ends with the most recent note |
| `Voices.CorrectVoicesBound` | src/metdetection/voice/Voice.java:56-74 | no correct-voice channel occurs more often than the chain has notes |
| `Voices.CountChannel` | src/metdetection/voice/Voice.java:60-65 | one turn of the counting loop adds one to the count of that note's channel, creating it at 0 first |
| `Voices.CountCorrectVoices` | src/metdetection/voice/Voice.java:57-66 | the counting loop ends with the multiplicity of every channel in the chain |
| `Voices.MaxCount` | src/metdetection/voice/Voice.java:68-71 | the maximum over the map's values, or -1 for an empty map |
| `Voices.NumNotesCorrect` | src/metdetection/voice/Voice.java:56-74 | the largest multiplicity of a correct voice in the chain, between 1 and `getNumNotes` |
| `Voices.IndexOf` | src/metdetection/voice/Voice.java:96 | `List.indexOf`: the first position of an `equals` note, -1 iff there is none |
| `Voices.SameVoiceLinksBound` | src/metdetection/voice/Voice.java:83-113 | consecutive same-channel pairs are fewer than the notes |
| `Voices.NumLinksCorrect` | src/metdetection/voice/Voice.java:83-113 | the count never exceeds the same-channel links, so at most `getNumNotes - 1`; it fails (`None`, Java throws) only when a note or its channel is missing from the gold standard |
| `Voices.CompareTo` | src/metdetection/voice/Voice.java:174-193 | `null` gives -1 |
| `Voices.KeysLength` | src/metdetection/voice/Voice.java:120-126 | a chain has one sort key per note |
| `Voices.CompareToZeroIff` | src/metdetection/voice/Voice.java:165-193 | `compareTo` (and so `equals`) is 0 exactly when the two chains have the same length and their notes compare equal position by position |
| `Voices.CompareToReflexive` | src/metdetection/voice/Voice.java:165-193 | a voice equals itself |
| `Terminals.IncrementLast` | src/metdetection/meter/lpcfg/MetricalLpcfgTerminal.java:262-268 | the list keeps its length and all elements but the last, which grows by one |
| `Terminals.GcfScanAgrees` | src/metdetection/meter/lpcfg/MetricalLpcfgTerminal.java:196-255 | before quantum `i`, the loop of `getGCF` holds the constituent lengths of the first `i` quanta, the factor of all but the last, and whether the last is a rest |
| `Terminals.GcfScanOne` | src/metdetection/meter/lpcfg/MetricalLpcfgTerminal.java:207-209 | the early return is sound: once the running factor is 1, the factor of the whole pattern is 1 |
| `Terminals.GetGcf` | src/metdetection/meter/lpcfg/MetricalLpcfgTerminal.java:196-255 | `getGCF` returns the greatest common factor of the pattern's constituent lengths, which is at least 1 |
| `Terminals.ReduceScanAgrees` | src/metdetection/meter/lpcfg/MetricalLpcfgTerminal.java:85-187 | before quantum `i`, the loop of `generateReducedPattern` holds the open constituent and has written the reduction of the closed ones |
| `Terminals.FillReducedPattern` | src/metdetection/meter/lpcfg/MetricalLpcfgTerminal.java:99-186 | the loop writes every constituent, its length divided by the factor, led by the pattern's first symbol and then by ONSETs |
| `Terminals.GenerateReducedPattern` | src/metdetection/meter/lpcfg/MetricalLpcfgTerminal.java:85-187 | a fresh array holding the reduced form of the pattern |
| `Terminals.SegmentEndAt` | src/metdetection/meter/lpcfg/MetricalLpcfgTerminal.java:291-326 | a head segment ends at the first later quantum that is not a TIE |
| `Terminals.LongestNoteUnique` | src/metdetection/meter/lpcfg/MetricalLpcfgTerminal.java:291-326 | the longest note (first one on ties) is determined by the pattern |
| `Terminals.LongestNoteOfRests` | src/metdetection/meter/lpcfg/MetricalLpcfgTerminal.java:291-326 | an all-REST pattern holds no note: length 0 at index 0 |
| `Terminals.GetHead` | src/metdetection/meter/lpcfg/MetricalLpcfgTerminal.java:291-326 | `None` (Java's exception) exactly for an empty original pattern; otherwise the head of the longest ONSET/TIE run, the earliest on ties, scaled by `baseLength`, flagged when it starts with a TIE |
| `Terminals.NewTerminalShape` | src/metdetection/meter/lpcfg/MetricalLpcfgTerminal.java:63-67 | the constructor keeps the original pattern and base length; an empty pattern has an empty reduction, any other a reduction of length `|pattern| / gcf` with the same first symbol |
| `Terminals.MakeTerminal` | src/metdetection/meter/lpcfg/MetricalLpcfgTerminal.java:63-67 | the constructor, run on an array, builds the terminal the function describes |
| `Terminals.DefaultTerminal` | src/metdetection/meter/lpcfg/MetricalLpcfgTerminal.java:41-43 | the default terminal is a single REST with base length 1 |
| `Terminals.EqualsTerminalOfReduced` | src/metdetection/meter/lpcfg/MetricalLpcfgTerminal.java:367-374 | the terminal of an already reduced pattern equals the original terminal, whatever its base length |
| `Terminals.EqualsIffSameReduction` | src/metdetection/meter/lpcfg/MetricalLpcfgTerminal.java:367-374 | `equals` holds iff the reduced patterns are the same; the original pattern and base length play no part |
| `Terminals.PatternHash` | src/metdetection/meter/lpcfg/MetricalLpcfgTerminal.java:377-379 | `Arrays.hashCode` of the reduced pattern is a Java `int` |
| `Terminals.EqualsHashCode` | src/metdetection/meter/lpcfg/MetricalLpcfgTerminal.java:367-379 | equal terminals have equal hash codes |
| `Terminals.IsEmptyIffRests` | src/metdetection/meter/lpcfg/MetricalLpcfgTerminal.java:276-278 | `isEmpty` holds iff the pattern is non-empty and all RESTs |
| `Terminals.StartsWithRestIff` | src/metdetection/meter/lpcfg/MetricalLpcfgTerminal.java:281-283 | `startsWithRest` holds iff the pattern is empty or starts with a REST |
| `Terminals.CompareTo` | src/metdetection/meter/lpcfg/MetricalLpcfgTerminal.java:403-414 | `null` gives 1; otherwise the difference of the reduced lengths when they differ, and 0 iff the lengths and hash codes agree |
| `Terminals.CompareToAntisymmetric` | src/metdetection/meter/lpcfg/MetricalLpcfgTerminal.java:403-414 | swapping the operands flips the sign, and equal terminals compare as 0 |
| `QuantumRuns.RunsToShape` | src/metdetection/meter/lpcfg/MetricalLpcfgTerminal.java:204-244 | reading a pattern gives well-formed constituents covering it, which start with a rest iff the pattern does; a TIE after a REST starts a new note |
| `QuantumRuns.GcfAllPositive` | src/metdetection/meter/lpcfg/MetricalLpcfgTerminal.java:196-255 | the factor of positive lengths is positive |
| `QuantumRuns.GcfAllDivides` | src/metdetection/meter/lpcfg/MetricalLpcfgTerminal.java:196-255 | the factor of the lengths divides each of them |
| `QuantumRuns.GcfAllGreatest` | src/metdetection/meter/lpcfg/MetricalLpcfgTerminal.java:196-255 | every positive common divisor of the lengths divides their factor |
| `QuantumRuns.GcfAllOneExtends` | src/metdetection/meter/lpcfg/MetricalLpcfgTerminal.java:207-209 | once the running factor is 1 it stays 1 for any longer list |
| `QuantumRuns.GcfAllStep` | src/metdetection/meter/lpcfg/MetricalLpcfgTerminal.java:219-253 | folding one more length into the running factor is one call of `MathUtils.getGCF` |
| `QuantumRuns.RunsOfEmit` | src/metdetection/meter/lpcfg/MetricalLpcfgTerminal.java:85-187 | reading back the emitted pattern gives the constituents with each length divided, and the first symbol kept |
| `QuantumRuns.ReducedRuns` | src/metdetection/meter/lpcfg/MetricalLpcfgTerminal.java:85-187 | reduction keeps the order and kind of the constituents, divides every length by the pattern's factor, keeps the first symbol (so a leading TIE stays a TIE), and shrinks the length by that factor |
| `QuantumRuns.ReducedLength` | src/metdetection/meter/lpcfg/MetricalLpcfgTerminal.java:63-67 | an empty pattern reduces to the empty pattern; any other to `|pattern| / gcf` symbols |
| `QuantumRuns.DividedGcfOne` | src/metdetection/meter/lpcfg/MetricalLpcfgTerminal.java:85-187 | dividing the constituent lengths by their factor leaves lengths whose factor is 1 |
| `QuantumRuns.ReducedGcfOne` | src/metdetection/meter/lpcfg/MetricalLpcfgTerminal.java:85-255 | a reduced pattern is fully reduced: its factor is 1 |
| `QuantumRuns.ReducedIdempotent` | src/metdetection/meter/lpcfg/MetricalLpcfgTerminal.java:85-255 | reducing a reduced pattern returns it unchanged |
| `QuantumRuns.ReducedOfRests` | src/metdetection/meter/lpcfg/MetricalLpcfgTerminal.java:41-44 | every non-empty all-REST pattern reduces to the single REST of the default terminal |
| `QuantumRuns.SingleRestReduced` | src/metdetection/meter/lpcfg/MetricalLpcfgTerminal.java:276-278 | only a non-empty all-REST pattern reduces to a single REST |
| `TreeFactory.Rests` | src/metdetection/meter/lpcfg/MetricalLpcfgTreeFactory.java:42-43 | a measure array starts as that many RESTs |
| `TreeFactory.Put` | src/metdetection/meter/lpcfg/MetricalLpcfgTreeFactory.java:101-106 | `addQuantum` as a value: an ONSET slot is never overwritten, any other slot takes the new symbol, and no other slot changes |
| `TreeFactory.AddQuantum` | src/metdetection/meter/lpcfg/MetricalLpcfgTreeFactory.java:101-106 | the method changes the array exactly as `Put` says |
| `TreeFactory.FirstIndexOf` | src/metdetection/meter/lpcfg/MetricalLpcfgTreeFactory.java:71-74 | the search loop stops at the first beat equal to the onset beat |
| `TreeFactory.IndexOfBeat` | src/metdetection/meter/lpcfg/MetricalLpcfgTreeFactory.java:71-74 | the loop returns that first index |
| `TreeFactory.TieEnd` | src/metdetection/meter/lpcfg/MetricalLpcfgTreeFactory.java:82-89 | the tie loop stops at the first of: the window end, the end of the beats, or the offset beat, and no beat it passes is the offset beat |
| `TreeFactory.OnsetIndex` | src/metdetection/meter/lpcfg/MetricalLpcfgTreeFactory.java:67-74 | the onset index is a position of the beats holding the note's onset beat |
| `TreeFactory.PaintNoteSlot` | src/metdetection/meter/lpcfg/MetricalLpcfgTreeFactory.java:66-90 | after `addNote`, a slot that held no ONSET and is not the onset slot is a TIE iff the note holds over it or it was a TIE, and a REST iff neither |
| `TreeFactory.PaintNoteOnset` | src/metdetection/meter/lpcfg/MetricalLpcfgTreeFactory.java:77-79 | `addNote` leaves an ONSET at its onset slot and keeps every ONSET already there |
| `TreeFactory.AddTies` | src/metdetection/meter/lpcfg/MetricalLpcfgTreeFactory.java:82-89 | the tie loop writes TIEs (never over an ONSET) in the window from the slot after the onset to `TieEnd` |
| `TreeFactory.AddNote` | src/metdetection/meter/lpcfg/MetricalLpcfgTreeFactory.java:66-90 | the method paints the note's onset and ties into the window as `PaintNote` says |
| `TreeFactory.AddNotes` | src/metdetection/meter/lpcfg/MetricalLpcfgTreeFactory.java:48-50 | painting the notes one after another gives `PaintNotes` |
| `TreeFactory.OnsetsKept` | src/metdetection/meter/lpcfg/MetricalLpcfgTreeFactory.java:48-50 | an ONSET already in the array survives painting every later note |
| `TreeFactory.OnsetsMarked` | src/metdetection/meter/lpcfg/MetricalLpcfgTreeFactory.java:48-50 | after painting, every note whose onset index lies in the window has an ONSET there |
| `TreeFactory.MeasureQuantums` | src/metdetection/meter/lpcfg/MetricalLpcfgTreeFactory.java:39-50 | the measure array has `subBeatLength * beatsPerMeasure * subBeatsPerBeat` slots |
| `TreeFactory.EmptyMeasure` | src/metdetection/meter/lpcfg/MetricalLpcfgTreeFactory.java:42-50 | with no notes the measure array is all RESTs |
| `TreeFactory.PaintMeasure` | src/metdetection/meter/lpcfg/MetricalLpcfgTreeFactory.java:35-50 | a fresh all-REST array of the measure's length, painted over the window `[len * measureNum + subBeatLength * anacrusis, that + len)` |
| `TreeFactory.FixChildrenTypes` | src/metdetection/meter/lpcfg/MetricalLpcfgTreeFactory.java:132 | fixing the children's types keeps their number, order, level and grandchildren, and leaves terminals untouched |
| `TreeFactory.MeasureTreeShape` | src/metdetection/meter/lpcfg/MetricalLpcfgTreeFactory.java:117-135 | the tree has the given measure and a MEASURE root with exactly `beatsPerMeasure` BEAT children, the `k`th built from the `k`th equal slice |
| `TreeFactory.BeatNodeShape` | src/metdetection/meter/lpcfg/MetricalLpcfgTreeFactory.java:144-169 | a beat whose terminal (base length `subBeatsPerBeat`) reduces to one symbol has that terminal as its one child; otherwise it has `subBeatsPerBeat` SUB_BEAT children, each holding the terminal of its slice |
| `TreeFactory.PartsConcat` | src/metdetection/meter/lpcfg/MetricalLpcfgTreeFactory.java:120-126 | when the length divides evenly, the slices concatenate back to the parent array |
| `TreeFactory.CopyOfRange` | src/metdetection/meter/lpcfg/MetricalLpcfgTreeFactory.java:125 | `Arrays.copyOfRange` gives a fresh array holding exactly that slice |
| `TreeFactory.MakeSubBeatNonterminal` | src/metdetection/meter/lpcfg/MetricalLpcfgTreeFactory.java:177-183 | a SUB_BEAT node with the one terminal of its array |
| `TreeFactory.MakeSubBeatNonterminals` | src/metdetection/meter/lpcfg/MetricalLpcfgTreeFactory.java:154-167 | the sub-beat loop builds the node of each slice in order |
| `TreeFactory.MakeBeatNonterminal` | src/metdetection/meter/lpcfg/MetricalLpcfgTreeFactory.java:144-169 | the method builds the beat node `BeatNode` describes |
| `TreeFactory.MakeTreeOfQuantums` | src/metdetection/meter/lpcfg/MetricalLpcfgTreeFactory.java:117-135 | the method builds the measure tree `MeasureTree` describes |
| `TreeFactory.MakeTree` | src/metdetection/meter/lpcfg/MetricalLpcfgTreeFactory.java:35-53 | `makeTree` on notes is the measure tree of the painted measure array |
| `CountTables.Count` | src/metdetection/meter/lpcfg/MetricalLpcfgProbabilityTracker.java:170-173 | a missing conditioning key or event reads as count 0; a non-zero count is the stored one |
| `CountTables.Bumped` | src/metdetection/meter/lpcfg/MetricalLpcfgProbabilityTracker.java:101-115 | adding one occurrence creates the sub-table if needed, raises that one count by 1 and leaves every other count and table in place |
| `CountTables.BumpedCount` | src/metdetection/meter/lpcfg/MetricalLpcfgProbabilityTracker.java:108-115 | after an add, exactly the added (key, event) count is one higher |
| `CountTables.BumpedPositive` | src/metdetection/meter/lpcfg/MetricalLpcfgProbabilityTracker.java:108-115 | adding keeps the tables free of zero counts |
| `CountTables.Dropped` | src/metdetection/meter/lpcfg/MetricalLpcfgProbabilityTracker.java:141-153 | removing one occurrence lowers that count by 1, deleting the event at 0 and the sub-table once empty; other sub-tables are untouched |
| `CountTables.DroppedCount` | src/metdetection/meter/lpcfg/MetricalLpcfgProbabilityTracker.java:141-153 | after a removal, exactly the removed (key, event) count is one lower |
| `CountTables.DroppedPositive` | src/metdetection/meter/lpcfg/MetricalLpcfgProbabilityTracker.java:141-153 | removing keeps the tables free of zero counts and empty sub-tables |
| `CountTables.DroppedBumped` | src/metdetection/meter/lpcfg/MetricalLpcfgProbabilityTracker.java:98-154 | a removal undoes an add exactly, empty sub-tables included |
| `CountTables.PositiveExtensional` | src/metdetection/meter/lpcfg/MetricalLpcfgProbabilityTracker.java:141-153 | two zero-free tables with the same counts everywhere are equal, so pruning makes the table a function of its counts |
| `CountTables.BumpedDroppedCommute` | src/metdetection/meter/lpcfg/MetricalLpcfgProbabilityTracker.java:98-154 | an add and a removal of a present event commute |
| `CountTables.RemoveOneTier` | src/metdetection/meter/lpcfg/MetricalLpcfgProbabilityTracker.java:126-154 | removing a measure head succeeds exactly when the measure and head length are present, and a failure leaves the table unchanged |
| `CountTables.RemoveOneTierAfterAdd` | src/metdetection/meter/lpcfg/MetricalLpcfgProbabilityTracker.java:98-154 | removing a measure head just added succeeds and restores the table |
| `CountTables.AddOne` | src/metdetection/meter/lpcfg/MetricalLpcfgProbabilityTracker.java:98-116 | the step-by-step map update of `addMeasureHead` computes `Bumped` |
| `CountTables.RemoveOne` | src/metdetection/meter/lpcfg/MetricalLpcfgProbabilityTracker.java:126-154 | the step-by-step update of `removeMeasureHead` computes `RemoveOneTier`, including the not-found outcomes |
| `CountTables.Decremented` | src/metdetection/meter/lpcfg/MetricalLpcfgProbabilityTracker.java:141-153 | the decrement-or-delete step and the removal of an emptied sub-table compute `Dropped` |
| `CountTables.AddTwoTier` | src/metdetection/meter/lpcfg/MetricalLpcfgProbabilityTracker.java:191-227 | an add with back-off creates both sub-tables and raises the event's count under the key and under the back-off key by one each (by one in all when the keys coincide) |
| `CountTables.AddTwoTierCount` | src/metdetection/meter/lpcfg/MetricalLpcfgProbabilityTracker.java:191-227 | with distinct keys every count changes by the number of those keys it sits under |
| `CountTables.AddTwoTierKeeps` | src/metdetection/meter/lpcfg/MetricalLpcfgProbabilityTracker.java:191-227 | an add never lowers any count |
| `CountTables.AddTwoTierPositive` | src/metdetection/meter/lpcfg/MetricalLpcfgProbabilityTracker.java:191-227 | an add with back-off keeps the tables zero-free |
| `CountTables.AddBoth` | src/metdetection/meter/lpcfg/MetricalLpcfgProbabilityTracker.java:191-227 | the in-order map writes of `addTransition`/`addHead` (create both sub-tables, read both counts, then write both) compute `AddTwoTier` |
| `CountTables.AddTwoTierWritten` | src/metdetection/meter/lpcfg/MetricalLpcfgProbabilityTracker.java:210-226 | writing the two counts read before either write yields `AddTwoTier`, whether or not the keys coincide |
| `CountTables.WrittenShared` | src/metdetection/meter/lpcfg/MetricalLpcfgProbabilityTracker.java:210-226 | with equal keys the second write overwrites the first, so only one occurrence is added |
| `CountTables.WrittenApart` | src/metdetection/meter/lpcfg/MetricalLpcfgProbabilityTracker.java:210-226 | with distinct keys the two writes are two independent adds |
| `CountTables.RemoveTwoTier` | src/metdetection/meter/lpcfg/MetricalLpcfgProbabilityTracker.java:240-296 | a missing key, back-off key or primary event fails with no change; otherwise the primary count is dropped first, and a missing back-off event then fails after that change |
| `CountTables.RemoveBoth` | src/metdetection/meter/lpcfg/MetricalLpcfgProbabilityTracker.java:240-296 | the step-by-step update of `removeTransition`/`removeHead` computes `RemoveTwoTier` |
| `CountTables.RemoveTwoTierPositive` | src/metdetection/meter/lpcfg/MetricalLpcfgProbabilityTracker.java:240-296 | a removal, successful or not, keeps the tables zero-free |
| `CountTables.RemoveTwoTierPresent` | src/metdetection/meter/lpcfg/MetricalLpcfgProbabilityTracker.java:240-296 | with distinct keys and both counts present the removal succeeds and lowers exactly those two counts by one |
| `CountTables.RemoveAfterAdd` | src/metdetection/meter/lpcfg/MetricalLpcfgProbabilityTracker.java:191-296 | with distinct keys, removing what was just added succeeds and restores the tables exactly |
| `CountTables.TwoTierCommute` | src/metdetection/meter/lpcfg/MetricalLpcfgProbabilityTracker.java:191-296 | a successful removal commutes with any add |
| `CountTables.SharedKeyRemoveAfterAdd` | src/metdetection/meter/lpcfg/MetricalLpcfgProbabilityTracker.java:210-296 | when key and back-off key coincide, an add stores one occurrence and removing it again fails at the back-off step |
| `CountTables.RemoveThrowsAfterUpdate` | src/metdetection/meter/lpcfg/MetricalLpcfgProbabilityTracker.java:263-281 | a missing back-off event is reported only after the primary count has already been lowered |
| `CountTables.TwoTierLogProbability` | src/metdetection/meter/lpcfg/MetricalLpcfgProbabilityTracker.java:308-345 | 0.0 when neither table exists; the primary smoothed log probability when its count is non-zero; the back-off term is added only when the primary count is 0 |
| `CountTables.OneTierLogProbability` | src/metdetection/meter/lpcfg/MetricalLpcfgProbabilityTracker.java:163-179 | 0.0 for an unseen measure, otherwise the smoothed log probability of the head length's count (0 if unseen) |
| `ProbabilityTrackers.Encode` | src/metdetection/meter/lpcfg/MetricalLpcfgProbabilityTracker.java:545-553 | the primary key carries the measure, the type string and the head length |
| `ProbabilityTrackers.BackoffPrefix` | src/metdetection/meter/lpcfg/MetricalLpcfgProbabilityTracker.java:565-583 | the back-off measure key is "SSB" at the sub-beat level, sub-beats per beat then "SB" at the beat level, beats per measure then "B" at the measure level |
| `ProbabilityTrackers.BackoffShapesDiffer` | src/metdetection/meter/lpcfg/MetricalLpcfgProbabilityTracker.java:565-583 | keys of the three levels never collide, whatever the numbers |
| `ProbabilityTrackers.BackoffPrefixInjective` | src/metdetection/meter/lpcfg/MetricalLpcfgProbabilityTracker.java:565-583 | two back-off keys are equal exactly when the level and the number that level writes are equal |
| `ProbabilityTrackers.EncodeBackoff` | src/metdetection/meter/lpcfg/MetricalLpcfgProbabilityTracker.java:565-602 | the back-off key keeps type string and head length, replaces the measure by its level prefix, and differs from every primary key |
| `ProbabilityTrackers.AddEvent` | src/metdetection/meter/lpcfg/MetricalLpcfgProbabilityTracker.java:98-466 | an add touches only the table of its event kind |
| `ProbabilityTrackers.RemoveEvent` | src/metdetection/meter/lpcfg/MetricalLpcfgProbabilityTracker.java:98-466 | a removal touches only the table of its event kind |
| `ProbabilityTrackers.AddEventPositive` | src/metdetection/meter/lpcfg/MetricalLpcfgProbabilityTracker.java:98-466 | adds keep all three tables zero-free |
| `ProbabilityTrackers.RemoveEventPositive` | src/metdetection/meter/lpcfg/MetricalLpcfgProbabilityTracker.java:98-466 | removals, successful or not, keep all three tables zero-free |
| `ProbabilityTrackers.RemoveEventAfterAdd` | src/metdetection/meter/lpcfg/MetricalLpcfgProbabilityTracker.java:98-466 | removing the event just added succeeds and restores all three tables, since primary and back-off keys never coincide |
| `ProbabilityTrackers.AddKeepsRemovable` | src/metdetection/meter/lpcfg/MetricalLpcfgProbabilityTracker.java:98-466 | an event that can be removed stays removable after any add |
| `ProbabilityTrackers.RemoveAddCommute` | src/metdetection/meter/lpcfg/MetricalLpcfgProbabilityTracker.java:98-466 | a removable event's removal commutes with any add |
| `ProbabilityTrackers.ProbabilityTracker.constructor` | src/metdetection/meter/lpcfg/MetricalLpcfgProbabilityTracker.java:43-49 | a new tracker has three empty tables |
| `ProbabilityTrackers.ProbabilityTracker.Copy` | src/metdetection/meter/lpcfg/MetricalLpcfgProbabilityTracker.java:56-89 | the copy constructor reproduces every count |
| `ProbabilityTrackers.ProbabilityTracker.DeepCopy` | src/metdetection/meter/lpcfg/MetricalLpcfgProbabilityTracker.java:527-529 | a fresh tracker with the same tables |
| `ProbabilityTrackers.ProbabilityTracker.AddMeasureHead` | src/metdetection/meter/lpcfg/MetricalLpcfgProbabilityTracker.java:98-116 | the tables become `AddEvent` of a measure-head event |
| `ProbabilityTrackers.ProbabilityTracker.RemoveMeasureHead` | src/metdetection/meter/lpcfg/MetricalLpcfgProbabilityTracker.java:126-154 | tables and success flag are `RemoveEvent` of a measure-head event; `ok == false` stands for the not-found exception |
| `ProbabilityTrackers.ProbabilityTracker.AddTransition` | src/metdetection/meter/lpcfg/MetricalLpcfgProbabilityTracker.java:191-227 | the tables become `AddEvent` of a transition event |
| `ProbabilityTrackers.ProbabilityTracker.RemoveTransition` | src/metdetection/meter/lpcfg/MetricalLpcfgProbabilityTracker.java:240-296 | tables and success flag are `RemoveEvent` of a transition event |
| `ProbabilityTrackers.ProbabilityTracker.AddHead` | src/metdetection/meter/lpcfg/MetricalLpcfgProbabilityTracker.java:360-397 | the tables become `AddEvent` of a head event keyed by the parent head |
| `ProbabilityTrackers.ProbabilityTracker.RemoveHead` | src/metdetection/meter/lpcfg/MetricalLpcfgProbabilityTracker.java:410-466 | tables and success flag are `RemoveEvent` of a head event |
| `ProbabilityTrackers.ProbabilityTracker.MeasureHeadProbability` | src/metdetection/meter/lpcfg/MetricalLpcfgProbabilityTracker.java:163-179 | 0.0 for an unseen measure, otherwise the smoothed log probability of the head length's count |
| `ProbabilityTrackers.ProbabilityTracker.TransitionProbability` | src/metdetection/meter/lpcfg/MetricalLpcfgProbabilityTracker.java:308-345 | 0.0 with no table; the primary term when its count is non-zero; primary plus back-off term when the primary count is 0 |
| `ProbabilityTrackers.ProbabilityTracker.HeadProbability` | src/metdetection/meter/lpcfg/MetricalLpcfgProbabilityTracker.java:479-517 | the same two-tier rule for head lengths given the parent head |
| `Lpcfgs.OwnEvents` | src/metdetection/meter/lpcfg/MetricalLpcfg.java:181-216 | a nonterminal first counts its transition, then its head under the parent head when its type is weak, or else the measure head when it is the measure root, and nothing more |
| `Lpcfgs.OneTransitionPerNonterminal` | src/metdetection/meter/lpcfg/MetricalLpcfg.java:171-223 | the update of a subtree counts exactly one transition per nonterminal in it |
| `Lpcfgs.ChildrenTransitions` | src/metdetection/meter/lpcfg/MetricalLpcfg.java:218-221 | the children loop counts one transition per nonterminal among the children's subtrees |
| `Lpcfgs.TransitionsConcat` | src/metdetection/meter/lpcfg/MetricalLpcfg.java:218-221 | the number of transitions of consecutive updates adds up |
| `Lpcfgs.AddEventsConcat` | src/metdetection/meter/lpcfg/MetricalLpcfg.java:218-221 | adding two event lists in turn is adding their concatenation |
| `Lpcfgs.RemoveEventsConcat` | src/metdetection/meter/lpcfg/MetricalLpcfg.java:185-221 | removing a concatenation removes the first list, stops at its first failure, then removes the second |
| `Lpcfgs.AddEventsPositive` | src/metdetection/meter/lpcfg/MetricalLpcfg.java:171-223 | adding a tree's counts keeps the tables zero-free |
| `Lpcfgs.RemovePastAdds` | src/metdetection/meter/lpcfg/MetricalLpcfg.java:171-223 | an event that can be removed now can still be removed after any further adds, with the same effect |
| `Lpcfgs.RemoveEventsAfterAdd` | src/metdetection/meter/lpcfg/MetricalLpcfg.java:171-223 | removing the counts of a tree just added succeeds and restores all tables |
| `Lpcfgs.AddedIsRemovable` | src/metdetection/meter/lpcfg/MetricalLpcfgProbabilityTracker.java:191-296 | an event just added can be removed |
| `Lpcfgs.SumConcat` | src/metdetection/meter/lpcfg/MetricalLpcfg.java:110-112 | log-probability terms of consecutive event lists add up |
| `Lpcfgs.NodeLogProbabilityIsSum` | src/metdetection/meter/lpcfg/MetricalLpcfg.java:84-116 | a node's log probability is the sum of the terms of exactly the events its counting update makes, so probabilities and counts read the same table entries |
| `Lpcfgs.ChildrenLogProbabilityIsSum` | src/metdetection/meter/lpcfg/MetricalLpcfg.java:110-112 | the same for the children loop |
| `Lpcfgs.ChildrenEventsFront` | src/metdetection/meter/lpcfg/MetricalLpcfg.java:219-221 | the children loop visits the first child before the rest |
| `Lpcfgs.FirstIndex` | src/metdetection/meter/lpcfg/MetricalLpcfg.java:126-141 | the position of the first equal tree, or -1 exactly when there is none |
| `Lpcfgs.WithoutFirst` | src/metdetection/meter/lpcfg/MetricalLpcfg.java:126-130 | the iterator removal takes away exactly one copy of the tree |
| `Lpcfgs.ExtractAfterAdd` | src/metdetection/meter/lpcfg/MetricalLpcfg.java:125-160 | extracting a tree just added leaves the same multiset of trees |
| `Lpcfgs.AddThenExtract` | src/metdetection/meter/lpcfg/MetricalLpcfg.java:125-160 | extracting a tree just added finds it, gives back the trees and restores every count |
| `Lpcfgs.Grammar.constructor` | src/metdetection/meter/lpcfg/MetricalLpcfg.java:47-50 | a new grammar has no trees and empty tables |
| `Lpcfgs.Grammar.Copy` | src/metdetection/meter/lpcfg/MetricalLpcfg.java:57-64 | the copy has the same trees and a fresh tracker with the same counts |
| `Lpcfgs.Grammar.DeepCopy` | src/metdetection/meter/lpcfg/MetricalLpcfg.java:263-265 | a fresh grammar and tracker with the same trees and counts |
| `Lpcfgs.Grammar.AddTree` | src/metdetection/meter/lpcfg/MetricalLpcfg.java:151-160 | the tree is appended and the tables receive all its events |
| `Lpcfgs.Grammar.ExtractTree` | src/metdetection/meter/lpcfg/MetricalLpcfg.java:125-144 | an absent tree fails with nothing changed; a present one loses its first copy and its events are removed, failing at the first count not found |
| `Lpcfgs.Grammar.GetMeasureList` | src/metdetection/meter/lpcfg/MetricalLpcfg.java:230-238 | each measure of a stored tree exactly once, and nothing else |
| `Lpcfgs.Grammar.TreeProbability` | src/metdetection/meter/lpcfg/MetricalLpcfg.java:72-74 | a tree's log probability is the sum of the terms of the events adding it would count |
| `Lpcfgs.AddCounts` | src/metdetection/meter/lpcfg/MetricalLpcfg.java:171-223 | the recursive update with `adding` true adds exactly the subtree's events, in order |
| `Lpcfgs.AddOwnCounts` | src/metdetection/meter/lpcfg/MetricalLpcfg.java:181-216 | the node's own adds are `OwnEvents` |
| `Lpcfgs.AddChildrenCounts` | src/metdetection/meter/lpcfg/MetricalLpcfg.java:218-221 | the children loop adds the children's events in order |
| `Lpcfgs.RemoveCounts` | src/metdetection/meter/lpcfg/MetricalLpcfg.java:171-223 | the recursive update with `adding` false removes the subtree's events in order, stopping at the first not found |
| `Lpcfgs.RemoveOwnCounts` | src/metdetection/meter/lpcfg/MetricalLpcfg.java:181-216 | the node's own removals are `OwnEvents`, stopping at the first failure |
| `Lpcfgs.RemoveChildrenCounts` | src/metdetection/meter/lpcfg/MetricalLpcfg.java:218-221 | the children loop removes the children's events in order, stopping at the first failure |
| `MetricalMatches.AddMatch` | src/metdetection/meter/lpcfg/MetricalLpcfgMetricalModelState.java:868-881 | exactly the counter of the given kind goes up by one, so that kind is then matched (WRONG once it reaches the limit) |
| `MetricalMatches.AddOptional` | src/metdetection/meter/lpcfg/MetricalLpcfgMetricalModelState.java:738-841 | a branch that adds no match leaves the counters unchanged; one that does adds exactly one |
| `MetricalMatches.NoLessKeepsMatches` | src/metdetection/meter/lpcfg/MetricalLpcfgMetricalModelState.java:850-902 | counters only grow, so being wrong, fully matched or matched at a level is never lost |
| `MetricalMatches.NoLessTransitive` | src/metdetection/meter/lpcfg/MetricalLpcfgMetricalModelState.java:868-881 | growth of the counters composes over several updates |
| `MetricalMatches.BeatLength` | src/metdetection/meter/lpcfg/MetricalLpcfgMetricalModelState.java:653 | a beat is at least one sub-beat of tacti, and positive |
| `MetricalMatches.MeasureTacti` | src/metdetection/meter/lpcfg/MetricalLpcfgMetricalModelState.java:731-732 | a measure is at least one beat of tacti |
| `MetricalMatches.TactusFromFirstBeat` | src/metdetection/meter/lpcfg/MetricalLpcfgMetricalModelState.java:614-624 | the first beat normalizes to tactus 0, a measure later adds one measure of tacti, and with 0 tacti per measure nothing is corrected |
| `MetricalMatches.PartialBeatShift` | src/metdetection/meter/lpcfg/MetricalLpcfgMetricalModelState.java:682-686 | the shift is 0 exactly when the anacrusis is a whole number of beats, otherwise it completes the anacrusis' partial beat to one beat |
| `MetricalMatches.Classify` | src/metdetection/meter/lpcfg/MetricalLpcfgMetricalModelState.java:730-842 | the decision table stated by outcome: when a span is a SUB_BEAT match, when a BEAT match and when WRONG, for each combination of levels already matched |
| `MetricalMatches.SubBeatAlignedNeverWrong` | src/metdetection/meter/lpcfg/MetricalLpcfgMetricalModelState.java:730-842 | a sub-beat-long span on the sub-beat grid is never WRONG |
| `MetricalMatches.BeatAlignedNeverWrong` | src/metdetection/meter/lpcfg/MetricalLpcfgMetricalModelState.java:730-842 | a beat-long span on the beat grid is never WRONG |
| `MetricalMatches.MeasureAlignedNeverWrong` | src/metdetection/meter/lpcfg/MetricalLpcfgMetricalModelState.java:730-842 | a measure-long span on the measure grid is never WRONG |
| `MetricalMatches.GridAlignedNeverWrong` | src/metdetection/meter/lpcfg/MetricalLpcfgMetricalModelState.java:730-842 | any span exactly one grid unit long and on that grid is never WRONG, whatever has been matched |
| `MetricalMatches.Split` | src/metdetection/meter/lpcfg/MetricalLpcfgMetricalModelState.java:645-705 | prefix, middle and postfix always tile the note; a note crossing no matched grid is left whole |
| `MetricalMatches.CutOnGrid` | src/metdetection/meter/lpcfg/MetricalLpcfgMetricalModelState.java:659-676 | on non-negative tacti the cut gives a prefix and a postfix shorter than a unit and a middle of whole units starting on the grid |
| `MetricalMatches.SplitOnGrid` | src/metdetection/meter/lpcfg/MetricalLpcfgMetricalModelState.java:645-705 | after the anacrusis, a note that is cut at all is cut on the grid of the level it was cut at |
| `MetricalMatches.SplitOnSubBeats` | src/metdetection/meter/lpcfg/MetricalLpcfgMetricalModelState.java:656-676 | the sub-beat case of the above |
| `MetricalMatches.SplitOnBeats` | src/metdetection/meter/lpcfg/MetricalLpcfgMetricalModelState.java:678-705 | the beat case of the above, the partial-beat shift included |
| `MetricalMatches.ShiftedRemainder` | src/metdetection/meter/lpcfg/MetricalLpcfgMetricalModelState.java:682-688 | adding whole units does not change a non-negative Java remainder |
| `MetricalMatches.SplitInAnacrusis` | src/metdetection/meter/lpcfg/MetricalLpcfgMetricalModelState.java:678-705 | inside the anacrusis, where tacti are negative, the truncating remainder produces a prefix longer than a beat |
| `MatchUpdates.CheckSegment` | src/metdetection/meter/lpcfg/MetricalLpcfgMetricalModelState.java:707-720 | checking one segment adds at most one match, and an empty segment adds none |
| `MatchUpdates.NoteMatch` | src/metdetection/meter/lpcfg/MetricalLpcfgMetricalModelState.java:631-721 | checking a finished note only adds matches, at most one per segment |
| `MatchUpdates.NoteMatchUnsplit` | src/metdetection/meter/lpcfg/MetricalLpcfgMetricalModelState.java:631-721 | before any level is matched the note is checked whole, as one span of its normalized tacti |
| `MatchUpdates.DrainChecks` | src/metdetection/meter/lpcfg/MetricalLpcfgMetricalModelState.java:443-447 | the note loop only adds matches and consumes a prefix of the queue; it stops once the hypothesis is decided or the next note ends after the last beat, and does nothing to a decided hypothesis |
| `MatchUpdates.DrainedNotesEnded` | src/metdetection/meter/lpcfg/MetricalLpcfgMetricalModelState.java:445-446 | every note it consumed had ended by the last beat |
| `MatchUpdates.ConglomerateVoices` | src/metdetection/meter/lpcfg/MetricalLpcfgMetricalModelState.java:434-441 | the voice loop can add only one BEAT match and no other kind; once it does, the beat queues are cleared; it is skipped when the hypothesis is wrong or already beat-matched; `None` stands for notes that crash the Java code |
| `MatchUpdates.UpdateMatches` | src/metdetection/meter/lpcfg/MetricalLpcfgMetricalModelState.java:432-448 | the whole update only adds matches, consumes a prefix of the note queue, keeps all notes fitting the beats, leaves a decided hypothesis or a note ending after the last beat at the head of the queue, and changes nothing in a decided hypothesis |
| `NoteTracks.NewNotes` | src/metdetection/meter/lpcfg/MetricalLpcfgMetricalModelState.java:396-407 | the collected new notes are never more than the voice's notes |
| `NoteTracks.NewNotesMembers` | src/metdetection/meter/lpcfg/MetricalLpcfgMetricalModelState.java:394-407 | a note is collected exactly when it is one of the voice's notes and one of the incoming notes; when all are incoming, all are collected in order |
| `NoteTracks.CollectNewNotes` | src/metdetection/meter/lpcfg/MetricalLpcfgMetricalModelState.java:396-407 | the loop over the voice's notes computes the new notes and whether the whole voice is new |
| `NoteTracks.CollectStep` | src/metdetection/meter/lpcfg/MetricalLpcfgMetricalModelState.java:399-407 | one more voice note is appended when incoming, and clears the new-voice flag when not |
| `NoteTracks.Insert` | src/metdetection/meter/lpcfg/MetricalLpcfgMetricalModelState.java:410-414 | `List.add(index, x)`: `x` at the index, the elements before kept, the elements after shifted by one |
| `NoteTracks.NewNotesFit` | src/metdetection/meter/lpcfg/MetricalLpcfgMetricalModelState.java:396-407 | collected notes fit the beats when the voice's notes do |
| `NoteTracks.AppendFits` | src/metdetection/meter/lpcfg/MetricalLpcfgMetricalModelState.java:418-421 | appending fitting notes keeps a list fitting |
| `NoteTracks.AddVoiceFits` | src/metdetection/meter/lpcfg/MetricalLpcfgMetricalModelState.java:390-424 | filing one voice keeps every list fitting the beats and one begun flag per unfinished list |
| `NoteTracks.AddVoicesFits` | src/metdetection/meter/lpcfg/MetricalLpcfgMetricalModelState.java:389-426 | the whole of `addNewVoices` keeps those invariants |
| `NoteTracks.LastIndexOf` | src/metdetection/meter/lpcfg/MetricalLpcfgMetricalModelState.java:375 | `List.lastIndexOf`: the last index holding the beat, or -1 exactly when it is absent |
| `NoteTracks.Unfinished` | src/metdetection/meter/lpcfg/MetricalLpcfgMetricalModelState.java:373-381 | dropping finished notes never lengthens a list |
| `NoteTracks.UnfinishedMembers` | src/metdetection/meter/lpcfg/MetricalLpcfgMetricalModelState.java:374-380 | what is kept comes from the list, and a note is kept exactly when it is not finished |
| `NoteTracks.UnfinishedFits` | src/metdetection/meter/lpcfg/MetricalLpcfgMetricalModelState.java:373-381 | the kept notes still fit the beats |
| `NoteTracks.UnfinishedPastLastBeat` | src/metdetection/meter/lpcfg/MetricalLpcfgMetricalModelState.java:377-378 | once the next measure index is past the last beat every note is finished |
| `NoteTracks.RemainingNotes` | src/metdetection/meter/lpcfg/MetricalLpcfgMetricalModelState.java:370-382 | each voice's list is filtered on its own, and the number of voices is kept |
| `NoteTracks.RemoveFinished` | src/metdetection/meter/lpcfg/MetricalLpcfgMetricalModelState.java:374-380 | the index loop with `remove(i--)` computes `Unfinished` |
| `NoteTracks.ScannedStep` | src/metdetection/meter/lpcfg/MetricalLpcfgMetricalModelState.java:374-380 | one pass of the loop either removes the note at `i` and stays, or keeps it and moves on, preserving the scan invariant |
| `NoteTracks.ScannedDone` | src/metdetection/meter/lpcfg/MetricalLpcfgMetricalModelState.java:374 | when the index reaches the end, the list is `Unfinished` |
| `NoteTracks.KeptSoFar` | src/metdetection/meter/lpcfg/MetricalLpcfgMetricalModelState.java:374-380 | after all notes are visited the kept prefix is `Unfinished` |
| `NoteTracks.KeptSoFarStep` | src/metdetection/meter/lpcfg/MetricalLpcfgMetricalModelState.java:377-378 | visiting one more note keeps it exactly when it is not finished |
| `ParseSteps.MakeVoiceTree` | src/metdetection/meter/lpcfg/MetricalLpcfgMetricalModelState.java:329-331 | the factory's tree of one voice's unfinished notes for the current measure |
| `ParseSteps.VoiceTrees` | src/metdetection/meter/lpcfg/MetricalLpcfgMetricalModelState.java:328-331 | one tree per voice |
| `ParseSteps.VoiceTreesStep` | src/metdetection/meter/lpcfg/MetricalLpcfgMetricalModelState.java:328-331 | the trees are built in voice order |
| `ParseSteps.MakeVoiceTrees` | src/metdetection/meter/lpcfg/MetricalLpcfgMetricalModelState.java:328-331 | the voice loop builds exactly `VoiceTrees` |
| `ParseSteps.ScoredTrees` | src/metdetection/meter/lpcfg/MetricalLpcfgMetricalModelState.java:333-344 | a subset of the step's trees, in voice order |
| `ParseSteps.ScoredTreesMembers` | src/metdetection/meter/lpcfg/MetricalLpcfgMetricalModelState.java:333-344 | a tree is scored exactly when it is non-empty and either its voice had begun or it does not start with a rest |
| `ParseSteps.ScoredTreesStep` | src/metdetection/meter/lpcfg/MetricalLpcfgMetricalModelState.java:333-344 | one more voice adds its tree exactly when it is scored |
| `ParseSteps.BegunAfter` | src/metdetection/meter/lpcfg/MetricalLpcfgMetricalModelState.java:333-335 | after the step a voice has begun exactly when it had before or its tree is non-empty, even when that tree is skipped for starting with a rest |
| `ParseSteps.VoiceStepScored` | src/metdetection/meter/lpcfg/MetricalLpcfgMetricalModelState.java:333-344 | one loop pass marks the voice begun on a non-empty tree and, when the tree is scored, adds its log probability and adds it to the local grammar |
| `ParseSteps.ParsedToBegun` | src/metdetection/meter/lpcfg/MetricalLpcfgMetricalModelState.java:328-345 | after `v` voices the flags are `BegunAfter` on the first `v` and unchanged on the rest |
| `ParseSteps.ParsedToTrees` | src/metdetection/meter/lpcfg/MetricalLpcfgMetricalModelState.java:328-345 | after `v` voices the local grammar has gained the scored trees of the first `v`, in order |
| `ParseSteps.ParsedToCounts` | src/metdetection/meter/lpcfg/MetricalLpcfgMetricalModelState.java:328-345 | the local counts have gained exactly those trees |
| `ParseSteps.ParsedToScore` | src/metdetection/meter/lpcfg/MetricalLpcfgMetricalModelState.java:328-345 | the log probability has gained exactly those trees' values |
| `ParseSteps.ParsedAll` | src/metdetection/meter/lpcfg/MetricalLpcfgMetricalModelState.java:327-345 | the full voice loop: begun flags, local trees, local counts and score are those of the scored trees, each tree scored against the shared grammar's counts |
| `ParseSteps.TreesEventsConcat` | src/metdetection/meter/lpcfg/MetricalLpcfg.java:151-160 | the events of consecutive trees add up |
| `ParseSteps.ScoreOfConcat` | src/metdetection/meter/lpcfg/MetricalLpcfgMetricalModelState.java:342 | the score of consecutive trees adds up |
| `ParseSteps.AddAllCounts` | src/metdetection/meter/lpcfg/MetricalLpcfg.java:151-160 | adding trees one at a time to the local grammar adds all their events |
| `ParseSteps.SumOfScores` | src/metdetection/meter/lpcfg/MetricalLpcfg.java:72-74 | summing tree log probabilities one at a time is the score of the list |
| `Conglomerates.NoteTacti` | src/metdetection/meter/lpcfg/MetricalLpcfgMetricalModelState.java:483-491 | a note's span in tacti, moved back by the anacrusis, is at least one tactus long |
| `Conglomerates.BeatSpan` | src/metdetection/meter/lpcfg/MetricalLpcfgMetricalModelState.java:486-496 | the conglomerate check uses the same length, with the start moved forward by the anacrusis' partial beat |
| `Conglomerates.BeatSpans` | src/metdetection/meter/lpcfg/MetricalLpcfgMetricalModelState.java:521-538 | the span of every note of the voice, in order |
| `Conglomerates.Paint` | src/metdetection/meter/lpcfg/MetricalLpcfgMetricalModelState.java:516-556 | painting a note sets ONSET at its offset and TIE over the rest of its length inside the array, and changes nothing else |
| `Conglomerates.PaintInto` | src/metdetection/meter/lpcfg/MetricalLpcfgMetricalModelState.java:553-556 | the in-place painting loop computes `Paint` |
| `Conglomerates.ScanBeat` | src/metdetection/meter/lpcfg/MetricalLpcfgMetricalModelState.java:521-557 | the scan of the later notes consumes a prefix of them; it stops before a note of another beat, or else consumes them all |
| `Conglomerates.ScanStep` | src/metdetection/meter/lpcfg/MetricalLpcfgMetricalModelState.java:538-556 | a note of the same beat is painted at its offset and consumed |
| `Conglomerates.ScanStop` | src/metdetection/meter/lpcfg/MetricalLpcfgMetricalModelState.java:541-546 | a note of another beat stops the scan, marking the boundary ONSET when it starts on the beat |
| `Conglomerates.ScanNegative` | src/metdetection/meter/lpcfg/MetricalLpcfgMetricalModelState.java:538-553 | a negative truncating remainder in the same beat is the array index Java rejects |
| `Conglomerates.ScanInto` | src/metdetection/meter/lpcfg/MetricalLpcfgMetricalModelState.java:521-557 | the in-place scan loop computes `ScanBeat`, including its failure |
| `Conglomerates.OnsetsTo` | src/metdetection/meter/lpcfg/MetricalLpcfgMetricalModelState.java:565-577 | exactly the ONSET positions before the boundary, increasing |
| `Conglomerates.CollectOnsets` | src/metdetection/meter/lpcfg/MetricalLpcfgMetricalModelState.java:565-577 | the loop reports a REST inside the beat, and otherwise collects `OnsetsTo` |
| `Conglomerates.Lengths` | src/metdetection/meter/lpcfg/MetricalLpcfgMetricalModelState.java:580-584 | one length per onset: the gap to the next onset, the last one to the boundary |
| `Conglomerates.NoteLengths` | src/metdetection/meter/lpcfg/MetricalLpcfgMetricalModelState.java:580-584 | the loop computes `Lengths` |
| `Conglomerates.LengthsTile` | src/metdetection/meter/lpcfg/MetricalLpcfgMetricalModelState.java:580-584 | the lengths are positive and tile the beat from the first onset to the boundary |
| `Conglomerates.SumOfGaps` | src/metdetection/meter/lpcfg/MetricalLpcfgMetricalModelState.java:580-584 | the first `n` lengths reach from the first onset to the `n`-th one |
| `Conglomerates.SameBoxesIff` | src/metdetection/meter/lpcfg/MetricalLpcfgMetricalModelState.java:593 | the boxed `!=` finds no difference exactly when the lengths are all equal and, when there are two or more, inside the `Integer` cache (-128 to 127) |
| `Conglomerates.EvenSubdivision` | src/metdetection/meter/lpcfg/MetricalLpcfgMetricalModelState.java:587-600 | when the boxed comparison finds no difference, the notes divide the beat into equal parts, each under 128 tacti when there are two or more; only then is no BEAT match scored |
| `Conglomerates.LargeEqualLengthsMatch` | src/metdetection/meter/lpcfg/MetricalLpcfgMetricalModelState.java:591-595 | equal lengths of 128 or more still make a BEAT match, because their boxes are distinct objects |
| `Conglomerates.ConstantSum` | src/metdetection/meter/lpcfg/MetricalLpcfgMetricalModelState.java:591-597 | equal lengths add up to their number times the first |
| `Conglomerates.EqualToFirst` | src/metdetection/meter/lpcfg/MetricalLpcfgMetricalModelState.java:591-597 | pairwise-equal neighbours are all equal to the first |
| `Conglomerates.SomeLengthDiffers` | src/metdetection/meter/lpcfg/MetricalLpcfgMetricalModelState.java:591-597 | the loop finds neighbouring boxed lengths that differ by reference: exactly when the lengths are not all equal, or there are two or more of 128 or more |
| `Conglomerates.IsBeatPattern` | src/metdetection/meter/lpcfg/MetricalLpcfgMetricalModelState.java:560-597 | the tail of the check matches exactly when nothing ties over the boundary, no REST is inside, there are two or more onsets and some neighbouring boxed lengths differ by reference |
| `Conglomerates.Judge` | src/metdetection/meter/lpcfg/MetricalLpcfgMetricalModelState.java:559-600 | the checked notes are always dropped from the front; a BEAT match ends the checking of the voice |
| `Conglomerates.JudgeInto` | src/metdetection/meter/lpcfg/MetricalLpcfgMetricalModelState.java:559-600 | the in-place tail computes `Judge` |
| `Conglomerates.Conglomerate` | src/metdetection/meter/lpcfg/MetricalLpcfgMetricalModelState.java:459-601 | a check only drops notes from the front, drops at least one whenever it asks to be repeated, and is not repeated after a BEAT match |
| `Conglomerates.ConglomeratePainted` | src/metdetection/meter/lpcfg/MetricalLpcfgMetricalModelState.java:501-519 | past the two early returns the check is the painted check of the first note's beat |
| `Conglomerates.TailSpans` | src/metdetection/meter/lpcfg/MetricalLpcfgMetricalModelState.java:479-481 | once the first note is taken off, the spans of the rest are the rest of the spans |
| `Conglomerates.CheckConglomerateBeatMatch` | src/metdetection/meter/lpcfg/MetricalLpcfgMetricalModelState.java:459-601 | the method computes `Conglomerate`, including the array index it rejects |
| `Conglomerates.CheckPainted` | src/metdetection/meter/lpcfg/MetricalLpcfgMetricalModelState.java:512-600 | the array part of the method computes `PaintedCheck` |
| `Conglomerates.DrainVoice` | src/metdetection/meter/lpcfg/MetricalLpcfgMetricalModelState.java:435 | repeating the check while it asks to be repeated ends in a state that does not ask again and has only dropped notes from the front |
| `Conglomerates.DrainVoiceChecks` | src/metdetection/meter/lpcfg/MetricalLpcfgMetricalModelState.java:435 | the `while` loop computes `DrainVoice` |
| `Conglomerates.SuffixFits` | src/metdetection/meter/lpcfg/MetricalLpcfgMetricalModelState.java:479-481 | what is left of a voice still fits the beats |
| `Conglomerates.SuffixTransitive` | src/metdetection/meter/lpcfg/MetricalLpcfgMetricalModelState.java:435 | dropping notes from the front twice is dropping them once |
| `MetricalSteps.Span` | src/metdetection/meter/lpcfg/MetricalLpcfgMetricalModelState.java:348 | one measure's step of the next measure index is positive |
| `MetricalSteps.RemainingFits` | src/metdetection/meter/lpcfg/MetricalLpcfgMetricalModelState.java:370-382 | dropping finished notes keeps every voice inside the beat grid |
| `MetricalSteps.ParseStep` | src/metdetection/meter/lpcfg/MetricalLpcfgMetricalModelState.java:327-350 | one parse step keeps the state inside the beat grid and only appends local trees |
| `MetricalSteps.ParseComplete` | src/metdetection/meter/lpcfg/MetricalLpcfgMetricalModelState.java:226-230 | parsing complete measures ends with the next measure index past the beats, only appends trees, never lowers the measure number, and changes nothing when already past |
| `MetricalSteps.StepPastLastBeat` | src/metdetection/meter/lpcfg/MetricalLpcfgMetricalModelState.java:302-304 | a step taken past the last beat finishes every note, which is why the closing loop ends |
| `MetricalSteps.ParseRest` | src/metdetection/meter/lpcfg/MetricalLpcfgMetricalModelState.java:302-304 | parsing at close ends with every voice's unfinished list empty, only appends trees, and changes nothing when all notes are already finished |
| `MetricalSteps.Receiving` | src/metdetection/meter/lpcfg/MetricalLpcfgMetricalModelState.java:219-224 | receiving notes keeps the counters and trees; the notes join the check queue exactly when the hypothesis is not fully matched |
| `MetricalSteps.MatchStep` | src/metdetection/meter/lpcfg/MetricalLpcfgMetricalModelState.java:239-241 | a fully matched hypothesis is left as it is; otherwise the counters only grow, the parse is untouched, and the queue is decided or drained up to the last beat; an empty beat list fails as the Java code does |
| `MetricalSteps.Advancing` | src/metdetection/meter/lpcfg/MetricalLpcfgMetricalModelState.java:226-241 | after the notes arrive, the matches only grow, the next measure index is past the beats and trees are only appended |
| `MetricalSteps.Incoming` | src/metdetection/meter/lpcfg/MetricalLpcfgMetricalModelState.java:218-241 | the same guarantees for the whole of `handleIncoming` with a measure |
| `MetricalSteps.Closing` | src/metdetection/meter/lpcfg/MetricalLpcfgMetricalModelState.java:301-311 | closing finishes every note, the matches only grow, and a fully matched hypothesis keeps its counters |
| `MetricalSteps.WrongStaysWrong` | src/metdetection/meter/lpcfg/MetricalLpcfgMetricalModelState.java:243-248 | a wrong hypothesis stays wrong through incoming notes and close, so an eliminated hypothesis never comes back |
| `MetricalSteps.FullyMatchedOnlyParses` | src/metdetection/meter/lpcfg/MetricalLpcfgMetricalModelState.java:219-241 | a fully matched hypothesis skips both the queueing and the match update: its counters and check queue stay as they were |
| `MetricalStates.MetricalLpcfgState.Geo` | src/metdetection/meter/lpcfg/MetricalLpcfgMetricalModelState.java:274-282 | a hypothesis with a measure has a valid grid: positive sub-beat length and measure, and an anacrusis shorter than a measure, as the branching loops choose them |
| `MetricalStates.MetricalLpcfgState.constructor` | src/metdetection/meter/lpcfg/MetricalLpcfgMetricalModelState.java:132-153 | a new hypothesis has no measure, zero counters and score, empty lists and a fresh empty local grammar |
| `MetricalStates.MetricalLpcfgState.Branch` | src/metdetection/meter/lpcfg/MetricalLpcfgMetricalModelState.java:165-206 | the branch copies every field and the local grammar; when a measure is first fixed, the next measure index becomes the anacrusis (with measure number -1) or one measure |
| `MetricalStates.MetricalLpcfgState.DeepCopy` | src/metdetection/meter/lpcfg/MetricalLpcfgMetricalModelState.java:937-939 | a fresh hypothesis with the same fields and a fresh copy of the local grammar |
| `MetricalStates.MetricalLpcfgState.SetVoiceState` | src/metdetection/meter/MetricalModelState.java:73-75 | only the voice-state reference changes |
| `MetricalStates.MetricalLpcfgState.SetBeatState` | src/metdetection/meter/MetricalModelState.java:46-48 | only the beat-state reference changes |
| `MetricalStates.MetricalLpcfgState.AddMatch` | src/metdetection/meter/lpcfg/MetricalLpcfgMetricalModelState.java:868-881 | the counters become `AddMatch` and nothing else changes |
| `MetricalStates.MetricalLpcfgState.UpdateMatchSpan` | src/metdetection/meter/lpcfg/MetricalLpcfgMetricalModelState.java:730-842 | the counters take the match `Classify` gives the span, and nothing else changes |
| `MetricalStates.MetricalLpcfgState.UpdateMatchNote` | src/metdetection/meter/lpcfg/MetricalLpcfgMetricalModelState.java:631-721 | the counters become `NoteMatch` of the note |
| `MetricalStates.MetricalLpcfgState.DrainVoiceQueue` | src/metdetection/meter/lpcfg/MetricalLpcfgMetricalModelState.java:435 | one voice's queue is checked until done: a BEAT match found is added, and the queue becomes what is left |
| `MetricalStates.MetricalLpcfgState.CheckConglomerates` | src/metdetection/meter/lpcfg/MetricalLpcfgMetricalModelState.java:434-441 | the voice loop computes `ConglomerateVoices` on the counters and beat queues |
| `MetricalStates.MetricalLpcfgState.CheckQueuedNotes` | src/metdetection/meter/lpcfg/MetricalLpcfgMetricalModelState.java:443-447 | the note loop computes `DrainChecks` on the counters and note queue |
| `MetricalStates.MetricalLpcfgState.UpdateMatchType` | src/metdetection/meter/lpcfg/MetricalLpcfgMetricalModelState.java:432-448 | the whole match update computes `UpdateMatches`; with no beats it reports the crash of the Java code |
| `MetricalStates.MetricalLpcfgState.ScoreTree` | src/metdetection/meter/lpcfg/MetricalLpcfgMetricalModelState.java:342-343 | the tree's log probability under the shared grammar is added to the score and the tree to the local grammar |
| `MetricalStates.MetricalLpcfgState.ParseVoice` | src/metdetection/meter/lpcfg/MetricalLpcfgMetricalModelState.java:329-344 | one pass of the voice loop is `VoiceStep` |
| `MetricalStates.MetricalLpcfgState.ParseVoices` | src/metdetection/meter/lpcfg/MetricalLpcfgMetricalModelState.java:328-345 | the voice loop is `ParsedTo` over all voices |
| `MetricalStates.MetricalLpcfgState.ScoreStep` | src/metdetection/meter/lpcfg/MetricalLpcfgMetricalModelState.java:328-345 | the scored trees of the step are added to the local grammar and their log probabilities to the score, and the begun flags become `BegunAfter` |
| `MetricalStates.MetricalLpcfgState.RemoveFinishedNotes` | src/metdetection/meter/lpcfg/MetricalLpcfgMetricalModelState.java:370-382 | the unfinished notes become `RemainingNotes` |
| `MetricalStates.MetricalLpcfgState.NextMeasure` | src/metdetection/meter/lpcfg/MetricalLpcfgMetricalModelState.java:347-349 | finished notes are dropped against the old index, the index moves one measure on and the measure number goes up by one |
| `MetricalStates.MetricalLpcfgState.ParseOneStep` | src/metdetection/meter/lpcfg/MetricalLpcfgMetricalModelState.java:327-350 | the measure number, next measure index, begun flags, unfinished notes and local trees become exactly `MetricalSteps.ParseStep` of the old ones; the check queues and counters are left alone |
| `MetricalStates.MetricalLpcfgState.AllNotesFinished` | src/metdetection/meter/lpcfg/MetricalLpcfgMetricalModelState.java:357-365 | true exactly when every voice's unfinished list is empty |
| `MetricalStates.MetricalLpcfgState.AddVoiceAt` | src/metdetection/meter/lpcfg/MetricalLpcfgMetricalModelState.java:391-424 | one pass of the voice loop updates the lists as `AddVoice` says |
| `MetricalStates.MetricalLpcfgState.AddNewVoices` | src/metdetection/meter/lpcfg/MetricalLpcfgMetricalModelState.java:389-426 | the voice loop updates the lists as `AddVoices` says, reporting an index Java rejects |
| `MetricalStates.MetricalLpcfgState.MeasureSpan` | src/metdetection/meter/lpcfg/MetricalLpcfgMetricalModelState.java:348 | the index step of one measure is positive |
| `MetricalStates.MetricalLpcfgState.ParseCompleteMeasures` | src/metdetection/meter/lpcfg/MetricalLpcfgMetricalModelState.java:226-230 | the parse part of the state becomes exactly `MetricalSteps.ParseComplete` of the old one: steps until the next measure index is past the beats, at most one measure beyond them, none when already past |
| `MetricalStates.MetricalLpcfgState.ParseRemaining` | src/metdetection/meter/lpcfg/MetricalLpcfgMetricalModelState.java:302-304 | the parse part of the state becomes exactly `MetricalSteps.ParseRest` of the old one, so every voice's unfinished list ends empty |
| `MetricalStates.MetricalLpcfgState.Receive` | src/metdetection/meter/lpcfg/MetricalLpcfgMetricalModelState.java:219-224 | succeeds exactly when `MetricalSteps.Receiving` does, and the whole hypothesis then becomes its value: the notes queued unless fully matched, the new voices filed |
| `MetricalStates.MetricalLpcfgState.Advance` | src/metdetection/meter/lpcfg/MetricalLpcfgMetricalModelState.java:226-249 | with a measure: succeeds exactly when `MetricalSteps.Advancing` does, the hypothesis becomes its value, the joined states are kept, and the hypothesis survives exactly when it is not wrong |
| `MetricalStates.MetricalLpcfgState.MatchParsed` | src/metdetection/meter/lpcfg/MetricalLpcfgMetricalModelState.java:239-241 | succeeds exactly when `MetricalSteps.MatchStep` does, and the hypothesis becomes its value: untouched when fully matched, otherwise the `UpdateMatches` counters and queues |
| `MetricalStates.MetricalLpcfgState.BranchAt` | src/metdetection/meter/lpcfg/MetricalLpcfgMetricalModelState.java:281-283 | a branch for one measure and anacrusis, its match update applied: the counters and queues are `BranchUpdate`'s and the index starts at the anacrusis or one measure |
| `MetricalStates.MetricalLpcfgState.BranchStep` | src/metdetection/meter/lpcfg/MetricalLpcfgMetricalModelState.java:279-293 | one pass of the anacrusis loop keeps the new branch exactly when it is not wrong |
| `MetricalStates.MetricalLpcfgState.BranchMeasure` | src/metdetection/meter/lpcfg/MetricalLpcfgMetricalModelState.java:278-293 | the branches kept for one measure are exactly the anacrusis values `KeptOf` lists, in increasing order |
| `MetricalStates.MetricalLpcfgState.GroupStep` | src/metdetection/meter/lpcfg/MetricalLpcfgMetricalModelState.java:276-294 | one pass of the measure loop appends that measure's kept branches |
| `MetricalStates.MetricalLpcfgState.BranchMeasures` | src/metdetection/meter/lpcfg/MetricalLpcfgMetricalModelState.java:276-294 | the measure loop concatenates the kept branches of every measure, each a fresh first-step branch |
| `MetricalStates.MetricalLpcfgState.GroupsBranch` | src/metdetection/meter/lpcfg/MetricalLpcfgMetricalModelState.java:276-294 | every concatenated branch is a first-step branch |
| `MetricalStates.MetricalLpcfgState.FirstStepBranches` | src/metdetection/meter/lpcfg/MetricalLpcfgMetricalModelState.java:261-298 | with no queued note it fails (Java dereferences null); while the first note has not ended it keeps only itself; otherwise it branches over each grammar measure once and every anacrusis below the measure's 32-bit sub-beat count, so a measure whose count is not positive adds no branch, keeping the branches that are not wrong |
| `MetricalStates.MetricalLpcfgState.Branches` | src/metdetection/meter/lpcfg/MetricalLpcfgMetricalModelState.java:235-237 | without a measure the result is this hypothesis or fresh valid branches with a measure that are not wrong |
| `MetricalStates.MetricalLpcfgState.HandleIncoming` | src/metdetection/meter/lpcfg/MetricalLpcfgMetricalModelState.java:218-252 | with a measure: succeeds exactly when `MetricalSteps.Incoming` does, the hypothesis becomes its value and is returned exactly when not wrong; without a measure: the `Branches` guarantees; the grammar's measures are constrained only on that path |
| `MetricalStates.MetricalLpcfgState.CloseMeasured` | src/metdetection/meter/lpcfg/MetricalLpcfgMetricalModelState.java:301-321 | succeeds exactly when `MetricalSteps.Closing` does, the hypothesis becomes its value, and it is kept exactly when fully matched and not wrong; nothing is kept on failure |
| `MetricalStates.MetricalLpcfgState.Close` | src/metdetection/meter/lpcfg/MetricalLpcfgMetricalModelState.java:301-321 | a hypothesis without a measure can close only with no unfinished notes and leaves its state unchanged; a measured one is tied to `MetricalSteps.Closing` as in `CloseMeasured` |
| `MetricalStates.MetricalLpcfgState.CompareTo` | src/metdetection/meter/lpcfg/MetricalLpcfgMetricalModelState.java:947-978 | null sorts after; otherwise higher score first (flipped when either score is 0.0), then sub-beat length, anacrusis, then the measure ordering's own value; 0 exactly when all of these agree and both joined states are the same objects, and 1 when only the joined states differ |
| `MetricalStates.FlattenMember` | src/metdetection/meter/lpcfg/MetricalLpcfgMetricalModelState.java:276-294 | a branch of the concatenation comes from some measure's group |
| `MetricalStates.FlattenSnoc` | src/metdetection/meter/lpcfg/MetricalLpcfgMetricalModelState.java:276-294 | appending a group appends its branches |
| `MetricalStates.Outcomes` | src/metdetection/meter/lpcfg/MetricalLpcfgMetricalModelState.java:279-283 | one match-update outcome per anacrusis value |
| `MetricalStates.MeasureOutcomes` | src/metdetection/meter/lpcfg/MetricalLpcfgMetricalModelState.java:278-279 | no outcome, and so no branch, exactly when the measure's sub-beat count as a Java `int` is not positive; otherwise one outcome per anacrusis |
| `MetricalStates.MeasureOutcomesAreUpdates` | src/metdetection/meter/lpcfg/MetricalLpcfgMetricalModelState.java:276-283 | those outcomes are the updates of the branches the anacrusis loop builds for the measure, none when it runs zero times |
| `MetricalStates.OutcomesAreUpdates` | src/metdetection/meter/lpcfg/MetricalLpcfgMetricalModelState.java:279-283 | those outcomes are the branch updates, one for each anacrusis shorter than a measure |
| `MetricalStates.KeptFails` | src/metdetection/meter/lpcfg/MetricalLpcfgMetricalModelState.java:279-293 | branching one measure succeeds exactly when no anacrusis' update fails |
| `MetricalStates.KeptMembers` | src/metdetection/meter/lpcfg/MetricalLpcfgMetricalModelState.java:279-293 | an anacrusis is kept exactly when it is shorter than a measure and its branch is not wrong, in increasing order |
| `MetricalStates.KeptOfFails` | src/metdetection/meter/lpcfg/MetricalLpcfgMetricalModelState.java:279-293 | the kept list exists exactly when no outcome failed |
| `MetricalStates.KeptOfMembers` | src/metdetection/meter/lpcfg/MetricalLpcfgMetricalModelState.java:279-293 | an index is kept exactly when its outcome is not wrong, in increasing order |
| `MetricalStates.KeptOfSnoc` | src/metdetection/meter/lpcfg/MetricalLpcfgMetricalModelState.java:286-292 | one more outcome fails the list, adds nothing when wrong, or adds its index |
| `MetricalStates.KeptOfStep` | src/metdetection/meter/lpcfg/MetricalLpcfgMetricalModelState.java:286-292 | the same, stated on prefixes |
| `MetricalStates.KeptOfPrefixFailed` | src/metdetection/meter/lpcfg/MetricalLpcfgMetricalModelState.java:279-293 | a failure in a prefix fails the whole list |
| `FromFileBeats.VisiblePrefix` | src/metdetection/beat/fromfile/FromFileBeatTrackingModelState.java:76-85 | the visible beats are a prefix of the beat list |
| `FromFileBeats.VisiblePrefixExact` | src/metdetection/beat/fromfile/FromFileBeatTrackingModelState.java:76-85 | on a time-sorted list the visible beats are exactly those no later than the cursor time |
| `FromFileBeats.CutIsVisiblePrefix` | src/metdetection/beat/fromfile/FromFileBeatTrackingModelState.java:78-84 | cutting at the first beat later than the time gives the visible prefix |
| `FromFileBeats.CompareBeatListsZero` | src/metdetection/beat/fromfile/FromFileBeatTrackingModelState.java:134-139 | the beat-by-beat comparison is 0 exactly when every pair agrees on measure and beat |
| `FromFileBeats.BeatTrackingFromFile.constructor` | src/metdetection/beat/fromfile/FromFileBeatTrackingModelState.java:47-52 | the beats from the file, both cursors at 0, no voice state |
| `FromFileBeats.BeatTrackingFromFile.Copy` | src/metdetection/beat/fromfile/FromFileBeatTrackingModelState.java:59-65 | the copy constructor shares the beat list and copies both cursors and the voice state |
| `FromFileBeats.BeatTrackingFromFile.DeepCopy` | src/metdetection/beat/fromfile/FromFileBeatTrackingModelState.java:114-116 | a fresh state with the same fields |
| `FromFileBeats.BeatTrackingFromFile.SetVoiceState` | src/metdetection/beat/BeatTrackingModelState.java:29-31 | only the voice-state reference changes |
| `FromFileBeats.BeatTrackingFromFile.GetBeats` | src/metdetection/beat/fromfile/FromFileBeatTrackingModelState.java:76-85 | the index cursor only moves forward, past beats no later than the time and up to the first later one, and the result is the beats before it: on a sorted list, exactly the visible prefix |
| `FromFileBeats.BeatTrackingFromFile.HandleIncoming` | src/metdetection/beat/fromfile/FromFileBeatTrackingModelState.java:93-100 | the time cursor becomes the first incoming note's onset, and the state itself is the only successor |
| `FromFileBeats.BeatTrackingFromFile.Close` | src/metdetection/beat/fromfile/FromFileBeatTrackingModelState.java:103-111 | the cursors move to the end of the beats, so every beat is visible |
| `FromFileBeats.BeatTrackingFromFile.CompareTo` | src/metdetection/beat/fromfile/FromFileBeatTrackingModelState.java:119-145 | null sorts after; otherwise by combined score, then number of beats, then beat by beat, then 0 only for the same voice state; 0 exactly when the beats agree and the voice state is the same object |
| `FromFileVoices.ChainNotes` | src/metdetection/voice/Voice.java:43-50 | a voice chained from a non-empty note list lists those notes in order |
| `FromFileVoices.NonEmpty` | src/metdetection/voice/fromfile/FromFileVoiceSplittingModelState.java:45-49 | only non-empty gold voices give a voice |
| `FromFileVoices.Chains` | src/metdetection/voice/fromfile/FromFileVoiceSplittingModelState.java:45-64 | one voice per non-empty gold list |
| `FromFileVoices.ChainsNotes` | src/metdetection/voice/fromfile/FromFileVoiceSplittingModelState.java:45-64 | each built voice holds exactly its gold notes in order |
| `FromFileVoices.BuildChain` | src/metdetection/voice/fromfile/FromFileVoiceSplittingModelState.java:49-61 | building one voice succeeds exactly when every note has an offset, and then gives the chain of the notes |
| `FromFileVoices.BuildVoices` | src/metdetection/voice/fromfile/FromFileVoiceSplittingModelState.java:41-66 | the constructor succeeds exactly when every gold note has an offset, and then holds the chains of the non-empty gold voices in order |
| `FromFileVoices.BuildOne` | src/metdetection/voice/fromfile/FromFileVoiceSplittingModelState.java:45-64 | one pass of the loop fails only if some note lacks an offset, and otherwise extends the voices by that gold list's chain |
| `FromFileVoices.NoOffsetFails` | src/metdetection/voice/fromfile/FromFileVoiceSplittingModelState.java:51-60 | a missing offset anywhere fails the whole construction |
| `FromFileVoices.BuildStep` | src/metdetection/voice/fromfile/FromFileVoiceSplittingModelState.java:45-64 | an empty gold list adds no voice; a non-empty one adds its chain |
| `FromFileVoices.TruncateIsLatestPrefix` | src/metdetection/voice/fromfile/FromFileVoiceSplittingModelState.java:73-75 | stepping back along a voice gives the longest prefix of its notes whose last onset is no later than the time, or nothing when all are later |
| `FromFileVoices.TruncateVoice` | src/metdetection/voice/fromfile/FromFileVoiceSplittingModelState.java:73-75 | the `while` loop over previous links computes that prefix |
| `FromFileVoices.CurrentVoices` | src/metdetection/voice/fromfile/FromFileVoiceSplittingModelState.java:69-83 | at most one current voice per gold voice |
| `FromFileVoices.CurrentVoicesSound` | src/metdetection/voice/fromfile/FromFileVoiceSplittingModelState.java:69-83 | each current voice is the truncation of some gold voice and has begun by the time |
| `FromFileVoices.CompareVoiceListsZero` | src/metdetection/voice/fromfile/FromFileVoiceSplittingModelState.java:122-127 | the voice-by-voice comparison is 0 exactly when the voices pairwise have the same note keys |
| `FromFileVoices.VoiceSplittingFromFile.Init` | src/metdetection/voice/fromfile/FromFileVoiceSplittingModelState.java:41-44 | the voices given, the time cursor at 0 |
| `FromFileVoices.VoiceSplittingFromFile.FromGoldStandard` | src/metdetection/voice/fromfile/FromFileVoiceSplittingModelState.java:41-66 | the constructor fails exactly when a gold note has no offset, and otherwise holds the gold chains |
| `FromFileVoices.VoiceSplittingFromFile.GetVoices` | src/metdetection/voice/fromfile/FromFileVoiceSplittingModelState.java:69-83 | the voices as they stood at the cursor time |
| `FromFileVoices.VoiceSplittingFromFile.HandleIncoming` | src/metdetection/voice/fromfile/FromFileVoiceSplittingModelState.java:86-91 | the cursor becomes the first incoming note's onset; the voices are untouched |
| `FromFileVoices.VoiceSplittingFromFile.Close` | src/metdetection/voice/fromfile/FromFileVoiceSplittingModelState.java:94-99 | the cursor moves one tick on |
| `FromFileVoices.VoiceSplittingFromFile.CompareTo` | src/metdetection/voice/fromfile/FromFileVoiceSplittingModelState.java:107-130 | null sorts after; otherwise by time, then number of voices, then voice by voice; 0 exactly when times agree and the voices pairwise have the same notes |
| `FromFileMetricals.MetricalFromFile.constructor` | src/metdetection/meter/fromfile/FromFileMetricalModelState.java:33-36 | the file's first measure, the time cursor at 0 |
| `FromFileMetricals.MetricalFromFile.Of` | src/metdetection/meter/fromfile/FromFileMetricalModelState.java:45-48 | the given measure and time, no voice or beat state |
| `FromFileMetricals.MetricalFromFile.DeepCopy` | src/metdetection/meter/fromfile/FromFileMetricalModelState.java:75-77 | a fresh state with the same measure and time, which does not carry the joined voice and beat states over |
| `FromFileMetricals.MetricalFromFile.SetVoiceState` | src/metdetection/meter/MetricalModelState.java:73-75 | only the voice-state reference changes |
| `FromFileMetricals.MetricalFromFile.SetBeatState` | src/metdetection/meter/MetricalModelState.java:46-48 | only the beat-state reference changes |
| `FromFileMetricals.MetricalFromFile.HandleIncoming` | src/metdetection/meter/fromfile/FromFileMetricalModelState.java:56-63 | the cursor becomes the first incoming note's onset; the measure never changes |
| `FromFileMetricals.MetricalFromFile.Close` | src/metdetection/meter/fromfile/FromFileMetricalModelState.java:66-72 | the state itself is the only successor |
| `FromFileMetricals.MetricalFromFile.CompareTo` | src/metdetection/meter/fromfile/FromFileMetricalModelState.java:85-104 | null sorts after; otherwise by time, then the measure ordering's own value; 0 exactly when these agree and both joined states are the same objects, and 1 when only the joined states differ |
| `Joints.NewJointStateWired` | src/metdetection/joint/JointModelState.java:43-52 | a new joint state points the beat state at the voice state and the metrical state at both |
| `Joints.RebuildFromHierarchy` | src/metdetection/joint/JointModelState.java:60-64 | rebuilding a joint state from its metrical state gives the same triple back |
| `Joints.FromHierarchies` | src/metdetection/joint/JointModelState.java:96-98 | one joint state per metrical successor |
| `Joints.FromHierarchiesAt` | src/metdetection/joint/JointModelState.java:96-98 | the `k`-th joint state is rebuilt from the `k`-th metrical successor |
| `Joints.BeatsForOrigin` | src/metdetection/joint/JointModelState.java:79-84 | every beat successor comes from a copy of the beat state pointed at one voice successor |
| `Joints.HierarchiesForOrigin` | src/metdetection/joint/JointModelState.java:87-93 | every metrical successor comes from a copy of the metrical state pointed at one beat successor and its voice |
| `Joints.SuccessorsWired` | src/metdetection/joint/JointModelState.java:72-101 | every successor is consistently wired, its voice state a successor of the old voice state and its beat state a successor of the old beat state given that voice |
| `Joints.Advance` | src/metdetection/joint/JointModelState.java:72-133 | `handleIncoming` and `close` of a joint state compute `Successors`: voice, then beat, then metrical successors, in their nesting order |
| `Joints.CompareTo` | src/metdetection/joint/JointModelState.java:163-194 | null sorts first; a higher total score sorts first unless a score is 0.0; 0 exactly for the same triple |
| `Joints.AllSuccessorsEmpty` | src/metdetection/joint/JointModel.java:40-58 | when every hypothesis dies, the model is left with none |
| `Joints.AllSuccessorsOrigin` | src/metdetection/joint/JointModel.java:40-58 | every new hypothesis is a successor of some old one |
| `Joints.AdvanceAll` | src/metdetection/joint/JointModel.java:43-45 | the loop over hypotheses collects all the successors |
| `Joints.JointModel.constructor` | src/metdetection/joint/JointModel.java:34-37 | the model starts with the one wired joint state |
| `Joints.JointModel.HandleIncoming` | src/metdetection/joint/JointModel.java:40-58 | the hypotheses become all successors of the old ones |
| `Joints.JointModel.Close` | src/metdetection/joint/JointModel.java:61-79 | the same for closing |
| `Joints.JointModel.VoiceHypotheses` | src/metdetection/joint/JointModel.java:94-102 | the voice state of every hypothesis, in order |
| `Joints.JointModel.BeatHypotheses` | src/metdetection/joint/JointModel.java:112-120 | the beat state of every hypothesis, in order |
| `Joints.JointModel.HierarchyHypotheses` | src/metdetection/joint/JointModel.java:130-138 | the metrical state of every hypothesis, in order |
| `Evaluation.LevelMatchOnGrid` | src/metdetection/utils/Evaluation.java:459-474 | one level's test with positive lengths: a match exactly on equal length and offset, undecided exactly when the grids nest, a miss otherwise |
| `Evaluation.BeatLength` | src/metdetection/utils/Evaluation.java:477 | the correct beat length is positive when the sub-beat and the measure are |
| `Evaluation.MeasureLength` | src/metdetection/utils/Evaluation.java:498 | the correct measure length is positive when its factors are |
| `Evaluation.GetMatch` | src/metdetection/utils/Evaluation.java:453-519 | -1, 0 or 1; a remainder by a zero sub-beat throws; a sub-beat-long grouping is decided at once by its offset; a 1 means the grouping equals one of the three correct levels; a 0 agrees in length with none |
| `Evaluation.GetMatchZeroOnGrid` | src/metdetection/utils/Evaluation.java:453-519 | with positive lengths the result is 0 exactly when the grouping differs in length from all three levels and nests with each |
| `Evaluation.Positives` | src/metdetection/utils/Evaluation.java:384-413 | the true positives are at most the levels compared |
| `Evaluation.Negatives` | src/metdetection/utils/Evaluation.java:384-413 | the false positives are at most the levels compared |
| `Evaluation.PositivesAndNegatives` | src/metdetection/utils/Evaluation.java:384-413 | each level counts as a true or a false positive at most once |
| `Evaluation.AccuracyCounts` | src/metdetection/utils/Evaluation.java:367-415 | true positives and false negatives add up to 3, true and false positives to at most 3; an exact guess gives TP 3, FP 0, FN 0; any other guess against a zero sub-beat throws |
| `Evaluation.F1Closed` | src/metdetection/utils/Evaluation.java:417-424 | the F1 score is 0.0 when nothing is a true positive (the NaN case) and otherwise 2TP / (2TP + FP + FN) |
| `Evaluation.F1Ratio` | src/metdetection/utils/Evaluation.java:417-420 | the harmonic mean of precision and recall is that ratio |
| `Evaluation.ExactGuessScoresOne` | src/metdetection/utils/Evaluation.java:370-374 | guessing the correct meter scores F1 1.0 |
| `Evaluation.IndexOfMark` | src/metdetection/utils/Evaluation.java:344 | `indexOf("x ", from)`: the first mark at or after `from`, or -1 exactly when there is none |
| `Evaluation.MarksSkip` | src/metdetection/utils/Evaluation.java:343-350 | skipping positions with no mark does not change the count |
| `Evaluation.MarksAfterMark` | src/metdetection/utils/Evaluation.java:346-349 | a mark counts once and the search resumes after it |
| `Evaluation.NoMarks` | src/metdetection/utils/Evaluation.java:343-350 | no mark means a count of 0 |
| `Evaluation.MarksBound` | src/metdetection/utils/Evaluation.java:339-353 | the marks never overlap, so they are at most half the line |
| `Evaluation.GetNumLevels` | src/metdetection/utils/Evaluation.java:339-353 | the loop counts the non-overlapping marks of the line |
| `JavaInt.JDiv` | src/metdetection/meter/lpcfg/MetricalLpcfgMetricalModelState.java:656 | Java's `/`: the magnitude of the quotient is the quotient of magnitudes, negative only for operands of opposite signs |
| `JavaInt.JRem` | src/metdetection/meter/lpcfg/MetricalLpcfgMetricalModelState.java:659-660 | Java's `%`: the magnitude of the remainder is the remainder of magnitudes, with the sign of the dividend |
| `JavaInt.JDivRem` | src/metdetection/meter/lpcfg/MetricalLpcfgMetricalModelState.java:659-660 | quotient and remainder recompose the dividend |
| `JavaInt.JavaAgreesOnNatural` | src/metdetection/meter/lpcfg/MetricalLpcfgMetricalModelState.java:734-736 | on natural operands Java's and Euclidean division agree |
| `JavaInt.JRemZeroIff` | src/metdetection/meter/lpcfg/MetricalLpcfgMetricalModelState.java:757 | a Java remainder is 0 exactly when the Euclidean one is |
| `JavaInt.Wrap32` | src/metdetection/beat/Beat.java:122-124 | 32-bit wrap-around lands in the `int` range and leaves in-range values alone |
| `JavaInt.IntCompare` | src/metdetection/meter/lpcfg/MetricalLpcfgMetricalModelState.java:957 | `Integer.compare`: -1, 0 or 1 with the sign of the difference |
| `JavaInt.RealCompare` | src/metdetection/meter/lpcfg/MetricalLpcfgMetricalModelState.java:952 | `Double.compare` on the modelled scores: -1, 0 or 1 with the sign of the difference |
| `JavaInt.IntToString` | src/metdetection/meter/lpcfg/MetricalLpcfgProbabilityTracker.java:573-577 | a decimal numeral, with an optional leading minus |
| `JavaInt.IntToStringRoundTrip` | src/metdetection/meter/lpcfg/MetricalLpcfgProbabilityTracker.java:573-577 | reading the numeral back gives the number |
| `JavaInt.IntToStringInjective` | src/metdetection/meter/lpcfg/MetricalLpcfgProbabilityTracker.java:573-577 | distinct numbers give distinct numerals, so back-off keys of different counts differ |

## Left out

- File I/O is not modelled: MIDI and Kern parsing, the command-line runner, note-file export and the printing of the accuracy report.
- Grammar serialisation and deserialisation are not modelled; they are stream I/O.
- Good-Turing smoothing and `Math.log` are not modelled. They enter the model as a function parameter from a count table and an event count to a real, so log-probabilities are sums of that parameter's values.
- Floating point is modelled as unbounded `real`. Precision, recall and F1 use `Option<real>`, with `None` standing for Java's NaN.
- `TreeSet` ordering and de-duplication of hypotheses are not modelled: hypothesis sets are sequences in insertion order. The comparators are not consistent total orders, so a sorted set's contents depend on insertion order.
- Reference identity is replaced by value equality, except for the boxed `Integer` note lengths of the conglomerate check, whose `!=` is modelled as Java's reference comparison. The `Integer` cache is taken at its default upper bound of 127; a JVM started with a larger `-XX:AutoBoxCacheMax` would find more equal lengths the same.
  - Voices are compared as values.
  - Joint states count as equal when their three sub-states are equal.
- Note setters are functions on a note value. Aliasing of one note object between voices and queues is not captured.
- `Measure` is not part of this model. It is represented by a datatype holding its beats per measure and its sub-beats per beat.
  - Table keys built by joining strings with `;` are represented by a datatype `Key`, so their injectivity is taken as given rather than derived from the strings.
  - `Measure.compareTo` enters as a parameter.
- The nonterminal type strings, transition strings and head propagation of `fixChildrenTypes` enter as an annotator function parameter, so the grammar's laws hold for any annotator.
- Some Java exceptions are excluded by preconditions, because the callers never trigger them:
  - a note that does not fit the beat grid, in the metrical state's note handling, where Java indexes the beat list at -1;
  - an empty note list, in `FromFileBeats.BeatTrackingFromFile.HandleIncoming`, `FromFileVoices.VoiceSplittingFromFile.HandleIncoming` and `FromFileMetricals.MetricalFromFile.HandleIncoming`, where Java reads the first note;
  - an empty beat list, in `FromFileBeats.BeatTrackingFromFile.Close`;
  - a null voice state, in `FromFileBeats.BeatTrackingFromFile.CompareTo`.
- The other exceptions become an `ok` flag or an `Option`. Where a metrical method reports `ok == false`, the state it leaves is not specified.
- `Joints.Advance` and `Joints.JointModel.Close`: the voice sub-state is a value, so the in-place advance of the one voice object that every joint hypothesis shares (src/metdetection/joint/JointModel.java:64-66, src/metdetection/joint/JointModelState.java:108) is not captured. Each joint hypothesis computes its own voice successors instead.
- Java `int` overflow is modelled only in the hash codes and in the bound of the anacrusis loop of `getAllFirstStepBranches`. Elsewhere integers are unbounded.
- `MetricalStates.MetricalLpcfgState.FirstStepBranches`, `MetricalStates.MetricalLpcfgState.Branches` and `MetricalStates.MetricalLpcfgState.HandleIncoming` (without a measure) exclude a grammar measure whose `beatsPerMeasure * subBeatsPerBeat`, as a Java `int`, is positive although the measure is not: two negative counts, or a product that overflows. Java would build branches on such a measure, and the beat grid of the model is defined for positive measures only. A measure whose product is zero or negative is modelled: its anacrusis loop runs zero times.
- `FromFileBeats.BeatTrackingFromFile.constructor`: the time tracker is not part of this model. The constructor takes the beat list the tracker would generate, and `getTactiPerMeasure`, which only asks the tracker, is left out.
- `FromFileMetricals.MetricalFromFile.DeepCopy`: the Java copy drops the voice and beat states it was joined to, and the model copies its own fields alone to match.
- `MetricalStates.MetricalLpcfgState.BranchMeasure` and `MetricalStates.MetricalLpcfgState.BranchMeasures` state their result over ghost outcome data produced by the match update. The heavy arithmetic of the update is not unfolded in their contracts.
- `MetricalStates.MetricalLpcfgState.Branches`: without a measure, the contract states that every branch is valid, has a measure and is not wrong. It does not list the branches one by one; `FirstStepBranches` does that.
- `Conglomerates.Conglomerate`: the contract is structural (which notes are dropped and when the check repeats). What a beat or sub-beat match means is stated by `Conglomerates.EvenSubdivision` and the pattern lemmas beside it.
- `Joints.CompareTo`: the contract does not state that the order is transitive. The 0.0 flip makes the Java comparator break transitivity.
- The total-order laws (transitivity) of the other `compareTo` methods are not stated. Antisymmetry and the zero case are stated where the source relies on them.
