/**
 * The count bookkeeping of the grammar
 * (src/metdetection/meter/lpcfg/MetricalLpcfgProbabilityTracker.java): transition counts and
 * head-length counts under a primary key and a coarser back-off key, and measure-head counts
 * under the measure alone.
 */
module ProbabilityTrackers {
  import opened JavaInt
  import opened Terminals
  import opened LpcfgTrees
  import opened CountTables

  /** What a key conditions on: the whole measure (`encode(measure, ...)`), or the level's
   *  back-off feature of it (`encodeBackoff`). */
  datatype KeyContext = MeasureContext(measure: Measure) | LevelContext(prefix: string)

  /** A conditioning key: the `;`-joined string of context, type string and head length. */
  datatype Key = Key(context: KeyContext, typeString: string, headLength: real)

  /** `encode(measure, typeString, head)`. */
  function Encode(measure: Measure, typeString: string, head: Head): (k: Key)
    ensures k.context.MeasureContext? && k.context.measure == measure
    ensures k.typeString == typeString && k.headLength == head.length
  {
    Key(MeasureContext(measure), typeString, head.length)
  }

  /** The back-off feature of `encodeBackoff`: "SSB" for a sub-beat, the number of sub-beats per
   *  beat and "SB" for a beat, the number of beats per measure and "B" for a measure. */
  function BackoffPrefix(measure: Measure, level: Level): (s: string)
    ensures level == SubBeat ==> s == "SSB"
    ensures level == BeatLevel ==> s == IntToString(measure.subBeatsPerBeat) + "SB"
    ensures level == MeasureLevel ==> s == IntToString(measure.beatsPerMeasure) + "B"
  {
    match level
    case SubBeat => "SSB"
    case BeatLevel => IntToString(measure.subBeatsPerBeat) + "SB"
    case MeasureLevel => IntToString(measure.beatsPerMeasure) + "B"
  }

  /** The three back-off shapes differ: "SSB" starts with a letter where a rendered number
   *  starts with a digit or '-', and before its final "B" a measure feature ends in a digit. */
  lemma BackoffShapesDiffer(a: int, b: int)
    ensures "SSB" != IntToString(a) + "SB" && "SSB" != IntToString(b) + "B"
    ensures IntToString(a) + "SB" != IntToString(b) + "B"
  {
    var sa, sb := IntToString(a) + "SB", IntToString(b) + "B";
    assert sa[0] == IntToString(a)[0] && sb[0] == IntToString(b)[0];
    assert sa[|sa| - 2] == 'S';
    assert sb[|sb| - 2] == IntToString(b)[|IntToString(b)| - 1];
  }

  /** Back-off features of different levels never collide, and within a level they separate
   *  exactly the measures whose back-off number differs. */
  lemma BackoffPrefixInjective(m1: Measure, l1: Level, m2: Measure, l2: Level)
    ensures BackoffPrefix(m1, l1) == BackoffPrefix(m2, l2) <==>
      l1 == l2
      && (l1 == BeatLevel ==> m1.subBeatsPerBeat == m2.subBeatsPerBeat)
      && (l1 == MeasureLevel ==> m1.beatsPerMeasure == m2.beatsPerMeasure)
  {
    var s1, s2 := BackoffPrefix(m1, l1), BackoffPrefix(m2, l2);
    BackoffShapesDiffer(m1.subBeatsPerBeat, m2.beatsPerMeasure);
    BackoffShapesDiffer(m2.subBeatsPerBeat, m1.beatsPerMeasure);
    if l1 == l2 == BeatLevel {
      assert s1[..|s1| - 2] == IntToString(m1.subBeatsPerBeat);
      assert s2[..|s2| - 2] == IntToString(m2.subBeatsPerBeat);
      IntToStringInjective(m1.subBeatsPerBeat, m2.subBeatsPerBeat);
    } else if l1 == l2 == MeasureLevel {
      assert s1[..|s1| - 1] == IntToString(m1.beatsPerMeasure);
      assert s2[..|s2| - 1] == IntToString(m2.beatsPerMeasure);
      IntToStringInjective(m1.beatsPerMeasure, m2.beatsPerMeasure);
    }
  }

  /** `encodeBackoff(measure, typeString, head, level)`: never the primary key of any measure. */
  function EncodeBackoff(measure: Measure, typeString: string, head: Head, level: Level): (k: Key)
    ensures k.context == LevelContext(BackoffPrefix(measure, level))
    ensures k.typeString == typeString && k.headLength == head.length
    ensures forall m: Measure :: k != Encode(m, typeString, head)
  {
    Key(LevelContext(BackoffPrefix(measure, level)), typeString, head.length)
  }

  /** The three count maps of a tracker, as values. */
  datatype Counts = Counts(transitions: map<Key, map<string, int>>,
                           heads: map<Key, map<real, int>>,
                           measureHeads: map<Measure, map<real, int>>)

  /** No stored count is <= 0 and no stored table is empty, in any of the three maps. */
  predicate CountsPositive(c: Counts)
  {
    Positive(c.transitions) && Positive(c.heads) && Positive(c.measureHeads)
  }

  /** One count update the grammar makes for a nonterminal. */
  datatype Event =
    | TransitionEvent(measure: Measure, typeString: string, head: Head, transitionString: string,
                      level: Level)
    | HeadEvent(measure: Measure, typeString: string, parentHead: Head, head: Head, level: Level)
    | MeasureHeadEvent(measure: Measure, head: Head)

  /** `addTransition`, `addHead` and `addMeasureHead` on the values of the three maps. */
  function AddEvent(c: Counts, ev: Event): (r: Counts)
    ensures ev.TransitionEvent? ==> r.heads == c.heads && r.measureHeads == c.measureHeads
    ensures ev.HeadEvent? ==> r.transitions == c.transitions && r.measureHeads == c.measureHeads
    ensures ev.MeasureHeadEvent? ==> r.transitions == c.transitions && r.heads == c.heads
  {
    match ev
    case TransitionEvent(measure, typeString, head, transitionString, level) =>
      c.(transitions := AddTwoTier(c.transitions, Encode(measure, typeString, head),
                                   EncodeBackoff(measure, typeString, head, level), transitionString))
    case HeadEvent(measure, typeString, parentHead, head, level) =>
      c.(heads := AddTwoTier(c.heads, Encode(measure, typeString, parentHead),
                             EncodeBackoff(measure, typeString, parentHead, level), head.length))
    case MeasureHeadEvent(measure, head) =>
      c.(measureHeads := Bumped(c.measureHeads, measure, head.length))
  }

  /** The outcome of a remove: the counts afterwards, and whether it returned normally. */
  datatype Outcome = Outcome(counts: Counts, ok: bool)

  /** `removeTransition`, `removeHead` and `removeMeasureHead` on the values of the three maps. */
  function RemoveEvent(c: Counts, ev: Event): (r: Outcome)
    ensures ev.TransitionEvent? ==> r.counts.heads == c.heads && r.counts.measureHeads == c.measureHeads
    ensures ev.HeadEvent? ==> r.counts.transitions == c.transitions && r.counts.measureHeads == c.measureHeads
    ensures ev.MeasureHeadEvent? ==> r.counts.transitions == c.transitions && r.counts.heads == c.heads
  {
    match ev
    case TransitionEvent(measure, typeString, head, transitionString, level) =>
      var t := RemoveTwoTier(c.transitions, Encode(measure, typeString, head),
                             EncodeBackoff(measure, typeString, head, level), transitionString);
      Outcome(c.(transitions := t.tables), t.ok)
    case HeadEvent(measure, typeString, parentHead, head, level) =>
      var t := RemoveTwoTier(c.heads, Encode(measure, typeString, parentHead),
                             EncodeBackoff(measure, typeString, parentHead, level), head.length);
      Outcome(c.(heads := t.tables), t.ok)
    case MeasureHeadEvent(measure, head) =>
      var t := RemoveOneTier(c.measureHeads, measure, head.length);
      Outcome(c.(measureHeads := t.tables), t.ok)
  }

  /** The counts an event's remove needs: under both keys for a two-tier event. */
  predicate Removable(c: Counts, ev: Event)
  {
    match ev
    case TransitionEvent(measure, typeString, head, transitionString, level) =>
      Count(c.transitions, Encode(measure, typeString, head), transitionString) > 0
      && Count(c.transitions, EncodeBackoff(measure, typeString, head, level), transitionString) > 0
    case HeadEvent(measure, typeString, parentHead, head, level) =>
      Count(c.heads, Encode(measure, typeString, parentHead), head.length) > 0
      && Count(c.heads, EncodeBackoff(measure, typeString, parentHead, level), head.length) > 0
    case MeasureHeadEvent(measure, head) =>
      Count(c.measureHeads, measure, head.length) > 0
  }

  lemma AddEventPositive(c: Counts, ev: Event)
    requires CountsPositive(c)
    ensures CountsPositive(AddEvent(c, ev))
  {
    match ev
    case TransitionEvent(measure, typeString, head, transitionString, level) =>
      AddTwoTierPositive(c.transitions, Encode(measure, typeString, head),
                         EncodeBackoff(measure, typeString, head, level), transitionString);
    case HeadEvent(measure, typeString, parentHead, head, level) =>
      AddTwoTierPositive(c.heads, Encode(measure, typeString, parentHead),
                         EncodeBackoff(measure, typeString, parentHead, level), head.length);
    case MeasureHeadEvent(measure, head) =>
      BumpedPositive(c.measureHeads, measure, head.length);
  }

  /** No count becomes <= 0, whether the remove returns or throws part-way. */
  lemma RemoveEventPositive(c: Counts, ev: Event)
    requires CountsPositive(c)
    ensures CountsPositive(RemoveEvent(c, ev).counts)
  {
    match ev
    case TransitionEvent(measure, typeString, head, transitionString, level) =>
      RemoveTwoTierPositive(c.transitions, Encode(measure, typeString, head),
                            EncodeBackoff(measure, typeString, head, level), transitionString);
    case HeadEvent(measure, typeString, parentHead, head, level) =>
      RemoveTwoTierPositive(c.heads, Encode(measure, typeString, parentHead),
                            EncodeBackoff(measure, typeString, parentHead, level), head.length);
    case MeasureHeadEvent(measure, head) =>
      var m := c.measureHeads;
      if measure in m && head.length in m[measure] {
        DroppedPositive(m, measure, head.length);
      }
  }

  /** Removing an event right after adding it returns normally and restores every count. */
  lemma RemoveEventAfterAdd(c: Counts, ev: Event)
    requires CountsPositive(c)
    ensures RemoveEvent(AddEvent(c, ev), ev) == Outcome(c, true)
  {
    match ev
    case TransitionEvent(measure, typeString, head, transitionString, level) =>
      RemoveAfterAdd(c.transitions, Encode(measure, typeString, head),
                     EncodeBackoff(measure, typeString, head, level), transitionString);
    case HeadEvent(measure, typeString, parentHead, head, level) =>
      RemoveAfterAdd(c.heads, Encode(measure, typeString, parentHead),
                     EncodeBackoff(measure, typeString, parentHead, level), head.length);
    case MeasureHeadEvent(measure, head) =>
      RemoveOneTierAfterAdd(c.measureHeads, measure, head.length);
  }

  /** An add keeps every count another remove needs. */
  lemma AddKeepsRemovable(c: Counts, x: Event, ev: Event)
    requires Removable(c, ev)
    ensures Removable(AddEvent(c, x), ev)
  {
    var a := AddEvent(c, x);
    match ev
    case TransitionEvent(measure, typeString, head, transitionString, level) =>
      if x.TransitionEvent? {
        var k, b := Encode(x.measure, x.typeString, x.head), EncodeBackoff(x.measure, x.typeString, x.head, x.level);
        AddTwoTierKeeps(c.transitions, k, b, x.transitionString, Encode(measure, typeString, head), transitionString);
        AddTwoTierKeeps(c.transitions, k, b, x.transitionString,
                        EncodeBackoff(measure, typeString, head, level), transitionString);
      }
    case HeadEvent(measure, typeString, parentHead, head, level) =>
      if x.HeadEvent? {
        var k, b := Encode(x.measure, x.typeString, x.parentHead),
                    EncodeBackoff(x.measure, x.typeString, x.parentHead, x.level);
        AddTwoTierKeeps(c.heads, k, b, x.head.length, Encode(measure, typeString, parentHead), head.length);
        AddTwoTierKeeps(c.heads, k, b, x.head.length,
                        EncodeBackoff(measure, typeString, parentHead, level), head.length);
      }
    case MeasureHeadEvent(measure, head) =>
      if x.MeasureHeadEvent? {
        BumpedCount(c.measureHeads, x.measure, x.head.length, measure, head.length);
      }
  }

  /** On stored counts, removing a removable event commutes with adding any event. */
  lemma RemoveAddCommute(c: Counts, x: Event, ev: Event)
    requires CountsPositive(c) && Removable(c, ev)
    ensures RemoveEvent(c, ev).ok
    ensures RemoveEvent(AddEvent(c, x), ev) == Outcome(AddEvent(RemoveEvent(c, ev).counts, x), true)
  {
    match ev
    case TransitionEvent(measure, typeString, head, transitionString, level) =>
      var k, b := Encode(measure, typeString, head), EncodeBackoff(measure, typeString, head, level);
      RemoveTwoTierPresent(c.transitions, k, b, transitionString);
      if x.TransitionEvent? {
        TwoTierCommute(c.transitions, k, b, transitionString,
                       Encode(x.measure, x.typeString, x.head),
                       EncodeBackoff(x.measure, x.typeString, x.head, x.level), x.transitionString);
      }
    case HeadEvent(measure, typeString, parentHead, head, level) =>
      var k, b := Encode(measure, typeString, parentHead), EncodeBackoff(measure, typeString, parentHead, level);
      RemoveTwoTierPresent(c.heads, k, b, head.length);
      if x.HeadEvent? {
        TwoTierCommute(c.heads, k, b, head.length,
                       Encode(x.measure, x.typeString, x.parentHead),
                       EncodeBackoff(x.measure, x.typeString, x.parentHead, x.level), x.head.length);
      }
    case MeasureHeadEvent(measure, head) =>
      if x.MeasureHeadEvent? {
        BumpedDroppedCommute(c.measureHeads, measure, head.length, x.measure, x.head.length);
      }
  }

  /** The smoothing the probabilities use, left abstract: `transitions(table, count)` and
   *  `heads(table, count)` stand for `Math.log` of the Good-Turing estimate of `count` in the
   *  conditioned table. */
  datatype Smoothing = Smoothing(transitions: (map<string, int>, int) -> real,
                                 heads: (map<real, int>, int) -> real)

  /** The log-probability contribution of one event, as `getTransitionProbability`,
   *  `getHeadProbability` and `getMeasureHeadProbability` compute it. */
  function EventLogProbability(c: Counts, ev: Event, smoothing: Smoothing): real
  {
    match ev
    case TransitionEvent(measure, typeString, head, transitionString, level) =>
      TwoTierLogProbability(c.transitions, Encode(measure, typeString, head),
                            EncodeBackoff(measure, typeString, head, level), transitionString,
                            smoothing.transitions)
    case HeadEvent(measure, typeString, parentHead, head, level) =>
      TwoTierLogProbability(c.heads, Encode(measure, typeString, parentHead),
                            EncodeBackoff(measure, typeString, parentHead, level), head.length,
                            smoothing.heads)
    case MeasureHeadEvent(measure, head) =>
      OneTierLogProbability(c.measureHeads, measure, head.length, smoothing.heads)
  }

  /** `MetricalLpcfgProbabilityTracker`: the three count maps, updated in place. */
  class ProbabilityTracker {
    var transitionMap: map<Key, map<string, int>>
    var headMap: map<Key, map<real, int>>
    var measureHeadMap: map<Measure, map<real, int>>

    function Tables(): Counts
      reads this
    {
      Counts(transitionMap, headMap, measureHeadMap)
    }

    /** A new, empty tracker. */
    constructor()
      ensures Tables() == Counts(map[], map[], map[])
      ensures CountsPositive(Tables())
    {
      transitionMap := map[];
      headMap := map[];
      measureHeadMap := map[];
    }

    /** The deep-copy constructor: the copy holds the same counts in maps of its own. */
    constructor Copy(other: ProbabilityTracker)
      ensures Tables() == other.Tables()
    {
      transitionMap := other.transitionMap;
      headMap := other.headMap;
      measureHeadMap := other.measureHeadMap;
    }

    /** `deepCopy`. */
    method DeepCopy() returns (copy: ProbabilityTracker)
      ensures fresh(copy) && copy.Tables() == Tables()
    {
      copy := new ProbabilityTracker.Copy(this);
    }

    method AddMeasureHead(measure: Measure, head: Head)
      modifies this
      ensures Tables() == AddEvent(old(Tables()), MeasureHeadEvent(measure, head))
    {
      measureHeadMap := AddOne(measureHeadMap, measure, head.length);
    }

    /** `removeMeasureHead`; `ok` is false where it throws. */
    method RemoveMeasureHead(measure: Measure, head: Head) returns (ok: bool)
      modifies this
      ensures Outcome(Tables(), ok) == RemoveEvent(old(Tables()), MeasureHeadEvent(measure, head))
    {
      measureHeadMap, ok := RemoveOne(measureHeadMap, measure, head.length);
    }

    method AddTransition(measure: Measure, typeString: string, head: Head, transitionString: string,
                         level: Level)
      modifies this
      ensures Tables() == AddEvent(old(Tables()), TransitionEvent(measure, typeString, head, transitionString, level))
    {
      var key := Encode(measure, typeString, head);
      var backoffKey := EncodeBackoff(measure, typeString, head, level);
      transitionMap := AddBoth(transitionMap, key, backoffKey, transitionString);
    }

    /** `removeTransition`; `ok` is false where it throws. */
    method RemoveTransition(measure: Measure, typeString: string, head: Head, transitionString: string,
                            level: Level) returns (ok: bool)
      modifies this
      ensures Outcome(Tables(), ok)
              == RemoveEvent(old(Tables()), TransitionEvent(measure, typeString, head, transitionString, level))
    {
      var key := Encode(measure, typeString, head);
      var backoffKey := EncodeBackoff(measure, typeString, head, level);
      transitionMap, ok := RemoveBoth(transitionMap, key, backoffKey, transitionString);
    }

    method AddHead(measure: Measure, typeString: string, parentHead: Head, head: Head, level: Level)
      modifies this
      ensures Tables() == AddEvent(old(Tables()), HeadEvent(measure, typeString, parentHead, head, level))
    {
      var key := Encode(measure, typeString, parentHead);
      var backoffKey := EncodeBackoff(measure, typeString, parentHead, level);
      headMap := AddBoth(headMap, key, backoffKey, head.length);
    }

    /** `removeHead`; `ok` is false where it throws. */
    method RemoveHead(measure: Measure, typeString: string, parentHead: Head, head: Head, level: Level)
      returns (ok: bool)
      modifies this
      ensures Outcome(Tables(), ok)
              == RemoveEvent(old(Tables()), HeadEvent(measure, typeString, parentHead, head, level))
    {
      var key := Encode(measure, typeString, parentHead);
      var backoffKey := EncodeBackoff(measure, typeString, parentHead, level);
      headMap, ok := RemoveBoth(headMap, key, backoffKey, head.length);
    }

    /** `getMeasureHeadProbability`. */
    function MeasureHeadProbability(measure: Measure, head: Head, smoothing: Smoothing): (p: real)
      reads this
      ensures measure !in measureHeadMap ==> p == 0.0
      ensures measure in measureHeadMap ==>
        p == smoothing.heads(measureHeadMap[measure], Count(measureHeadMap, measure, head.length))
    {
      EventLogProbability(Tables(), MeasureHeadEvent(measure, head), smoothing)
    }

    /** `getTransitionProbability`: 0.0 when neither table exists; the back-off term is added
     *  only when the primary count is 0. */
    function TransitionProbability(measure: Measure, typeString: string, head: Head,
                                   transitionString: string, level: Level, smoothing: Smoothing): (p: real)
      reads this
      ensures var k, b := Encode(measure, typeString, head), EncodeBackoff(measure, typeString, head, level);
        && (k !in transitionMap && b !in transitionMap ==> p == 0.0)
        && (Count(transitionMap, k, transitionString) != 0 ==>
              p == smoothing.transitions(transitionMap[k], Count(transitionMap, k, transitionString)))
        && (k in transitionMap && Count(transitionMap, k, transitionString) == 0 && b in transitionMap ==>
              p == smoothing.transitions(transitionMap[k], 0)
                   + smoothing.transitions(transitionMap[b], Count(transitionMap, b, transitionString)))
    {
      EventLogProbability(Tables(), TransitionEvent(measure, typeString, head, transitionString, level), smoothing)
    }

    /** `getHeadProbability`: as `getTransitionProbability`, over head lengths. */
    function HeadProbability(measure: Measure, typeString: string, parentHead: Head, head: Head,
                             level: Level, smoothing: Smoothing): (p: real)
      reads this
      ensures var k, b := Encode(measure, typeString, parentHead), EncodeBackoff(measure, typeString, parentHead, level);
        && (k !in headMap && b !in headMap ==> p == 0.0)
        && (Count(headMap, k, head.length) != 0 ==>
              p == smoothing.heads(headMap[k], Count(headMap, k, head.length)))
        && (k in headMap && Count(headMap, k, head.length) == 0 && b in headMap ==>
              p == smoothing.heads(headMap[k], 0) + smoothing.heads(headMap[b], Count(headMap, b, head.length)))
    {
      EventLogProbability(Tables(), HeadEvent(measure, typeString, parentHead, head, level), smoothing)
    }
  }
}
