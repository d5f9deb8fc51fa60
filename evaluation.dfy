/**
 * The integer part of the evaluation (src/metdetection/utils/Evaluation.java): how a guessed
 * grouping lines up with the correct sub-beat, beat and measure grids, the true and false
 * positives of a guessed meter, its F1 score, and the level count of a line of Temperley's
 * output. Java's `int` arithmetic is taken as unbounded; a Java `ArithmeticException` (a
 * remainder by zero) is `None`.
 */
module Evaluation {
  import opened JavaInt
  import LpcfgTrees

  // ---------------------------------------------------------------------------
  // getMatch

  /** The verdict of one level of `getMatch`. */
  datatype Verdict = Decides(value: int) | Continues | Throws

  /**
   * One level of `getMatch`: a grouping as long as the correct one matches exactly when their
   * offsets agree and overlaps it otherwise; a longer or shorter grouping overlaps a correct
   * boundary unless both ends of the longer fall on the grid of the shorter.
   */
  function LevelMatch(length: int, offset: int, correctLength: int, correctOffset: int): (r: Verdict)
  {
    if correctLength == length then
      Decides(if correctOffset == offset then 1 else -1)
    else if correctLength < length then
      if correctLength == 0 then Throws
      else if JRem(offset - correctOffset, correctLength) != 0
              || JRem(offset + length - correctOffset, correctLength) != 0 then Decides(-1)
      else Continues
    else
      if length == 0 then Throws
      else if JRem(correctOffset - offset, length) != 0
              || JRem(correctOffset + correctLength - offset, length) != 0 then Decides(-1)
      else Continues
  }

  /** The finer of two grids of positive lengths holds both ends of the coarser one's grouping. */
  predicate Nested(length: int, offset: int, correctLength: int, correctOffset: int)
    requires length > 0 && correctLength > 0
  {
    (correctLength < length ==>
       (offset - correctOffset) % correctLength == 0 && (offset + length - correctOffset) % correctLength == 0)
    && (length < correctLength ==>
          (correctOffset - offset) % length == 0 && (correctOffset + correctLength - offset) % length == 0)
  }

  /**
   * For positive lengths a level never throws and decides exactly as on the Euclidean grids:
   * it matches exactly when length and offset agree, passes the grouping on when the lengths
   * differ and the grids nest, and finds an overlap otherwise.
   */
  lemma LevelMatchOnGrid(length: int, offset: int, correctLength: int, correctOffset: int)
    requires length > 0 && correctLength > 0
    ensures var r := LevelMatch(length, offset, correctLength, correctOffset);
      !r.Throws?
      && (r == Decides(1) <==> length == correctLength && offset == correctOffset)
      && (r == Continues <==> length != correctLength && Nested(length, offset, correctLength, correctOffset))
      && (r == Decides(-1) <==>
            if length == correctLength then offset != correctOffset
            else !Nested(length, offset, correctLength, correctOffset))
  {
    JRemZeroIff(offset - correctOffset, correctLength);
    JRemZeroIff(offset + length - correctOffset, correctLength);
    JRemZeroIff(correctOffset - offset, length);
    JRemZeroIff(correctOffset + correctLength - offset, length);
  }

  /** The three correct grids `getMatch` checks. */
  function BeatLength(correctMeasure: LpcfgTrees.Measure, correctSubBeatLength: int): (r: int)
    ensures correctSubBeatLength > 0 && correctMeasure.subBeatsPerBeat > 0 ==> r > 0
  {
    var r := correctSubBeatLength * correctMeasure.subBeatsPerBeat;
    assert correctSubBeatLength > 0 && correctMeasure.subBeatsPerBeat > 0 ==> r > 0 by {
      if correctSubBeatLength > 0 && correctMeasure.subBeatsPerBeat > 0 {
        PositiveProduct(correctSubBeatLength, correctMeasure.subBeatsPerBeat);
      }
    }
    r
  }

  function MeasureLength(correctMeasure: LpcfgTrees.Measure, correctSubBeatLength: int): (r: int)
    ensures correctSubBeatLength > 0 && correctMeasure.subBeatsPerBeat > 0 && correctMeasure.beatsPerMeasure > 0 ==> r > 0
  {
    var b := BeatLength(correctMeasure, correctSubBeatLength);
    var r := b * correctMeasure.beatsPerMeasure;
    assert b > 0 && correctMeasure.beatsPerMeasure > 0 ==> r > 0 by {
      if b > 0 && correctMeasure.beatsPerMeasure > 0 {
        PositiveProduct(b, correctMeasure.beatsPerMeasure);
      }
    }
    r
  }

  /**
   * `getMatch`: the sub-beat, then the beat, then the measure level, each with the correct
   * offset (the anacrusis modulo the level's length, the anacrusis itself for the measure);
   * the first level that decides gives the result, and 0 when none does.
   */
  function GetMatch(length: int, offset: int, correctMeasure: LpcfgTrees.Measure, correctSubBeatLength: int,
                    correctAnacrusisLength: int): (r: Option<int>)
    ensures r.Some? ==> -1 <= r.value <= 1
    ensures correctSubBeatLength == 0 ==> r.None?
    ensures correctSubBeatLength != 0 && length == correctSubBeatLength ==>
      r == Some(if offset == JRem(correctAnacrusisLength, correctSubBeatLength) then 1 else -1)
    ensures r == Some(1) ==>
      (length == correctSubBeatLength && offset == JRem(correctAnacrusisLength, correctSubBeatLength))
      || (var b := BeatLength(correctMeasure, correctSubBeatLength);
          b != 0 && length == b && offset == JRem(correctAnacrusisLength, b))
      || (length == MeasureLength(correctMeasure, correctSubBeatLength) && offset == correctAnacrusisLength)
    ensures r == Some(0) ==>
      length != correctSubBeatLength && length != BeatLength(correctMeasure, correctSubBeatLength)
      && length != MeasureLength(correctMeasure, correctSubBeatLength)
  {
    var subBeat := correctSubBeatLength;
    if subBeat == 0 then None
    else
      match LevelMatch(length, offset, subBeat, JRem(correctAnacrusisLength, subBeat))
      case Throws => None
      case Decides(v) => Some(v)
      case Continues =>
        var beat := BeatLength(correctMeasure, correctSubBeatLength);
        if beat == 0 then None
        else
          match LevelMatch(length, offset, beat, JRem(correctAnacrusisLength, beat))
          case Throws => None
          case Decides(v) => Some(v)
          case Continues =>
            var measure := MeasureLength(correctMeasure, correctSubBeatLength);
            match LevelMatch(length, offset, measure, correctAnacrusisLength)
            case Throws => None
            case Decides(v) => Some(v)
            case Continues => Some(0)
  }

  /** Every length `getMatch` divides by is positive: the correct levels and the grouping. */
  predicate PositiveGrids(length: int, correctMeasure: LpcfgTrees.Measure, correctSubBeatLength: int)
  {
    length > 0 && correctSubBeatLength > 0 && correctMeasure.subBeatsPerBeat > 0 && correctMeasure.beatsPerMeasure > 0
  }

  /**
   * On positive lengths and a non-negative anacrusis `getMatch` never throws, and it is 0
   * exactly when the grouping is none of the correct levels and nests with each of their
   * grids: it lies under one correct grouping and could be grouped up into it.
   */
  lemma GetMatchZeroOnGrid(length: int, offset: int, correctMeasure: LpcfgTrees.Measure, correctSubBeatLength: int,
                           correctAnacrusisLength: int)
    requires PositiveGrids(length, correctMeasure, correctSubBeatLength) && correctAnacrusisLength >= 0
    ensures var r := GetMatch(length, offset, correctMeasure, correctSubBeatLength, correctAnacrusisLength);
      var b := BeatLength(correctMeasure, correctSubBeatLength);
      var m := MeasureLength(correctMeasure, correctSubBeatLength);
      r.Some?
      && (r == Some(0) <==>
            length != correctSubBeatLength && length != b && length != m
            && Nested(length, offset, correctSubBeatLength, correctAnacrusisLength % correctSubBeatLength)
            && Nested(length, offset, b, correctAnacrusisLength % b)
            && Nested(length, offset, m, correctAnacrusisLength))
  {
    var b := BeatLength(correctMeasure, correctSubBeatLength);
    var m := MeasureLength(correctMeasure, correctSubBeatLength);
    JavaAgreesOnNatural(correctAnacrusisLength, correctSubBeatLength);
    JavaAgreesOnNatural(correctAnacrusisLength, b);
    LevelMatchOnGrid(length, offset, correctSubBeatLength, correctAnacrusisLength % correctSubBeatLength);
    LevelMatchOnGrid(length, offset, b, correctAnacrusisLength % b);
    LevelMatchOnGrid(length, offset, m, correctAnacrusisLength);
  }

  // ---------------------------------------------------------------------------
  // getAccuracyString

  /** The true positive, false positive and false negative counts of a guessed meter. */
  datatype Counts = Counts(truePositives: int, falsePositives: int, falseNegatives: int)

  /** The number of matches among `matches` that are positive. */
  function Positives(matches: seq<int>): (n: nat)
    ensures n <= |matches|
  {
    if |matches| == 0 then 0 else Positives(matches[..|matches| - 1]) + (if matches[|matches| - 1] > 0 then 1 else 0)
  }

  /** The number of matches among `matches` that are negative. */
  function Negatives(matches: seq<int>): (n: nat)
    ensures n <= |matches|
  {
    if |matches| == 0 then 0 else Negatives(matches[..|matches| - 1]) + (if matches[|matches| - 1] < 0 then 1 else 0)
  }

  /** No match is both positive and negative. */
  lemma {:induction false} PositivesAndNegatives(matches: seq<int>)
    ensures Positives(matches) + Negatives(matches) <= |matches|
  {
    if |matches| > 0 {
      PositivesAndNegatives(matches[..|matches| - 1]);
    }
  }

  /** The guess has the correct measure, sub-beat length and anacrusis. */
  predicate ExactGuess(correctMeasure: LpcfgTrees.Measure, correctSubBeatLength: int, correctAnacrusisLength: int,
                       hypothesisMeasure: LpcfgTrees.Measure, hypothesisSubBeatLength: int,
                       hypothesisAnacrusisLength: int)
  {
    hypothesisMeasure == correctMeasure && hypothesisAnacrusisLength == correctAnacrusisLength
    && hypothesisSubBeatLength == correctSubBeatLength
  }

  /**
   * The counts of `getAccuracyString`: an exact guess (measure, sub-beat length and anacrusis)
   * scores three true positives; otherwise the guessed sub-beat (offset 0), beat (offset the
   * anacrusis modulo its length) and measure (offset the anacrusis) are each matched against
   * the correct grids, a positive match counting as a true positive and a negative one as a
   * false positive, and every level not matched is a false negative.
   */
  function AccuracyCounts(correctMeasure: LpcfgTrees.Measure, correctSubBeatLength: int, correctAnacrusisLength: int,
                          hypothesisMeasure: LpcfgTrees.Measure, hypothesisSubBeatLength: int,
                          hypothesisAnacrusisLength: int): (r: Option<Counts>)
    ensures r.Some? ==> r.value.truePositives + r.value.falseNegatives == 3
    ensures r.Some? ==>
      0 <= r.value.truePositives && 0 <= r.value.falsePositives && r.value.truePositives + r.value.falsePositives <= 3
    ensures var exact := ExactGuess(correctMeasure, correctSubBeatLength, correctAnacrusisLength,
                                    hypothesisMeasure, hypothesisSubBeatLength, hypothesisAnacrusisLength);
      (exact ==> r == Some(Counts(3, 0, 0))) && (correctSubBeatLength == 0 && !exact ==> r.None?)
  {
    if ExactGuess(correctMeasure, correctSubBeatLength, correctAnacrusisLength,
                  hypothesisMeasure, hypothesisSubBeatLength, hypothesisAnacrusisLength) then
      Some(Counts(3, 0, 0))
    else
      var subBeat := hypothesisSubBeatLength;
      match GetMatch(subBeat, 0, correctMeasure, correctSubBeatLength, correctAnacrusisLength)
      case None => None
      case Some(m1) =>
        var beat := subBeat * hypothesisMeasure.subBeatsPerBeat;
        if beat == 0 then None
        else
          match GetMatch(beat, JRem(hypothesisAnacrusisLength, beat), correctMeasure, correctSubBeatLength,
                         correctAnacrusisLength)
          case None => None
          case Some(m2) =>
            var measure := beat * hypothesisMeasure.beatsPerMeasure;
            match GetMatch(measure, hypothesisAnacrusisLength, correctMeasure, correctSubBeatLength,
                           correctAnacrusisLength)
            case None => None
            case Some(m3) =>
              var tp := Positives([m1, m2, m3]);
              PositivesAndNegatives([m1, m2, m3]);
              Some(Counts(tp, Negatives([m1, m2, m3]), 3 - tp))
  }

  /** `truePositives / (truePositives + falsePositives)` as a double: `None` for Java's NaN. */
  function Precision(c: Counts): Option<real>
  {
    if c.truePositives + c.falsePositives == 0 then None
    else Some(c.truePositives as real / (c.truePositives + c.falsePositives) as real)
  }

  /** `truePositives / (truePositives + falseNegatives)` as a double: `None` for Java's NaN. */
  function Recall(c: Counts): Option<real>
  {
    if c.truePositives + c.falseNegatives == 0 then None
    else Some(c.truePositives as real / (c.truePositives + c.falseNegatives) as real)
  }

  /** `2 * precision * recall / (precision + recall)`, with a NaN (any `0 / 0`) replaced by 0. */
  function F1(c: Counts): real
  {
    match (Precision(c), Recall(c))
    case (Some(p), Some(r)) => if p + r == 0.0 then 0.0 else 2.0 * p * r / (p + r)
    case _ => 0.0
  }

  /**
   * On counts that cover every level (no count negative, some true positive or false negative)
   * the F1 score is 0 exactly when there is no true positive, and otherwise
   * `2 TP / (2 TP + FP + FN)`.
   */
  lemma F1Closed(c: Counts)
    requires c.truePositives >= 0 && c.falsePositives >= 0 && c.falseNegatives >= 0
    requires c.truePositives + c.falseNegatives > 0
    ensures c.truePositives == 0 ==> F1(c) == 0.0
    ensures c.truePositives > 0 ==>
      F1(c) == 2.0 * c.truePositives as real
               / (2 * c.truePositives + c.falsePositives + c.falseNegatives) as real
  {
    if c.truePositives > 0 {
      var t, f, n := c.truePositives as real, c.falsePositives as real, c.falseNegatives as real;
      var p, r := t / (t + f), t / (t + n);
      assert Precision(c) == Some(p) && Recall(c) == Some(r);
      assert p * (t + f) == t && r * (t + n) == t;
      assert p + r > 0.0;
      F1Ratio(t, f, n, p, r);
    }
  }

  /** The algebra behind `F1Closed`. */
  lemma F1Ratio(t: real, f: real, n: real, p: real, r: real)
    requires t > 0.0 && f >= 0.0 && n >= 0.0
    requires p * (t + f) == t && r * (t + n) == t && p + r > 0.0
    ensures 2.0 * p * r / (p + r) == 2.0 * t / (2.0 * t + f + n)
  {
    var d := 2.0 * t + f + n;
    var q := 2.0 * p * r / (p + r);
    assert q * (p + r) == 2.0 * p * r;
    assert (p + r) * (t + f) * (t + n) == t * d by {
      assert p * (t + f) * (t + n) == t * (t + n);
      assert r * (t + n) * (t + f) == t * (t + f);
    }
    assert 2.0 * p * r * (t + f) * (t + n) == 2.0 * t * t;
    assert q * t * d == 2.0 * t * t;
    assert q * d == 2.0 * t;
  }

  /** An exact guess has F1 score 1. */
  lemma ExactGuessScoresOne(correctMeasure: LpcfgTrees.Measure, correctSubBeatLength: int, correctAnacrusisLength: int)
    ensures var r := AccuracyCounts(correctMeasure, correctSubBeatLength, correctAnacrusisLength,
                                    correctMeasure, correctSubBeatLength, correctAnacrusisLength);
      r == Some(Counts(3, 0, 0)) && F1(r.value) == 1.0
  {
    F1Closed(Counts(3, 0, 0));
  }

  // ---------------------------------------------------------------------------
  // getNumLevels

  /** A level mark `"x "` starts at position `i` of `line`. */
  predicate MarkAt(line: string, i: int)
  {
    0 <= i && i + 1 < |line| && line[i] == 'x' && line[i + 1] == ' '
  }

  /** The number of positions at or after `from` where a level mark starts. */
  function MarksFrom(line: string, from: nat): nat
    decreases |line| - from
  {
    if from + 1 >= |line| then 0 else (if MarkAt(line, from) then 1 else 0) + MarksFrom(line, from + 1)
  }

  /** `line.indexOf("x ", from)`: the first mark at or after `from`, or -1. */
  function IndexOfMark(line: string, from: nat): (r: int)
    ensures r == -1 || (from <= r && MarkAt(line, r))
    ensures r != -1 ==> forall i :: from <= i < r ==> !MarkAt(line, i)
    ensures r == -1 ==> forall i :: from <= i ==> !MarkAt(line, i)
    decreases |line| - from
  {
    if from + 1 >= |line| then -1 else if MarkAt(line, from) then from else IndexOfMark(line, from + 1)
  }

  /** Positions without a mark do not count. */
  lemma {:induction false} MarksSkip(line: string, from: nat, to: nat)
    requires from <= to && forall i :: from <= i < to ==> !MarkAt(line, i)
    ensures MarksFrom(line, from) == MarksFrom(line, to)
    decreases (to as int) - (from as int)
  {
    if from < to {
      MarksSkip(line, from + 1, to);
    }
  }

  /** The two characters of a mark hold one mark: a mark cannot start at its blank. */
  lemma MarksAfterMark(line: string, i: nat)
    requires MarkAt(line, i)
    ensures MarksFrom(line, i) == 1 + MarksFrom(line, i + 2)
  {
    assert !MarkAt(line, i + 1);
    if i + 2 < |line| {
      assert MarksFrom(line, i + 1) == MarksFrom(line, i + 2);
    }
  }

  /** A line with no mark at or after `from` has none to count. */
  lemma {:induction false} NoMarks(line: string, from: nat)
    requires forall i :: from <= i ==> !MarkAt(line, i)
    ensures MarksFrom(line, from) == 0
    decreases |line| - from
  {
    if from + 1 < |line| {
      NoMarks(line, from + 1);
    }
  }

  /** Marks never overlap, so a line of `n` characters holds at most `n / 2` of them. */
  lemma {:induction false} MarksBound(line: string, from: nat)
    requires from <= |line|
    ensures 2 * MarksFrom(line, from) <= |line| - from
    decreases |line| - from
  {
    if from + 1 < |line| {
      if MarkAt(line, from) {
        MarksAfterMark(line, from);
        MarksBound(line, from + 2);
      } else {
        MarksBound(line, from + 1);
      }
    }
  }

  /**
   * `getNumLevels`: search for `"x "` from the last mark's end until there is none, counting
   * the hits; the count is the number of marks on the line, and at most half its length.
   */
  method GetNumLevels(line: string) returns (count: int)
    ensures count == MarksFrom(line, 0) && 2 * count <= |line|
  {
    MarksBound(line, 0);
    var lastIndex := 0;
    count := 0;
    while lastIndex != -1
      invariant lastIndex == -1 || 0 <= lastIndex <= |line| + 1
      invariant count + (if lastIndex == -1 then 0 else MarksFrom(line, lastIndex)) == MarksFrom(line, 0)
      decreases if lastIndex == -1 then 0 else |line| + 2 - lastIndex
    {
      var from := lastIndex;
      lastIndex := IndexOfMark(line, from);
      if lastIndex != -1 {
        MarksSkip(line, from, lastIndex);
        MarksAfterMark(line, lastIndex);
        count := count + 1;
        lastIndex := lastIndex + 2;
      } else {
        NoMarks(line, from);
      }
    }
  }
}
