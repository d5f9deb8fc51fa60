/**
 * The match bookkeeping of a metrical hypothesis
 * (src/metdetection/meter/lpcfg/MetricalLpcfgMetricalModelState.java): the three match
 * counters, the decision table that classifies one span of a note against the hypothesis'
 * sub-beat, beat and measure grids, the split of a note at the grid of a level already
 * matched, and the tactus arithmetic these share. Division and remainder are Java's, which
 * truncate toward zero; tactus values go negative inside the anacrusis.
 */
module MetricalMatches {
  import opened JavaInt
  import opened Beats
  import opened LpcfgTrees

  /** `MetricalLpcfgMatch`. */
  datatype MatchKind = SubBeatMatch | BeatMatch | WrongMatch

  /** The number of WRONG matches at which a hypothesis is eliminated. */
  const WRONG_LIMIT: nat := 5

  /** The counters `subBeatMatches`, `beatMatches` and `wrongMatches`. */
  datatype Counters = Counters(subBeat: nat, beat: nat, wrong: nat)

  /** `isWrong`. */
  predicate IsWrong(c: Counters)
  {
    c.wrong >= WRONG_LIMIT
  }

  /** `isFullyMatched`: both the sub-beat and the beat level have been matched. */
  predicate IsFullyMatched(c: Counters)
  {
    c.subBeat > 0 && c.beat > 0
  }

  /** `matches`. */
  predicate Matches(c: Counters, m: MatchKind)
  {
    match m
    case SubBeatMatch => c.subBeat > 0
    case BeatMatch => c.beat > 0
    case WrongMatch => IsWrong(c)
  }

  /** Counter by counter, `c` is at most `d`. */
  predicate NoLess(c: Counters, d: Counters)
  {
    c.subBeat <= d.subBeat && c.beat <= d.beat && c.wrong <= d.wrong
  }

  function Total(c: Counters): nat
  {
    c.subBeat + c.beat + c.wrong
  }

  /** `addMatch`: exactly one counter, the one of the given kind, goes up by one. */
  function AddMatch(c: Counters, m: MatchKind): (r: Counters)
    ensures NoLess(c, r) && Total(r) == Total(c) + 1
    ensures r.subBeat > c.subBeat <==> m == SubBeatMatch
    ensures r.beat > c.beat <==> m == BeatMatch
    ensures r.wrong > c.wrong <==> m == WrongMatch
    ensures m != WrongMatch ==> Matches(r, m)
  {
    match m
    case SubBeatMatch => c.(subBeat := c.subBeat + 1)
    case BeatMatch => c.(beat := c.beat + 1)
    case WrongMatch => c.(wrong := c.wrong + 1)
  }

  /** A classification that may add no match at all. */
  function AddOptional(c: Counters, m: Option<MatchKind>): (r: Counters)
    ensures NoLess(c, r)
    ensures m.None? ==> r == c
    ensures m.Some? ==> Total(r) == Total(c) + 1
  {
    if m.Some? then AddMatch(c, m.value) else c
  }

  /** Counters never go down, so once a level is matched, or the hypothesis wrong, it stays so. */
  lemma NoLessKeepsMatches(c: Counters, d: Counters)
    requires NoLess(c, d)
    ensures IsWrong(c) ==> IsWrong(d)
    ensures IsFullyMatched(c) ==> IsFullyMatched(d)
    ensures forall m :: Matches(c, m) ==> Matches(d, m)
  {
  }

  lemma NoLessTransitive(c: Counters, d: Counters, e: Counters)
    requires NoLess(c, d) && NoLess(d, e)
    ensures NoLess(c, e)
  {
  }

  // ---------------------------------------------------------------------------
  // Grids

  /** The sub-beat length, the measure and the anacrusis (in sub-beats) of a hypothesis. */
  datatype Geometry = Geometry(subBeatLength: int, measure: Measure, anacrusis: int)

  /** What a hypothesis that has chosen its measure satisfies. */
  predicate GeometryValid(g: Geometry)
  {
    g.subBeatLength > 0 && g.measure.beatsPerMeasure > 0 && g.measure.subBeatsPerBeat > 0
    && g.anacrusis >= 0
  }

  function BeatLength(g: Geometry): (n: int)
    requires GeometryValid(g)
    ensures n >= g.subBeatLength > 0
  {
    PositiveProduct(g.subBeatLength, g.measure.subBeatsPerBeat);
    g.subBeatLength * g.measure.subBeatsPerBeat
  }

  function MeasureTacti(g: Geometry): (n: int)
    requires GeometryValid(g)
    ensures n >= BeatLength(g) > 0
  {
    PositiveProduct(BeatLength(g), g.measure.beatsPerMeasure);
    BeatLength(g) * g.measure.beatsPerMeasure
  }

  /**
   * `getTactusNormalized`: with a non-zero number of tacti per measure, the beat's tactus is
   * counted from the first beat of the beat tracker.
   */
  function TactusNormalized(tactiPerMeasure: int, firstBeat: Beat, measure: int, tactus: int): int
  {
    if tactiPerMeasure != 0 then
      tactus + tactiPerMeasure * (measure - firstBeat.measure) - firstBeat.beat
    else tactus
  }

  /**
   * Counted from the first beat, the first beat itself is tactus 0 and a beat one measure later
   * lies one measure's worth of tacti later; with 0 tacti per measure the tactus is unchanged.
   */
  lemma TactusFromFirstBeat(tactiPerMeasure: int, firstBeat: Beat, measure: int, tactus: int)
    ensures tactiPerMeasure != 0 ==> TactusNormalized(tactiPerMeasure, firstBeat, firstBeat.measure, firstBeat.beat) == 0
    ensures TactusNormalized(tactiPerMeasure, firstBeat, measure + 1, tactus)
            == TactusNormalized(tactiPerMeasure, firstBeat, measure, tactus) + tactiPerMeasure
    ensures tactiPerMeasure == 0 ==> TactusNormalized(tactiPerMeasure, firstBeat, measure, tactus) == tactus
  {
  }

  /**
   * The shift `checkConglomerateBeatMatch` adds when the anacrusis is not a whole number of
   * beats: together with the anacrusis' partial beat it makes up exactly one beat.
   */
  function PartialBeatShift(g: Geometry): (s: int)
    requires GeometryValid(g)
    ensures 0 <= s < BeatLength(g)
    ensures s == 0 <==> JRem(g.anacrusis, g.measure.subBeatsPerBeat) == 0
    ensures s != 0 ==> s + g.subBeatLength * JRem(g.anacrusis, g.measure.subBeatsPerBeat) == BeatLength(g)
  {
    var r := JRem(g.anacrusis, g.measure.subBeatsPerBeat);
    if r != 0 then
      assert g.subBeatLength * (g.measure.subBeatsPerBeat - r) + g.subBeatLength * r
             == g.subBeatLength * g.measure.subBeatsPerBeat;
      PositiveProduct(g.subBeatLength, g.measure.subBeatsPerBeat - r);
      PositiveProduct(g.subBeatLength, r);
      g.subBeatLength * (g.measure.subBeatsPerBeat - r)
    else 0
  }

  // ---------------------------------------------------------------------------
  // The decision table

  /**
   * `updateMatchType(startTactus, noteLengthTacti)`: the match a span of `len` tacti starting
   * at `start` adds, if any, given the levels already matched. Java divides by the length when
   * it is shorter than a sub-beat, so a length of 0 is excluded.
   */
  function Classify(g: Geometry, c: Counters, start: int, len: int): (r: Option<MatchKind>)
    requires GeometryValid(g) && len != 0
    // A SUB_BEAT match is a sub-beat-long span on the sub-beat grid, before that level matched.
    ensures r == Some(SubBeatMatch) <==>
      c.subBeat == 0 && len == g.subBeatLength && JRem(start, g.subBeatLength) == 0
    // A BEAT match is a beat-long span on the beat grid, unless only the beat level matched.
    ensures r == Some(BeatMatch) <==>
      ((c.subBeat > 0 || c.beat == 0) && len == BeatLength(g) && len != g.subBeatLength
       && JRem(start, BeatLength(g)) == 0)
    // Once SUB_BEAT is matched: between a sub-beat and a beat, off the beat grid, or longer
    // than a beat without being a multiple of it, is WRONG.
    ensures c.subBeat > 0 ==>
      (r == Some(WrongMatch) <==>
         ((g.subBeatLength < len < BeatLength(g))
          || (g.subBeatLength < len == BeatLength(g) && JRem(start, BeatLength(g)) != 0)
          || (len > BeatLength(g) && JRem(len, BeatLength(g)) != 0)))
    // Before SUB_BEAT is matched: a span shorter than a sub-beat must divide the sub-beat and
    // its offset in it; a sub-beat-long span decides the sub-beat level either way; and a span
    // between a sub-beat and a beat must start or end on the beat grid.
    ensures c.subBeat == 0 && len < g.subBeatLength ==>
      (r == Some(WrongMatch) <==>
         (JRem(g.subBeatLength, len) != 0 || JRem(JRem(start, g.subBeatLength), len) != 0))
    ensures c.subBeat == 0 && len == g.subBeatLength ==> r.Some? && r != Some(BeatMatch)
    ensures c.subBeat == 0 && g.subBeatLength < len < BeatLength(g) ==>
      (r == Some(WrongMatch) <==>
         (JRem(start, BeatLength(g)) != 0 && JRem(start, BeatLength(g)) + len != BeatLength(g)))
    // With only BEAT matched, a span a beat long or longer never adds a match.
    ensures c.subBeat == 0 && c.beat > 0 && len >= BeatLength(g) && len != g.subBeatLength ==> r.None?
    // With nothing matched, a span longer than a beat must divide the measure, sit on its
    // phase, start on the beat grid and be a whole number of beats.
    ensures c.subBeat == 0 && c.beat == 0 && len > BeatLength(g) ==>
      (r.None? <==>
         (JRem(MeasureTacti(g), len) == 0 && JRem(JRem(start, MeasureTacti(g)), len) == 0
          && JRem(start, BeatLength(g)) == 0 && JRem(len, BeatLength(g)) == 0))
  {
    var sbl := g.subBeatLength;
    var bl := BeatLength(g);
    var ml := MeasureTacti(g);
    var subBeatOffset := JRem(start, sbl);
    var beatOffset := JRem(start, bl);
    var measureOffset := JRem(start, ml);
    if c.subBeat > 0 then
      if len < sbl then None
      else if len == sbl then None
      else if len < bl then Some(WrongMatch)
      else if len == bl then Some(if beatOffset == 0 then BeatMatch else WrongMatch)
      else if JRem(len, bl) != 0 then Some(WrongMatch)
      else None
    else if c.beat > 0 then
      if len < sbl then
        if JRem(sbl, len) != 0 || JRem(subBeatOffset, len) != 0 then Some(WrongMatch) else None
      else if len == sbl then Some(if subBeatOffset == 0 then SubBeatMatch else WrongMatch)
      else if len < bl then
        if beatOffset != 0 && beatOffset + len != bl then Some(WrongMatch) else None
      else None
    else
      if len < sbl then
        if JRem(sbl, len) != 0 || JRem(subBeatOffset, len) != 0 then Some(WrongMatch) else None
      else if len == sbl then Some(if subBeatOffset == 0 then SubBeatMatch else WrongMatch)
      else if len < bl then
        if beatOffset != 0 && beatOffset + len != bl then Some(WrongMatch) else None
      else if len == bl then Some(if beatOffset == 0 then BeatMatch else WrongMatch)
      else if JRem(ml, len) != 0 || JRem(measureOffset, len) != 0 || beatOffset != 0 || JRem(len, bl) != 0 then
        Some(WrongMatch)
      else None
  }

  /** A multiple of a positive number has Java remainder 0 by it. */
  lemma JRemOfMultiple(k: int, u: int)
    requires u > 0
    ensures JRem(k * u, u) == 0
  {
    MultipleMod(k * u, u, k);
    JRemZeroIff(k * u, u);
  }

  /**
   * A note that is exactly one sub-beat, one beat or one measure long and starts on that
   * level's grid is never WRONG, whatever has been matched so far.
   */
  lemma GridAlignedNeverWrong(g: Geometry, c: Counters, k: int, unit: int)
    requires GeometryValid(g) && k >= 0
    requires unit == g.subBeatLength || unit == BeatLength(g) || unit == MeasureTacti(g)
    ensures Classify(g, c, k * unit, unit) != Some(WrongMatch)
  {
    if unit == g.subBeatLength {
      SubBeatAlignedNeverWrong(g, c, k);
    } else if unit == BeatLength(g) {
      BeatAlignedNeverWrong(g, c, k);
    } else {
      MeasureAlignedNeverWrong(g, c, k);
    }
  }

  /** The sub-beat case of `GridAlignedNeverWrong`. */
  lemma SubBeatAlignedNeverWrong(g: Geometry, c: Counters, k: int)
    requires GeometryValid(g) && k >= 0
    ensures Classify(g, c, k * g.subBeatLength, g.subBeatLength) != Some(WrongMatch)
  {
    JRemOfMultiple(k, g.subBeatLength);
    JRemOfMultiple(1, g.subBeatLength);
  }

  /** The beat case of `GridAlignedNeverWrong`. */
  lemma BeatAlignedNeverWrong(g: Geometry, c: Counters, k: int)
    requires GeometryValid(g) && k >= 0
    ensures Classify(g, c, k * BeatLength(g), BeatLength(g)) != Some(WrongMatch)
  {
    var bl := BeatLength(g);
    var start := k * bl;
    JRemOfMultiple(k, bl);
    JRemOfMultiple(1, bl);
    assert start == (k * g.measure.subBeatsPerBeat) * g.subBeatLength;
    JRemOfMultiple(k * g.measure.subBeatsPerBeat, g.subBeatLength);
  }

  /** The measure case of `GridAlignedNeverWrong`. */
  lemma MeasureAlignedNeverWrong(g: Geometry, c: Counters, k: int)
    requires GeometryValid(g) && k >= 0
    ensures Classify(g, c, k * MeasureTacti(g), MeasureTacti(g)) != Some(WrongMatch)
  {
    var bl := BeatLength(g);
    var ml := MeasureTacti(g);
    var start := k * ml;
    JRemOfMultiple(k, ml);
    JRemOfMultiple(1, ml);
    assert start == (k * g.measure.beatsPerMeasure) * bl;
    JRemOfMultiple(k * g.measure.beatsPerMeasure, bl);
    JRemOfMultiple(g.measure.beatsPerMeasure, bl);
    if ml > bl {
      JavaAgreesOnNatural(0, ml);
    }
  }

  // ---------------------------------------------------------------------------
  // Splitting a note at a matched level's grid

  /** The prefix, middle and postfix spans `updateMatchType(note)` checks. */
  datatype Segments = Segments(prefixStart: int, prefixLength: int,
                               middleStart: int, middleLength: int,
                               postfixStart: int, postfixLength: int)

  /** The split of `[start, start + len)` given the offsets of its ends in a grid of `unit`. */
  function CutAt(start: int, len: int, unit: int, offset: int, endOffset: int): Segments
  {
    var prefixLength := if offset != 0 then unit - offset else 0;
    Segments(start, prefixLength, start + prefixLength, len - prefixLength - endOffset,
             start + len - endOffset, endOffset)
  }

  /** Whether the span crosses a boundary of the grid of `unit`, in Java's division. */
  predicate Crosses(start: int, len: int, unit: int)
    requires unit > 0
  {
    JDiv(start, unit) != JDiv(start + len - 1, unit)
  }

  /**
   * The split `updateMatchType(note)` makes of a note at `start` (already moved back by the
   * anacrusis) of `len` tacti: at the sub-beat grid once sub-beats are matched and the note
   * crosses a sub-beat, else at the beat grid once beats are matched and it crosses a beat,
   * else not at all. The three segments always tile the note.
   */
  function Split(g: Geometry, c: Counters, start: int, len: int): (s: Segments)
    requires GeometryValid(g)
    ensures s.prefixStart == start && s.prefixStart + s.prefixLength == s.middleStart
    ensures s.middleStart + s.middleLength == s.postfixStart
    ensures s.postfixStart + s.postfixLength == start + len
    ensures !(c.subBeat > 0 && Crosses(start, len, g.subBeatLength))
            && !(c.beat > 0 && Crosses(start, len, BeatLength(g))) ==>
            s == Segments(start, 0, start, len, start + len, 0)
  {
    var sbl := g.subBeatLength;
    var bl := BeatLength(g);
    var end := start + len;
    if c.subBeat > 0 && Crosses(start, len, sbl) then
      CutAt(start, len, sbl, JRem(start, sbl), JRem(end, sbl))
    else if c.beat > 0 && Crosses(start, len, bl) then
      var r := JRem(g.anacrusis, g.measure.subBeatsPerBeat);
      var diff := if r != 0 then sbl * (g.measure.subBeatsPerBeat - r) else 0;
      CutAt(start, len, bl, JRem(start + diff + sbl * r, bl), JRem(end + diff + sbl * r, bl))
    else Segments(start, 0, start, len, end, 0)
  }

  /**
   * Cutting a non-negative span that crosses a grid boundary: the prefix runs up to the first
   * boundary and the postfix back from the last, each shorter than one unit, and the middle is
   * a non-negative whole number of units starting on the grid.
   */
  lemma CutOnGrid(start: int, len: int, unit: int)
    requires start >= 0 && len >= 1 && unit > 0
    requires start / unit != (start + len - 1) / unit
    ensures var s := CutAt(start, len, unit, start % unit, (start + len) % unit);
      0 <= s.prefixLength < unit && 0 <= s.postfixLength < unit
      && s.middleStart % unit == 0 && s.middleLength >= 0 && s.middleLength % unit == 0
  {
    var a := start / unit;
    var e := (start + len) / unit;
    DivMonotone(start, start + len - 1, unit);
    DivMonotone(start + len - 1, start + len, unit);
    var first := if start % unit != 0 then a + 1 else a;
    assert first <= e;
    var s := CutAt(start, len, unit, start % unit, (start + len) % unit);
    assert s.middleStart == unit * first by {
      assert start == unit * a + start % unit;
      assert unit * (a + 1) == unit * a + unit;
    }
    assert s.postfixStart == unit * e by {
      assert start + len == unit * e + (start + len) % unit;
    }
    assert s.middleLength == unit * (e - first) by {
      assert unit * (e - first) == unit * e - unit * first;
    }
    MultipleMod(s.middleStart, unit, first);
    MultipleMod(s.middleLength, unit, e - first);
    NonNegativeProduct(unit, e - first);
  }

  lemma NonNegativeProduct(a: int, b: int)
    requires a >= 0 && b >= 0
    ensures a * b >= 0
  {
  }

  lemma NegativeFactor(u: int, d: int)
    requires u > 0 && u * d < 0
    ensures d < 0
  {
  }

  /** Division by a positive number is monotone on non-negative values. */
  lemma DivMonotone(x: int, y: int, u: int)
    requires 0 <= x <= y && u > 0
    ensures x / u <= y / u
  {
    var p := x / u;
    var q := y / u;
    assert u * p <= x;
    assert y < u * q + u;
    assert u * (p - q - 1) == u * p - (u * q + u);
    NegativeFactor(u, p - q - 1);
  }

  /**
   * On a note that starts at or after the first downbeat, `updateMatchType(note)` cuts at the
   * grid of the level it uses: the middle segment lies on that grid and the prefix and postfix
   * are each shorter than one unit of it.
   */
  lemma SplitOnGrid(g: Geometry, c: Counters, start: int, len: int)
    requires GeometryValid(g) && start >= 0 && len >= 1
    ensures var s := Split(g, c, start, len);
      var unit := if c.subBeat > 0 && Crosses(start, len, g.subBeatLength) then g.subBeatLength
                  else BeatLength(g);
      (s.prefixLength != 0 || s.postfixLength != 0) ==>
        (0 <= s.prefixLength < unit && 0 <= s.postfixLength < unit
         && s.middleStart % unit == 0 && s.middleLength >= 0 && s.middleLength % unit == 0)
  {
    if c.subBeat > 0 && Crosses(start, len, g.subBeatLength) {
      SplitOnSubBeats(g, c, start, len);
    } else if c.beat > 0 && Crosses(start, len, BeatLength(g)) {
      SplitOnBeats(g, c, start, len);
    }
  }

  /** `SplitOnGrid` when the note is cut at the sub-beats. */
  lemma SplitOnSubBeats(g: Geometry, c: Counters, start: int, len: int)
    requires GeometryValid(g) && start >= 0 && len >= 1
    requires c.subBeat > 0 && Crosses(start, len, g.subBeatLength)
    ensures var s := Split(g, c, start, len);
      var unit := g.subBeatLength;
      0 <= s.prefixLength < unit && 0 <= s.postfixLength < unit
      && s.middleStart % unit == 0 && s.middleLength >= 0 && s.middleLength % unit == 0
  {
    var sbl := g.subBeatLength;
    var end := start + len;
    JavaAgreesOnNatural(start, sbl);
    JavaAgreesOnNatural(end, sbl);
    JavaAgreesOnNatural(end - 1, sbl);
    CutOnGrid(start, len, sbl);
  }

  /** `SplitOnGrid` when the note is cut at the beats. */
  lemma SplitOnBeats(g: Geometry, c: Counters, start: int, len: int)
    requires GeometryValid(g) && start >= 0 && len >= 1
    requires !(c.subBeat > 0 && Crosses(start, len, g.subBeatLength)) && c.beat > 0 && Crosses(start, len, BeatLength(g))
    ensures var s := Split(g, c, start, len);
      var unit := BeatLength(g);
      0 <= s.prefixLength < unit && 0 <= s.postfixLength < unit
      && s.middleStart % unit == 0 && s.middleLength >= 0 && s.middleLength % unit == 0
  {
    var sbl := g.subBeatLength;
    var bl := BeatLength(g);
    var end := start + len;
    JavaAgreesOnNatural(start, bl);
    JavaAgreesOnNatural(end - 1, bl);
    var r := JRem(g.anacrusis, g.measure.subBeatsPerBeat);
    var diff := if r != 0 then sbl * (g.measure.subBeatsPerBeat - r) else 0;
    var k := if r != 0 then 1 else 0;
    assert diff + sbl * r == k * bl by {
      if r != 0 {
        assert sbl * (g.measure.subBeatsPerBeat - r) + sbl * r == sbl * g.measure.subBeatsPerBeat;
      } else {
        assert sbl * r == 0;
      }
    }
    ShiftedRemainder(start, k, bl);
    ShiftedRemainder(end, k, bl);
    CutOnGrid(start, len, bl);
  }

  /** Adding a whole number of units to a non-negative value keeps its remainder. */
  lemma ShiftedRemainder(x: int, k: int, u: int)
    requires x >= 0 && k >= 0 && u > 0
    ensures JRem(x + k * u, u) == x % u
  {
    assert k * u >= 0 by {
      if k > 0 { PositiveProduct(u, k); }
    }
    JavaAgreesOnNatural(x + k * u, u);
    assert (x / u + k) * u == (x / u) * u + k * u;
    RemainderOf(x + k * u, u, x / u + k, x % u);
  }

  /** A remainder is determined by any quotient that leaves it in range. */
  lemma RemainderOf(n: int, u: int, q: int, r: int)
    requires u > 0 && 0 <= r < u && n == q * u + r
    ensures n % u == r
  {
    var d := n / u;
    assert (q - d) * u == n % u - r;
    if q - d >= 1 {
      PositiveProduct(u, q - d);
    } else if q - d <= -1 {
      assert (d - q) * u == r - n % u;
      PositiveProduct(u, d - q);
    }
  }

  /**
   * In the anacrusis, where the tactus is negative, Java's truncating remainder lets the beat
   * prefix run past a beat: with 3 beats of 2 sub-beats, an anacrusis of 5 sub-beats and only
   * the beat level matched, a note 3 tacti long on the first tactus is cut into a prefix of 3
   * tacti and nothing else.
   */
  lemma SplitInAnacrusis()
    ensures var g := Geometry(1, Measure(3, 2), 5);
      Split(g, Counters(0, 1, 0), -5, 3) == Segments(-5, 3, -2, 0, -2, 0)
  {
    var g := Geometry(1, Measure(3, 2), 5);
    assert BeatLength(g) == 2;
    assert JDiv(-5, 1) != JDiv(-3, 1);
    assert JDiv(-5, 2) == -2 && JDiv(-3, 2) == -1;
    assert JRem(5, 2) == 1;
    assert JRem(-3, 2) == -1 && JRem(0, 2) == 0;
  }
}
