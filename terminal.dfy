// MetricalLpcfgTerminal: a terminal of the rhythm grammar, its reduction loops, its head and its
// equality, hash and order.
module Terminals {
  import opened JavaInt
  import opened MathUtils
  import opened QuantumRuns

  // ---------------------------------------------------------------------------
  // getGCF

  lemma LensPrefix(a: seq<Run>, b: seq<Run>)
    requires a <= b
    ensures Lens(a) <= Lens(b)
  {
    assert forall k :: 0 <= k < |a| ==> Lens(a)[k] == a[k].len == b[k].len == Lens(b)[k];
  }

  /** Once the running factor of the closed lengths is 1, the factor of the whole pattern is 1. */
  lemma EarlyOne(p: seq<Quantum>, i: int)
    requires 1 <= i <= |p| && GcfAll(Init(Lens(RunsTo(p, i)))) == 1
    ensures PatternGcf(p) == 1
  {
    ClosedRunsPrefix(p, i);
    LensInit(RunsTo(p, i));
    LensPrefix(Init(RunsTo(p, i)), Runs(p));
    RunsShape(p);
    GcfAllOneExtends(Init(Lens(RunsTo(p, i))), Lens(Runs(p)));
  }

  /** The lengths of the first `i` symbols' constituents are positive. */
  lemma LensPositive(p: seq<Quantum>, i: int)
    requires 1 <= i <= |p|
    ensures forall k :: 0 <= k < |Lens(RunsTo(p, i))| ==> Lens(RunsTo(p, i))[k] >= 1
  {
    RunsToShape(p, i);
  }

  /** MetricalLpcfgTerminal.incrementLast: adds one to the last element of a non-empty list. */
  function IncrementLast(l: seq<int>): (r: seq<int>)
    requires |l| > 0
    ensures |r| == |l| && Init(r) == Init(l) && Last(r) == Last(l) + 1
  {
    l[|l| - 1 := l[|l| - 1] + 1]
  }

  /** Folds one closed constituent length into a running factor, where 0 stands for none yet. */
  function FoldGcf(gcf: int, len: int): int
  {
    if gcf == 0 then len else Gcf(gcf, len)
  }

  /**
   * The variables of getGCF's loop: the constituent lengths so far, the running factor of all
   * of them but the last, and whether the last constituent is a rest.
   */
  datatype GcfScan = GcfScan(lengths: seq<int>, gcf: int, inRest: bool)

  /** What one iteration of getGCF's loop does with quantum `q` (without the early return). */
  function GcfScanStep(s: GcfScan, q: Quantum): (r: GcfScan)
    requires |s.lengths| > 0
    ensures |r.lengths| > 0
  {
    if Continues(q, s.inRest) then GcfScan(IncrementLast(s.lengths), s.gcf, s.inRest)
    else GcfScan(s.lengths + [1], FoldGcf(s.gcf, Last(s.lengths)), q == Rest)
  }

  /** The variables of getGCF's loop before quantum `i` of `p`. */
  function GcfScanTo(p: seq<Quantum>, i: int): (r: GcfScan)
    requires 1 <= i <= |p|
    ensures |r.lengths| > 0
  {
    if i == 1 then GcfScan([1], 0, p[0] == Rest) else GcfScanStep(GcfScanTo(p, i - 1), p[i - 1])
  }

  /**
   * Before quantum `i`, getGCF's loop holds the lengths of the constituents of the first `i`
   * quanta, the factor of all of them but the last, and whether the last one is a rest.
   */
  lemma {:induction false} GcfScanAgrees(p: seq<Quantum>, i: int)
    requires 1 <= i <= |p|
    ensures var r := RunsTo(p, i);
      GcfScanTo(p, i) == GcfScan(Lens(r), GcfAll(Init(Lens(r))), Last(r).isRest)
  {
    if i > 1 {
      GcfScanAgrees(p, i - 1);
      if Continues(p[i - 1], Last(RunsTo(p, i - 1)).isRest) {
        GcfScanExtend(p, i - 1);
      } else {
        GcfScanClose(p, i - 1);
      }
    }
  }

  lemma GcfScanExtend(p: seq<Quantum>, i: int)
    requires 1 <= i < |p|
    requires var r := RunsTo(p, i);
      GcfScanTo(p, i) == GcfScan(Lens(r), GcfAll(Init(Lens(r))), Last(r).isRest)
    requires Continues(p[i], Last(RunsTo(p, i)).isRest)
    ensures var r := RunsTo(p, i + 1);
      GcfScanTo(p, i + 1) == GcfScan(Lens(r), GcfAll(Init(Lens(r))), Last(r).isRest)
  {
    var ls := Lens(RunsTo(p, i));
    LensStep(p, i);
    ExtendStep(p, i);
    var inc := IncrementLast(ls);
    assert Init(ls) + [Last(ls) + 1] == Init(inc) + [Last(inc)] == inc;
    assert Init(Lens(RunsTo(p, i + 1))) == Init(ls);
  }

  lemma GcfScanClose(p: seq<Quantum>, i: int)
    requires 1 <= i < |p|
    requires var r := RunsTo(p, i);
      GcfScanTo(p, i) == GcfScan(Lens(r), GcfAll(Init(Lens(r))), Last(r).isRest)
    requires !Continues(p[i], Last(RunsTo(p, i)).isRest)
    ensures var r := RunsTo(p, i + 1);
      GcfScanTo(p, i + 1) == GcfScan(Lens(r), GcfAll(Init(Lens(r))), Last(r).isRest)
  {
    var ls := Lens(RunsTo(p, i));
    LensStep(p, i);
    BreakStep(p, i);
    LensPositive(p, i);
    GcfAllStep(ls);
  }

  /** getGCF's early return is sound: a running factor of 1 is the factor of the whole pattern. */
  lemma GcfScanOne(p: seq<Quantum>, i: int)
    requires 1 <= i <= |p| && GcfScanTo(p, i).gcf == 1
    ensures PatternGcf(p) == 1
  {
    GcfScanAgrees(p, i);
    EarlyOne(p, i);
  }

  /** Folding the last length into the loop's final factor gives the pattern's factor. */
  lemma GcfScanEnd(p: seq<Quantum>)
    requires |p| > 0
    ensures var s := GcfScanTo(p, |p|); PatternGcf(p) == FoldGcf(s.gcf, Last(s.lengths)) >= 1
  {
    GcfScanAgrees(p, |p|);
    var ls := Lens(RunsTo(p, |p|));
    LensPositive(p, |p|);
    GcfAllStep(ls);
    PatternGcfFacts(p);
  }

  /**
   * MetricalLpcfgTerminal.getGCF: the factor of the constituent lengths of a non-empty pattern,
   * returning 1 as soon as the running factor of the closed constituents reaches 1.
   */
  method GetGcf(pattern: array<Quantum>) returns (gcf: int)
    requires pattern.Length > 0
    ensures gcf == PatternGcf(pattern[..])
    ensures gcf >= 1
  {
    ghost var p := pattern[..];
    var lengths := [1];
    gcf := 0;
    var inRest := pattern[0] == Rest;
    var i := 1;
    while i < pattern.Length
      invariant 1 <= i <= pattern.Length
      invariant GcfScanTo(p, i) == GcfScan(lengths, gcf, inRest)
    {
      if gcf == 1 {
        GcfScanOne(p, i);
        return 1;
      }
      match pattern[i] {
        case Rest =>
          if inRest {
            lengths := IncrementLast(lengths);
          } else {
            inRest := true;
            var lastLength := Last(lengths);
            gcf := if gcf == 0 then lastLength else Gcf(gcf, lastLength);
            lengths := lengths + [1];
          }
        case Onset =>
          var lastLength := Last(lengths);
          gcf := if gcf == 0 then lastLength else Gcf(gcf, lastLength);
          lengths := lengths + [1];
          inRest := false;
        case Tie =>
          if inRest {
            var lastLength := Last(lengths);
            gcf := if gcf == 0 then lastLength else Gcf(gcf, lastLength);
            lengths := lengths + [1];
            inRest := false;
          } else {
            lengths := IncrementLast(lengths);
          }
      }
      i := i + 1;
    }
    GcfScanEnd(p);
    var lastLength := Last(lengths);
    gcf := if gcf == 0 then lastLength else Gcf(gcf, lastLength);
  }

  // ---------------------------------------------------------------------------
  // generateReducedPattern

  /** Writes `count` RESTs from `idx` on. */
  method WriteRests(rp: array<Quantum>, idx: int, count: int) returns (next: int)
    requires 0 <= idx && idx + count <= rp.Length && count >= 1
    modifies rp
    ensures next == idx + count
    ensures rp[..next] == old(rp[..idx]) + Repeat(Rest, count)
  {
    next := idx;
    var j := 0;
    while j < count
      invariant 0 <= j <= count && next == idx + j
      invariant rp[..next] == old(rp[..idx]) + Repeat(Rest, j)
    {
      rp[next] := Rest;
      next := next + 1;
      j := j + 1;
    }
  }

  /** Writes a note's leading symbol and then `count - 1` TIEs from `idx` on. */
  method WriteNote(rp: array<Quantum>, idx: int, lead: Quantum, count: int) returns (next: int)
    requires 0 <= idx && idx + count <= rp.Length && count >= 1
    modifies rp
    ensures next == idx + count
    ensures rp[..next] == old(rp[..idx]) + ([lead] + Repeat(Tie, count - 1))
  {
    rp[idx] := lead;
    next := idx + 1;
    var j := 1;
    while j < count
      invariant 1 <= j <= count && next == idx + j
      invariant rp[..next] == old(rp[..idx]) + ([lead] + Repeat(Tie, j - 1))
    {
      rp[next] := Tie;
      next := next + 1;
      j := j + 1;
    }
  }

  /**
   * Writes the reduced symbols of a finished constituent of `currentLength` symbols from `idx`
   * on: RESTs for a rest, and for a note its leading symbol (the pattern's first symbol if
   * nothing has been written yet, ONSET otherwise) followed by TIEs.
   */
  method CloseConstituent(rp: array<Quantum>, idx: int, inRest: bool, currentLength: int, gcf: int, first: Quantum)
    returns (next: int)
    requires 0 <= idx && gcf >= 1 && currentLength / gcf >= 1 && idx + currentLength / gcf <= rp.Length
    modifies rp
    ensures next == idx + currentLength / gcf
    ensures rp[..next] == old(rp[..idx]) + Block(Run(inRest, currentLength), gcf, if idx == 0 then first else Onset)
  {
    var reducedLength := currentLength / gcf;
    if inRest {
      next := WriteRests(rp, idx, reducedLength);
    } else {
      var lead := if idx == 0 then first else Onset;
      next := WriteNote(rp, idx, lead, reducedLength);
    }
  }

  /** A symbol that extends the last constituent lengthens it and leaves the closed ones alone. */
  lemma ExtendStep(p: seq<Quantum>, i: int)
    requires 1 <= i < |p| && Continues(p[i], Last(RunsTo(p, i)).isRest)
    ensures Init(RunsTo(p, i + 1)) == Init(RunsTo(p, i))
    ensures Last(RunsTo(p, i + 1)) == Run(Last(RunsTo(p, i)).isRest, Last(RunsTo(p, i)).len + 1)
  {
  }

  /** A step of the reduction loop that starts a new constituent, in the loop's own variables. */
  lemma ReduceBreak(p: seq<Quantum>, i: int, inRest: bool, currentLength: int, g: int, idx: int)
    requires 1 <= i < |p| && Last(RunsTo(p, i)) == Run(inRest, currentLength) && !Continues(p[i], inRest)
    requires g >= 1 && Divisible(Runs(p), g) && idx == |Emit(Init(RunsTo(p, i)), g, p[0])|
    ensures Last(RunsTo(p, i + 1)) == Run(p[i] == Rest, 1)
    ensures currentLength / g >= 1
    ensures idx + currentLength / g <= |p| / g
    ensures Emit(Init(RunsTo(p, i + 1)), g, p[0])
         == Emit(Init(RunsTo(p, i)), g, p[0]) + Block(Run(inRest, currentLength), g, if idx == 0 then p[0] else Onset)
  {
    assert ClosedAt(p, i);
    CloseRun(p, i, g);
    BreakStep(p, i);
    assert Init(RunsTo(p, i + 1)) == RunsTo(p, i);
  }

  /** The final constituent closes the reduction. */
  lemma ReduceEnd(p: seq<Quantum>, inRest: bool, currentLength: int, g: int, idx: int)
    requires |p| >= 1 && Last(RunsTo(p, |p|)) == Run(inRest, currentLength)
    requires g >= 1 && Divisible(Runs(p), g) && idx == |Emit(Init(RunsTo(p, |p|)), g, p[0])|
    ensures currentLength / g >= 1
    ensures idx + currentLength / g == |p| / g
    ensures Emit(Runs(p), g, p[0])
         == Emit(Init(RunsTo(p, |p|)), g, p[0]) + Block(Run(inRest, currentLength), g, if idx == 0 then p[0] else Onset)
  {
    assert ClosedAt(p, |p|);
    CloseRun(p, |p|, g);
  }

  /**
   * The variables of generateReducedPattern's loop: whether the current constituent is a rest,
   * its length so far, and the reduced symbols written for the constituents already closed.
   */
  datatype ReduceScan = ReduceScan(inRest: bool, currentLength: int, written: seq<Quantum>)

  /** The reduced symbols of the current constituent, the pattern's first symbol leading only the first one. */
  function Closing(s: ReduceScan, g: int, first: Quantum): seq<Quantum>
    requires g >= 1
  {
    Block(Run(s.inRest, s.currentLength), g, if |s.written| == 0 then first else Onset)
  }

  /**
   * What one iteration of generateReducedPattern's loop does with quantum `q`: a REST after a
   * rest and a TIE after a note lengthen the current constituent; an ONSET, a REST after a note
   * and a TIE after a rest (read as an ONSET) close it and start one of length 1.
   */
  function ReduceScanStep(s: ReduceScan, q: Quantum, g: int, first: Quantum): ReduceScan
    requires g >= 1
  {
    if Continues(q, s.inRest) then ReduceScan(s.inRest, s.currentLength + 1, s.written)
    else ReduceScan(q == Rest, 1, s.written + Closing(s, g, first))
  }

  /** The variables of generateReducedPattern's loop before quantum `i` of `p`. */
  function ReduceScanTo(p: seq<Quantum>, g: int, i: int): ReduceScan
    requires 1 <= i <= |p| && g >= 1
  {
    if i == 1 then ReduceScan(p[0] == Rest, 1, [])
    else ReduceScanStep(ReduceScanTo(p, g, i - 1), p[i - 1], g, p[0])
  }

  /**
   * Before quantum `i`, the loop of generateReducedPattern holds the last constituent of the
   * first `i` quanta and has written the reduction of the constituents before it.
   */
  lemma {:induction false} ReduceScanAgrees(p: seq<Quantum>, g: int, i: int)
    requires 1 <= i <= |p| && g >= 1 && Divisible(Runs(p), g)
    ensures var r := RunsTo(p, i);
      ReduceScanTo(p, g, i) == ReduceScan(Last(r).isRest, Last(r).len, Emit(Init(r), g, p[0]))
  {
    if i > 1 {
      ReduceScanAgrees(p, g, i - 1);
      if Continues(p[i - 1], Last(RunsTo(p, i - 1)).isRest) {
        ReduceScanExtend(p, g, i - 1);
      } else {
        ReduceScanClose(p, g, i - 1);
      }
    }
  }

  lemma ReduceScanExtend(p: seq<Quantum>, g: int, i: int)
    requires 1 <= i < |p| && g >= 1
    requires var r := RunsTo(p, i);
      ReduceScanTo(p, g, i) == ReduceScan(Last(r).isRest, Last(r).len, Emit(Init(r), g, p[0]))
    requires Continues(p[i], Last(RunsTo(p, i)).isRest)
    ensures var r := RunsTo(p, i + 1);
      ReduceScanTo(p, g, i + 1) == ReduceScan(Last(r).isRest, Last(r).len, Emit(Init(r), g, p[0]))
  {
    ExtendStep(p, i);
  }

  lemma ReduceScanClose(p: seq<Quantum>, g: int, i: int)
    requires 1 <= i < |p| && g >= 1 && Divisible(Runs(p), g)
    requires var r := RunsTo(p, i);
      ReduceScanTo(p, g, i) == ReduceScan(Last(r).isRest, Last(r).len, Emit(Init(r), g, p[0]))
    requires !Continues(p[i], Last(RunsTo(p, i)).isRest)
    ensures var r := RunsTo(p, i + 1);
      ReduceScanTo(p, g, i + 1) == ReduceScan(Last(r).isRest, Last(r).len, Emit(Init(r), g, p[0]))
  {
    var s := ReduceScanTo(p, g, i);
    var r := Last(RunsTo(p, i));
    ReduceBreak(p, i, r.isRest, r.len, g, |s.written|);
    assert ReduceScanTo(p, g, i + 1) == ReduceScan(p[i] == Rest, 1, s.written + Closing(s, g, p[0]));
  }

  /** When quantum `i` closes the current constituent, its reduced symbols fit in the array. */
  lemma ReduceScanBreak(p: seq<Quantum>, g: int, i: int)
    requires 1 <= i < |p| && g >= 1 && Divisible(Runs(p), g)
    requires !Continues(p[i], ReduceScanTo(p, g, i).inRest)
    ensures var s := ReduceScanTo(p, g, i);
      s.currentLength / g >= 1 && |s.written| + s.currentLength / g <= |p| / g
  {
    ReduceScanAgrees(p, g, i);
    var r := Last(RunsTo(p, i));
    ReduceBreak(p, i, r.isRest, r.len, g, |Emit(Init(RunsTo(p, i)), g, p[0])|);
  }

  /** After the loop, closing the final constituent fills the array with the whole reduction. */
  lemma ReduceScanEnd(p: seq<Quantum>, g: int)
    requires |p| >= 1 && g >= 1 && Divisible(Runs(p), g)
    ensures var s := ReduceScanTo(p, g, |p|);
      && s.currentLength / g >= 1
      && |s.written| + s.currentLength / g == |p| / g
      && s.written + Closing(s, g, p[0]) == Emit(Runs(p), g, p[0])
  {
    ReduceScanAgrees(p, g, |p|);
    var r := Last(RunsTo(p, |p|));
    ReduceEnd(p, r.isRest, r.len, g, |Emit(Init(RunsTo(p, |p|)), g, p[0])|);
  }

  /**
   * The invariant of the loop of generateReducedPattern before quantum `i` of `p`: its variables
   * are those of `ReduceScanTo`, `rp[..idx]` being the symbols written so far.
   */
  ghost predicate Scanned(p: seq<Quantum>, g: int, first: Quantum, i: int, rp: array<Quantum>, idx: int,
                          inRest: bool, currentLength: int)
    reads rp
  {
    && 1 <= i <= |p| && first == p[0] && g >= 1 && rp.Length == |p| / g && 0 <= idx <= rp.Length
    && ReduceScanTo(p, g, i) == ReduceScan(inRest, currentLength, rp[..idx])
  }

  /** The body of the loop of generateReducedPattern, on quantum `q`, the `i`th of `p`. */
  method ReduceStep(ghost p: seq<Quantum>, ghost i: int, q: Quantum, reducedPattern: array<Quantum>,
                    reducedPatternIndex: int, inRest: bool, currentLength: int, gcf: int, first: Quantum)
    returns (nextIndex: int, nextInRest: bool, nextLength: int)
    requires Scanned(p, gcf, first, i, reducedPattern, reducedPatternIndex, inRest, currentLength)
    requires i < |p| && q == p[i] && Divisible(Runs(p), gcf)
    modifies reducedPattern
    ensures Scanned(p, gcf, first, i + 1, reducedPattern, nextIndex, nextInRest, nextLength)
  {
    nextIndex, nextInRest, nextLength := reducedPatternIndex, inRest, currentLength;
    match q {
      case Rest =>
        if inRest {
          nextLength := currentLength + 1;
        } else {
          ReduceScanBreak(p, gcf, i);
          nextIndex := CloseConstituent(reducedPattern, reducedPatternIndex, inRest, currentLength, gcf, first);
          nextInRest := true;
          nextLength := 1;
        }
      case Onset =>
        ReduceScanBreak(p, gcf, i);
        nextIndex := CloseConstituent(reducedPattern, reducedPatternIndex, inRest, currentLength, gcf, first);
        nextLength := 1;
        nextInRest := false;
      case Tie =>
        if inRest {
          ReduceScanBreak(p, gcf, i);
          nextIndex := CloseConstituent(reducedPattern, reducedPatternIndex, inRest, currentLength, gcf, first);
          nextLength := 1;
          nextInRest := false;
        } else {
          nextLength := currentLength + 1;
        }
    }
  }

  /** After the loop of generateReducedPattern: the final constituent fills the array. */
  method CloseLast(ghost p: seq<Quantum>, reducedPattern: array<Quantum>, reducedPatternIndex: int,
                   inRest: bool, currentLength: int, gcf: int, first: Quantum)
    requires Scanned(p, gcf, first, |p|, reducedPattern, reducedPatternIndex, inRest, currentLength)
    requires Divisible(Runs(p), gcf)
    modifies reducedPattern
    ensures reducedPattern[..] == Emit(Runs(p), gcf, p[0])
  {
    ReduceScanEnd(p, gcf);
    var next := CloseConstituent(reducedPattern, reducedPatternIndex, inRest, currentLength, gcf, first);
    assert reducedPattern[..] == reducedPattern[..next];
  }

  /**
   * The loop of generateReducedPattern: writes the constituents of `pattern`, each length divided
   * by `gcf`, into `reducedPattern`.
   */
  method FillReducedPattern(pattern: array<Quantum>, gcf: int, reducedPattern: array<Quantum>)
    requires pattern.Length > 0 && gcf >= 1 && Divisible(Runs(pattern[..]), gcf)
    requires reducedPattern.Length == pattern.Length / gcf && reducedPattern != pattern
    modifies reducedPattern
    ensures reducedPattern[..] == Emit(Runs(pattern[..]), gcf, pattern[0])
  {
    ghost var p := pattern[..];
    var reducedPatternIndex := 0;
    var first := pattern[0];
    var inRest := first == Rest;
    var currentLength := 1;
    var i := 1;
    while i < pattern.Length
      invariant Scanned(p, gcf, first, i, reducedPattern, reducedPatternIndex, inRest, currentLength)
    {
      reducedPatternIndex, inRest, currentLength :=
        ReduceStep(p, i, pattern[i], reducedPattern, reducedPatternIndex, inRest, currentLength, gcf, first);
      i := i + 1;
    }
    CloseLast(p, reducedPattern, reducedPatternIndex, inRest, currentLength, gcf, first);
  }

  /**
   * MetricalLpcfgTerminal.generateReducedPattern: divides every constituent of a non-empty
   * pattern by the pattern's factor, into a new array of length `|pattern| / gcf`.
   */
  method GenerateReducedPattern(pattern: array<Quantum>) returns (reducedPattern: array<Quantum>)
    requires pattern.Length > 0
    ensures fresh(reducedPattern)
    ensures reducedPattern[..] == Reduced(pattern[..])
  {
    var gcf := GetGcf(pattern);
    PatternGcfFacts(pattern[..]);
    reducedPattern := new Quantum[pattern.Length / gcf];
    FillReducedPattern(pattern, gcf, reducedPattern);
  }

  // ---------------------------------------------------------------------------
  // getHead

  /** Whether getHead starts a new segment at `s`: at the first quantum and at every ONSET or REST. */
  predicate SegmentStart(p: seq<Quantum>, s: int)
    requires 0 <= s < |p|
  {
    s == 0 || p[s] != Tie
  }

  /** Where the segment from `s` ends: at the next ONSET or REST after `s`, or at the end. */
  function SegmentEnd(p: seq<Quantum>, s: int): (e: int)
    requires 0 <= s < |p|
    ensures s < e <= |p| && (e == |p| || p[e] != Tie)
    ensures forall k :: s < k < e ==> p[k] == Tie
    decreases |p| - s
  {
    if s + 1 == |p| || p[s + 1] != Tie then s + 1 else SegmentEnd(p, s + 1)
  }

  /** The note length getHead counts for the segment from `s`: its ONSET and TIE quanta. */
  function NoteLength(p: seq<Quantum>, s: int): int
    requires 0 <= s < |p|
  {
    SegmentEnd(p, s) - s - (if p[s] == Rest then 1 else 0)
  }

  /** A segment ends at the first quantum after it that is not a TIE. */
  lemma {:induction false} SegmentEndAt(p: seq<Quantum>, s: int, e: int)
    requires 0 <= s < e <= |p| && (e == |p| || p[e] != Tie)
    requires forall k :: s < k < e ==> p[k] == Tie
    ensures SegmentEnd(p, s) == e
    decreases e - s
  {
    if s + 1 < e {
      SegmentEndAt(p, s + 1, e);
    }
  }

  /**
   * What getHead finds: the first segment whose note is longest, or length 0 at index 0 when
   * no segment holds a note.
   */
  predicate IsLongestNote(p: seq<Quantum>, len: int, idx: int)
  {
    && 0 <= idx < |p| && len >= 0
    && (forall s :: 0 <= s < |p| && SegmentStart(p, s) ==> NoteLength(p, s) <= len)
    && (len == 0 ==> idx == 0)
    && (len > 0 ==> SegmentStart(p, idx) && NoteLength(p, idx) == len
                    && forall s :: 0 <= s < idx && SegmentStart(p, s) ==> NoteLength(p, s) < len)
  }

  /** The longest note is determined by the pattern. */
  lemma LongestNoteUnique(p: seq<Quantum>, a: int, i: int, b: int, j: int)
    requires IsLongestNote(p, a, i) && IsLongestNote(p, b, j)
    ensures a == b && i == j
  {
    if a > 0 {
      assert NoteLength(p, i) <= b;
    }
    if b > 0 {
      assert NoteLength(p, j) <= a;
    }
  }

  /** A pattern of RESTs holds no note: its longest note has length 0, at index 0. */
  lemma LongestNoteOfRests(p: seq<Quantum>, len: int, idx: int)
    requires forall k :: 0 <= k < |p| ==> p[k] == Rest
    requires IsLongestNote(p, len, idx)
    ensures len == 0 && idx == 0
  {
    assert SegmentEnd(p, idx) == idx + 1;
  }

  /**
   * The invariant of getHead's loop before quantum `i`: `curIdx` starts the current segment and
   * `curLen` counts its note so far, and `(maxLen, maxIdx)` is the longest note of the segments
   * before it, the first one on ties.
   */
  ghost predicate HeadScanned(p: seq<Quantum>, i: int, maxLen: int, maxIdx: int, curLen: int, curIdx: int)
  {
    && 0 <= i <= |p| && 0 <= maxIdx < |p| && 0 <= curIdx < |p| && maxLen >= 0
    && (i == 0 ==> curIdx == 0 && curLen == 0 && maxLen == 0)
    && (i > 0 ==> curIdx < i && SegmentStart(p, curIdx) && (forall k :: curIdx < k < i ==> p[k] == Tie)
                  && curLen == i - curIdx - (if p[curIdx] == Rest then 1 else 0))
    && (forall s :: 0 <= s < curIdx && SegmentStart(p, s) ==> NoteLength(p, s) <= maxLen)
    && (maxLen == 0 ==> maxIdx == 0)
    && (maxLen > 0 ==> maxIdx < curIdx && SegmentStart(p, maxIdx) && NoteLength(p, maxIdx) == maxLen
                       && forall s :: 0 <= s < maxIdx && SegmentStart(p, s) ==> NoteLength(p, s) < maxLen)
  }

  /** The current segment, read up to quantum `i`, holds a note of `curLen` quanta when it ends there. */
  lemma SegmentClosed(p: seq<Quantum>, i: int, maxLen: int, maxIdx: int, curLen: int, curIdx: int)
    requires HeadScanned(p, i, maxLen, maxIdx, curLen, curIdx) && i > 0 && (i == |p| || p[i] != Tie)
    ensures NoteLength(p, curIdx) == curLen
  {
    SegmentEndAt(p, curIdx, i);
  }

  /** An ONSET or a REST at `i` closes the current segment and starts one at `i`. */
  lemma HeadClose(p: seq<Quantum>, i: int, maxLen: int, maxIdx: int, curLen: int, curIdx: int)
    requires HeadScanned(p, i, maxLen, maxIdx, curLen, curIdx) && i < |p| && p[i] != Tie
    ensures var (m, mi) := if curLen > maxLen then (curLen, curIdx) else (maxLen, maxIdx);
      HeadScanned(p, i + 1, m, mi, if p[i] == Onset then 1 else 0, i)
  {
    if i > 0 {
      SegmentClosed(p, i, maxLen, maxIdx, curLen, curIdx);
      assert forall s :: curIdx < s < i ==> !SegmentStart(p, s);
    }
  }

  /** A TIE at `i` lengthens the note of the current segment. */
  lemma HeadExtend(p: seq<Quantum>, i: int, maxLen: int, maxIdx: int, curLen: int, curIdx: int)
    requires HeadScanned(p, i, maxLen, maxIdx, curLen, curIdx) && i < |p| && p[i] == Tie
    ensures HeadScanned(p, i + 1, maxLen, maxIdx, curLen + 1, curIdx)
  {
  }

  /** After the last quantum, closing the current segment gives the longest note. */
  lemma HeadEnd(p: seq<Quantum>, maxLen: int, maxIdx: int, curLen: int, curIdx: int)
    requires HeadScanned(p, |p|, maxLen, maxIdx, curLen, curIdx) && |p| > 0
    ensures var (m, mi) := if curLen > maxLen then (curLen, curIdx) else (maxLen, maxIdx);
      IsLongestNote(p, m, mi)
  {
    SegmentClosed(p, |p|, maxLen, maxIdx, curLen, curIdx);
    assert forall s :: curIdx < s < |p| ==> !SegmentStart(p, s);
  }

  /** MetricalLpcfgHead: a note length, its offset, and whether it is tied in from before. */
  datatype Head = Head(length: real, offset: real, tiedIn: bool)

  /** A terminal's head for the note of `len` quanta from segment `idx`, scaled from pattern to base length. */
  function HeadValue(original: seq<Quantum>, baseLength: int, len: int, idx: int): Head
    requires 0 <= idx < |original|
  {
    var n := |original| as real;
    Head(len as real / n * baseLength as real, idx as real / n * baseLength as real, original[idx] == Tie)
  }

  /**
   * MetricalLpcfgTerminal.getHead: the longest note of the original pattern, the first one on
   * ties, scaled to the base length. `None` stands for the exception Java raises on an empty
   * original pattern.
   */
  method GetHead(originalPattern: seq<Quantum>, baseLength: int) returns (head: Option<Head>)
    ensures head.None? <==> |originalPattern| == 0
    ensures head.Some? ==> exists len, idx :: IsLongestNote(originalPattern, len, idx)
                                              && head.value == HeadValue(originalPattern, baseLength, len, idx)
  {
    if |originalPattern| == 0 {
      return None;
    }
    ghost var p := originalPattern;
    var maxNoteLength := 0;
    var maxNoteIndex := 0;
    var currentNoteLength := 0;
    var currentNoteIndex := 0;
    var i := 0;
    while i < |originalPattern|
      invariant HeadScanned(p, i, maxNoteLength, maxNoteIndex, currentNoteLength, currentNoteIndex)
    {
      var quantum := originalPattern[i];
      if quantum == Onset || quantum == Rest {
        HeadClose(p, i, maxNoteLength, maxNoteIndex, currentNoteLength, currentNoteIndex);
        if currentNoteLength > maxNoteLength {
          maxNoteLength := currentNoteLength;
          maxNoteIndex := currentNoteIndex;
        }
        currentNoteLength := 0;
        currentNoteIndex := i;
      } else {
        HeadExtend(p, i, maxNoteLength, maxNoteIndex, currentNoteLength, currentNoteIndex);
      }
      if quantum == Onset || quantum == Tie {
        currentNoteLength := currentNoteLength + 1;
      }
      i := i + 1;
    }
    HeadEnd(p, maxNoteLength, maxNoteIndex, currentNoteLength, currentNoteIndex);
    if currentNoteLength > maxNoteLength {
      maxNoteLength := currentNoteLength;
      maxNoteIndex := currentNoteIndex;
    }
    head := Some(HeadValue(originalPattern, baseLength, maxNoteLength, maxNoteIndex));
  }

  // ---------------------------------------------------------------------------
  // The terminal value

  /**
   * MetricalLpcfgTerminal: its final fields, the reduced pattern, the original pattern and the
   * base length the head is scaled to.
   */
  datatype Terminal = Terminal(reducedPattern: seq<Quantum>, originalPattern: seq<Quantum>, baseLength: int)

  /** The terminal the constructor builds from `pattern`. */
  function NewTerminal(pattern: seq<Quantum>, baseLength: int): Terminal
  {
    Terminal(Reduced(pattern), pattern, baseLength)
  }

  /**
   * An empty pattern keeps an empty reduced pattern; any other is reduced by the factor of its
   * constituents and keeps its first symbol.
   */
  lemma NewTerminalShape(pattern: seq<Quantum>, baseLength: int)
    ensures var t := NewTerminal(pattern, baseLength);
      && t.originalPattern == pattern && t.baseLength == baseLength
      && (|pattern| == 0 ==> t.reducedPattern == [])
      && (|pattern| > 0 ==> && PatternGcf(pattern) >= 1
                            && |t.reducedPattern| == |pattern| / PatternGcf(pattern) > 0
                            && t.reducedPattern[0] == pattern[0])
  {
    ReducedLength(pattern);
    if |pattern| > 0 {
      ReducedRuns(pattern);
    }
  }

  /**
   * The constructor MetricalLpcfgTerminal(pattern, baseLength), which runs generateReducedPattern
   * on a non-empty pattern.
   */
  method MakeTerminal(pattern: array<Quantum>, baseLength: int) returns (t: Terminal)
    ensures t == NewTerminal(pattern[..], baseLength)
  {
    var reduced: seq<Quantum> := [];
    if pattern.Length > 0 {
      var r := GenerateReducedPattern(pattern);
      reduced := r[..];
    }
    t := Terminal(reduced, pattern[..], baseLength);
  }

  /** The default constructor: a terminal of a single REST. */
  function DefaultTerminal(): (t: Terminal)
    ensures t.reducedPattern == [Rest] && t.baseLength == 1
  {
    ReducedOfRests([Rest]);
    NewTerminal([Rest], 1)
  }

  /** MetricalLpcfgTerminal.equals: the reduced patterns are equal, whatever the rest. */
  predicate Equals(a: Terminal, b: Terminal)
  {
    a.reducedPattern == b.reducedPattern
  }

  /** The terminal of an already reduced pattern equals the terminal it came from. */
  lemma EqualsTerminalOfReduced(pattern: seq<Quantum>, baseLength: int, otherBaseLength: int)
    ensures Equals(NewTerminal(pattern, baseLength), NewTerminal(Reduced(pattern), otherBaseLength))
  {
    ReducedIdempotent(pattern);
  }

  /** Terminals of patterns with the same reduced form are equal, whatever their base lengths. */
  lemma EqualsIffSameReduction(p: seq<Quantum>, q: seq<Quantum>, b: int, c: int)
    ensures Equals(NewTerminal(p, b), NewTerminal(q, c)) <==> Reduced(p) == Reduced(q)
  {
  }

  /**
   * Arrays.hashCode over the reduced pattern, in Java `int` arithmetic. `symbolHash` stands for
   * the enum constants' identity hash codes, which the program does not fix.
   */
  function PatternHash(s: seq<Quantum>, symbolHash: Quantum -> int): (h: int)
    ensures -TWO_31 <= h < TWO_31
  {
    if |s| == 0 then 1 else Wrap32(31 * PatternHash(Init(s), symbolHash) + symbolHash(Last(s)))
  }

  /** MetricalLpcfgTerminal.hashCode. */
  function HashCode(t: Terminal, symbolHash: Quantum -> int): int
  {
    PatternHash(t.reducedPattern, symbolHash)
  }

  /** Equal terminals have equal hash codes. */
  lemma EqualsHashCode(a: Terminal, b: Terminal, symbolHash: Quantum -> int)
    requires Equals(a, b)
    ensures HashCode(a, symbolHash) == HashCode(b, symbolHash)
  {
  }

  /** MetricalLpcfgTerminal.isEmpty: equality with the default, single-REST terminal. */
  predicate IsEmpty(t: Terminal)
  {
    Equals(t, DefaultTerminal())
  }

  /** A terminal is empty exactly when its pattern is non-empty and made of RESTs only. */
  lemma IsEmptyIffRests(pattern: seq<Quantum>, baseLength: int)
    ensures IsEmpty(NewTerminal(pattern, baseLength)) <==> |pattern| > 0 && forall k :: 0 <= k < |pattern| ==> pattern[k] == Rest
  {
    if |pattern| > 0 && forall k :: 0 <= k < |pattern| ==> pattern[k] == Rest {
      ReducedOfRests(pattern);
    }
    if Reduced(pattern) == [Rest] {
      SingleRestReduced(pattern);
    }
  }

  /** MetricalLpcfgTerminal.startsWithRest. */
  predicate StartsWithRest(t: Terminal)
  {
    |t.reducedPattern| == 0 || t.reducedPattern[0] == Rest
  }

  /** Reduction keeps the first symbol, so a terminal starts with a rest when its pattern does. */
  lemma StartsWithRestIff(pattern: seq<Quantum>, baseLength: int)
    ensures StartsWithRest(NewTerminal(pattern, baseLength)) <==> |pattern| == 0 || pattern[0] == Rest
  {
    if |pattern| > 0 {
      ReducedRuns(pattern);
    }
  }

  /**
   * MetricalLpcfgTerminal.compareTo: a `null` other terminal comes first; otherwise the shorter
   * reduced pattern, then the smaller hash code.
   */
  function CompareTo(t: Terminal, o: Option<Terminal>, symbolHash: Quantum -> int): (c: int)
    requires |t.reducedPattern| < TWO_31 && (o.Some? ==> |o.value.reducedPattern| < TWO_31)
    ensures o.None? ==> c == 1
    ensures o.Some? && |t.reducedPattern| != |o.value.reducedPattern| ==>
      c == |t.reducedPattern| - |o.value.reducedPattern|
    ensures o.Some? ==> (c == 0 <==> |t.reducedPattern| == |o.value.reducedPattern|
                                      && HashCode(t, symbolHash) == HashCode(o.value, symbolHash))
  {
    if o.None? then 1
    else
      var result := |t.reducedPattern| - |o.value.reducedPattern|;
      if result != 0 then result
      else IntCompare(HashCode(t, symbolHash), HashCode(o.value, symbolHash))
  }

  /** compareTo is antisymmetric in sign, and agrees with equals where equals holds. */
  lemma CompareToAntisymmetric(a: Terminal, b: Terminal, symbolHash: Quantum -> int)
    requires |a.reducedPattern| < TWO_31 && |b.reducedPattern| < TWO_31
    ensures CompareTo(a, Some(b), symbolHash) < 0 <==> CompareTo(b, Some(a), symbolHash) > 0
    ensures Equals(a, b) ==> CompareTo(a, Some(b), symbolHash) == 0
  {
  }
}
