// The constituent structure of MetricalLpcfgQuantum patterns, and the reduced form that
// MetricalLpcfgTerminal stores: the specification the terminal's loops are proved against.
module QuantumRuns {
  import opened JavaInt
  import opened MathUtils

  /** MetricalLpcfgQuantum: one tatum of a pattern. */
  datatype Quantum = Onset | Tie | Rest

  /** A constituent of a pattern: a maximal rest, or a note with its ties. */
  datatype Run = Run(isRest: bool, len: int)

  function Last<T>(s: seq<T>): T
    requires |s| > 0
  {
    s[|s| - 1]
  }

  function Init<T>(s: seq<T>): seq<T>
    requires |s| > 0
  {
    s[..|s| - 1]
  }

  /**
   * Whether symbol `q` extends the current constituent: a REST extends a rest, a TIE
   * extends a note. Everything else starts a new constituent, in particular a TIE
   * after a REST, which the source treats as an ONSET.
   */
  predicate Continues(q: Quantum, inRest: bool)
  {
    (q == Rest && inRest) || (q == Tie && !inRest)
  }

  /** The constituents after reading one more symbol `q`. */
  function NextRuns(prev: seq<Run>, q: Quantum): (rs: seq<Run>)
    requires |prev| > 0
    ensures |rs| > 0
  {
    if Continues(q, Last(prev).isRest) then Init(prev) + [Run(Last(prev).isRest, Last(prev).len + 1)]
    else prev + [Run(q == Rest, 1)]
  }

  /** The constituents of the first `i` symbols of `p`, read left to right. */
  function RunsTo(p: seq<Quantum>, i: int): (rs: seq<Run>)
    requires 1 <= i <= |p|
    ensures |rs| > 0
  {
    if i == 1 then [Run(p[0] == Rest, 1)] else NextRuns(RunsTo(p, i - 1), p[i - 1])
  }

  /** The constituents of a non-empty pattern. */
  function Runs(p: seq<Quantum>): seq<Run>
    requires |p| > 0
  {
    RunsTo(p, |p|)
  }

  function Lens(rs: seq<Run>): (ls: seq<int>)
    ensures |ls| == |rs|
    ensures forall k :: 0 <= k < |rs| ==> ls[k] == rs[k].len
  {
    seq(|rs|, k requires 0 <= k < |rs| => rs[k].len)
  }

  function SumLen(rs: seq<Run>): int
  {
    if |rs| == 0 then 0 else SumLen(Init(rs)) + Last(rs).len
  }

  /** The factor of a list of lengths, folded left from 0 with getGCF. */
  function GcfAll(ls: seq<int>): int
  {
    if |ls| == 0 then 0 else Gcf(GcfAll(Init(ls)), Last(ls))
  }

  /** The factor that reduces a non-empty pattern: the factor of its run lengths. */
  function PatternGcf(p: seq<Quantum>): int
    requires |p| > 0
  {
    GcfAll(Lens(Runs(p)))
  }

  /** Run lists read from patterns: positive lengths and never two rests in a row. */
  predicate RunsOk(rs: seq<Run>)
  {
    && (forall k :: 0 <= k < |rs| ==> rs[k].len >= 1)
    && (forall k :: 0 < k < |rs| ==> !(rs[k - 1].isRest && rs[k].isRest))
  }

  // ---------------------------------------------------------------------------
  // Shape of the constituents

  lemma ExtendOk(prev: seq<Run>)
    requires |prev| > 0 && RunsOk(prev)
    ensures RunsOk(Init(prev) + [Run(Last(prev).isRest, Last(prev).len + 1)])
  {
    var rs := Init(prev) + [Run(Last(prev).isRest, Last(prev).len + 1)];
    assert forall k :: 0 <= k < |prev| - 1 ==> rs[k] == prev[k];
    assert rs[|rs| - 1].isRest == prev[|prev| - 1].isRest;
  }

  lemma AppendOk(prev: seq<Run>, r: Run)
    requires |prev| > 0 && RunsOk(prev) && r.len >= 1 && !(Last(prev).isRest && r.isRest)
    ensures RunsOk(prev + [r])
  {
    var rs := prev + [r];
    assert forall k :: 0 <= k < |prev| ==> rs[k] == prev[k];
  }

  lemma NextRunsOk(prev: seq<Run>, q: Quantum)
    requires |prev| > 0 && RunsOk(prev)
    ensures RunsOk(NextRuns(prev, q))
    ensures SumLen(NextRuns(prev, q)) == SumLen(prev) + 1
    ensures NextRuns(prev, q)[0].isRest == prev[0].isRest
    ensures Last(NextRuns(prev, q)).isRest == (q == Rest)
  {
    var rs := NextRuns(prev, q);
    if Continues(q, Last(prev).isRest) {
      ExtendOk(prev);
      assert Init(rs) == Init(prev);
      assert SumLen(prev) == SumLen(Init(prev)) + Last(prev).len;
      if |prev| > 1 { assert rs[0] == prev[0]; }
    } else {
      AppendOk(prev, Run(q == Rest, 1));
      assert Init(rs) == prev;
      assert rs[0] == prev[0];
    }
  }

  /**
   * The constituents are well formed, cover the symbols read, start with a rest iff the
   * pattern does, and the last one is a rest iff the last symbol read is a REST.
   */
  lemma {:induction false} RunsToShape(p: seq<Quantum>, i: int)
    requires 1 <= i <= |p|
    ensures RunsOk(RunsTo(p, i))
    ensures SumLen(RunsTo(p, i)) == i
    ensures RunsTo(p, i)[0].isRest == (p[0] == Rest)
    ensures Last(RunsTo(p, i)).isRest == (p[i - 1] == Rest)
  {
    if i > 1 {
      RunsToShape(p, i - 1);
      NextRunsOk(RunsTo(p, i - 1), p[i - 1]);
    }
  }

  lemma RunsShape(p: seq<Quantum>)
    requires |p| > 0
    ensures RunsOk(Runs(p)) && SumLen(Runs(p)) == |p|
    ensures Runs(p)[0].isRest == (p[0] == Rest)
  {
    RunsToShape(p, |p|);
  }

  /** Closed constituents stay closed: the closed runs of a prefix are a prefix of later ones. */
  lemma {:induction false} ClosedRunsGrow(p: seq<Quantum>, i: int, j: int)
    requires 1 <= i <= j <= |p|
    ensures Init(RunsTo(p, i)) <= Init(RunsTo(p, j))
    decreases j
  {
    if j > i {
      ClosedRunsGrow(p, i, j - 1);
      var prev := RunsTo(p, j - 1);
      if Continues(p[j - 1], Last(prev).isRest) {
        assert Init(RunsTo(p, j)) == Init(prev);
      } else {
        assert Init(RunsTo(p, j)) == prev;
      }
    }
  }

  /** The closed constituents of a prefix are a prefix of the constituents of the whole. */
  lemma ClosedRunsPrefix(p: seq<Quantum>, i: int)
    requires 1 <= i <= |p|
    ensures Init(RunsTo(p, i)) <= Runs(p)
  {
    ClosedRunsGrow(p, i, |p|);
  }

  /** A symbol that does not continue the last constituent closes it. */
  lemma BreakStep(p: seq<Quantum>, i: int)
    requires 1 <= i < |p| && !Continues(p[i], Last(RunsTo(p, i)).isRest)
    ensures RunsTo(p, i + 1) == RunsTo(p, i) + [Run(p[i] == Rest, 1)]
  {
  }

  /** A prefix of the closed part of a list is a prefix of the list. */
  lemma InitPrefix<T>(a: seq<T>, b: seq<T>)
    requires |b| > 0 && a <= Init(b)
    ensures a <= b
  {
    assert forall k :: 0 <= k < |a| ==> a[k] == Init(b)[k] == b[k];
  }

  /** A constituent closed at `i` stays among the closed constituents of every longer prefix. */
  lemma {:induction false} CompletedGrow(p: seq<Quantum>, i: int, j: int)
    requires 1 <= i < j <= |p| && !Continues(p[i], Last(RunsTo(p, i)).isRest)
    ensures RunsTo(p, i) <= Init(RunsTo(p, j))
    decreases j
  {
    if j == i + 1 {
      BreakStep(p, i);
    } else {
      CompletedGrow(p, i, j - 1);
      var prev := RunsTo(p, j - 1);
      if Continues(p[j - 1], Last(prev).isRest) {
        assert Init(RunsTo(p, j)) == Init(prev);
      } else {
        assert Init(RunsTo(p, j)) == prev;
      }
    }
  }

  lemma CompletedBeforeEnd(p: seq<Quantum>, i: int)
    requires 1 <= i < |p| && !Continues(p[i], Last(RunsTo(p, i)).isRest)
    ensures RunsTo(p, i) <= Runs(p)
  {
    CompletedGrow(p, i, |p|);
    InitPrefix(RunsTo(p, i), Runs(p));
  }

  lemma RunsToEnd(p: seq<Quantum>)
    requires |p| > 0
    ensures RunsTo(p, |p|) <= Runs(p)
  {
  }

  /** The last constituent of the first `i` symbols is complete: the pattern ends or the next symbol starts a new one. */
  predicate ClosedAt(p: seq<Quantum>, i: int)
    requires 1 <= i <= |p|
  {
    i == |p| || !Continues(p[i], Last(RunsTo(p, i)).isRest)
  }

  /** A constituent completed at `i` (the next symbol starts a new one) is a prefix of the whole. */
  lemma CompletedRuns(p: seq<Quantum>, i: int)
    requires 1 <= i <= |p|
    requires ClosedAt(p, i)
    ensures RunsTo(p, i) <= Runs(p)
  {
    if i < |p| {
      CompletedBeforeEnd(p, i);
    } else {
      RunsToEnd(p);
    }
  }

  lemma LensSnoc(rs: seq<Run>, r: Run)
    ensures Lens(rs + [r]) == Lens(rs) + [r.len]
  {
  }

  lemma LensInit(rs: seq<Run>)
    requires |rs| > 0
    ensures Lens(Init(rs)) == Init(Lens(rs))
  {
  }

  /** The length list after one more symbol: the last length grows, or a 1 is appended. */
  lemma LensStep(p: seq<Quantum>, i: int)
    requires 1 <= i < |p|
    ensures Continues(p[i], Last(RunsTo(p, i)).isRest) ==>
      Lens(RunsTo(p, i + 1)) == Init(Lens(RunsTo(p, i))) + [Last(Lens(RunsTo(p, i))) + 1]
    ensures !Continues(p[i], Last(RunsTo(p, i)).isRest) ==>
      Lens(RunsTo(p, i + 1)) == Lens(RunsTo(p, i)) + [1]
  {
    var r := RunsTo(p, i);
    LensInit(r);
    if Continues(p[i], Last(r).isRest) {
      LensSnoc(Init(r), Run(Last(r).isRest, Last(r).len + 1));
    } else {
      LensSnoc(r, Run(p[i] == Rest, 1));
    }
  }

  // ---------------------------------------------------------------------------
  // The factor of the run lengths

  lemma DividesTransitive(a: int, b: int, c: int)
    requires a >= 0 && b >= 0 && Divides(a, b) && Divides(b, c)
    ensures Divides(a, c)
  {
    if a != 0 && b != 0 {
      var kb := b / a;
      var kc := c / b;
      assert b == a * kb;
      assert c == b * kc;
      assert c == a * (kb * kc);
      MultipleMod(c, a, kb * kc);
    }
  }

  lemma {:induction false} GcfAllNonNegative(ls: seq<int>)
    requires forall k :: 0 <= k < |ls| ==> ls[k] >= 0
    ensures GcfAll(ls) >= 0
  {
    if |ls| > 0 {
      GcfAllNonNegative(Init(ls));
      GcfNonNegative(GcfAll(Init(ls)), Last(ls));
    }
  }

  /** The factor of positive lengths is positive. */
  lemma GcfAllPositive(ls: seq<int>)
    requires |ls| > 0
    requires forall k :: 0 <= k < |ls| ==> ls[k] >= 1
    ensures GcfAll(ls) >= 1
  {
    GcfAllNonNegative(Init(ls));
    GcfPositive(GcfAll(Init(ls)), Last(ls));
  }

  /** The factor of a list of lengths divides each of them. */
  lemma {:induction false} GcfAllDivides(ls: seq<int>)
    requires forall k :: 0 <= k < |ls| ==> ls[k] >= 0
    ensures forall k :: 0 <= k < |ls| ==> Divides(GcfAll(ls), ls[k])
  {
    if |ls| > 0 {
      var g0 := GcfAll(Init(ls));
      GcfAllDivides(Init(ls));
      GcfAllNonNegative(Init(ls));
      GcfDividesBoth(g0, Last(ls));
      var g := GcfAll(ls);
      GcfNonNegative(g0, Last(ls));
      forall k | 0 <= k < |ls| - 1
        ensures Divides(g, ls[k])
      {
        assert Init(ls)[k] == ls[k];
        DividesTransitive(g, g0, ls[k]);
      }
    }
  }

  /** Every positive common divisor of the lengths divides their factor. */
  lemma {:induction false} GcfAllGreatest(ls: seq<int>, d: int)
    requires d > 0
    requires forall k :: 0 <= k < |ls| ==> ls[k] >= 0 && Divides(d, ls[k])
    ensures Divides(d, GcfAll(ls))
  {
    if |ls| == 0 {
      DividesSelf(d);
    } else {
      GcfAllGreatest(Init(ls), d);
      GcfAllNonNegative(Init(ls));
      GcfGreatest(GcfAll(Init(ls)), Last(ls), d);
    }
  }

  /** Once the running factor is 1 it stays 1. */
  lemma {:induction false} GcfAllOneExtends(s: seq<int>, t: seq<int>)
    requires s <= t && GcfAll(s) == 1
    requires forall k :: 0 <= k < |t| ==> t[k] >= 0
    ensures GcfAll(t) == 1
    decreases |t|
  {
    if |t| > |s| {
      assert s <= Init(t);
      GcfAllOneExtends(s, Init(t));
      GcfOne(Last(t));
    } else {
      assert s == t;
    }
  }

  /** Folding one more closed length into the running factor, as getGCF writes it. */
  lemma GcfAllStep(ls: seq<int>)
    requires |ls| > 0 && forall k :: 0 <= k < |ls| ==> ls[k] >= 0
    ensures GcfAll(Init(ls + [1])) == (if GcfAll(Init(ls)) == 0 then Last(ls) else Gcf(GcfAll(Init(ls)), Last(ls)))
    ensures GcfAll(ls) == (if GcfAll(Init(ls)) == 0 then Last(ls) else Gcf(GcfAll(Init(ls)), Last(ls)))
  {
    assert Init(ls + [1]) == ls;
    GcfZero(0, Last(ls));
  }

  // ---------------------------------------------------------------------------
  // The reduced form

  /** `n` copies of `x`, none when `n` is not positive. */
  function Repeat(x: Quantum, n: int): (r: seq<Quantum>)
    ensures |r| == if n <= 0 then 0 else n
  {
    if n <= 0 then [] else Repeat(x, n - 1) + [x]
  }

  lemma {:induction false} RepeatAt(x: Quantum, n: int, k: int)
    requires 0 <= k < n
    ensures Repeat(x, n)[k] == x
  {
    if k < n - 1 {
      RepeatAt(x, n - 1, k);
    }
  }

  /** The reduced symbols of one constituent: RESTs, or a leading symbol and TIEs. */
  function Block(r: Run, g: int, lead: Quantum): seq<Quantum>
    requires g > 0
  {
    if r.isRest then Repeat(Rest, r.len / g) else [lead] + Repeat(Tie, r.len / g - 1)
  }

  /**
   * The reduced form of a run list: each length divided by `g`. The first constituent, if it
   * is a note, keeps the original first symbol; every later note starts with an ONSET.
   */
  function Emit(rs: seq<Run>, g: int, first: Quantum): seq<Quantum>
    requires g > 0
  {
    if |rs| == 0 then [] else Emit(Init(rs), g, first) + Block(Last(rs), g, if |rs| == 1 then first else Onset)
  }

  /** Every constituent length is a multiple of `g`. */
  predicate Divisible(rs: seq<Run>, g: int)
    requires g > 0
  {
    forall k :: 0 <= k < |rs| ==> rs[k].len % g == 0
  }

  lemma PatternGcfFacts(p: seq<Quantum>)
    requires |p| > 0
    ensures PatternGcf(p) >= 1
    ensures Divisible(Runs(p), PatternGcf(p))
  {
    RunsShape(p);
    GcfAllPositive(Lens(Runs(p)));
    GcfAllDivides(Lens(Runs(p)));
  }

  /**
   * The reduced pattern that generateReducedPattern computes, and the empty pattern for an
   * empty input (the special case of the terminal's constructor).
   */
  function Reduced(p: seq<Quantum>): seq<Quantum>
  {
    if |p| == 0 then []
    else
      PatternGcfFacts(p);
      Emit(Runs(p), PatternGcf(p), p[0])
  }

  lemma DivideExact(n: int, g: int)
    requires g > 0 && n >= 1 && n % g == 0
    ensures n / g >= 1 && (n / g) * g == n
  {
    assert n == g * (n / g) + n % g;
    if n / g <= 0 { assert false; }
  }

  lemma Distribute(x: int, y: int, g: int)
    ensures (x + y) * g == x * g + y * g
  {
  }

  lemma BlockSize(r: Run, g: int, lead: Quantum)
    requires g > 0 && r.len / g >= 1
    ensures |Block(r, g, lead)| == r.len / g
  {
  }

  lemma InitOk(rs: seq<Run>, g: int)
    requires |rs| > 0 && g > 0 && RunsOk(rs) && Divisible(rs, g)
    ensures RunsOk(Init(rs)) && Divisible(Init(rs), g)
    ensures Last(rs).len >= 1 && Last(rs).len % g == 0
    ensures |rs| > 1 ==> !(rs[|rs| - 2].isRest && Last(rs).isRest)
  {
    assert forall k :: 0 <= k < |Init(rs)| ==> Init(rs)[k] == rs[k];
  }

  lemma {:induction false} EmitSize(rs: seq<Run>, g: int, f: Quantum)
    requires g > 0 && RunsOk(rs) && Divisible(rs, g)
    ensures |Emit(rs, g, f)| * g == SumLen(rs)
    ensures |Emit(rs, g, f)| >= |rs|
  {
    if |rs| > 0 {
      InitOk(rs, g);
      EmitSize(Init(rs), g, f);
      var r := Last(rs);
      DivideExact(r.len, g);
      var c := r.len / g;
      BlockSize(r, g, if |rs| == 1 then f else Onset);
      var e := |Emit(Init(rs), g, f)|;
      assert |Emit(rs, g, f)| == e + c;
      assert SumLen(rs) == SumLen(Init(rs)) + r.len;
      Distribute(e, c, g);
      assert |Emit(rs, g, f)| * g == (e + c) * g;
    }
  }

  lemma {:induction false} EmitPrefix(rs: seq<Run>, ts: seq<Run>, g: int, f: Quantum)
    requires g > 0 && rs <= ts
    ensures Emit(rs, g, f) <= Emit(ts, g, f)
    decreases |ts|
  {
    if |ts| > |rs| {
      assert rs <= Init(ts);
      EmitPrefix(rs, Init(ts), g, f);
    } else {
      assert rs == ts;
    }
  }

  lemma DivisiblePrefix(rs: seq<Run>, ts: seq<Run>, g: int)
    requires g > 0 && rs <= ts && Divisible(ts, g) && RunsOk(ts)
    ensures Divisible(rs, g) && RunsOk(rs)
  {
    assert forall k :: 0 <= k < |rs| ==> rs[k] == ts[k];
  }

  lemma QuotientOf(n: int, g: int, c: int)
    requires g > 0 && c * g == n
    ensures n / g == c
  {
    assert n == g * c;
    MultipleMod(n, g, c);
    assert n == g * (n / g);
    if n / g > c { assert false; } else if n / g < c { assert false; }
  }

  /** Emitting a well-formed run list: the last block is led by the first symbol iff it is alone. */
  lemma EmitLast(r: seq<Run>, g: int, f: Quantum)
    requires |r| > 0 && g > 0 && RunsOk(r) && Divisible(r, g)
    ensures Last(r).len / g >= 1
    ensures var e0 := Emit(Init(r), g, f);
      Emit(r, g, f) == e0 + Block(Last(r), g, if |e0| == 0 then f else Onset)
  {
    InitOk(r, g);
    DivideExact(Last(r).len, g);
    EmitSize(Init(r), g, f);
  }

  /**
   * Closing the last constituent of the first `i` symbols (at the symbol `p[i]` or at the end)
   * appends its block, led by the first symbol only when nothing has been emitted yet, and
   * stays within `|p| / g` symbols, for any factor `g` of the constituent lengths.
   */
  lemma CloseRun(p: seq<Quantum>, i: int, g: int)
    requires 1 <= i <= |p| && ClosedAt(p, i)
    requires g >= 1 && Divisible(Runs(p), g)
    ensures var r := RunsTo(p, i);
      var e0 := Emit(Init(r), g, p[0]);
      && Last(r).len / g >= 1
      && Emit(r, g, p[0]) == e0 + Block(Last(r), g, if |e0| == 0 then p[0] else Onset)
      && |Emit(r, g, p[0])| <= |p| / g
      && (i == |p| ==> |Emit(r, g, p[0])| == |p| / g)
  {
    var full := Runs(p);
    RunsShape(p);
    var r := RunsTo(p, i);
    CompletedRuns(p, i);
    DivisiblePrefix(r, full, g);
    EmitLast(r, g, p[0]);
    EmitSize(full, g, p[0]);
    EmitPrefix(r, full, g, p[0]);
    QuotientOf(|p|, g, |Emit(full, g, p[0])|);
  }

  // ---------------------------------------------------------------------------
  // What reduction preserves

  /** Each constituent with its length divided by `g`. */
  function Divide(rs: seq<Run>, g: int): (ds: seq<Run>)
    requires g > 0
    ensures |ds| == |rs|
    ensures forall k :: 0 <= k < |rs| ==> ds[k] == Run(rs[k].isRest, rs[k].len / g)
  {
    seq(|rs|, k requires 0 <= k < |rs| => Run(rs[k].isRest, rs[k].len / g))
  }

  lemma NextRunsAppend(a: seq<Run>, b: seq<Run>, q: Quantum)
    requires |b| > 0
    ensures NextRuns(a + b, q) == a + NextRuns(b, q)
  {
    assert Last(a + b) == Last(b);
    assert Init(a + b) == a + Init(b);
  }

  /** The constituents of a prefix depend only on that prefix. */
  lemma {:induction false} RunsToLocal(p: seq<Quantum>, q: seq<Quantum>, i: int)
    requires 1 <= i <= |p| && i <= |q| && p[..i] == q[..i]
    ensures RunsTo(p, i) == RunsTo(q, i)
  {
    assert p[i - 1] == p[..i][i - 1] == q[i - 1];
    assert p[0] == p[..i][0] == q[0];
    if i > 1 {
      assert p[..i - 1] == p[..i][..i - 1];
      assert q[..i - 1] == q[..i][..i - 1];
      RunsToLocal(p, q, i - 1);
    }
  }

  /** The first symbol of an appended pattern that starts a new constituent. */
  lemma RunsToAppendFirst(a: seq<Quantum>, b: seq<Quantum>)
    requires |a| > 0 && |b| > 0 && !Continues(b[0], Last(Runs(a)).isRest)
    ensures RunsTo(a + b, |a| + 1) == Runs(a) + RunsTo(b, 1)
  {
    var ab := a + b;
    assert ab[|a|] == b[0];
    assert ab[..|a|] == a[..|a|];
    RunsToLocal(ab, a, |a|);
    assert RunsTo(ab, |a| + 1) == NextRuns(Runs(a), b[0]);
  }

  /** A further symbol of the appended pattern extends `b`'s constituents only. */
  lemma RunsToAppendStep(a: seq<Quantum>, b: seq<Quantum>, j: int)
    requires |a| > 0 && 2 <= j <= |b|
    requires RunsTo(a + b, |a| + j - 1) == Runs(a) + RunsTo(b, j - 1)
    ensures RunsTo(a + b, |a| + j) == Runs(a) + RunsTo(b, j)
  {
    var ab := a + b;
    assert ab[|a| + j - 1] == b[j - 1];
    assert RunsTo(ab, |a| + j) == NextRuns(RunsTo(ab, |a| + j - 1), b[j - 1]);
    NextRunsAppend(Runs(a), RunsTo(b, j - 1), b[j - 1]);
  }

  /** Reading on into an appended pattern that starts a new constituent. */
  lemma {:induction false} RunsToAppend(a: seq<Quantum>, b: seq<Quantum>, j: int)
    requires |a| > 0 && 1 <= j <= |b| && !Continues(b[0], Last(Runs(a)).isRest)
    ensures RunsTo(a + b, |a| + j) == Runs(a) + RunsTo(b, j)
  {
    if j == 1 {
      RunsToAppendFirst(a, b);
    } else {
      RunsToAppend(a, b, j - 1);
      RunsToAppendStep(a, b, j);
    }
  }

  /** Appending a pattern that starts a new constituent appends its constituents. */
  lemma RunsAppend(a: seq<Quantum>, b: seq<Quantum>)
    requires |a| > 0 && |b| > 0 && !Continues(b[0], Last(Runs(a)).isRest)
    ensures Runs(a + b) == Runs(a) + Runs(b)
  {
    RunsToAppend(a, b, |b|);
  }

  lemma {:induction false} RunsOfRestsTo(n: int, k: int)
    requires 1 <= k <= n
    ensures RunsTo(Repeat(Rest, n), k) == [Run(true, k)]
  {
    RepeatAt(Rest, n, k - 1);
    if k > 1 {
      RunsOfRestsTo(n, k - 1);
    }
  }

  lemma {:induction false} RunsOfNoteTo(lead: Quantum, n: int, k: int)
    requires 1 <= k <= n && lead != Rest
    ensures RunsTo([lead] + Repeat(Tie, n - 1), k) == [Run(false, k)]
  {
    var s := [lead] + Repeat(Tie, n - 1);
    if k == 1 {
      assert s[0] == lead;
    } else {
      RunsOfNoteTo(lead, n, k - 1);
      RepeatAt(Tie, n - 1, k - 2);
      assert s[k - 1] == Tie;
      var prev := RunsTo(s, k - 1);
      assert Continues(Tie, Last(prev).isRest) && Init(prev) == [];
      assert RunsTo(s, k) == NextRuns(prev, Tie);
    }
  }

  lemma RunsOfBlock(r: Run, g: int, lead: Quantum)
    requires g > 0 && r.len / g >= 1 && (!r.isRest ==> lead != Rest)
    ensures |Block(r, g, lead)| > 0
    ensures Runs(Block(r, g, lead)) == [Run(r.isRest, r.len / g)]
    ensures Block(r, g, lead)[0] == if r.isRest then Rest else lead
  {
    var n := r.len / g;
    if r.isRest {
      RunsOfRestsTo(n, n);
      RepeatAt(Rest, n, 0);
    } else {
      RunsOfNoteTo(lead, n, n);
    }
  }

  /** The last block of an emitted list starts a new constituent. */
  lemma EmitBlockBreaks(rs: seq<Run>, g: int, f: Quantum)
    requires |rs| > 1 && g > 0 && RunsOk(rs) && Divisible(rs, g)
    ensures Last(rs).len / g >= 1
    ensures var b := Block(Last(rs), g, Onset);
      |b| > 0 && !Continues(b[0], rs[|rs| - 2].isRest)
    ensures Runs(Block(Last(rs), g, Onset)) == [Run(Last(rs).isRest, Last(rs).len / g)]
  {
    InitOk(rs, g);
    DivideExact(Last(rs).len, g);
    RunsOfBlock(Last(rs), g, Onset);
  }

  lemma DivideSnoc(rs: seq<Run>, g: int)
    requires |rs| > 0 && g > 0
    ensures Divide(rs, g) == Divide(Init(rs), g) + [Run(Last(rs).isRest, Last(rs).len / g)]
  {
  }

  /** One step of RunsOfEmit: the last block is read back as one more constituent. */
  lemma RunsOfEmitStep(rs: seq<Run>, g: int, f: Quantum)
    requires |rs| > 1 && g > 0 && RunsOk(rs) && Divisible(rs, g)
    requires |Emit(Init(rs), g, f)| > 0 && Runs(Emit(Init(rs), g, f)) == Divide(Init(rs), g)
    ensures |Emit(rs, g, f)| > 0
    ensures Runs(Emit(rs, g, f)) == Divide(rs, g)
    ensures Emit(rs, g, f)[0] == Emit(Init(rs), g, f)[0]
  {
    var a := Emit(Init(rs), g, f);
    var b := Block(Last(rs), g, Onset);
    EmitBlockBreaks(rs, g, f);
    assert Last(Runs(a)) == Last(Divide(Init(rs), g));
    assert Last(Divide(Init(rs), g)).isRest == rs[|rs| - 2].isRest;
    RunsAppend(a, b);
    assert Emit(rs, g, f) == a + b;
    DivideSnoc(rs, g);
  }

  /** Reading back an emitted run list gives the divided run list. */
  lemma {:induction false} RunsOfEmit(rs: seq<Run>, g: int, f: Quantum)
    requires |rs| > 0 && g > 0 && RunsOk(rs) && Divisible(rs, g)
    requires !rs[0].isRest ==> f != Rest
    ensures |Emit(rs, g, f)| > 0
    ensures Runs(Emit(rs, g, f)) == Divide(rs, g)
    ensures Emit(rs, g, f)[0] == if rs[0].isRest then Rest else f
  {
    if |rs| == 1 {
      InitOk(rs, g);
      DivideExact(rs[0].len, g);
      RunsOfBlock(rs[0], g, f);
      assert Emit(rs, g, f) == Block(rs[0], g, f);
    } else {
      InitOk(rs, g);
      RunsOfEmit(Init(rs), g, f);
      RunsOfEmitStep(rs, g, f);
    }
  }

  lemma InitDivide(rs: seq<Run>, g: int)
    requires |rs| > 0 && g > 0
    ensures Init(Divide(rs, g)) == Divide(Init(rs), g)
  {
  }

  /** Emitting the divided runs with factor 1 is emitting the runs with factor `g`. */
  lemma {:induction false} EmitDivided(rs: seq<Run>, g: int, f: Quantum)
    requires g > 0
    ensures Emit(Divide(rs, g), 1, f) == Emit(rs, g, f)
  {
    if |rs| > 0 {
      InitDivide(rs, g);
      EmitDivided(Init(rs), g, f);
    }
  }

  /**
   * Reduction keeps the order and kind of the constituents, divides every length by the
   * pattern's factor and keeps the first symbol (so a leading TIE run stays a TIE run).
   */
  lemma ReducedRuns(p: seq<Quantum>)
    requires |p| > 0
    ensures PatternGcf(p) >= 1
    ensures |Reduced(p)| > 0 && Reduced(p)[0] == p[0]
    ensures Runs(Reduced(p)) == Divide(Runs(p), PatternGcf(p))
    ensures |Reduced(p)| * PatternGcf(p) == |p|
  {
    PatternGcfFacts(p);
    RunsShape(p);
    RunsOfEmit(Runs(p), PatternGcf(p), p[0]);
    EmitSize(Runs(p), PatternGcf(p), p[0]);
  }

  /** An empty pattern reduces to the empty pattern; otherwise the length shrinks by the factor. */
  lemma ReducedLength(p: seq<Quantum>)
    ensures |p| == 0 ==> Reduced(p) == []
    ensures |p| > 0 ==> PatternGcf(p) >= 1 && |Reduced(p)| == |p| / PatternGcf(p)
  {
    if |p| > 0 {
      ReducedRuns(p);
      QuotientOf(|p|, PatternGcf(p), |Reduced(p)|);
    }
  }

  lemma MulPositive(x: int, y: int)
    requires x > 0 && y > 0
    ensures x * y > 0
  {
  }

  /** If `h` divides `len / g` and `g` divides `len`, then `g * h` divides `len`. */
  lemma ProductDivides(len: int, g: int, h: int)
    requires len >= 1 && g > 0 && h > 0 && len % g == 0 && Divides(h, len / g)
    ensures Divides(g * h, len)
  {
    DivideExact(len, g);
    var m := len / g;
    var c := m / h;
    assert m == h * c;
    assert len == g * m;
    assert len == (g * h) * c;
    MulPositive(g, h);
    MultipleMod(len, g * h, c);
  }

  lemma DividedLensPositive(rs: seq<Run>, g: int)
    requires g > 0 && RunsOk(rs) && Divisible(rs, g)
    ensures forall k :: 0 <= k < |rs| ==> Lens(Divide(rs, g))[k] >= 1
  {
    forall k | 0 <= k < |rs|
      ensures Lens(Divide(rs, g))[k] >= 1
    {
      DivideExact(rs[k].len, g);
    }
  }

  lemma LiftDivisor(rs: seq<Run>, g: int, h: int)
    requires g > 0 && h > 0 && RunsOk(rs) && Divisible(rs, g)
    requires forall k :: 0 <= k < |rs| ==> Divides(h, Lens(Divide(rs, g))[k])
    ensures g * h > 0
    ensures forall k :: 0 <= k < |rs| ==> Lens(rs)[k] >= 0 && Divides(g * h, Lens(rs)[k])
  {
    MulPositive(g, h);
    forall k | 0 <= k < |rs|
      ensures Lens(rs)[k] >= 0 && Divides(g * h, Lens(rs)[k])
    {
      assert Lens(Divide(rs, g))[k] == rs[k].len / g;
      ProductDivides(rs[k].len, g, h);
    }
  }

  lemma MulGrows(g: int, h: int)
    requires g >= 1 && h >= 1 && g * h <= g
    ensures h == 1
  {
    if h > 1 {
      assert g * h == g * (h - 1) + g;
      MulPositive(g, h - 1);
      assert false;
    }
  }

  /** The factor of the divided lengths is 1. */
  lemma DividedGcfOne(rs: seq<Run>)
    requires |rs| > 0 && RunsOk(rs)
    ensures GcfAll(Lens(rs)) >= 1 && Divisible(rs, GcfAll(Lens(rs)))
    ensures GcfAll(Lens(Divide(rs, GcfAll(Lens(rs))))) == 1
  {
    var g := GcfAll(Lens(rs));
    GcfAllPositive(Lens(rs));
    GcfAllDivides(Lens(rs));
    var ld := Lens(Divide(rs, g));
    DividedLensPositive(rs, g);
    GcfAllPositive(ld);
    GcfAllDivides(ld);
    var h := GcfAll(ld);
    LiftDivisor(rs, g, h);
    GcfAllGreatest(Lens(rs), g * h);
    DividesBound(g * h, g);
    MulGrows(g, h);
  }

  /** A reduced pattern is fully reduced: its factor is 1. */
  lemma ReducedGcfOne(p: seq<Quantum>)
    requires |p| > 0
    ensures |Reduced(p)| > 0 && PatternGcf(Reduced(p)) == 1
  {
    ReducedRuns(p);
    RunsShape(p);
    DividedGcfOne(Runs(p));
  }

  /** Reducing an already reduced pattern returns it unchanged. */
  lemma ReducedIdempotent(p: seq<Quantum>)
    ensures Reduced(Reduced(p)) == Reduced(p)
  {
    if |p| > 0 {
      var q := Reduced(p);
      ReducedRuns(p);
      ReducedGcfOne(p);
      var g := PatternGcf(p);
      EmitDivided(Runs(p), g, p[0]);
      assert Reduced(q) == Emit(Divide(Runs(p), g), 1, q[0]);
    }
  }

  /** Reading a symbol keeps all constituents but the last, and the last one's kind. */
  lemma NextRunsKeeps(prev: seq<Run>, q: Quantum)
    requires |prev| > 0
    ensures |NextRuns(prev, q)| >= |prev|
    ensures forall j :: 0 <= j < |prev| - 1 ==> NextRuns(prev, q)[j] == prev[j]
    ensures NextRuns(prev, q)[|prev| - 1].isRest == Last(prev).isRest
  {
  }

  predicate AllRestRuns(rs: seq<Run>)
  {
    forall j :: 0 <= j < |rs| ==> rs[j].isRest
  }

  /** If reading a symbol leaves only rests, only rests were there before. */
  lemma RestRunsStep(prev: seq<Run>, q: Quantum)
    requires |prev| > 0 && AllRestRuns(NextRuns(prev, q))
    ensures AllRestRuns(prev)
  {
    var rs := NextRuns(prev, q);
    NextRunsKeeps(prev, q);
    forall j | 0 <= j < |prev|
      ensures prev[j].isRest
    {
      assert rs[j].isRest;
      if j == |prev| - 1 {
        assert rs[|prev| - 1].isRest == Last(prev).isRest;
      }
    }
  }

  /** A pattern all of whose constituents are rests consists of RESTs only. */
  lemma {:induction false} RestRunsTo(p: seq<Quantum>, i: int)
    requires 1 <= i <= |p| && AllRestRuns(RunsTo(p, i))
    ensures forall k :: 0 <= k < i ==> p[k] == Rest
  {
    var rs := RunsTo(p, i);
    RunsToShape(p, i);
    assert rs[|rs| - 1].isRest;
    if i > 1 {
      RestRunsStep(RunsTo(p, i - 1), p[i - 1]);
      RestRunsTo(p, i - 1);
    }
  }

  /** A pattern of `n` RESTs. */
  lemma AllRests(p: seq<Quantum>)
    requires forall k :: 0 <= k < |p| ==> p[k] == Rest
    ensures p == Repeat(Rest, |p|)
  {
    forall k | 0 <= k < |p| {
      RepeatAt(Rest, |p|, k);
    }
  }

  /** The reduced form of a non-empty pattern of RESTs is the single REST of the default terminal. */
  lemma ReducedOfRests(p: seq<Quantum>)
    requires |p| > 0 && forall k :: 0 <= k < |p| ==> p[k] == Rest
    ensures Reduced(p) == [Rest]
  {
    AllRests(p);
    RunsOfRestsTo(|p|, |p|);
    assert Lens(Runs(p)) == [|p|];
    GcfZero(0, |p|);
    assert GcfAll([|p|]) == Gcf(GcfAll([]), |p|);
    assert Emit(Runs(p), |p|, p[0]) == Emit([], |p|, p[0]) + Repeat(Rest, 1);
  }

  /** Only a non-empty pattern of RESTs reduces to a single REST. */
  lemma SingleRestReduced(p: seq<Quantum>)
    requires Reduced(p) == [Rest]
    ensures |p| > 0 && forall k :: 0 <= k < |p| ==> p[k] == Rest
  {
    ReducedRuns(p);
    assert Runs([Rest]) == [Run(true, 1)];
    RestRunsTo(p, |p|);
  }
}
