/**
 * What one parse step of a metrical hypothesis computes
 * (src/metdetection/meter/lpcfg/MetricalLpcfgMetricalModelState.java, `parseStep`): one
 * measure tree per voice, and which of them are scored by the grammar and added to the
 * hypothesis' local grammar.
 */
module ParseSteps {
  import opened JavaInt
  import opened Beats
  import opened MidiNotes
  import opened LpcfgTrees
  import opened ProbabilityTrackers
  import opened Lpcfgs
  import opened MetricalMatches
  import opened MatchUpdates
  import TreeFactory

  /**
   * What the model takes from code it does not see: the annotator of the tree factory, the
   * tree class's `isEmpty` and `startsWithRest`, and the grammar's smoothing.
   */
  datatype Oracles = Oracles(annotator: TreeFactory.Annotator, isEmpty: Tree -> bool,
                             startsWithRest: Tree -> bool, smoothing: Smoothing)

  /** The tree `makeTree` builds for one voice's unfinished notes, for measure `measureNum`. */
  function VoiceTree(notes: seq<MidiNote>, beats: seq<Beat>, g: Geometry, measureNum: int,
                     ann: TreeFactory.Annotator): Tree
    requires GeometryValid(g) && Conglomerates.AllFit(notes, beats)
  {
    TreeFactory.MeasureTree(
      TreeFactory.MeasureQuantums(notes, beats, g.measure, g.subBeatLength, g.anacrusis, measureNum),
      g.measure.beatsPerMeasure, g.measure.subBeatsPerBeat, ann)
  }

  /** `makeTree` for one voice. */
  method MakeVoiceTree(notes: seq<MidiNote>, beats: seq<Beat>, g: Geometry, measureNum: int,
                       ann: TreeFactory.Annotator) returns (tree: Tree)
    requires GeometryValid(g) && Conglomerates.AllFit(notes, beats)
    ensures tree == VoiceTree(notes, beats, g, measureNum, ann)
  {
    tree := TreeFactory.MakeTree(notes, beats, g.measure, g.subBeatLength, g.anacrusis, measureNum, ann);
  }

  /** The trees of one parse step, one per voice. */
  function VoiceTrees(voices: seq<seq<MidiNote>>, beats: seq<Beat>, g: Geometry, measureNum: int,
                      ann: TreeFactory.Annotator): (trees: seq<Tree>)
    requires GeometryValid(g) && AllVoicesFit(voices, beats)
    ensures |trees| == |voices|
    decreases |voices|
  {
    if |voices| == 0 then []
    else
      var n := |voices| - 1;
      VoiceTrees(voices[..n], beats, g, measureNum, ann) + [VoiceTree(voices[n], beats, g, measureNum, ann)]
  }

  /** One more voice adds its tree at the end. */
  lemma VoiceTreesStep(voices: seq<seq<MidiNote>>, beats: seq<Beat>, g: Geometry, measureNum: int,
                       ann: TreeFactory.Annotator, v: int)
    requires GeometryValid(g) && AllVoicesFit(voices, beats) && 0 <= v < |voices|
    ensures VoiceTrees(voices[..v + 1], beats, g, measureNum, ann)
      == VoiceTrees(voices[..v], beats, g, measureNum, ann) + [VoiceTree(voices[v], beats, g, measureNum, ann)]
  {
    assert voices[..v + 1][..v] == voices[..v];
  }

  /** The `makeTree` calls of `parseStep`, one per voice. They read only the voice's notes, the
   *  beats and the measure, none of which scoring changes, so they are made ahead of it here. */
  method MakeVoiceTrees(voices: seq<seq<MidiNote>>, beats: seq<Beat>, g: Geometry, measureNum: int,
                        ann: TreeFactory.Annotator) returns (trees: seq<Tree>)
    requires GeometryValid(g) && AllVoicesFit(voices, beats)
    ensures trees == VoiceTrees(voices, beats, g, measureNum, ann)
  {
    trees := [];
    for v := 0 to |voices|
      invariant trees == VoiceTrees(voices[..v], beats, g, measureNum, ann)
    {
      var tree := MakeVoiceTree(voices[v], beats, g, measureNum, ann);
      VoiceTreesStep(voices, beats, g, measureNum, ann, v);
      trees := trees + [tree];
    }
    assert voices[..|voices|] == voices;
  }

  /** A voice's tree is scored when it is not empty, unless it is the voice's first non-empty
   *  tree and starts with a rest. */
  predicate Scored(t: Tree, begun: bool, o: Oracles)
  {
    !o.isEmpty(t) && (begun || !o.startsWithRest(t))
  }

  /** The trees of a step that are scored, in voice order. */
  function ScoredTrees(trees: seq<Tree>, begun: seq<bool>, o: Oracles): (r: seq<Tree>)
    requires |begun| == |trees|
    ensures |r| <= |trees|
    decreases |trees|
  {
    if |trees| == 0 then []
    else
      var n := |trees| - 1;
      ScoredTrees(trees[..n], begun[..n], o) + (if Scored(trees[n], begun[n], o) then [trees[n]] else [])
  }

  /** The scored trees are exactly the trees of the voices whose tree is scored: each of them
   *  is not empty, and none is left out. */
  lemma {:induction false} ScoredTreesMembers(trees: seq<Tree>, begun: seq<bool>, o: Oracles)
    requires |begun| == |trees|
    ensures forall t :: t in ScoredTrees(trees, begun, o) ==>
      exists v :: 0 <= v < |trees| && trees[v] == t && Scored(t, begun[v], o)
    ensures forall v :: 0 <= v < |trees| && Scored(trees[v], begun[v], o) ==> trees[v] in ScoredTrees(trees, begun, o)
    decreases |trees|
  {
    if |trees| > 0 {
      var n := |trees| - 1;
      ScoredTreesMembers(trees[..n], begun[..n], o);
      forall t | t in ScoredTrees(trees, begun, o)
        ensures exists v :: 0 <= v < |trees| && trees[v] == t && Scored(t, begun[v], o)
      {
        if t in ScoredTrees(trees[..n], begun[..n], o) {
          var v :| 0 <= v < n && trees[..n][v] == t && Scored(t, begun[..n][v], o);
          assert trees[v] == t && begun[v] == begun[..n][v];
        } else {
          assert trees[n] == t && Scored(t, begun[n], o);
        }
      }
      forall v | 0 <= v < |trees| && Scored(trees[v], begun[v], o)
        ensures trees[v] in ScoredTrees(trees, begun, o)
      {
        if v < n {
          assert trees[..n][v] == trees[v] && begun[..n][v] == begun[v];
        }
      }
    }
  }

  /** One more voice looked at. */
  lemma ScoredTreesStep(trees: seq<Tree>, begun: seq<bool>, o: Oracles, k: int)
    requires |begun| == |trees| && 0 <= k < |trees|
    ensures ScoredTrees(trees[..k + 1], begun[..k + 1], o)
      == ScoredTrees(trees[..k], begun[..k], o) + (if Scored(trees[k], begun[k], o) then [trees[k]] else [])
  {
    assert trees[..k + 1][..k] == trees[..k];
    assert begun[..k + 1][..k] == begun[..k];
  }

  /** The `hasBegun` flags after a step: a voice has begun once it had a non-empty tree. */
  function BegunAfter(trees: seq<Tree>, begun: seq<bool>, o: Oracles): (r: seq<bool>)
    requires |begun| == |trees|
    ensures |r| == |begun|
    ensures forall v :: 0 <= v < |r| ==> (r[v] <==> begun[v] || !o.isEmpty(trees[v]))
  {
    seq(|trees|, v requires 0 <= v < |trees| => begun[v] || !o.isEmpty(trees[v]))
  }

  /** The lists `f` gives for the elements of `s`, one after the other. */
  function FlatMap<T, U>(f: T -> seq<U>, s: seq<T>): seq<U>
    decreases |s|
  {
    if |s| == 0 then [] else FlatMap(f, s[..|s| - 1]) + f(s[|s| - 1])
  }

  lemma {:induction false} FlatMapConcat<T, U>(f: T -> seq<U>, a: seq<T>, b: seq<T>)
    ensures FlatMap(f, a + b) == FlatMap(f, a) + FlatMap(f, b)
    decreases |b|
  {
    if |b| == 0 {
      assert a + b == a;
    } else {
      var n := |b| - 1;
      assert (a + b)[..|a + b| - 1] == a + b[..n];
      assert (a + b)[|a + b| - 1] == b[n];
      FlatMapConcat(f, a, b[..n]);
    }
  }

  /** The count updates of a list of trees, tree after tree. */
  function TreesEvents(trees: seq<Tree>): seq<Event>
  {
    FlatMap(TreeEvents, trees)
  }

  lemma TreesEventsConcat(a: seq<Tree>, b: seq<Tree>)
    ensures TreesEvents(a + b) == TreesEvents(a) + TreesEvents(b)
  {
    FlatMapConcat(TreeEvents, a, b);
  }

  /** The counts of a grammar that holds exactly `trees`, each added once. */
  function CountsOf(trees: seq<Tree>): Counts
  {
    AddEvents(Counts(map[], map[], map[]), TreesEvents(trees))
  }

  /** The score of a list of trees under the counts `c`: the sum of their log probabilities. */
  function ScoreOf(c: Counts, trees: seq<Tree>, smoothing: Smoothing): real
  {
    SumLogProbability(c, TreesEvents(trees), smoothing)
  }

  lemma TreesEventsOne(t: Tree)
    ensures TreesEvents([t]) == TreeEvents(t)
  {
    assert [t][..0] == [] && [t][0] == t;
    assert FlatMap(TreeEvents, [t]) == FlatMap(TreeEvents, []) + TreeEvents(t);
  }

  /** The score of a step's trees adds to the score of the grammar's earlier trees. */
  lemma ScoreOfConcat(c: Counts, a: seq<Tree>, b: seq<Tree>, smoothing: Smoothing)
    ensures ScoreOf(c, a + b, smoothing) == ScoreOf(c, a, smoothing) + ScoreOf(c, b, smoothing)
    ensures CountsOf(a + b) == AddEvents(CountsOf(a), TreesEvents(b))
  {
    TreesEventsConcat(a, b);
    SumConcat(c, TreesEvents(a), TreesEvents(b), smoothing);
    AddEventsConcat(Counts(map[], map[], map[]), TreesEvents(a), TreesEvents(b));
  }

  /**
   * What the loop of `parseStep` changes: the `hasBegun` flags, the local grammar's trees and
   * counts, and the score. The counts are of a type `C`, updated tree by tree by a function
   * `add`, and each scored tree adds `value` to the score.
   */
  datatype Progress<C> = Progress(begun: seq<bool>, trees: seq<Tree>, counts: C, score: real)

  /** One pass of the loop for voice `v` with its tree `t`: a non-empty tree marks the voice
   *  begun, and is added and scored unless it is the voice's first and starts with a rest. */
  function VoiceStep<C>(p: Progress<C>, t: Tree, v: int, add: (C, Tree) -> C, value: Tree -> real,
                        o: Oracles): (r: Progress<C>)
    requires 0 <= v < |p.begun|
    ensures |r.begun| == |p.begun|
  {
    if o.isEmpty(t) then p
    else if p.begun[v] || !o.startsWithRest(t) then
      Progress(p.begun[v := true], p.trees + [t], add(p.counts, t), p.score + value(t))
    else p.(begun := p.begun[v := true])
  }

  /** The loop of `parseStep` after its first `v` voices. */
  function ParsedTo<C>(p0: Progress<C>, trees: seq<Tree>, add: (C, Tree) -> C, value: Tree -> real,
                       o: Oracles, v: nat): (r: Progress<C>)
    requires |p0.begun| == |trees| && v <= |trees|
    ensures |r.begun| == |trees|
    decreases v
  {
    if v == 0 then p0 else VoiceStep(ParsedTo(p0, trees, add, value, o, v - 1), trees[v - 1], v - 1, add, value, o)
  }

  /** `add` applied to the trees of `s` in turn. */
  function AddAll<C>(add: (C, Tree) -> C, c: C, s: seq<Tree>): C
    decreases |s|
  {
    if |s| == 0 then c else add(AddAll(add, c, s[..|s| - 1]), s[|s| - 1])
  }

  /** The sum of `value` over the trees of `s`. */
  function SumOf(value: Tree -> real, s: seq<Tree>): real
    decreases |s|
  {
    if |s| == 0 then 0.0 else SumOf(value, s[..|s| - 1]) + value(s[|s| - 1])
  }

  /** One pass of the loop adds the voice's tree exactly when it is scored. */
  lemma VoiceStepScored<C>(p: Progress<C>, t: Tree, v: int, add: (C, Tree) -> C, value: Tree -> real, o: Oracles)
    requires 0 <= v < |p.begun|
    ensures var r := VoiceStep(p, t, v, add, value, o);
      var added := if Scored(t, p.begun[v], o) then [t] else [];
      r.begun == p.begun[v := p.begun[v] || !o.isEmpty(t)]
      && r.trees == p.trees + added
      && r.counts == AddAll(add, p.counts, added)
      && r.score == p.score + SumOf(value, added)
  {
    if Scored(t, p.begun[v], o) {
      assert [t][..0] == [];
    } else {
      assert p.trees + [] == p.trees;
    }
  }

  lemma {:induction false} AddAllConcat<C>(add: (C, Tree) -> C, c: C, a: seq<Tree>, b: seq<Tree>)
    ensures AddAll(add, c, a + b) == AddAll(add, AddAll(add, c, a), b)
    decreases |b|
  {
    if |b| == 0 {
      assert a + b == a;
    } else {
      var n := |b| - 1;
      assert (a + b)[..|a + b| - 1] == a + b[..n];
      assert (a + b)[|a + b| - 1] == b[n];
      AddAllConcat(add, c, a, b[..n]);
    }
  }

  lemma {:induction false} SumOfConcat(value: Tree -> real, a: seq<Tree>, b: seq<Tree>)
    ensures SumOf(value, a + b) == SumOf(value, a) + SumOf(value, b)
    decreases |b|
  {
    if |b| == 0 {
      assert a + b == a;
    } else {
      var n := |b| - 1;
      assert (a + b)[..|a + b| - 1] == a + b[..n];
      assert (a + b)[|a + b| - 1] == b[n];
      SumOfConcat(value, a, b[..n]);
    }
  }

  /** After `v` voices the loop has marked begun exactly those of them that had a non-empty
   *  tree, and left the others as they were. */
  lemma {:induction false} ParsedToBegun<C>(p0: Progress<C>, trees: seq<Tree>, add: (C, Tree) -> C,
                                            value: Tree -> real, o: Oracles, v: nat)
    requires |p0.begun| == |trees| && v <= |trees|
    ensures ParsedTo(p0, trees, add, value, o, v).begun == BegunAfter(trees[..v], p0.begun[..v], o) + p0.begun[v..]
    decreases v
  {
    if v == 0 {
      assert BegunAfter(trees[..0], p0.begun[..0], o) == [];
    } else {
      var k := v - 1;
      ParsedToBegun(p0, trees, add, value, o, k);
      var p := ParsedTo(p0, trees, add, value, o, k);
      VoiceStepScored(p, trees[k], k, add, value, o);
      var before := BegunAfter(trees[..k], p0.begun[..k], o);
      var after := BegunAfter(trees[..v], p0.begun[..v], o);
      var b := after + p0.begun[v..];
      var c := p.begun[k := p.begun[k] || !o.isEmpty(trees[k])];
      forall j | 0 <= j < |b|
        ensures b[j] == c[j]
      {
        if j < k {
          assert b[j] == after[j] && c[j] == p.begun[j] == before[j];
        } else if j == k {
          assert b[j] == after[k] && p.begun[k] == p0.begun[k..][0];
        } else {
          assert b[j] == p0.begun[v..][j - v] && p.begun[j] == p0.begun[k..][j - k];
        }
      }
    }
  }

  /** After `v` voices the loop has added the scored trees among them to the trees, in voice
   *  order. */
  lemma {:induction false} ParsedToTrees<C>(p0: Progress<C>, trees: seq<Tree>, add: (C, Tree) -> C,
                                            value: Tree -> real, o: Oracles, v: nat)
    requires |p0.begun| == |trees| && v <= |trees|
    ensures ParsedTo(p0, trees, add, value, o, v).trees == p0.trees + ScoredTrees(trees[..v], p0.begun[..v], o)
    decreases v
  {
    if v == 0 {
      assert trees[..0] == [] && p0.begun[..0] == [];
      assert p0.trees + [] == p0.trees;
    } else {
      var k := v - 1;
      var p := ParsedTo(p0, trees, add, value, o, k);
      ParsedToTrees(p0, trees, add, value, o, k);
      ParsedToBegun(p0, trees, add, value, o, k);
      assert p.begun[k] == p0.begun[k];
      ScoredTreesStep(trees, p0.begun, o, k);
      VoiceStepScored(p, trees[k], k, add, value, o);
      var added := if Scored(trees[k], p0.begun[k], o) then [trees[k]] else [];
      assert p0.trees + (ScoredTrees(trees[..k], p0.begun[..k], o) + added)
          == (p0.trees + ScoredTrees(trees[..k], p0.begun[..k], o)) + added;
    }
  }

  /** After `v` voices the loop has counted the scored trees among them, in voice order. */
  lemma {:induction false} ParsedToCounts<C>(p0: Progress<C>, trees: seq<Tree>, add: (C, Tree) -> C,
                                             value: Tree -> real, o: Oracles, v: nat)
    requires |p0.begun| == |trees| && v <= |trees|
    ensures ParsedTo(p0, trees, add, value, o, v).counts == AddAll(add, p0.counts, ScoredTrees(trees[..v], p0.begun[..v], o))
    decreases v
  {
    if v == 0 {
      assert trees[..0] == [] && p0.begun[..0] == [];
    } else {
      var k := v - 1;
      var p := ParsedTo(p0, trees, add, value, o, k);
      ParsedToCounts(p0, trees, add, value, o, k);
      ParsedToBegun(p0, trees, add, value, o, k);
      assert p.begun[k] == p0.begun[k];
      ScoredTreesStep(trees, p0.begun, o, k);
      VoiceStepScored(p, trees[k], k, add, value, o);
      var added := if Scored(trees[k], p0.begun[k], o) then [trees[k]] else [];
      AddAllConcat(add, p0.counts, ScoredTrees(trees[..k], p0.begun[..k], o), added);
    }
  }

  /** After `v` voices the loop has scored the scored trees among them. */
  lemma {:induction false} ParsedToScore<C>(p0: Progress<C>, trees: seq<Tree>, add: (C, Tree) -> C,
                                            value: Tree -> real, o: Oracles, v: nat)
    requires |p0.begun| == |trees| && v <= |trees|
    ensures ParsedTo(p0, trees, add, value, o, v).score == p0.score + SumOf(value, ScoredTrees(trees[..v], p0.begun[..v], o))
    decreases v
  {
    if v == 0 {
      assert trees[..0] == [] && p0.begun[..0] == [];
    } else {
      var k := v - 1;
      var p := ParsedTo(p0, trees, add, value, o, k);
      ParsedToScore(p0, trees, add, value, o, k);
      ParsedToBegun(p0, trees, add, value, o, k);
      assert p.begun[k] == p0.begun[k];
      ScoredTreesStep(trees, p0.begun, o, k);
      VoiceStepScored(p, trees[k], k, add, value, o);
      var added := if Scored(trees[k], p0.begun[k], o) then [trees[k]] else [];
      SumOfConcat(value, ScoredTrees(trees[..k], p0.begun[..k], o), added);
    }
  }

  /** How a local grammar's counts take one more tree: `addTree`'s count updates. */
  function TreeCounts(c: Counts, t: Tree): Counts
  {
    AddEvents(c, TreeEvents(t))
  }

  /** The log probability of a tree under the shared grammar's counts `shared`. */
  function TreeScores(shared: Counts, smoothing: Smoothing): Tree -> real
  {
    t => SumLogProbability(shared, TreeEvents(t), smoothing)
  }

  /** Adding trees one by one is adding all their events. */
  lemma {:induction false} AddAllCounts(c: Counts, s: seq<Tree>)
    ensures AddAll(TreeCounts, c, s) == AddEvents(c, TreesEvents(s))
    decreases |s|
  {
    if |s| == 0 {
      assert TreesEvents(s) == [];
    } else {
      var n := |s| - 1;
      AddAllCounts(c, s[..n]);
      assert TreesEvents(s) == TreesEvents(s[..n]) + TreeEvents(s[n]);
      AddEventsConcat(c, TreesEvents(s[..n]), TreeEvents(s[n]));
    }
  }

  /** Scoring trees one by one is scoring all their events. */
  lemma {:induction false} SumOfScores(shared: Counts, smoothing: Smoothing, s: seq<Tree>)
    ensures SumOf(TreeScores(shared, smoothing), s) == ScoreOf(shared, s, smoothing)
    decreases |s|
  {
    if |s| == 0 {
      assert TreesEvents(s) == [];
    } else {
      var n := |s| - 1;
      SumOfScores(shared, smoothing, s[..n]);
      assert TreesEvents(s) == TreesEvents(s[..n]) + TreeEvents(s[n]);
      SumConcat(shared, TreesEvents(s[..n]), TreeEvents(s[n]), smoothing);
    }
  }

  /**
   * The whole loop, with a local grammar's counts and the shared grammar's scores: the flags
   * `BegunAfter` gives, and the scored trees added, counted and scored.
   */
  lemma ParsedAll(p0: Progress<Counts>, trees: seq<Tree>, shared: Counts, o: Oracles)
    requires |p0.begun| == |trees|
    ensures var r := ParsedTo(p0, trees, TreeCounts, TreeScores(shared, o.smoothing), o, |trees|);
      var s := ScoredTrees(trees, p0.begun, o);
      r.begun == BegunAfter(trees, p0.begun, o)
      && r.trees == p0.trees + s
      && r.counts == AddEvents(p0.counts, TreesEvents(s))
      && r.score == p0.score + ScoreOf(shared, s, o.smoothing)
  {
    var value := TreeScores(shared, o.smoothing);
    ParsedToTrees(p0, trees, TreeCounts, value, o, |trees|);
    ParsedToCounts(p0, trees, TreeCounts, value, o, |trees|);
    ParsedToScore(p0, trees, TreeCounts, value, o, |trees|);
    ParsedToBegun(p0, trees, TreeCounts, value, o, |trees|);
    assert trees[..|trees|] == trees && p0.begun[..|trees|] == p0.begun;
    assert p0.begun[|trees|..] == [];
    assert BegunAfter(trees, p0.begun, o) + [] == BegunAfter(trees, p0.begun, o);
    var s := ScoredTrees(trees, p0.begun, o);
    AddAllCounts(p0.counts, s);
    SumOfScores(shared, o.smoothing, s);
  }
}
