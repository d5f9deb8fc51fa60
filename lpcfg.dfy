/**
 * The grammar (src/metdetection/meter/lpcfg/MetricalLpcfg.java): the list of trees it was
 * built from and one probability tracker holding the counts of their nodes.
 */
module Lpcfgs {
  import opened Terminals
  import opened LpcfgTrees
  import opened CountTables
  import opened ProbabilityTrackers

  // ---------------------------------------------------------------------------
  // The events of a tree

  /** The count updates a nonterminal makes for itself: its transition, then its head under the
   *  parent's head if its type is weak, or else the measure head if it is the measure root. */
  function OwnEvents(level: Level, typeString: string, transitionString: string, head: Head,
                     parentHead: Head, measure: Measure): (evs: seq<Event>)
    ensures |evs| >= 1 && evs[0] == TransitionEvent(measure, typeString, head, transitionString, level)
    ensures IsWeak(typeString) ==> |evs| == 2 && evs[1] == HeadEvent(measure, typeString, parentHead, head, level)
    ensures !IsWeak(typeString) && level == MeasureLevel ==> |evs| == 2 && evs[1] == MeasureHeadEvent(measure, head)
    ensures !IsWeak(typeString) && level != MeasureLevel ==> |evs| == 1
  {
    var transition := TransitionEvent(measure, typeString, head, transitionString, level);
    if IsWeak(typeString) then [transition, HeadEvent(measure, typeString, parentHead, head, level)]
    else if level == MeasureLevel then [transition, MeasureHeadEvent(measure, head)]
    else [transition]
  }

  /** Every count update `updateCounts(node, parentHead, measure, ...)` makes, in order: the
   *  node's own, then each child's with this node's head as the parent head. A terminal makes
   *  none. */
  function NodeEvents(node: Node, parentHead: Head, measure: Measure): seq<Event>
    decreases node
  {
    match node
    case Leaf(_) => []
    case Inner(level, typeString, transitionString, head, children) =>
      OwnEvents(level, typeString, transitionString, head, parentHead, measure)
      + ChildrenEvents(children, head, measure)
  }

  function ChildrenEvents(children: seq<Node>, head: Head, measure: Measure): seq<Event>
    decreases children
  {
    if |children| == 0 then []
    else ChildrenEvents(children[..|children| - 1], head, measure)
         + NodeEvents(children[|children| - 1], head, measure)
  }

  /** The updates for a whole tree: from its root, which is its own parent head. */
  function TreeEvents(tree: Tree): seq<Event>
  {
    if tree.root.Inner? then NodeEvents(tree.root, tree.root.head, tree.measure) else []
  }

  /** One transition event per nonterminal. */
  function CountNonterminals(node: Node): nat
    decreases node
  {
    match node
    case Leaf(_) => 0
    case Inner(_, _, _, _, children) => 1 + CountChildren(children)
  }

  function CountChildren(children: seq<Node>): nat
    decreases children
  {
    if |children| == 0 then 0
    else CountChildren(children[..|children| - 1]) + CountNonterminals(children[|children| - 1])
  }

  function Transitions(evs: seq<Event>): nat
  {
    if |evs| == 0 then 0
    else Transitions(evs[..|evs| - 1]) + (if evs[|evs| - 1].TransitionEvent? then 1 else 0)
  }

  lemma {:induction false} TransitionsConcat(a: seq<Event>, b: seq<Event>)
    ensures Transitions(a + b) == Transitions(a) + Transitions(b)
    decreases |b|
  {
    if |b| > 0 {
      assert (a + b)[..|a + b| - 1] == a + b[..|b| - 1];
      assert (a + b)[|a + b| - 1] == b[|b| - 1];
      TransitionsConcat(a, b[..|b| - 1]);
    } else {
      assert a + b == a;
    }
  }

  /** `updateCounts` makes exactly one transition update per nonterminal of the tree. */
  lemma {:induction false} OneTransitionPerNonterminal(node: Node, parentHead: Head, measure: Measure)
    ensures Transitions(NodeEvents(node, parentHead, measure)) == CountNonterminals(node)
    decreases node, 1
  {
    match node
    case Leaf(_) =>
    case Inner(level, typeString, transitionString, head, children) =>
      var own := OwnEvents(level, typeString, transitionString, head, parentHead, measure);
      TransitionsConcat(own, ChildrenEvents(children, head, measure));
      assert Transitions(own) == 1 by {
        var first := own[..1];
        assert first[..0] == [];
        assert Transitions(first) == 1;
        if |own| == 2 {
          assert own[..|own| - 1] == first;
        }
      }
      ChildrenTransitions(children, head, measure);
  }

  lemma {:induction false} ChildrenTransitions(children: seq<Node>, head: Head, measure: Measure)
    ensures Transitions(ChildrenEvents(children, head, measure)) == CountChildren(children)
    decreases children, 0
  {
    if |children| > 0 {
      var last := children[|children| - 1];
      TransitionsConcat(ChildrenEvents(children[..|children| - 1], head, measure),
                        NodeEvents(last, head, measure));
      ChildrenTransitions(children[..|children| - 1], head, measure);
      OneTransitionPerNonterminal(last, head, measure);
    }
  }

  // ---------------------------------------------------------------------------
  // Counts over event lists

  /** The updates of `evs`, applied in order. */
  function AddEvents(c: Counts, evs: seq<Event>): Counts
    decreases |evs|
  {
    if |evs| == 0 then c else AddEvents(AddEvent(c, evs[0]), evs[1..])
  }

  /** The removes of `evs`, in order, stopping at the first that throws: the exception
   *  propagates out of the recursion with the earlier removes already made. */
  function RemoveEvents(c: Counts, evs: seq<Event>): Outcome
    decreases |evs|
  {
    if |evs| == 0 then Outcome(c, true)
    else
      var r := RemoveEvent(c, evs[0]);
      if !r.ok then r else RemoveEvents(r.counts, evs[1..])
  }

  lemma {:induction false} AddEventsConcat(c: Counts, a: seq<Event>, b: seq<Event>)
    ensures AddEvents(c, a + b) == AddEvents(AddEvents(c, a), b)
    decreases |a|
  {
    if |a| > 0 {
      assert (a + b)[0] == a[0];
      assert (a + b)[1..] == a[1..] + b;
      AddEventsConcat(AddEvent(c, a[0]), a[1..], b);
    } else {
      assert a + b == b;
    }
  }

  lemma {:induction false} RemoveEventsConcat(c: Counts, a: seq<Event>, b: seq<Event>)
    ensures RemoveEvents(c, a + b) ==
      var r := RemoveEvents(c, a); if r.ok then RemoveEvents(r.counts, b) else r
    decreases |a|
  {
    if |a| > 0 {
      assert (a + b)[0] == a[0];
      assert (a + b)[1..] == a[1..] + b;
      var r := RemoveEvent(c, a[0]);
      if r.ok {
        RemoveEventsConcat(r.counts, a[1..], b);
      }
    } else {
      assert a + b == b;
    }
  }

  lemma {:induction false} AddEventsPositive(c: Counts, evs: seq<Event>)
    requires CountsPositive(c)
    ensures CountsPositive(AddEvents(c, evs))
    decreases |evs|
  {
    if |evs| > 0 {
      AddEventPositive(c, evs[0]);
      AddEventsPositive(AddEvent(c, evs[0]), evs[1..]);
    }
  }

  /** A removable event stays removable, and its remove commutes, past any list of adds. */
  lemma {:induction false} RemovePastAdds(d: Counts, evs: seq<Event>, ev: Event)
    requires CountsPositive(d) && Removable(d, ev)
    ensures RemoveEvent(d, ev).ok
    ensures RemoveEvent(AddEvents(d, evs), ev) == Outcome(AddEvents(RemoveEvent(d, ev).counts, evs), true)
    decreases |evs|
  {
    RemoveAddCommute(d, ev, ev);
    if |evs| > 0 {
      var x := evs[0];
      var d2 := AddEvent(d, x);
      AddEventPositive(d, x);
      AddKeepsRemovable(d, x, ev);
      RemovePastAdds(d2, evs[1..], ev);
      RemoveAddCommute(d, x, ev);
    }
  }

  /** Removing a list of events right after adding it, in the same order, returns normally and
   *  restores every count. */
  lemma {:induction false} RemoveEventsAfterAdd(c: Counts, evs: seq<Event>)
    requires CountsPositive(c)
    ensures RemoveEvents(AddEvents(c, evs), evs) == Outcome(c, true)
    decreases |evs|
  {
    if |evs| > 0 {
      var ev := evs[0];
      var d := AddEvent(c, ev);
      AddEventPositive(c, ev);
      RemoveEventAfterAdd(c, ev);
      assert Removable(d, ev) by {
        AddedIsRemovable(c, ev);
      }
      RemovePastAdds(d, evs[1..], ev);
      RemoveEventsAfterAdd(c, evs[1..]);
    }
  }

  /** An event just added can be removed. */
  lemma AddedIsRemovable(c: Counts, ev: Event)
    requires CountsPositive(c)
    ensures Removable(AddEvent(c, ev), ev)
  {
    match ev
    case TransitionEvent(measure, typeString, head, transitionString, level) =>
      var k, b := Encode(measure, typeString, head), EncodeBackoff(measure, typeString, head, level);
      AddTwoTierCount(c.transitions, k, b, transitionString, k, transitionString);
      AddTwoTierCount(c.transitions, k, b, transitionString, b, transitionString);
    case HeadEvent(measure, typeString, parentHead, head, level) =>
      var k, b := Encode(measure, typeString, parentHead), EncodeBackoff(measure, typeString, parentHead, level);
      AddTwoTierCount(c.heads, k, b, head.length, k, head.length);
      AddTwoTierCount(c.heads, k, b, head.length, b, head.length);
    case MeasureHeadEvent(measure, head) =>
  }

  // ---------------------------------------------------------------------------
  // Probability of a tree

  /** `getNodeLogProbability`: the node's transition term, its head or measure-head term, and
   *  the children's terms. A terminal contributes 0. */
  function NodeLogProbability(c: Counts, node: Node, parentHead: Head, measure: Measure,
                              smoothing: Smoothing): real
    decreases node
  {
    match node
    case Leaf(_) => 0.0
    case Inner(level, typeString, transitionString, head, children) =>
      var own := EventLogProbability(c, TransitionEvent(measure, typeString, head, transitionString, level), smoothing);
      var withHead :=
        if IsWeak(typeString) then own + EventLogProbability(c, HeadEvent(measure, typeString, parentHead, head, level), smoothing)
        else if level == MeasureLevel then own + EventLogProbability(c, MeasureHeadEvent(measure, head), smoothing)
        else own;
      withHead + ChildrenLogProbability(c, children, head, measure, smoothing)
  }

  function ChildrenLogProbability(c: Counts, children: seq<Node>, head: Head, measure: Measure,
                                  smoothing: Smoothing): real
    decreases children
  {
    if |children| == 0 then 0.0
    else ChildrenLogProbability(c, children[..|children| - 1], head, measure, smoothing)
         + NodeLogProbability(c, children[|children| - 1], head, measure, smoothing)
  }

  /** `getTreeLogProbability`. */
  function TreeLogProbability(c: Counts, tree: Tree, smoothing: Smoothing): real
  {
    if tree.root.Inner? then NodeLogProbability(c, tree.root, tree.root.head, tree.measure, smoothing) else 0.0
  }

  /** The sum of the event terms of a list of events. */
  function SumLogProbability(c: Counts, evs: seq<Event>, smoothing: Smoothing): real
  {
    if |evs| == 0 then 0.0
    else SumLogProbability(c, evs[..|evs| - 1], smoothing) + EventLogProbability(c, evs[|evs| - 1], smoothing)
  }

  lemma {:induction false} SumConcat(c: Counts, a: seq<Event>, b: seq<Event>, smoothing: Smoothing)
    ensures SumLogProbability(c, a + b, smoothing) == SumLogProbability(c, a, smoothing) + SumLogProbability(c, b, smoothing)
    decreases |b|
  {
    if |b| > 0 {
      assert (a + b)[..|a + b| - 1] == a + b[..|b| - 1];
      assert (a + b)[|a + b| - 1] == b[|b| - 1];
      SumConcat(c, a, b[..|b| - 1], smoothing);
    } else {
      assert a + b == a;
    }
  }

  /** The probability visits exactly the events the counts are updated with, and sums their
   *  terms. */
  lemma {:induction false} NodeLogProbabilityIsSum(c: Counts, node: Node, parentHead: Head, measure: Measure,
                                                   smoothing: Smoothing)
    ensures NodeLogProbability(c, node, parentHead, measure, smoothing)
            == SumLogProbability(c, NodeEvents(node, parentHead, measure), smoothing)
    decreases node, 1
  {
    match node
    case Leaf(_) =>
    case Inner(level, typeString, transitionString, head, children) =>
      var own := OwnEvents(level, typeString, transitionString, head, parentHead, measure);
      SumConcat(c, own, ChildrenEvents(children, head, measure), smoothing);
      var first := own[..1];
      assert first[..0] == [];
      assert SumLogProbability(c, first, smoothing) == EventLogProbability(c, own[0], smoothing);
      if |own| == 2 {
        assert own[..|own| - 1] == first;
        assert SumLogProbability(c, own, smoothing)
               == EventLogProbability(c, own[0], smoothing) + EventLogProbability(c, own[1], smoothing);
      } else {
        assert own == first;
      }
      ChildrenLogProbabilityIsSum(c, children, head, measure, smoothing);
  }

  lemma {:induction false} ChildrenLogProbabilityIsSum(c: Counts, children: seq<Node>, head: Head,
                                                       measure: Measure, smoothing: Smoothing)
    ensures ChildrenLogProbability(c, children, head, measure, smoothing)
            == SumLogProbability(c, ChildrenEvents(children, head, measure), smoothing)
    decreases children, 0
  {
    if |children| > 0 {
      var last := children[|children| - 1];
      SumConcat(c, ChildrenEvents(children[..|children| - 1], head, measure), NodeEvents(last, head, measure), smoothing);
      ChildrenLogProbabilityIsSum(c, children[..|children| - 1], head, measure, smoothing);
      NodeLogProbabilityIsSum(c, last, head, measure, smoothing);
    }
  }

  // ---------------------------------------------------------------------------
  // The tree list

  /** The index of the first tree equal to `t`, as the iterator in `extractTree` finds it. */
  function FirstIndex(trees: seq<Tree>, t: Tree): (i: int)
    ensures -1 <= i < |trees|
    ensures i == -1 <==> t !in trees
    ensures i >= 0 ==> trees[i] == t && t !in trees[..i]
  {
    if |trees| == 0 then -1
    else if trees[0] == t then 0
    else
      var j := FirstIndex(trees[1..], t);
      assert j >= 0 ==> trees[1..][..j] == trees[1..j + 1];
      if j == -1 then -1 else j + 1
  }

  /** The list after the iterator's `remove` of the first tree equal to `t`. */
  function WithoutFirst(trees: seq<Tree>, t: Tree): (r: seq<Tree>)
    requires t in trees
    ensures multiset(r) == multiset(trees) - multiset{t}
  {
    var i := FirstIndex(trees, t);
    assert trees == trees[..i] + [trees[i]] + trees[i + 1..];
    trees[..i] + trees[i + 1..]
  }

  /** Extracting a tree just added gives back the list's contents, as a multiset. */
  lemma ExtractAfterAdd(trees: seq<Tree>, t: Tree)
    ensures multiset(WithoutFirst(trees + [t], t)) == multiset(trees)
  {
    assert t in trees + [t] by {
      assert (trees + [t])[|trees|] == t;
    }
  }

  // ---------------------------------------------------------------------------
  // The grammar

  /** `MetricalLpcfg`. */
  class Grammar {
    var trees: seq<Tree>
    var probabilities: ProbabilityTracker

    /** A new, empty grammar. */
    constructor()
      ensures trees == [] && probabilities.Tables() == Counts(map[], map[], map[])
      ensures fresh(probabilities)
    {
      trees := [];
      probabilities := new ProbabilityTracker();
    }

    /** The copy constructor behind `deepCopy`. */
    constructor Copy(other: Grammar)
      ensures trees == other.trees && probabilities.Tables() == other.probabilities.Tables()
      ensures fresh(probabilities)
    {
      var copied := other.probabilities.DeepCopy();
      trees := other.trees;
      probabilities := copied;
    }

    /** `deepCopy`: the same trees and counts, in a tracker of its own. */
    method DeepCopy() returns (copy: Grammar)
      ensures fresh(copy) && fresh(copy.probabilities)
      ensures copy.trees == trees && copy.probabilities.Tables() == probabilities.Tables()
    {
      copy := new Grammar.Copy(this);
    }

    /** `addTree`: append the tree, then add the counts of every nonterminal in it. */
    method AddTree(tree: Tree)
      modifies this, probabilities
      ensures probabilities == old(probabilities) && trees == old(trees) + [tree]
      ensures probabilities.Tables() == AddEvents(old(probabilities.Tables()), TreeEvents(tree))
    {
      trees := trees + [tree];
      if tree.root.Inner? {
        AddCounts(probabilities, tree.root, tree.root.head, tree.measure);
      }
    }

    /** `extractTree`: remove the first stored tree equal to `tree`, then reverse its counts.
     *  `ok` is false where it throws: with nothing changed when no stored tree is equal, and
     *  with the tree already removed when reversing a count fails. */
    method ExtractTree(tree: Tree) returns (ok: bool)
      modifies this, probabilities
      ensures probabilities == old(probabilities)
      ensures tree !in old(trees) ==> !ok && trees == old(trees) && unchanged(probabilities)
      ensures tree in old(trees) ==>
        trees == WithoutFirst(old(trees), tree)
        && Outcome(probabilities.Tables(), ok) == RemoveEvents(old(probabilities.Tables()), TreeEvents(tree))
    {
      var i := 0;
      while i < |trees|
        invariant 0 <= i <= |trees|
        invariant tree !in trees[..i]
      {
        if trees[i] == tree {
          assert i == FirstIndex(trees, tree);
          trees := trees[..i] + trees[i + 1..];
          if tree.root.Inner? {
            ok := RemoveCounts(probabilities, tree.root, tree.root.head, tree.measure);
          } else {
            ok := true;
          }
          return;
        }
        assert trees[..i + 1] == trees[..i] + [trees[i]];
        i := i + 1;
      }
      assert trees[..i] == trees;
      ok := false;
    }

    /** `getMeasures`: the measures of the stored trees, each once. The set is returned as a
     *  list in order of first use, standing for the hash set's iteration order. */
    method GetMeasureList() returns (measures: seq<Measure>)
      ensures forall i, j :: 0 <= i < j < |measures| ==> measures[i] != measures[j]
      ensures forall m :: m in measures <==> exists t :: t in trees && t.measure == m
    {
      measures := [];
      for i := 0 to |trees|
        invariant forall a, b :: 0 <= a < b < |measures| ==> measures[a] != measures[b]
        invariant forall m :: m in measures <==> exists t :: t in trees[..i] && t.measure == m
      {
        assert trees[..i + 1] == trees[..i] + [trees[i]];
        if trees[i].measure !in measures {
          measures := measures + [trees[i].measure];
        }
      }
      assert trees[..|trees|] == trees;
    }

    /** `getTreeLogProbability` under the current counts. */
    function TreeProbability(tree: Tree, smoothing: Smoothing): (p: real)
      reads this, probabilities
      ensures p == SumLogProbability(probabilities.Tables(), TreeEvents(tree), smoothing)
    {
      if tree.root.Inner? then
        NodeLogProbabilityIsSum(probabilities.Tables(), tree.root, tree.root.head, tree.measure, smoothing);
        NodeLogProbability(probabilities.Tables(), tree.root, tree.root.head, tree.measure, smoothing)
      else 0.0
    }
  }

  /** `updateCounts(node, parentHead, measure, true)`. */
  method AddCounts(tracker: ProbabilityTracker, node: Node, parentHead: Head, measure: Measure)
    modifies tracker
    ensures tracker.Tables() == AddEvents(old(tracker.Tables()), NodeEvents(node, parentHead, measure))
    decreases node, 1
  {
    match node
    case Leaf(_) =>
    case Inner(level, typeString, transitionString, head, children) =>
      ghost var c0 := tracker.Tables();
      ghost var own := OwnEvents(level, typeString, transitionString, head, parentHead, measure);
      AddOwnCounts(tracker, level, typeString, transitionString, head, parentHead, measure);
      AddChildrenCounts(tracker, children, head, measure);
      AddEventsConcat(c0, own, ChildrenEvents(children, head, measure));
  }

  /** The updates a nonterminal makes for itself when its counts are added. */
  method AddOwnCounts(tracker: ProbabilityTracker, level: Level, typeString: string, transitionString: string,
                      head: Head, parentHead: Head, measure: Measure)
    modifies tracker
    ensures tracker.Tables()
            == AddEvents(old(tracker.Tables()), OwnEvents(level, typeString, transitionString, head, parentHead, measure))
  {
    ghost var c0 := tracker.Tables();
    ghost var own := OwnEvents(level, typeString, transitionString, head, parentHead, measure);
    tracker.AddTransition(measure, typeString, head, transitionString, level);
    ghost var c1 := tracker.Tables();
    assert AddEvents(c0, own) == AddEvents(c1, own[1..]);
    if IsWeak(typeString) {
      tracker.AddHead(measure, typeString, parentHead, head, level);
    } else if level == MeasureLevel {
      tracker.AddMeasureHead(measure, head);
    }
    if |own| == 2 {
      assert own[1..][0] == own[1] && own[1..][1..] == [];
      assert AddEvents(c1, own[1..]) == AddEvents(AddEvent(c1, own[1]), []);
    } else {
      assert own[1..] == [];
    }
  }

  /** The loop of `updateCounts` over the children, adding. */
  method AddChildrenCounts(tracker: ProbabilityTracker, children: seq<Node>, head: Head, measure: Measure)
    modifies tracker
    ensures tracker.Tables() == AddEvents(old(tracker.Tables()), ChildrenEvents(children, head, measure))
    decreases children, 0
  {
    ghost var c0 := tracker.Tables();
    for i := 0 to |children|
      invariant tracker.Tables() == AddEvents(c0, ChildrenEvents(children[..i], head, measure))
    {
      ghost var before := ChildrenEvents(children[..i], head, measure);
      AddCounts(tracker, children[i], head, measure);
      assert children[..i + 1][..i] == children[..i];
      assert ChildrenEvents(children[..i + 1], head, measure) == before + NodeEvents(children[i], head, measure);
      AddEventsConcat(c0, before, NodeEvents(children[i], head, measure));
    }
    assert children[..|children|] == children;
  }

  /** `updateCounts(node, parentHead, measure, false)`; `ok` is false where it throws, which ends
   *  the whole traversal. */
  method RemoveCounts(tracker: ProbabilityTracker, node: Node, parentHead: Head, measure: Measure)
    returns (ok: bool)
    modifies tracker
    ensures Outcome(tracker.Tables(), ok) == RemoveEvents(old(tracker.Tables()), NodeEvents(node, parentHead, measure))
    decreases node, 1
  {
    match node
    case Leaf(_) =>
      ok := true;
    case Inner(level, typeString, transitionString, head, children) =>
      ghost var c0 := tracker.Tables();
      ghost var own := OwnEvents(level, typeString, transitionString, head, parentHead, measure);
      RemoveEventsConcat(c0, own, ChildrenEvents(children, head, measure));
      ok := RemoveOwnCounts(tracker, level, typeString, transitionString, head, parentHead, measure);
      if ok {
        ok := RemoveChildrenCounts(tracker, children, head, measure);
      }
  }

  /** The updates a nonterminal makes for itself when its counts are removed. */
  method RemoveOwnCounts(tracker: ProbabilityTracker, level: Level, typeString: string, transitionString: string,
                         head: Head, parentHead: Head, measure: Measure) returns (ok: bool)
    modifies tracker
    ensures Outcome(tracker.Tables(), ok)
            == RemoveEvents(old(tracker.Tables()), OwnEvents(level, typeString, transitionString, head, parentHead, measure))
  {
    ghost var c0 := tracker.Tables();
    ghost var own := OwnEvents(level, typeString, transitionString, head, parentHead, measure);
    ok := tracker.RemoveTransition(measure, typeString, head, transitionString, level);
    if !ok {
      return;
    }
    ghost var c1 := tracker.Tables();
    assert RemoveEvents(c0, own) == RemoveEvents(c1, own[1..]);
    if IsWeak(typeString) {
      ok := tracker.RemoveHead(measure, typeString, parentHead, head, level);
    } else if level == MeasureLevel {
      ok := tracker.RemoveMeasureHead(measure, head);
    }
    if |own| == 2 {
      assert own[1..][0] == own[1] && own[1..][1..] == [];
      assert RemoveEvents(c1, own[1..])
             == (var r := RemoveEvent(c1, own[1]); if !r.ok then r else RemoveEvents(r.counts, []));
    } else {
      assert own[1..] == [];
    }
  }

  /** The loop of `updateCounts` over the children, removing; the first failure ends it. */
  method RemoveChildrenCounts(tracker: ProbabilityTracker, children: seq<Node>, head: Head, measure: Measure)
    returns (ok: bool)
    modifies tracker
    ensures Outcome(tracker.Tables(), ok) == RemoveEvents(old(tracker.Tables()), ChildrenEvents(children, head, measure))
    decreases children, 0
  {
    ghost var c0 := tracker.Tables();
    assert children[0..] == children;
    for i := 0 to |children|
      invariant RemoveEvents(c0, ChildrenEvents(children, head, measure))
                == RemoveEvents(tracker.Tables(), ChildrenEvents(children[i..], head, measure))
    {
      ghost var c1 := tracker.Tables();
      ok := RemoveCounts(tracker, children[i], head, measure);
      ChildrenEventsFront(children[i..], head, measure);
      assert children[i..][0] == children[i] && children[i..][1..] == children[i + 1..];
      RemoveEventsConcat(c1, NodeEvents(children[i], head, measure), ChildrenEvents(children[i + 1..], head, measure));
      if !ok {
        return;
      }
    }
    assert children[|children|..] == [];
    ok := true;
  }

  /** The children's events, first child first. */
  lemma {:induction false} ChildrenEventsFront(children: seq<Node>, head: Head, measure: Measure)
    requires |children| > 0
    ensures ChildrenEvents(children, head, measure)
            == NodeEvents(children[0], head, measure) + ChildrenEvents(children[1..], head, measure)
    decreases |children|
  {
    if |children| > 1 {
      var init := children[..|children| - 1];
      ChildrenEventsFront(init, head, measure);
      assert init[1..] == children[1..][..|children[1..]| - 1];
      assert init[0] == children[0];
    } else {
      assert children[..0] == [] && children[1..] == [];
    }
  }

  /** `addTree(t)` followed by `extractTree(t)` on stored counts returns normally, gives back
   *  the same trees (as a multiset) and the same counts. */
  lemma AddThenExtract(trees: seq<Tree>, c: Counts, t: Tree)
    requires CountsPositive(c)
    ensures t in trees + [t]
    ensures multiset(WithoutFirst(trees + [t], t)) == multiset(trees)
    ensures RemoveEvents(AddEvents(c, TreeEvents(t)), TreeEvents(t)) == Outcome(c, true)
  {
    ExtractAfterAdd(trees, t);
    RemoveEventsAfterAdd(c, TreeEvents(t));
  }
}
