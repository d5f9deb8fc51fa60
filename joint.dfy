/**
 * The joint search over voice splitting, beat tracking and metrical analysis
 * (src/metdetection/joint/JointModelState.java and src/metdetection/joint/JointModel.java).
 *
 * A joint hypothesis is a triple of sub-states. The sub-state classes differ from run to run, so
 * they are type parameters here, and what the joint search asks of them comes in as functions:
 * `Access` holds the getters, the setters (applied to a copy) and the scores, and `Steps` holds
 * one advance of each sub-state, either its `handleIncoming(notes)` or its `close()`. Sub-states
 * are values, so a deep copy is the value itself.
 */
module Joints {
  import opened JavaInt

  datatype JointState<V, B, H> = JointState(voice: V, beat: B, hierarchy: H)

  /** The getters, setters and scores the joint search uses. */
  datatype Access<!V, !B, !H> = Access(
    setBeatVoice: (B, V) -> B,            // beat.setVoiceState(voice)
    beatVoice: B -> V,                    // beat.getVoiceState()
    setHierarchyStates: (H, V, B) -> H,   // hierarchy.setVoiceState(voice); setBeatState(beat)
    hierarchyVoice: H -> V,               // hierarchy.getVoiceState()
    hierarchyBeat: H -> B,                // hierarchy.getBeatState()
    voiceScore: V -> real,
    beatScore: B -> real,
    hierarchyScore: H -> real)

  /** One advance of each sub-state: all its `handleIncoming(notes)` results, or all its `close()` results. */
  datatype Steps<!V, !B, !H> = Steps(voiceStep: V -> seq<V>, beatStep: B -> seq<B>, hierarchyStep: H -> seq<H>)

  /** A setter stores what it is given, and the matching getter returns it. */
  ghost predicate SettersWork<V(!new), B(!new), H(!new)>(acc: Access<V, B, H>)
  {
    (forall b, v :: acc.beatVoice(acc.setBeatVoice(b, v)) == v)
    && (forall h, v, b :: acc.hierarchyVoice(acc.setHierarchyStates(h, v, b)) == v)
    && (forall h, v, b :: acc.hierarchyBeat(acc.setHierarchyStates(h, v, b)) == b)
  }

  /** Advancing a beat or metrical sub-state keeps the sub-states it was paired with. */
  ghost predicate StepsKeepPartners<V, B(!new), H(!new)>(acc: Access<V, B, H>, steps: Steps<V, B, H>)
  {
    (forall b, k :: 0 <= k < |steps.beatStep(b)| ==> acc.beatVoice(steps.beatStep(b)[k]) == acc.beatVoice(b))
    && (forall h, k :: 0 <= k < |steps.hierarchyStep(h)| ==>
          acc.hierarchyVoice(steps.hierarchyStep(h)[k]) == acc.hierarchyVoice(h)
          && acc.hierarchyBeat(steps.hierarchyStep(h)[k]) == acc.hierarchyBeat(h))
  }

  // ---------------------------------------------------------------------------
  // Building joint states

  /**
   * The three-argument constructor: the beat state is given the voice state, and the metrical
   * state is given both.
   */
  function NewJointState<V, B, H>(voice: V, beat: B, hierarchy: H, acc: Access<V, B, H>): JointState<V, B, H>
  {
    var b := acc.setBeatVoice(beat, voice);
    JointState(voice, b, acc.setHierarchyStates(hierarchy, voice, b))
  }

  /**
   * In a state built by the three-argument constructor, the beat state holds the voice state and
   * the metrical state holds both.
   */
  lemma NewJointStateWired<V(!new), B(!new), H(!new)>(voice: V, beat: B, hierarchy: H, acc: Access<V, B, H>)
    requires SettersWork(acc)
    ensures var s := NewJointState(voice, beat, hierarchy, acc);
      s.voice == voice && acc.beatVoice(s.beat) == voice && acc.hierarchyVoice(s.hierarchy) == voice
      && acc.hierarchyBeat(s.hierarchy) == s.beat
  {
    var b := acc.setBeatVoice(beat, voice);
    assert acc.beatVoice(b) == voice;
    var h := acc.setHierarchyStates(hierarchy, voice, b);
    assert acc.hierarchyVoice(h) == voice && acc.hierarchyBeat(h) == b;
  }

  /** The one-argument constructor: voice and beat states are taken from the metrical state. */
  function FromHierarchy<V, B, H>(h: H, acc: Access<V, B, H>): JointState<V, B, H>
  {
    JointState(acc.hierarchyVoice(h), acc.hierarchyBeat(h), h)
  }

  /** Rebuilding a joint state from its metrical state gives back the three-argument state. */
  lemma RebuildFromHierarchy<V(!new), B(!new), H(!new)>(voice: V, beat: B, hierarchy: H, acc: Access<V, B, H>)
    requires SettersWork(acc)
    ensures FromHierarchy(NewJointState(voice, beat, hierarchy, acc).hierarchy, acc)
      == NewJointState(voice, beat, hierarchy, acc)
  {
    NewJointStateWired(voice, beat, hierarchy, acc);
  }

  // ---------------------------------------------------------------------------
  // Advancing one joint state

  /** The beat hypotheses: for each new voice state, a copy of `beat` given that voice, advanced. */
  function BeatsFor<V, B, H>(beat: B, voices: seq<V>, acc: Access<V, B, H>, steps: Steps<V, B, H>): seq<B>
  {
    if |voices| == 0 then []
    else BeatsFor(beat, voices[..|voices| - 1], acc, steps)
         + steps.beatStep(acc.setBeatVoice(beat, voices[|voices| - 1]))
  }

  /** The metrical hypotheses: for each new beat state, a copy of `hierarchy` wired to it, advanced. */
  function HierarchiesFor<V, B, H>(hierarchy: H, beats: seq<B>, acc: Access<V, B, H>, steps: Steps<V, B, H>): seq<H>
  {
    if |beats| == 0 then []
    else
      var b := beats[|beats| - 1];
      HierarchiesFor(hierarchy, beats[..|beats| - 1], acc, steps)
      + steps.hierarchyStep(acc.setHierarchyStates(hierarchy, acc.beatVoice(b), b))
  }

  /** One joint state per metrical hypothesis. */
  function FromHierarchies<V, B, H>(hs: seq<H>, acc: Access<V, B, H>): (r: seq<JointState<V, B, H>>)
    ensures |r| == |hs|
  {
    if |hs| == 0 then [] else FromHierarchies(hs[..|hs| - 1], acc) + [FromHierarchy(hs[|hs| - 1], acc)]
  }

  /** The joint states that one `handleIncoming` or `close` of `s` yields. */
  function Successors<V, B, H>(s: JointState<V, B, H>, acc: Access<V, B, H>, steps: Steps<V, B, H>): seq<JointState<V, B, H>>
  {
    FromHierarchies(HierarchiesFor(s.hierarchy, BeatsFor(s.beat, steps.voiceStep(s.voice), acc, steps), acc, steps), acc)
  }

  /** Every beat hypothesis comes from advancing the beat state given one of the voices. */
  lemma {:induction false} BeatsForOrigin<V, B, H>(beat: B, voices: seq<V>, acc: Access<V, B, H>,
                                                   steps: Steps<V, B, H>, k: int)
    requires 0 <= k < |BeatsFor(beat, voices, acc, steps)|
    ensures exists i, j ::
      (0 <= i < |voices| && 0 <= j < |steps.beatStep(acc.setBeatVoice(beat, voices[i]))|
       && BeatsFor(beat, voices, acc, steps)[k] == steps.beatStep(acc.setBeatVoice(beat, voices[i]))[j])
    decreases |voices|
  {
    var n := |voices| - 1;
    var front := BeatsFor(beat, voices[..n], acc, steps);
    var last := steps.beatStep(acc.setBeatVoice(beat, voices[n]));
    if k < |front| {
      BeatsForOrigin(beat, voices[..n], acc, steps, k);
      var i, j :| 0 <= i < n && 0 <= j < |steps.beatStep(acc.setBeatVoice(beat, voices[..n][i]))|
        && front[k] == steps.beatStep(acc.setBeatVoice(beat, voices[..n][i]))[j];
      assert voices[..n][i] == voices[i];
    } else {
      assert BeatsFor(beat, voices, acc, steps)[k] == last[k - |front|];
    }
  }

  /** Every metrical hypothesis comes from advancing the metrical state wired to one of the beats. */
  lemma {:induction false} HierarchiesForOrigin<V, B, H>(hierarchy: H, beats: seq<B>, acc: Access<V, B, H>,
                                                         steps: Steps<V, B, H>, k: int)
    requires 0 <= k < |HierarchiesFor(hierarchy, beats, acc, steps)|
    ensures exists i, j ::
      (0 <= i < |beats|
       && 0 <= j < |steps.hierarchyStep(acc.setHierarchyStates(hierarchy, acc.beatVoice(beats[i]), beats[i]))|
       && HierarchiesFor(hierarchy, beats, acc, steps)[k]
          == steps.hierarchyStep(acc.setHierarchyStates(hierarchy, acc.beatVoice(beats[i]), beats[i]))[j])
    decreases |beats|
  {
    var n := |beats| - 1;
    var front := HierarchiesFor(hierarchy, beats[..n], acc, steps);
    var last := steps.hierarchyStep(acc.setHierarchyStates(hierarchy, acc.beatVoice(beats[n]), beats[n]));
    if k < |front| {
      HierarchiesForOrigin(hierarchy, beats[..n], acc, steps, k);
      var i, j :| 0 <= i < n
        && 0 <= j < |steps.hierarchyStep(acc.setHierarchyStates(hierarchy, acc.beatVoice(beats[..n][i]), beats[..n][i]))|
        && front[k] == steps.hierarchyStep(acc.setHierarchyStates(hierarchy, acc.beatVoice(beats[..n][i]), beats[..n][i]))[j];
      assert beats[..n][i] == beats[i];
    } else {
      assert HierarchiesFor(hierarchy, beats, acc, steps)[k] == last[k - |front|];
    }
  }

  /** The k-th joint state is built from the k-th metrical hypothesis. */
  lemma {:induction false} FromHierarchiesAt<V, B, H>(hs: seq<H>, acc: Access<V, B, H>, k: int)
    requires 0 <= k < |hs|
    ensures FromHierarchies(hs, acc)[k] == FromHierarchy(hs[k], acc)
    decreases |hs|
  {
    if k < |hs| - 1 {
      FromHierarchiesAt(hs[..|hs| - 1], acc, k);
    }
  }

  /**
   * Every successor pairs a new voice state with a beat hypothesis advanced from a copy given that
   * voice, and a metrical hypothesis advanced from a copy wired to both; its own voice and beat
   * states are the ones its metrical state holds.
   */
  lemma SuccessorsWired<V(!new), B(!new), H(!new)>(s: JointState<V, B, H>, acc: Access<V, B, H>, steps: Steps<V, B, H>, k: int)
    requires SettersWork(acc) && StepsKeepPartners(acc, steps)
    requires 0 <= k < |Successors(s, acc, steps)|
    ensures var r := Successors(s, acc, steps)[k];
      r.voice == acc.beatVoice(r.beat) && r.voice == acc.hierarchyVoice(r.hierarchy)
      && r.beat == acc.hierarchyBeat(r.hierarchy)
      && (exists i :: 0 <= i < |steps.voiceStep(s.voice)| && r.voice == steps.voiceStep(s.voice)[i])
      && (exists j :: 0 <= j < |steps.beatStep(acc.setBeatVoice(s.beat, r.voice))|
            && r.beat == steps.beatStep(acc.setBeatVoice(s.beat, r.voice))[j])
  {
    var voices := steps.voiceStep(s.voice);
    var beats := BeatsFor(s.beat, voices, acc, steps);
    var hs := HierarchiesFor(s.hierarchy, beats, acc, steps);
    FromHierarchiesAt(hs, acc, k);
    HierarchiesForOrigin(s.hierarchy, beats, acc, steps, k);
    var i, j :| 0 <= i < |beats|
      && 0 <= j < |steps.hierarchyStep(acc.setHierarchyStates(s.hierarchy, acc.beatVoice(beats[i]), beats[i]))|
      && hs[k] == steps.hierarchyStep(acc.setHierarchyStates(s.hierarchy, acc.beatVoice(beats[i]), beats[i]))[j];
    var b := beats[i];
    var wired := acc.setHierarchyStates(s.hierarchy, acc.beatVoice(b), b);
    assert acc.hierarchyVoice(hs[k]) == acc.hierarchyVoice(wired) == acc.beatVoice(b);
    assert acc.hierarchyBeat(hs[k]) == acc.hierarchyBeat(wired) == b;
    BeatsForOrigin(s.beat, voices, acc, steps, i);
    var i', j' :| 0 <= i' < |voices| && 0 <= j' < |steps.beatStep(acc.setBeatVoice(s.beat, voices[i']))|
      && b == steps.beatStep(acc.setBeatVoice(s.beat, voices[i']))[j'];
    var given := acc.setBeatVoice(s.beat, voices[i']);
    assert acc.beatVoice(b) == acc.beatVoice(given) == voices[i'];
  }

  /** The loops of `handleIncoming` and of `close`, which differ only in the sub-state steps they use. */
  method Advance<V, B, H>(s: JointState<V, B, H>, acc: Access<V, B, H>, steps: Steps<V, B, H>)
    returns (newStates: seq<JointState<V, B, H>>)
    ensures newStates == Successors(s, acc, steps)
  {
    var voices := steps.voiceStep(s.voice);
    var beats: seq<B> := [];
    for i := 0 to |voices|
      invariant beats == BeatsFor(s.beat, voices[..i], acc, steps)
    {
      assert voices[..i + 1][..i] == voices[..i];
      var copy := acc.setBeatVoice(s.beat, voices[i]);
      beats := beats + steps.beatStep(copy);
    }
    assert voices[..|voices|] == voices;
    var hs: seq<H> := [];
    for i := 0 to |beats|
      invariant hs == HierarchiesFor(s.hierarchy, beats[..i], acc, steps)
    {
      assert beats[..i + 1][..i] == beats[..i];
      var copy := acc.setHierarchyStates(s.hierarchy, acc.beatVoice(beats[i]), beats[i]);
      hs := hs + steps.hierarchyStep(copy);
    }
    assert beats[..|beats|] == beats;
    newStates := [];
    for i := 0 to |hs|
      invariant newStates == FromHierarchies(hs[..i], acc)
    {
      assert hs[..i + 1][..i] == hs[..i];
      newStates := newStates + [FromHierarchy(hs[i], acc)];
    }
    assert hs[..|hs|] == hs;
  }

  // ---------------------------------------------------------------------------
  // Score and order

  /** `getScore`: the sum of the three sub-states' scores. */
  function Score<V, B, H>(s: JointState<V, B, H>, acc: Access<V, B, H>): real
  {
    acc.voiceScore(s.voice) + acc.beatScore(s.beat) + acc.hierarchyScore(s.hierarchy)
  }

  /**
   * `compareTo`: `null` sorts first; then higher total scores first, except that the order is
   * reversed when either total is exactly 0, so that a state whose total is 0 sorts after every
   * state with a negative total and before every state with a positive one; then voice, beat
   * and metrical scores ascending. Two states are equal only when all three sub-states are the
   * same; otherwise the result is 1.
   */
  function CompareTo<V(==), B(==), H(==)>(s: JointState<V, B, H>, other: Option<JointState<V, B, H>>,
                                           acc: Access<V, B, H>): (c: int)
    ensures other.None? ==> c == 1
    ensures c == 0 <==> other == Some(s)
    ensures other.Some? && Score(s, acc) != 0.0 && Score(other.value, acc) != 0.0 ==>
      (Score(s, acc) > Score(other.value, acc) ==> c < 0) && (Score(s, acc) < Score(other.value, acc) ==> c > 0)
    ensures other.Some? && Score(s, acc) == 0.0 && Score(other.value, acc) < 0.0 ==> c > 0
    ensures other.Some? && Score(s, acc) == 0.0 && Score(other.value, acc) > 0.0 ==> c < 0
  {
    if other.None? then 1
    else
      var o := other.value;
      var total := RealCompare(Score(o, acc), Score(s, acc));
      if total != 0 then (if Score(o, acc) == 0.0 || Score(s, acc) == 0.0 then -total else total)
      else if RealCompare(acc.voiceScore(s.voice), acc.voiceScore(o.voice)) != 0 then
        RealCompare(acc.voiceScore(s.voice), acc.voiceScore(o.voice))
      else if RealCompare(acc.beatScore(s.beat), acc.beatScore(o.beat)) != 0 then
        RealCompare(acc.beatScore(s.beat), acc.beatScore(o.beat))
      else if RealCompare(acc.hierarchyScore(s.hierarchy), acc.hierarchyScore(o.hierarchy)) != 0 then
        RealCompare(acc.hierarchyScore(s.hierarchy), acc.hierarchyScore(o.hierarchy))
      else if s.voice == o.voice && s.beat == o.beat && s.hierarchy == o.hierarchy then 0
      else 1
  }

  // ---------------------------------------------------------------------------
  // The model: the set of joint hypotheses

  /** The hypotheses that follow from advancing each of `hs`, in order. */
  function AllSuccessors<V, B, H>(hs: seq<JointState<V, B, H>>, acc: Access<V, B, H>, steps: Steps<V, B, H>)
    : seq<JointState<V, B, H>>
  {
    if |hs| == 0 then [] else AllSuccessors(hs[..|hs| - 1], acc, steps) + Successors(hs[|hs| - 1], acc, steps)
  }

  /** When no hypothesis has a successor, none is left. */
  lemma {:induction false} AllSuccessorsEmpty<V, B, H>(hs: seq<JointState<V, B, H>>, acc: Access<V, B, H>,
                                                       steps: Steps<V, B, H>)
    requires forall k :: 0 <= k < |hs| ==> Successors(hs[k], acc, steps) == []
    ensures AllSuccessors(hs, acc, steps) == []
    decreases |hs|
  {
    if |hs| > 0 {
      AllSuccessorsEmpty(hs[..|hs| - 1], acc, steps);
    }
  }

  /** Every new hypothesis is a successor of one of the old ones. */
  lemma {:induction false} AllSuccessorsOrigin<V, B, H>(hs: seq<JointState<V, B, H>>, acc: Access<V, B, H>,
                                                        steps: Steps<V, B, H>, k: int)
    requires 0 <= k < |AllSuccessors(hs, acc, steps)|
    ensures exists i, j ::
      (0 <= i < |hs| && 0 <= j < |Successors(hs[i], acc, steps)|
       && AllSuccessors(hs, acc, steps)[k] == Successors(hs[i], acc, steps)[j])
    decreases |hs|
  {
    var n := |hs| - 1;
    var front := AllSuccessors(hs[..n], acc, steps);
    if k < |front| {
      AllSuccessorsOrigin(hs[..n], acc, steps, k);
      var i, j :| 0 <= i < n && 0 <= j < |Successors(hs[..n][i], acc, steps)|
        && front[k] == Successors(hs[..n][i], acc, steps)[j];
      assert hs[..n][i] == hs[i];
    } else {
      assert AllSuccessors(hs, acc, steps)[k] == Successors(hs[n], acc, steps)[k - |front|];
    }
  }

  class JointModel<V, B, H> {
    /** The sub-state getters, setters and scores, fixed for the run. */
    const access: Access<V, B, H>
    /** The current joint hypotheses. */
    var hypotheses: seq<JointState<V, B, H>>

    /** The constructor: exactly one hypothesis, built by the three-argument joint constructor. */
    constructor(voice: V, beat: B, hierarchy: H, acc: Access<V, B, H>)
      ensures access == acc && hypotheses == [NewJointState(voice, beat, hierarchy, acc)]
    {
      access := acc;
      hypotheses := [NewJointState(voice, beat, hierarchy, acc)];
    }

    /** `handleIncoming(notes)`: replace the hypotheses by all their successors under `steps`. */
    method HandleIncoming(steps: Steps<V, B, H>)
      modifies this
      ensures hypotheses == AllSuccessors(old(hypotheses), access, steps)
    {
      hypotheses := AdvanceAll(hypotheses, access, steps);
    }

    /** `close()`: replace the hypotheses by all their successors under the closing `steps`. */
    method Close(steps: Steps<V, B, H>)
      modifies this
      ensures hypotheses == AllSuccessors(old(hypotheses), access, steps)
    {
      hypotheses := AdvanceAll(hypotheses, access, steps);
    }

    /** `getVoiceHypotheses`: the voice state of each hypothesis, in order. */
    method VoiceHypotheses() returns (vs: seq<V>)
      ensures |vs| == |hypotheses| && forall k :: 0 <= k < |vs| ==> vs[k] == hypotheses[k].voice
    {
      vs := [];
      for i := 0 to |hypotheses|
        invariant |vs| == i && forall k :: 0 <= k < i ==> vs[k] == hypotheses[k].voice
      {
        vs := vs + [hypotheses[i].voice];
      }
    }

    /** `getBeatHypotheses`: the beat state of each hypothesis, in order. */
    method BeatHypotheses() returns (bs: seq<B>)
      ensures |bs| == |hypotheses| && forall k :: 0 <= k < |bs| ==> bs[k] == hypotheses[k].beat
    {
      bs := [];
      for i := 0 to |hypotheses|
        invariant |bs| == i && forall k :: 0 <= k < i ==> bs[k] == hypotheses[k].beat
      {
        bs := bs + [hypotheses[i].beat];
      }
    }

    /** `getHierarchyHypotheses`: the metrical state of each hypothesis, in order. */
    method HierarchyHypotheses() returns (ms: seq<H>)
      ensures |ms| == |hypotheses| && forall k :: 0 <= k < |ms| ==> ms[k] == hypotheses[k].hierarchy
    {
      ms := [];
      for i := 0 to |hypotheses|
        invariant |ms| == i && forall k :: 0 <= k < i ==> ms[k] == hypotheses[k].hierarchy
      {
        ms := ms + [hypotheses[i].hierarchy];
      }
    }
  }

  /** The loop shared by `JointModel.handleIncoming` and `JointModel.close`. */
  method AdvanceAll<V, B, H>(hs: seq<JointState<V, B, H>>, acc: Access<V, B, H>, steps: Steps<V, B, H>)
    returns (newStates: seq<JointState<V, B, H>>)
    ensures newStates == AllSuccessors(hs, acc, steps)
  {
    newStates := [];
    for i := 0 to |hs|
      invariant newStates == AllSuccessors(hs[..i], acc, steps)
    {
      assert hs[..i + 1][..i] == hs[..i];
      var next := Advance(hs[i], acc, steps);
      newStates := newStates + next;
    }
    assert hs[..|hs|] == hs;
  }
}
