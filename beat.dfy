/** A beat of the beat-tracking grid: an immutable value (src/metdetection/beat/Beat.java). */
module Beats {
  import opened JavaInt

  datatype Beat = Beat(measure: int, beat: int, time: int, tick: int)

  /** The no-argument constructor. */
  function DefaultBeat(): (b: Beat)
    ensures b.measure == 0 && b.beat == 0 && b.time == 0 && b.tick == 0
  {
    Beat(0, 0, 0, 0)
  }

  /** `shallowCopy`: a new beat with the same four fields. */
  function ShallowCopy(b: Beat): (c: Beat)
    ensures Equals(b, Some(c)) && Equals(c, Some(b))
  {
    Beat(b.measure, b.beat, b.time, b.tick)
  }

  /** `equals`: false for `null`, otherwise all four fields must agree. */
  predicate Equals(b: Beat, other: Option<Beat>)
  {
    other.Some? && other.value.beat == b.beat && other.value.measure == b.measure
      && other.value.tick == b.tick && other.value.time == b.time
  }

  /** Beat equality is equality of the whole value. */
  lemma EqualsIsIdentity(b: Beat, other: Option<Beat>)
    ensures Equals(b, other) <==> other == Some(b)
  {
  }

  /** `hashCode`: `beat * 50 + measure`, computed in 32-bit arithmetic. */
  function HashCode(b: Beat): (h: int)
    ensures -TWO_31 <= h < TWO_31
  {
    Wrap32(Wrap32(b.beat * 50) + b.measure)
  }

  lemma EqualsHashCode(a: Beat, b: Beat)
    requires Equals(a, Some(b))
    ensures HashCode(a) == HashCode(b)
  {
  }

  /** `compareTo`: `null` sorts last; otherwise by measure, then by beat. Time and tick are ignored. */
  function CompareTo(b: Beat, other: Option<Beat>): (c: int)
    ensures other.None? ==> c == -1
    ensures other.Some? ==>
      (c == 0 <==> b.measure == other.value.measure && b.beat == other.value.beat)
    ensures other.Some? ==>
      (c < 0 <==> b.measure < other.value.measure
                  || (b.measure == other.value.measure && b.beat < other.value.beat))
  {
    if other.None? then -1
    else
      var value := IntCompare(b.measure, other.value.measure);
      if value != 0 then value else IntCompare(b.beat, other.value.beat)
  }

  lemma CompareToAntisymmetric(a: Beat, b: Beat)
    ensures CompareTo(a, Some(b)) == -CompareTo(b, Some(a))
  {
  }

  /** Two beats can compare as equal without being equal: time and tick are not compared. */
  lemma CompareZeroWithoutEquals()
    ensures CompareTo(Beat(1, 2, 100, 0), Some(Beat(1, 2, 200, 0))) == 0
    ensures !Equals(Beat(1, 2, 100, 0), Some(Beat(1, 2, 200, 0)))
  {
  }
}
