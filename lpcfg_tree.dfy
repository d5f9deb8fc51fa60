/**
 * The trees of the rhythm grammar: a MEASURE-rooted nonterminal over BEAT and SUB_BEAT
 * nonterminals whose leaves are terminals. The nonterminal, tree and measure classes are not
 * part of this model; they appear here as the values their getters expose.
 */
module LpcfgTrees {
  import opened Terminals

  /** `MetricalLpcfgLevel`. */
  datatype Level = SubBeat | BeatLevel | MeasureLevel

  /** A time signature (the `Measure` class): beats per measure and sub-beats per beat. */
  datatype Measure = Measure(beatsPerMeasure: int, subBeatsPerBeat: int)

  /**
   * A node of a grammar tree. A nonterminal exposes its level, its type string (set by its
   * parent's `fixChildrenTypes`), its transition string, its head and its children.
   */
  datatype Node =
    | Leaf(terminal: Terminal)
    | Inner(level: Level, typeString: string, transitionString: string, head: Head,
            children: seq<Node>)

  /** A tree: the root MEASURE nonterminal and the measure it was built for. */
  datatype Tree = Tree(measure: Measure, root: Node)

  /** `typeString.startsWith("WEAK")`. */
  predicate IsWeak(typeString: string)
  {
    "WEAK" <= typeString
  }
}
