/**
 * The part of a roslaunch configuration the remapping passes touch: the
 * launch's nodes, each holding the list of its remapping rules
 * (`node.remap_args`), which the passes update in place.
 */
module LaunchConfig {

  /** A remapping rule `(remap_from, remap_to)`: the node's name `from` is rewritten to `to`. */
  type Rule = (string, string)

  /** A roslaunch node; only its remapping rules are modelled. */
  class Node {
    var remapArgs: seq<Rule>

    constructor (rules: seq<Rule>)
      ensures remapArgs == rules
    {
      remapArgs := rules;
    }
  }

  /** The launch configuration lists each node object once. */
  predicate DistinctNodes(nodes: seq<Node>)
  {
    forall i, j :: 0 <= i < j < |nodes| ==> nodes[i] != nodes[j]
  }

  /** The sources named by a list of rules. */
  function Sources(rules: seq<Rule>): (srcs: set<string>)
    ensures forall k :: 0 <= k < |rules| ==> rules[k].0 in srcs
    ensures forall s :: s in srcs ==> exists k :: 0 <= k < |rules| && rules[k].0 == s
  {
    set k | 0 <= k < |rules| :: rules[k].0
  }
}
