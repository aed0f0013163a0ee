/**
 * The vocabulary shared by the compiler and the decompiler: a `Query` describes one facet step
 * of a request level; `Traversal` and `Node` are the decompiled result tree.
 */
module Skg {
  import opened Wrappers

  /**
   * One query node. An empty `name` asks for a positional default name. Non-empty `values`
   * make the node a set of query facets (one per value); otherwise it is one terms facet on
   * `field`. A `None` limit means the default: 10 for terms facets, none for query facets.
   * `minOccurrence` is the terms facet's minimum count, `minPopularity` goes to the nested
   * relatedness function, and an empty `defaultOperator` means "AND".
   */
  datatype Query = Query(
    name: string,
    values: seq<string>,
    field: string,
    minOccurrence: Option<int>,
    limit: Option<int>,
    minPopularity: Option<int>,
    defaultOperator: string)

  predicate IsQueryFacet(q: Query) {
    |q.values| > 0
  }

  /** A named group of sibling result nodes. */
  datatype Traversal = Traversal(name: string, values: seq<Node>)

  /** One resolved term or literal with its relatedness and the traversals nested below it. */
  datatype Node = Node(key: string, relatedness: real, traversals: seq<Traversal>)
}
