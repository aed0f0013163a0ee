/**
 * The older copy of the compiler and decompiler in the HTTP handler package.
 *
 * Its request side is the same compiler as the Solr package's, except that `transformRequest`
 * is variadic: an argument is a single node, a slice of nodes, or anything else, which is
 * skipped while the level index still advances. Its `Node` struct has the fields of `Query`.
 *
 * Its decompiler keeps the values of a group in a map keyed by the bucket's `val` (or by the
 * parameter-table literal of a query facet), and returns each group's values as a list sorted
 * by relatedness, highest first.
 */
module LegacyHandler {
  import opened Wrappers
  import opened Json
  import opened Maps
  import opened Skg
  import opened Sorting
  import opened SolrRequest
  import opened RequestCompiler
  import opened SolrResponse

  // ---------------------------------------------------------------- transformRequest

  /** One argument of the variadic `transformRequest`. */
  datatype Arg = NodeArg(node: Query) | NodesArg(nodes: seq<Query>) | OtherArg

  /**
   * The levels the arguments denote, each with its argument position: a single node is a level
   * of one, a slice a level of its own, and any other argument no level at all.
   */
  function ArgLevels(args: seq<Arg>): seq<IndexedLevel>
    decreases |args|
  {
    if |args| == 0 then [] else ArgLevels(args[..|args| - 1]) + ArgLevel(args[|args| - 1], |args| - 1)
  }

  /** The level argument i contributes: none, for an argument that is not a node or a slice. */
  function ArgLevel(arg: Arg, i: nat): seq<IndexedLevel> {
    match arg
    case NodeArg(q) => [(i, [q])]
    case NodesArg(qs) => [(i, qs)]
    case OtherArg => []
  }

  /** The legacy `transformRequest`: the shared compiler, fed the levels of the arguments. */
  method TransformRequest(args: seq<Arg>)
    returns (root: FacetObj, params: map<string, string>, ghost tiers: seq<seq<FacetObj>>, ghost repr: set<FacetObj>)
    ensures fresh(root) && root.fields == map["limit" := JNum(0.0)]
    ensures params == Params(ArgLevels(args))
    ensures Tiered(ArgLevels(args), tiers, repr) && tiers[0] == [root]
    ensures Unfold(root.children, repr, |ArgLevels(args)|) == Expand(ArgLevels(args))
  {
    root := new FacetObj(map["limit" := JNum(0.0)]);
    params := RootParams();
    var parentNodes := [root];
    tiers := [[root]];
    repr := {root};
    for i := 0 to |args|
      invariant Built(ArgLevels(args[..i]), tiers, repr, parentNodes) && tiers[0] == [root]
      invariant params == PutAll(RootParams(), AllBindings(ArgLevels(args[..i])))
      invariant forall o :: o in repr ==> fresh(o)
      invariant forall o :: o in parentNodes ==> fresh(o)
    {
      assert args[..i + 1][..i] == args[..i];
      parentNodes, params, tiers, repr := CompileArg(ArgLevels(args[..i]), i, args[i], parentNodes, params, tiers, repr);
    }
    assert args[..|args|] == args;
    CompiledTree(ArgLevels(args), tiers, repr, root);
  }

  /**
   * One iteration of the loop over the arguments: a node or a slice is compiled as the level at
   * position i below `parentNodes`; any other argument is skipped, and the next one still gets
   * position i + 1.
   */
  method CompileArg(ghost ils: seq<IndexedLevel>, i: nat, arg: Arg, parentNodes: seq<FacetObj>,
                    params0: map<string, string>, ghost tiers0: seq<seq<FacetObj>>, ghost S0: set<FacetObj>)
    returns (next: seq<FacetObj>, params: map<string, string>, ghost tiers: seq<seq<FacetObj>>, ghost S: set<FacetObj>)
    requires Built(ils, tiers0, S0, parentNodes)
    requires params0 == PutAll(RootParams(), AllBindings(ils))
    modifies set p | p in parentNodes
    ensures Built(ils + ArgLevel(arg, i), tiers, S, next)
    ensures params == PutAll(RootParams(), AllBindings(ils + ArgLevel(arg, i)))
    ensures |tiers0| > 0 && tiers[0] == tiers0[0]
    ensures forall o :: o in S ==> o in S0 || fresh(o)
    ensures forall o :: o in next ==> o in parentNodes || fresh(o)
  {
    if arg.OtherArg? {
      next, params, tiers, S := parentNodes, params0, tiers0, S0;
      assert ils + ArgLevel(arg, i) == ils;
    } else {
      var nodes := if arg.NodeArg? then [arg.node] else arg.nodes;
      assert ArgLevel(arg, i) == [(i, nodes)];
      next, params, tiers, S := CompileTier(ils, i, nodes, parentNodes, params0, tiers0, S0);
      assert tiers[0] == tiers[..|ils| + 1][0];
    }
  }

  // ---------------------------------------------------------------- the decompiled values

  /** The map `transformNode` returns: the score, and `traversals` only when there are some. */
  datatype ValueNode = ValueNode(relatedness: real, traversals: Option<seq<LegacyTraversal>>)

  /** A group after sorting: its name and its entries, highest relatedness first. */
  datatype LegacyTraversal = LegacyTraversal(name: string, values: seq<Entry>)

  /** The `kv` record of `sortByRelatednessDesc`. */
  datatype Entry = Entry(key: string, value: ValueNode, relatedness: real)

  /** The values map of a group, before it is sorted. */
  type Values = seq<(string, ValueNode)>

  /** The group table of `transformResponseFacet`: each group name with its values map. */
  type Groups = seq<(string, Values)>

  function EntryScore(e: Entry): real {
    e.relatedness
  }

  /** The records `sortByRelatednessDesc` builds from a values map, in its range order. */
  function Entries(m: Values): (r: seq<Entry>)
    ensures |r| == |m|
    ensures forall k :: 0 <= k < |m| ==> r[k] == Entry(m[k].0, m[k].1, m[k].1.relatedness)
  {
    seq(|m|, k requires 0 <= k < |m| => Entry(m[k].0, m[k].1, m[k].1.relatedness))
  }

  /** `fmt.Sprintf("%v", bucket["val"])`: a bucket without `val` renders nil. */
  function BucketKey(bucket: seq<(string, Json)>): string {
    match Get(bucket, "val")
    case Some(v) => Stringify(v)
    case None => Stringify(JNull)
  }

  /** The key of a single query-facet object: its entry in the parameter table, or "". */
  function QueryValueName(params: map<string, string>, fullName: string): string {
    var queryKey := fullName + "_query";
    if queryKey in params then params[queryKey] else ""
  }

  /** `transformNode` of a decoded facet object. */
  function NodeOf(node: seq<(string, Json)>, params: map<string, string>): ValueNode
    decreases JObj(node), 3, 0
  {
    var subTraversals := FacetsOf(node, params);
    ValueNode(ExtractRelatedness(node), if |subTraversals| > 0 then Some(subTraversals) else None)
  }

  /** `transformResponseFacet`: the group table, each group's values sorted. */
  function FacetsOf(node: seq<(string, Json)>, params: map<string, string>): seq<LegacyTraversal>
    decreases JObj(node), 2, 0
  {
    SortedGroups(GroupsOf(node, |node|, params))
  }

  function SortedGroups(gs: Groups): (r: seq<LegacyTraversal>)
    ensures |r| == |gs|
    ensures forall k :: 0 <= k < |gs| ==> r[k] == LegacyTraversal(gs[k].0, SortDesc(Entries(gs[k].1), EntryScore))
  {
    seq(|gs|, k requires 0 <= k < |gs| => LegacyTraversal(gs[k].0, SortDesc(Entries(gs[k].1), EntryScore)))
  }

  /** The group table after the loop has visited the first n members. */
  function GroupsOf(node: seq<(string, Json)>, n: nat, params: map<string, string>): Groups
    requires n <= |node|
    decreases JObj(node), 1, n
  {
    if n == 0 then []
    else
      assert node[n - 1] in node;
      VisitOf(GroupsOf(node, n - 1, params), node[n - 1].0, node[n - 1].1, params)
  }

  /**
   * One turn of that loop. A reserved key is skipped; any other key creates its group (with no
   * values) when it is missing, and then stores the values the member leaves behind.
   */
  function VisitOf(gs: Groups, fullName: string, data: Json, params: map<string, string>): Groups
    decreases data, 5, 0
  {
    if Reserved(fullName) then gs
    else
      var name := RemoveSuffix(fullName);
      Put(gs, name, Refill(Lookup(gs, name).GetOr([]), fullName, data, params))
  }

  /**
   * The values of the member's group after it, from the values `prior` before it: a non-object
   * leaves them, a list of `buckets` replaces them with the bucket map, other `buckets` leave
   * them, and an object without `buckets` adds itself under its parameter-table literal.
   */
  function Refill(prior: Values, fullName: string, data: Json, params: map<string, string>): Values
    decreases data, 4, 0
  {
    if !data.JObj? then prior
    else
      match Get(data.members, "buckets")
      case Some(buckets) =>
        if buckets.JArr? then BucketValues(buckets.items, |buckets.items|, params) else prior
      case None => Put(prior, QueryValueName(params, fullName), NodeOf(data.members, params))
  }

  /** The values map built from the first n buckets: one entry per rendered `val`, last one wins. */
  function BucketValues(items: seq<Json>, n: nat, params: map<string, string>): Values
    requires n <= |items|
    decreases JArr(items), 0, n
  {
    if n == 0 then []
    else
      assert items[n - 1] in items;
      var prior := BucketValues(items, n - 1, params);
      if items[n - 1].JObj? then Put(prior, BucketKey(items[n - 1].members), NodeOf(items[n - 1].members, params))
      else prior
  }

  // ---------------------------------------------------------------- the Go loops

  /** `sortByRelatednessDesc`: the records of the map, sorted in place, copied to a list. */
  method SortByRelatednessDesc(m: Values) returns (sorted: seq<Entry>)
    ensures sorted == SortDesc(Entries(m), EntryScore)
  {
    var kvList: seq<Entry> := [];
    for k := 0 to |m|
      invariant |kvList| == k
      invariant forall j :: 0 <= j < k ==> kvList[j] == Entries(m)[j]
    {
      kvList := kvList + [Entry(m[k].0, m[k].1, m[k].1.relatedness)];
    }
    assert kvList == Entries(m);
    var a := new Entry[|kvList|](k requires 0 <= k < |kvList| => kvList[k]);
    assert a[..] == kvList;
    SortInPlace(a, EntryScore);
    sorted := [];
    for k := 0 to a.Length
      invariant sorted == a[..k]
    {
      sorted := sorted + [a[k]];
    }
    assert a[..a.Length] == a[..];
  }

  /** The legacy `transformResponseFacet`, the group table kept in creation order. */
  method TransformResponseFacet(node: seq<(string, Json)>, params: map<string, string>)
    returns (result: seq<LegacyTraversal>)
    ensures result == FacetsOf(node, params)
    decreases JObj(node), 2, 0
  {
    var traversals: Groups := [];
    for n := 0 to |node|
      invariant traversals == GroupsOf(node, n, params)
    {
      assert node[n] in node;
      traversals := VisitMember(traversals, node[n].0, node[n].1, params);
    }
    result := [];
    for k := 0 to |traversals|
      invariant result == SortedGroups(traversals)[..k]
    {
      var sortedValues := SortByRelatednessDesc(traversals[k].1);
      result := result + [LegacyTraversal(traversals[k].0, sortedValues)];
    }
    assert SortedGroups(traversals)[..|traversals|] == SortedGroups(traversals);
  }

  /** The body of the loop over the members of the facet object. */
  method VisitMember(traversals0: Groups, fullName: string, data: Json, params: map<string, string>)
    returns (traversals: Groups)
    ensures traversals == VisitOf(traversals0, fullName, data, params)
    decreases data, 5, 0
  {
    traversals := traversals0;
    if Reserved(fullName) {
      return;
    }
    var name := RemoveSuffix(fullName);
    var g := KeyIndex(traversals, name);
    if g < 0 {
      traversals := traversals + [(name, [])];
      g := |traversals| - 1;
    }
    if data.JObj? {
      var buckets := Get(data.members, "buckets");
      if buckets.Some? {
        if buckets.value.JArr? {
          var valuesNode := ProcessBuckets(buckets.value.items, params);
          traversals := traversals[g := (name, valuesNode)];
        }
      } else {
        var valueName := QueryValueName(params, fullName);
        var single := TransformNode(data.members, params);
        traversals := traversals[g := (name, Put(traversals[g].1, valueName, single))];
      }
    }
  }

  /** The bucket loop of the legacy `transformResponseFacet`. */
  method ProcessBuckets(bucketList: seq<Json>, params: map<string, string>) returns (valuesNode: Values)
    ensures valuesNode == BucketValues(bucketList, |bucketList|, params)
    decreases JArr(bucketList), 1, 0
  {
    valuesNode := [];
    for k := 0 to |bucketList|
      invariant valuesNode == BucketValues(bucketList, k, params)
    {
      var b := bucketList[k];
      assert b in bucketList;
      if b.JObj? {
        var keyStr := BucketKey(b.members);
        var value := TransformNode(b.members, params);
        valuesNode := Put(valuesNode, keyStr, value);
      }
    }
  }

  /** The legacy `transformNode`. */
  method TransformNode(node: seq<(string, Json)>, params: map<string, string>) returns (valueNode: ValueNode)
    ensures valueNode == NodeOf(node, params)
    decreases JObj(node), 3, 0
  {
    var relatedness := ExtractRelatedness(node);
    var subTraversals := TransformResponseFacet(node, params);
    valueNode := ValueNode(relatedness, None);
    if |subTraversals| > 0 {
      valueNode := valueNode.(traversals := Some(subTraversals));
    }
  }
}

module LegacyHandlerProperties {
  import opened Wrappers
  import opened Json
  import opened Maps
  import opened Skg
  import opened Sorting
  import opened SolrRequest
  import opened SolrResponse
  import opened LegacyHandler

  // ---------------------------------------------------------------- transformRequest

  function LevelOf(arg: Arg): seq<Query>
    requires !arg.OtherArg?
  {
    if arg.NodeArg? then [arg.node] else arg.nodes
  }

  /** Level `e` is the level of the node or slice argument at its position. */
  ghost predicate FromArg(args: seq<Arg>, e: IndexedLevel) {
    e.0 < |args| && !args[e.0].OtherArg? && e.1 == LevelOf(args[e.0])
  }

  /** Every level comes from a node or slice argument and carries that argument's position. */
  lemma {:induction false} ArgLevelsSound(args: seq<Arg>)
    ensures forall t :: 0 <= t < |ArgLevels(args)| ==> FromArg(args, ArgLevels(args)[t])
    decreases |args|
  {
    if |args| > 0 {
      var i := |args| - 1;
      var init := args[..i];
      ArgLevelsSound(init);
      var ls := ArgLevels(init);
      forall t | 0 <= t < |ArgLevels(args)|
        ensures FromArg(args, ArgLevels(args)[t])
      {
        if t < |ls| {
          assert ArgLevels(args)[t] == ls[t] && FromArg(init, ls[t]);
          assert args[ls[t].0] == init[ls[t].0];
        }
      }
    }
  }

  /** The positions of the levels increase: the levels keep the order of the arguments. */
  lemma {:induction false} ArgLevelsOrdered(args: seq<Arg>)
    ensures forall t :: 0 <= t < |ArgLevels(args)| ==> ArgLevels(args)[t].0 < |args|
    ensures forall t, u :: 0 <= t < u < |ArgLevels(args)| ==> ArgLevels(args)[t].0 < ArgLevels(args)[u].0
    decreases |args|
  {
    if |args| > 0 {
      var i := |args| - 1;
      ArgLevelsOrdered(args[..i]);
      var ls := ArgLevels(args[..i]);
      assert forall t :: 0 <= t < |ls| ==> ArgLevels(args)[t] == ls[t];
    }
  }

  /** Every node or slice argument has its level, so a skipped argument shifts no position. */
  lemma {:induction false} ArgLevelsComplete(args: seq<Arg>, p: nat)
    requires p < |args| && !args[p].OtherArg?
    ensures exists t :: 0 <= t < |ArgLevels(args)| && ArgLevels(args)[t] == (p, LevelOf(args[p]))
    decreases |args|
  {
    var i := |args| - 1;
    var ls := ArgLevels(args[..i]);
    if p < i {
      ArgLevelsComplete(args[..i], p);
      assert args[p] == args[..i][p];
      var t :| 0 <= t < |ls| && ls[t] == (p, LevelOf(args[p]));
      assert ArgLevels(args)[t] == ls[t];
    } else {
      assert ArgLevels(args)[|ls|] == (p, LevelOf(args[p]));
    }
  }

  /** The levels of a list of node and slice arguments. */
  function ArgsAsLevels(args: seq<Arg>): (r: seq<seq<Query>>)
    requires forall k :: 0 <= k < |args| ==> !args[k].OtherArg?
    ensures |r| == |args| && forall k :: 0 <= k < |args| ==> r[k] == LevelOf(args[k])
  {
    seq(|args|, k requires 0 <= k < |args| => LevelOf(args[k]))
  }

  /** Without skipped arguments, the levels are the arguments' levels at their own indices. */
  lemma {:induction false} NoSkipIndexed(args: seq<Arg>)
    requires forall k :: 0 <= k < |args| ==> !args[k].OtherArg?
    ensures ArgLevels(args) == Indexed(ArgsAsLevels(args))
    decreases |args|
  {
    if |args| > 0 {
      var i := |args| - 1;
      NoSkipIndexed(args[..i]);
      var ls := Indexed(ArgsAsLevels(args[..i]));
      assert ArgLevels(args) == ls + [(i, LevelOf(args[i]))];
      assert Indexed(ArgsAsLevels(args)) == ls + [(i, LevelOf(args[i]))];
    }
  }

  /**
   * Without skipped arguments the legacy compiler is the Solr package's: the same parameters
   * and the same facet tree as `Compile` of the arguments' levels.
   */
  lemma NoSkipIsCompile(args: seq<Arg>)
    requires forall k :: 0 <= k < |args| ==> !args[k].OtherArg?
    ensures Params(ArgLevels(args)) == Compile(ArgsAsLevels(args)).params
    ensures Expand(ArgLevels(args)) == Compile(ArgsAsLevels(args)).facet
  {
    NoSkipIndexed(args);
  }

  /**
   * The handler's own call, and what a skipped first argument does to it: the node that was at
   * level 1 keeps the default name "f1".
   */
  lemma SkippedArgumentKeepsPosition(q: Query)
    requires q.name == ""
    ensures ArgLevels([OtherArg, NodeArg(q)]) == [(1, [q])]
    ensures NodeName(q, 1, 0) == "f1"
  {
    assert [OtherArg, NodeArg(q)][..1] == [OtherArg];
    assert [OtherArg][..0] == [];
  }
}

module LegacyDecompilerProperties {
  import opened Wrappers
  import opened Json
  import opened Maps
  import opened Sorting
  import opened SolrResponse
  import opened LegacyHandler

  // ---------------------------------------------------------------- sortByRelatednessDesc

  /**
   * `sortByRelatednessDesc` returns one record per map entry, each carrying its value's own
   * score, reordered so that the scores never increase.
   */
  lemma SortByRelatednessSpec(m: Values)
    ensures var r := SortDesc(Entries(m), EntryScore);
      && |r| == |m|
      && multiset(r) == multiset(Entries(m))
      && NonIncreasing(r, EntryScore)
      && (forall e :: e in r ==> (e.key, e.value) in m && e.relatedness == e.value.relatedness)
      && (forall k :: 0 <= k < |m| ==> Entry(m[k].0, m[k].1, m[k].1.relatedness) in r)
  {
    var es := Entries(m);
    var r := SortDesc(es, EntryScore);
    SortDescSorted(es, EntryScore);
    SortDescPermutes(es, EntryScore);
    forall e | e in r
      ensures (e.key, e.value) in m && e.relatedness == e.value.relatedness
    {
      assert e in multiset(r);
      assert e in multiset(es);
      var k :| 0 <= k < |es| && es[k] == e;
    }
    forall k | 0 <= k < |m|
      ensures Entry(m[k].0, m[k].1, m[k].1.relatedness) in r
    {
      assert es[k] in multiset(es);
      assert es[k] in multiset(r);
    }
  }

  // ---------------------------------------------------------------- the bucket map

  /** The bucket map is a map: each rendered `val` has one entry, so equal `val`s collapse. */
  lemma {:induction false} BucketKeysDistinct(items: seq<Json>, n: nat, params: map<string, string>)
    requires n <= |items|
    ensures KeysDistinct(BucketValues(items, n, params))
  {
    if n > 0 {
      BucketKeysDistinct(items, n - 1, params);
      if items[n - 1].JObj? {
        PutSpec(BucketValues(items, n - 1, params), BucketKey(items[n - 1].members), NodeOf(items[n - 1].members, params));
      }
    }
  }

  /** Of the buckets with the same rendered `val`, the last one is the one kept. */
  lemma {:induction false} BucketLastWins(items: seq<Json>, n: nat, params: map<string, string>, m: nat)
    requires m < n <= |items| && items[m].JObj?
    requires forall m' :: m < m' < n && items[m'].JObj? ==> BucketKey(items[m'].members) != BucketKey(items[m].members)
    ensures Lookup(BucketValues(items, n, params), BucketKey(items[m].members)) == Some(NodeOf(items[m].members, params))
  {
    var prior := BucketValues(items, n - 1, params);
    BucketKeysDistinct(items, n - 1, params);
    if n - 1 == m {
      PutSpec(prior, BucketKey(items[m].members), NodeOf(items[m].members, params));
    } else {
      BucketLastWins(items, n - 1, params, m);
      if items[n - 1].JObj? {
        PutSpec(prior, BucketKey(items[n - 1].members), NodeOf(items[n - 1].members, params));
      }
    }
  }

  /** Some object among the first n buckets renders its `val` as `k`. */
  ghost predicate Rendered(items: seq<Json>, n: int, k: string) {
    exists m :: 0 <= m < n && m < |items| && items[m].JObj? && BucketKey(items[m].members) == k
  }

  lemma RenderedStep(items: seq<Json>, n: nat, k: string)
    requires n < |items|
    ensures Rendered(items, n + 1, k) <==> Rendered(items, n, k) || (items[n].JObj? && BucketKey(items[n].members) == k)
  {
    if Rendered(items, n + 1, k) && !(items[n].JObj? && BucketKey(items[n].members) == k) {
      var m :| 0 <= m < n + 1 && m < |items| && items[m].JObj? && BucketKey(items[m].members) == k;
      assert m < n;
    }
  }

  /** The bucket map has an entry for `k` exactly when some object bucket renders its `val` as `k`. */
  lemma {:induction false} BucketKeysExactly(items: seq<Json>, n: nat, params: map<string, string>, k: string)
    requires n <= |items|
    ensures Lookup(BucketValues(items, n, params), k).Some? <==> Rendered(items, n, k)
  {
    if n > 0 {
      BucketKeysExactly(items, n - 1, params, k);
      RenderedStep(items, n - 1, k);
      if items[n - 1].JObj? {
        BucketKeysDistinct(items, n - 1, params);
        PutSpec(BucketValues(items, n - 1, params), BucketKey(items[n - 1].members), NodeOf(items[n - 1].members, params));
      }
    } else {
      assert !Rendered(items, 0, k);
    }
  }

  // ---------------------------------------------------------------- one member

  /** Every values map of the table is a map. */
  ghost predicate ValuesAreMaps(gs: Groups) {
    forall t :: 0 <= t < |gs| ==> KeysDistinct(gs[t].1)
  }

  /**
   * What one non-reserved member does to its group `name`: the group exists afterwards; a
   * non-object leaves its values as they were (none for a new group); a list of `buckets`
   * replaces them with the bucket map, other `buckets` leave them; and an object without
   * `buckets` assigns its node to the key `params[fullName + "_query"]`, or "" when absent.
   */
  lemma VisitGroup(gs: Groups, fullName: string, data: Json, params: map<string, string>)
    requires !Reserved(fullName)
    ensures var name := RemoveSuffix(fullName);
      var prior := Lookup(gs, name).GetOr([]);
      var after := Lookup(VisitOf(gs, fullName, data, params), name);
      && after.Some?
      && (!data.JObj? ==> after.value == prior)
      && (data.JObj? && Get(data.members, "buckets").Some? ==>
            var buckets := Get(data.members, "buckets").value;
            after.value == if buckets.JArr? then BucketValues(buckets.items, |buckets.items|, params) else prior)
      && (data.JObj? && Get(data.members, "buckets").None? ==>
            after.value == Put(prior, QueryValueName(params, fullName), NodeOf(data.members, params)))
  {
    var name := RemoveSuffix(fullName);
    PutLookup(gs, name, Refill(Lookup(gs, name).GetOr([]), fullName, data, params));
  }

  /** A member leaves every group but its own as it was. */
  lemma VisitOtherGroups(gs: Groups, fullName: string, data: Json, params: map<string, string>, other: string)
    requires Reserved(fullName) || RemoveSuffix(fullName) != other
    ensures Lookup(VisitOf(gs, fullName, data, params), other) == Lookup(gs, other)
    ensures KeyIndex(VisitOf(gs, fullName, data, params), other) >= 0 <==> KeyIndex(gs, other) >= 0
  {
    if !Reserved(fullName) {
      var name := RemoveSuffix(fullName);
      PutLookup(gs, name, Refill(Lookup(gs, name).GetOr([]), fullName, data, params));
    }
  }

  /** A member without `buckets` adds its node under its literal and keeps the group's other entries. */
  lemma VisitAddsQueryNode(gs: Groups, fullName: string, data: Json, params: map<string, string>)
    requires !Reserved(fullName) && data.JObj? && Get(data.members, "buckets").None?
    ensures var name := RemoveSuffix(fullName);
      var prior := Lookup(gs, name).GetOr([]);
      var after := Lookup(VisitOf(gs, fullName, data, params), name).GetOr([]);
      && Lookup(after, QueryValueName(params, fullName)) == Some(NodeOf(data.members, params))
      && forall k :: k != QueryValueName(params, fullName) ==> Lookup(after, k) == Lookup(prior, k)
  {
    var name := RemoveSuffix(fullName);
    VisitGroup(gs, fullName, data, params);
    var prior := Lookup(gs, name).GetOr([]);
    PutLookup(prior, QueryValueName(params, fullName), NodeOf(data.members, params));
  }

  /** The values left behind by a member are a map when the ones before it were. */
  lemma RefillIsMap(prior: Values, fullName: string, data: Json, params: map<string, string>)
    requires KeysDistinct(prior)
    ensures KeysDistinct(Refill(prior, fullName, data, params))
  {
    if data.JObj? {
      match Get(data.members, "buckets")
      case Some(buckets) =>
        if buckets.JArr? {
          BucketKeysDistinct(buckets.items, |buckets.items|, params);
        }
      case None =>
        PutSpec(prior, QueryValueName(params, fullName), NodeOf(data.members, params));
    }
  }

  /** The table stays a map from group names to maps. */
  lemma VisitKeepsMaps(gs: Groups, fullName: string, data: Json, params: map<string, string>)
    requires KeysDistinct(gs) && ValuesAreMaps(gs)
    ensures KeysDistinct(VisitOf(gs, fullName, data, params)) && ValuesAreMaps(VisitOf(gs, fullName, data, params))
  {
    if !Reserved(fullName) {
      var name := RemoveSuffix(fullName);
      var g := KeyIndex(gs, name);
      var prior := Lookup(gs, name).GetOr([]);
      assert KeysDistinct(prior) by {
        if g >= 0 {
          assert prior == gs[g].1;
        }
      }
      var values := Refill(prior, fullName, data, params);
      RefillIsMap(prior, fullName, data, params);
      PutSpec(gs, name, values);
      var r := Put(gs, name, values);
      assert forall t :: 0 <= t < |r| ==> r[t] == (name, values) || r[t] == gs[t];
    }
  }

  // ---------------------------------------------------------------- the whole object

  /** The table has one traversal per group name, and each group's values are a map. */
  lemma {:induction false} GroupsAreMaps(node: seq<(string, Json)>, n: nat, params: map<string, string>)
    requires n <= |node|
    ensures KeysDistinct(GroupsOf(node, n, params)) && ValuesAreMaps(GroupsOf(node, n, params))
  {
    if n > 0 {
      GroupsAreMaps(node, n - 1, params);
      VisitKeepsMaps(GroupsOf(node, n - 1, params), node[n - 1].0, node[n - 1].1, params);
    }
  }

  /** Some of the first n members is a non-reserved key of group `name`, object or not. */
  ghost predicate Named(node: seq<(string, Json)>, n: int, name: string) {
    exists m :: 0 <= m < n && m < |node| && !Reserved(node[m].0) && RemoveSuffix(node[m].0) == name
  }

  lemma NamedStep(node: seq<(string, Json)>, n: nat, name: string)
    requires n < |node|
    ensures Named(node, n + 1, name) <==> Named(node, n, name) || (!Reserved(node[n].0) && RemoveSuffix(node[n].0) == name)
  {
    if Named(node, n + 1, name) && !(!Reserved(node[n].0) && RemoveSuffix(node[n].0) == name) {
      var m :| 0 <= m < n + 1 && m < |node| && !Reserved(node[m].0) && RemoveSuffix(node[m].0) == name;
      assert m < n;
    }
  }

  /** A group exists exactly when some non-reserved key has its name, whatever its value is. */
  lemma {:induction false} GroupsExactly(node: seq<(string, Json)>, n: nat, params: map<string, string>, name: string)
    requires n <= |node|
    ensures KeyIndex(GroupsOf(node, n, params), name) >= 0 <==> Named(node, n, name)
  {
    if n > 0 {
      var gs := GroupsOf(node, n - 1, params);
      var fullName, data := node[n - 1].0, node[n - 1].1;
      GroupsExactly(node, n - 1, params, name);
      NamedStep(node, n - 1, name);
      if !Reserved(fullName) && RemoveSuffix(fullName) == name {
        VisitGroup(gs, fullName, data, params);
      } else {
        VisitOtherGroups(gs, fullName, data, params, name);
      }
    } else {
      assert !Named(node, 0, name);
    }
  }

  /**
   * The legacy `transformNode` has `traversals` exactly when the object has a non-reserved key:
   * even a key whose value is not an object creates a (then empty) traversal.
   */
  lemma NodeHasTraversals(node: seq<(string, Json)>, params: map<string, string>)
    ensures NodeOf(node, params).traversals.Some? <==> exists m :: 0 <= m < |node| && !Reserved(node[m].0)
    ensures NodeOf(node, params).traversals.Some? ==> NodeOf(node, params).traversals.value == FacetsOf(node, params)
    ensures NodeOf(node, params).relatedness == ExtractRelatedness(node)
  {
    var gs := GroupsOf(node, |node|, params);
    if exists m :: 0 <= m < |node| && !Reserved(node[m].0) {
      var m :| 0 <= m < |node| && !Reserved(node[m].0);
      GroupsExactly(node, |node|, params, RemoveSuffix(node[m].0));
    }
    if |gs| > 0 {
      GroupsExactly(node, |node|, params, gs[0].0);
    }
  }

  /** Every traversal of the legacy result lists its values highest relatedness first. */
  lemma FacetsSorted(node: seq<(string, Json)>, params: map<string, string>)
    ensures forall t :: 0 <= t < |FacetsOf(node, params)| ==> NonIncreasing(FacetsOf(node, params)[t].values, EntryScore)
  {
    var gs := GroupsOf(node, |node|, params);
    forall t | 0 <= t < |gs|
      ensures NonIncreasing(FacetsOf(node, params)[t].values, EntryScore)
    {
      SortDescSorted(Entries(gs[t].1), EntryScore);
    }
  }
}
