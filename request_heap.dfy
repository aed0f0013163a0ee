/**
 * The request compiler of internal/skg/solr/request.go as the Go code runs it: facet maps are
 * heap objects, `transformRequest` attaches the SAME facet object to every parent of the
 * previous level, and later levels mutate those shared objects. The main theorem
 * (`TransformRequest`'s postcondition, proved through `TieredUnfold`) is that the tree reachable
 * from the root is nevertheless the fully expanded tree `SolrRequest.Expand`, in which every
 * parent holds its own copy.
 */
module RequestCompiler {
  import opened Wrappers
  import opened Json
  import opened Maps
  import opened Skg
  import opened Strings
  import opened SolrRequest

  /**
   * One Go `map[string]interface{}` of the request: the root or a facet. `fields` are its
   * entries other than the sub-facets; `children` are the sub-facets attached into its `facet`
   * member, keyed `{name}_{k}`.
   */
  class FacetObj {
    const fields: map<string, Json>
    var children: map<string, FacetObj>

    constructor (fields: map<string, Json>)
      ensures this.fields == fields && children == map[]
    {
      this.fields := fields;
      children := map[];
    }
  }

  ghost predicate Distinct<T>(s: seq<T>) {
    forall a, b :: 0 <= a < b < |s| ==> s[a] != s[b]
  }

  /** The facet tree reachable from a children map, read `depth` levels deep within `S`. */
  ghost function Unfold(m: map<string, FacetObj>, S: set<FacetObj>, depth: nat): map<string, Facet>
    reads S
    decreases depth
  {
    if depth == 0 then map[]
    else map k | k in m :: Facet(m[k].fields, if m[k] in S then Unfold(m[k].children, S, depth - 1) else map[])
  }

  /**
   * The keys of `entries` paired with the objects that carry their definitions, position by
   * position (as far as both reach; the model always pairs sequences of equal length).
   */
  function Rekey<A, B>(entries: seq<(string, A)>, objs: seq<B>): (r: seq<(string, B)>)
    ensures |r| == if |entries| <= |objs| then |entries| else |objs|
    ensures forall m :: 0 <= m < |r| ==> r[m] == (entries[m].0, objs[m])
  {
    var n := if |entries| <= |objs| then |entries| else |objs|;
    seq(n, m requires 0 <= m < n => (entries[m].0, objs[m]))
  }

  /** The facets of one node, keyed `{name}_{k}` by position. */
  function Keyed<B>(name: string, objs: seq<B>): (r: seq<(string, B)>)
    ensures |r| == |objs|
    ensures forall k :: 0 <= k < |r| ==> r[k] == (FacetKey(name, k), objs[k])
  {
    seq(|objs|, k requires 0 <= k < |objs| => (FacetKey(name, k), objs[k]))
  }

  // ---------------------------------------------------------------- generateFacets

  /** The nested `facet` member of `baseFacet`, with `min_popularity` when one is given. */
  method BuildNestedFacets(minPopularity: Option<int>) returns (nested: Json)
    ensures nested == NestedFacets(minPopularity)
  {
    var rel := [("type", JStr("func")), ("func", JStr(RelatednessFormula))];
    if minPopularity.Some? {
      rel := rel + [("min_popularity", JNum(minPopularity.value as real))];
    }
    nested := JObj([("relatedness", JObj(rel))]);
  }

  /**
   * The first half of `generateFacets`: `baseFacet`. The nested relatedness function is built
   * first here; Go adds `min_popularity` to it in place after the insertion of `mincount`,
   * which comes to the same value.
   */
  method BuildBaseFacet(q: Query) returns (baseFacet: map<string, Json>)
    ensures baseFacet == BaseFacet(q)
  {
    var facetType := "terms";
    if |q.values| > 0 {
      facetType := "query";
    }
    var facLimit := 10;
    if q.limit.Some? {
      facLimit := q.limit.value;
    }
    var nested := BuildNestedFacets(q.minPopularity);
    baseFacet := map["type" := JStr(facetType), "limit" := JNum(facLimit as real),
                     "sort" := SortByRelatedness, "facet" := nested];
    if q.minOccurrence.Some? {
      baseFacet := baseFacet["mincount" := JNum(q.minOccurrence.value as real)];
    }
    if q.field != "" {
      baseFacet := baseFacet["field" := JStr(q.field)];
    }
  }

  /** `fmt.Sprintf("{!edismax q.op=%s qf=%s v=$%s_%d_query}", ...)` is `QueryString`. */
  lemma QueryStringSpelled(op: string, field: string, name: string, k: nat)
    ensures "{!edismax q.op=" + DefaultOperator(op) + " qf=" + field + " v=$" + name + "_" + NatToString(k) + "_query}"
            == QueryString(op, field, name, k)
  {
  }

  /** The values loop of `generateFacets`: one copy of `trimmed` per value, with its query. */
  method CopyPerValue(name: string, q: Query, trimmed: map<string, Json>) returns (defs: seq<map<string, Json>>)
    ensures |defs| == |q.values|
    ensures forall m :: 0 <= m < |defs| ==>
      defs[m] == trimmed["query" := JStr(QueryString(q.defaultOperator, q.field, name, m))]
  {
    defs := [];
    for i := 0 to |q.values|
      invariant |defs| == i
      invariant forall m :: 0 <= m < i ==>
        defs[m] == trimmed["query" := JStr(QueryString(q.defaultOperator, q.field, name, m))]
    {
      var facetCopy := trimmed;
      var queryStr := "{!edismax q.op=" + DefaultOperator(q.defaultOperator) + " qf=" + q.field
                      + " v=$" + name + "_" + NatToString(i) + "_query}";
      QueryStringSpelled(q.defaultOperator, q.field, name, i);
      facetCopy := facetCopy["query" := JStr(queryStr)];
      defs := defs + [facetCopy];
    }
  }

  /**
   * `generateFacets` without the allocation: `baseFacet`, then for a node with values one copy
   * per value with its query string. Copies of immutable values cannot alias, so `deepCopyMap`
   * is the value itself here.
   */
  method GenerateFacetFields(name: string, q: Query) returns (defs: seq<map<string, Json>>)
    ensures defs == FacetSpecs(name, q)
  {
    var baseFacet := BuildBaseFacet(q);
    if |q.values| > 0 {
      if q.minOccurrence.Some? {
        baseFacet := baseFacet - {"mincount"};
      }
      if q.limit.None? {
        baseFacet := baseFacet - {"limit"};
      }
      assert baseFacet == BaseFacet(q) - {"mincount"} - (if q.limit.None? then {"limit"} else {});
      defs := CopyPerValue(name, q, baseFacet);
      assert defs == FacetSpecs(name, q);
    } else {
      defs := [baseFacet];
    }
  }

  /** `generateFacets`: one fresh, distinct facet map per generated definition. */
  method GenerateFacets(name: string, q: Query) returns (facets: seq<FacetObj>)
    ensures |facets| == |FacetSpecs(name, q)|
    ensures forall k :: 0 <= k < |facets| ==> facets[k].fields == FacetSpecs(name, q)[k]
    ensures forall m :: 0 <= m < |facets| ==> fresh(facets[m]) && facets[m].children == map[]
    ensures Distinct(facets)
  {
    var defs := GenerateFacetFields(name, q);
    facets := [];
    for k := 0 to |defs|
      invariant |facets| == k
      invariant forall m :: 0 <= m < k ==> facets[m].fields == defs[m]
      invariant forall m :: 0 <= m < k ==> fresh(facets[m]) && facets[m].children == map[]
      invariant Distinct(facets)
    {
      var f := new FacetObj(defs[k]);
      facets := facets + [f];
    }
  }

  // ---------------------------------------------------------------- attaching

  /** The objects carry the definitions of the entries, position by position. */
  ghost predicate FieldsMatch(objs: seq<FacetObj>, entries: seq<(string, map<string, Json>)>) {
    |objs| == |entries| && forall m :: 0 <= m < |objs| ==> objs[m].fields == entries[m].1
  }

  /** None of the objects has sub-facets yet. */
  ghost predicate Unlinked(objs: seq<FacetObj>)
    reads objs
  {
    forall m :: 0 <= m < |objs| ==> objs[m].children == map[]
  }

  lemma FieldsMatchAppend(x: seq<FacetObj>, a: seq<(string, map<string, Json>)>, y: seq<FacetObj>, b: seq<(string, map<string, Json>)>)
    requires FieldsMatch(x, a) && FieldsMatch(y, b)
    ensures FieldsMatch(x + y, a + b)
  {
    forall m | 0 <= m < |x + y|
      ensures (x + y)[m].fields == (a + b)[m].1
    {
      if m < |x| {
        assert (x + y)[m] == x[m] && (a + b)[m] == a[m];
      } else {
        assert (x + y)[m] == y[m - |x|] && (a + b)[m] == b[m - |x|];
      }
    }
  }

  lemma UnlinkedAppend(x: seq<FacetObj>, y: seq<FacetObj>)
    requires Unlinked(x) && Unlinked(y)
    ensures Unlinked(x + y)
  {
    forall m | 0 <= m < |x + y|
      ensures (x + y)[m].children == map[]
    {
      if m < |x| {
        assert (x + y)[m] == x[m];
      } else {
        assert (x + y)[m] == y[m - |x|];
      }
    }
  }

  lemma DistinctAppend<T>(x: seq<T>, y: seq<T>)
    requires Distinct(x) && Distinct(y)
    requires forall o :: o in x ==> o !in y
    ensures Distinct(x + y)
  {
    forall a, b | 0 <= a < b < |x + y|
      ensures (x + y)[a] != (x + y)[b]
    {
      if b < |x| {
        assert (x + y)[a] == x[a] && (x + y)[b] == x[b];
      } else if a >= |x| {
        assert (x + y)[a] == y[a - |x|] && (x + y)[b] == y[b - |x|];
      } else {
        assert (x + y)[a] == x[a] && (x + y)[b] == y[b - |x|];
        assert x[a] in x;
      }
    }
  }

  lemma RekeyAppend<A, B>(a: seq<(string, A)>, b: seq<(string, A)>, x: seq<B>, y: seq<B>)
    requires |a| == |x| && |b| == |y|
    ensures Rekey(a + b, x + y) == Rekey(a, x) + Rekey(b, y)
  {
  }

  /** The inner loop of `transformRequest`: attaches the facets of one node to one parent. */
  method Attach(parent: FacetObj, name: string, facets: seq<FacetObj>)
    modifies parent
    ensures parent.children == PutAll(old(parent.children), Keyed(name, facets))
  {
    for k := 0 to |facets|
      invariant parent.children == PutAll(old(parent.children), Keyed(name, facets)[..k])
    {
      var key := name + "_" + NatToString(k);
      assert Keyed(name, facets)[..k + 1] == Keyed(name, facets)[..k] + [(key, facets[k])];
      PutAllSnoc(old(parent.children), Keyed(name, facets)[..k], key, facets[k]);
      parent.children := parent.children[key := facets[k]];
    }
    assert Keyed(name, facets)[..|facets|] == Keyed(name, facets);
  }

  /** Attaches the facets of one node to every parent; each parent gets the same objects. */
  method AttachToAll(parents: seq<FacetObj>, name: string, facets: seq<FacetObj>)
    requires Distinct(parents)
    modifies set p | p in parents
    ensures forall p :: p in parents ==> p.children == PutAll(old(p.children), Keyed(name, facets))
  {
    for idx := 0 to |parents|
      invariant forall m :: 0 <= m < idx ==>
        parents[m].children == PutAll(old(parents[m].children), Keyed(name, facets))
      invariant forall m :: idx <= m < |parents| ==> parents[m].children == old(parents[m].children)
    {
      Attach(parents[idx], name, facets);
    }
  }

  /** Every parent holds exactly the keyed facets `entries`, carried by `objs`. */
  ghost predicate ChildrenAre(parents: seq<FacetObj>, entries: seq<(string, map<string, Json>)>, objs: seq<FacetObj>)
    reads parents
  {
    forall p :: p in parents ==> p.children == PutAll(map[], Rekey(entries, objs))
  }

  /**
   * One node of a level: its facets are generated and attached to every parent, after the
   * facets `before` of the earlier nodes of the level (keyed by `lf`).
   */
  method AttachNode(parents: seq<FacetObj>, q: Query, i: nat, j: nat, name: string,
                    ghost lf: seq<(string, map<string, Json>)>, ghost before: seq<FacetObj>)
    returns (facets: seq<FacetObj>)
    requires name == NodeName(q, i, j)
    requires Distinct(parents) && |lf| == |before| && ChildrenAre(parents, lf, before)
    modifies set p | p in parents
    ensures FieldsMatch(facets, NodeFacets(q, i, j))
    ensures forall m :: 0 <= m < |facets| ==> fresh(facets[m]) && facets[m].children == map[]
    ensures Distinct(facets)
    ensures ChildrenAre(parents, lf + NodeFacets(q, i, j), before + facets)
  {
    facets := GenerateFacets(name, q);
    AttachToAll(parents, name, facets);
    ghost var nf := NodeFacets(q, i, j);
    assert Rekey(nf, facets) == Keyed(name, facets);
    RekeyAppend(lf, nf, before, facets);
    PutAllAppend(map[], Rekey(lf, before), Rekey(nf, facets));
  }

  /** The values loop of one node: binds `{name}_{k}_query` to the k-th value, in order. */
  method BindValues(params0: map<string, string>, q: Query, i: nat, j: nat, name: string)
    returns (params: map<string, string>)
    requires name == NodeName(q, i, j)
    ensures params == PutAll(params0, NodeBindings(q, i, j))
  {
    params := params0;
    ghost var bindings := NodeBindings(q, i, j);
    if |q.values| > 0 {
      for k := 0 to |q.values|
        invariant params == PutAll(params0, bindings[..k])
      {
        var key := name + "_" + NatToString(k) + "_query";
        assert bindings[..k + 1] == bindings[..k] + [(key, q.values[k])];
        PutAllSnoc(params0, bindings[..k], key, q.values[k]);
        params := params[key := q.values[k]];
      }
      assert bindings[..|q.values|] == bindings;
    } else {
      assert bindings == [];
    }
  }

  lemma LevelStep(level: seq<Query>, i: nat, j: nat)
    requires j < |level|
    ensures LevelFacets(level[..j + 1], i) == LevelFacets(level[..j], i) + NodeFacets(level[j], i, j)
  {
    assert level[..j + 1][..j] == level[..j];
  }

  /** The parameter half of one iteration of the loop over the nodes of level i. */
  method BindNode(params0: map<string, string>, level: seq<Query>, i: nat, j: nat, name: string,
                  ghost start: map<string, string>)
    returns (params: map<string, string>)
    requires j < |level| && name == NodeName(level[j], i, j)
    requires params0 == PutAll(start, LevelBindings(level[..j], i))
    ensures params == PutAll(start, LevelBindings(level[..j + 1], i))
  {
    params := BindValues(params0, level[j], i, j, name);
    assert level[..j + 1][..j] == level[..j];
    PutAllAppend(start, LevelBindings(level[..j], i), NodeBindings(level[j], i, j));
  }

  /**
   * The facet half of one iteration of the loop over the nodes of level i: node j's facets,
   * `facets`, are appended to `current` and attached to every parent.
   */
  method CompileNode(parents: seq<FacetObj>, q: Query, i: nat, j: nat, name: string,
                     current0: seq<FacetObj>, ghost lf: seq<(string, map<string, Json>)>)
    returns (current: seq<FacetObj>, ghost facets: seq<FacetObj>)
    requires name == NodeName(q, i, j) && Distinct(parents)
    requires FieldsMatch(current0, lf) && ChildrenAre(parents, lf, current0)
    requires Distinct(current0) && Unlinked(current0) && forall o :: o in current0 ==> o !in parents
    modifies set p | p in parents
    ensures current == current0 + facets && forall o :: o in facets ==> fresh(o)
    ensures FieldsMatch(current, lf + NodeFacets(q, i, j))
    ensures Unlinked(current) && Distinct(current)
    ensures ChildrenAre(parents, lf + NodeFacets(q, i, j), current)
  {
    var attached := AttachNode(parents, q, i, j, name, lf, current0);
    assert Unlinked(current0);
    current, facets := current0 + attached, attached;
    FacetsStep(current0, lf, facets, NodeFacets(q, i, j));
  }

  /** The name node j of level i is compiled under: its own, or the positional default. */
  method ChooseName(node: Query, i: nat, j: nat) returns (name: string)
    ensures name == NodeName(node, i, j)
  {
    name := node.name;
    if name == "" {
      name := DefaultNodeName(i, j);
    }
  }

  /** The facts about `current0 + facets` that one node step needs. */
  lemma FacetsStep(current0: seq<FacetObj>, lf: seq<(string, map<string, Json>)>,
                   facets: seq<FacetObj>, nf: seq<(string, map<string, Json>)>)
    requires FieldsMatch(current0, lf) && FieldsMatch(facets, nf)
    requires Distinct(current0) && Distinct(facets)
    requires forall o :: o in current0 ==> o !in facets
    requires Unlinked(current0) && forall m :: 0 <= m < |facets| ==> facets[m].children == map[]
    ensures FieldsMatch(current0 + facets, lf + nf)
    ensures Distinct(current0 + facets) && Unlinked(current0 + facets)
  {
    FieldsMatchAppend(current0, lf, facets, nf);
    DistinctAppend(current0, facets);
    UnlinkedAppend(current0, facets);
  }

  /**
   * The loop over the nodes of level i: generates each node's facets, attaches them to every
   * parent under `{name}_{k}` and binds its values in the parameter table.
   */
  method CompileLevel(parents: seq<FacetObj>, level: seq<Query>, i: nat, params0: map<string, string>)
    returns (current: seq<FacetObj>, params: map<string, string>)
    requires Distinct(parents) && Unlinked(parents)
    modifies set p | p in parents
    ensures params == PutAll(params0, LevelBindings(level, i))
    ensures FieldsMatch(current, LevelFacets(level, i))
    ensures forall o :: o in current ==> fresh(o)
    ensures Unlinked(current) && Distinct(current)
    ensures ChildrenAre(parents, LevelFacets(level, i), current)
  {
    current := [];
    params := params0;
    ghost var lf: seq<(string, map<string, Json>)> := [];
    for j := 0 to |level|
      invariant lf == LevelFacets(level[..j], i)
      invariant params == PutAll(params0, LevelBindings(level[..j], i))
      invariant FieldsMatch(current, lf) && Unlinked(current) && Distinct(current)
      invariant forall o :: o in current ==> fresh(o)
      invariant ChildrenAre(parents, lf, current)
    {
      LevelStep(level, i, j);
      var node := level[j];
      var name := ChooseName(node, i, j);
      ghost var facets;
      current, facets := CompileNode(parents, node, i, j, name, current, lf);
      params := BindNode(params, level, i, j, name, params0);
      lf := lf + NodeFacets(node, i, j);
    }
    assert level[..|level|] == level;
  }

  // ---------------------------------------------------------------- transformRequest

  /**
   * The facets built for the first |ils| levels: `tiers[0]` is the root and `tiers[t + 1]` holds
   * the facets generated for level t, in order, with their definitions.
   */
  ghost predicate TierFields(ils: seq<IndexedLevel>, tiers: seq<seq<FacetObj>>) {
    && |tiers| == |ils| + 1
    && (forall t :: 0 <= t < |ils| ==> FieldsMatch(tiers[t + 1], LevelFacets(ils[t].1, ils[t].0)))
  }

  ghost predicate TiersIn(tiers: seq<seq<FacetObj>>, S: set<FacetObj>) {
    forall t, o :: 0 <= t < |tiers| && o in tiers[t] ==> o in S
  }

  /**
   * The links between the tiers: every object of tier t holds the keyed facets of tier t + 1,
   * and the last tier has no sub-facets yet.
   */
  ghost predicate TierLinks(ils: seq<IndexedLevel>, tiers: seq<seq<FacetObj>>, S: set<FacetObj>)
    requires TierFields(ils, tiers)
    reads S
  {
    && (forall t, o :: 0 <= t < |ils| && o in tiers[t] && o in S ==>
          o.children == PutAll(map[], Rekey(LevelFacets(ils[t].1, ils[t].0), tiers[t + 1])))
    && (forall o :: o in tiers[|ils|] && o in S ==> o.children == map[])
  }

  /** The heap after the first |ils| levels of `transformRequest`. */
  ghost predicate Tiered(ils: seq<IndexedLevel>, tiers: seq<seq<FacetObj>>, S: set<FacetObj>)
    reads S
  {
    TierFields(ils, tiers) && TiersIn(tiers, S) && TierLinks(ils, tiers, S)
  }

  lemma TierFieldsStep(ils: seq<IndexedLevel>, tiers: seq<seq<FacetObj>>, i: nat, level: seq<Query>, current: seq<FacetObj>)
    requires TierFields(ils, tiers) && FieldsMatch(current, LevelFacets(level, i))
    ensures TierFields(ils + [(i, level)], tiers + [current])
  {
    var ils': seq<IndexedLevel>, tiers': seq<seq<FacetObj>> := ils + [(i, level)], tiers + [current];
    forall t | 0 <= t < |ils'|
      ensures FieldsMatch(tiers'[t + 1], LevelFacets(ils'[t].1, ils'[t].0))
    {
      if t < |ils| {
        assert ils'[t] == ils[t] && tiers'[t + 1] == tiers[t + 1];
      }
    }
  }

  /** Compiling one more level links the previous last tier to the new one. */
  lemma TierLinksStep(ils: seq<IndexedLevel>, tiers: seq<seq<FacetObj>>, S: set<FacetObj>,
                      i: nat, level: seq<Query>, current: seq<FacetObj>)
    requires TierFields(ils, tiers) && TiersIn(tiers, S) && FieldsMatch(current, LevelFacets(level, i))
    requires forall t, o :: 0 <= t < |ils| && o in tiers[t] && o in S ==>
      o.children == PutAll(map[], Rekey(LevelFacets(ils[t].1, ils[t].0), tiers[t + 1]))
    requires Unlinked(current)
    requires ChildrenAre(tiers[|ils|], LevelFacets(level, i), current)
    ensures TierFields(ils + [(i, level)], tiers + [current])
    ensures TierLinks(ils + [(i, level)], tiers + [current], S + set o | o in current)
  {
    TierFieldsStep(ils, tiers, i, level, current);
    LinksExtend(ils, tiers, S, i, level, current);
    LastTierUnlinked(current);
  }

  lemma LinksExtend(ils: seq<IndexedLevel>, tiers: seq<seq<FacetObj>>, S: set<FacetObj>,
                    i: nat, level: seq<Query>, current: seq<FacetObj>)
    requires TierFields(ils, tiers) && TiersIn(tiers, S) && FieldsMatch(current, LevelFacets(level, i))
    requires forall t, o :: 0 <= t < |ils| && o in tiers[t] && o in S ==>
      o.children == PutAll(map[], Rekey(LevelFacets(ils[t].1, ils[t].0), tiers[t + 1]))
    requires ChildrenAre(tiers[|ils|], LevelFacets(level, i), current)
    ensures var ils', tiers' := ils + [(i, level)], tiers + [current];
      forall t, o :: 0 <= t < |ils'| && o in tiers'[t] ==>
        o.children == PutAll(map[], Rekey(LevelFacets(ils'[t].1, ils'[t].0), tiers'[t + 1]))
  {
    var ils': seq<IndexedLevel>, tiers': seq<seq<FacetObj>> := ils + [(i, level)], tiers + [current];
    forall t, o | 0 <= t < |ils'| && o in tiers'[t]
      ensures o.children == PutAll(map[], Rekey(LevelFacets(ils'[t].1, ils'[t].0), tiers'[t + 1]))
    {
      if t < |ils| {
        assert ils'[t] == ils[t] && tiers'[t] == tiers[t] && tiers'[t + 1] == tiers[t + 1];
        assert o in S;
      } else {
        assert ils'[t] == (i, level) && tiers'[t] == tiers[|ils|] && tiers'[t + 1] == current;
      }
    }
  }

  lemma LastTierUnlinked(current: seq<FacetObj>)
    requires Unlinked(current)
    ensures forall o :: o in current ==> o.children == map[]
  {
    forall o | o in current
      ensures o.children == map[]
    {
      var m :| 0 <= m < |current| && current[m] == o;
    }
  }

  lemma IndexedPrefix(levels: seq<seq<Query>>, i: nat)
    requires i < |levels|
    ensures Indexed(levels)[..i + 1] == Indexed(levels)[..i] + [(i, levels[i])]
  {
    assert Indexed(levels)[..i + 1][..i] == Indexed(levels)[..i];
  }

  /** The heap state `transformRequest` keeps between levels, after the first i of them. */
  ghost predicate Built(ils: seq<IndexedLevel>, tiers: seq<seq<FacetObj>>, S: set<FacetObj>,
                        parentNodes: seq<FacetObj>)
    reads S, parentNodes
  {
    && Tiered(ils, tiers, S)
    && parentNodes == tiers[|ils|]
    && Distinct(parentNodes) && Unlinked(parentNodes)
    && (forall t, o :: 0 <= t < |ils| && o in tiers[t] ==> o !in parentNodes)
  }

  /**
   * One iteration of the loop over the levels: compiles `level`, the level at position i, below
   * `parentNodes`, the facets of the levels `ils` compiled before it.
   */
  method CompileTier(ghost ils: seq<IndexedLevel>, i: nat, level: seq<Query>, parentNodes: seq<FacetObj>,
                     params0: map<string, string>, ghost tiers0: seq<seq<FacetObj>>, ghost S0: set<FacetObj>)
    returns (current: seq<FacetObj>, params: map<string, string>, ghost tiers: seq<seq<FacetObj>>, ghost S: set<FacetObj>)
    requires Built(ils, tiers0, S0, parentNodes)
    requires params0 == PutAll(RootParams(), AllBindings(ils))
    modifies set p | p in parentNodes
    ensures Built(ils + [(i, level)], tiers, S, current)
    ensures params == PutAll(RootParams(), AllBindings(ils + [(i, level)]))
    ensures tiers[..|ils| + 1] == tiers0 && S == S0 + set o | o in current
    ensures forall o :: o in current ==> fresh(o)
  {
    current, params := CompileLevel(parentNodes, level, i, params0);
    assert (ils + [(i, level)])[..|ils|] == ils;
    PutAllAppend(RootParams(), AllBindings(ils), LevelBindings(level, i));
    TierLinksStep(ils, tiers0, S0, i, level, current);
    tiers := tiers0 + [current];
    S := S0 + set o | o in current;
    assert tiers[..|ils| + 1] == tiers0;
    forall t, o | 0 <= t < |ils| + 1 && o in tiers[t]
      ensures o !in current
    {
      assert o in tiers0[t] && o in S0;
    }
  }

  /**
   * `transformRequest`. Returns the root facet map and the parameter table; the ghost `tiers`
   * and `repr` expose what the loop builds: level by level, the facets generated for that level,
   * all attached to every facet of the level before.
   */
  method TransformRequest(levels: seq<seq<Query>>)
    returns (root: FacetObj, params: map<string, string>, ghost tiers: seq<seq<FacetObj>>, ghost repr: set<FacetObj>)
    ensures fresh(root) && root.fields == map["limit" := JNum(0.0)]
    ensures params == Params(Indexed(levels))
    ensures Tiered(Indexed(levels), tiers, repr) && tiers[0] == [root]
    ensures Unfold(root.children, repr, |levels|) == Expand(Indexed(levels))
  {
    root := new FacetObj(map["limit" := JNum(0.0)]);
    params := RootParams();
    var parentNodes := [root];
    tiers := [[root]];
    repr := {root};
    ghost var ils := Indexed(levels);
    for i := 0 to |levels|
      invariant Built(ils[..i], tiers, repr, parentNodes) && tiers[0] == [root]
      invariant params == PutAll(RootParams(), AllBindings(ils[..i]))
      invariant forall o :: o in repr ==> fresh(o)
      invariant forall o :: o in parentNodes ==> fresh(o)
    {
      IndexedPrefix(levels, i);
      var current;
      current, params, tiers, repr := CompileTier(ils[..i], i, levels[i], parentNodes, params, tiers, repr);
      assert tiers[0] == tiers[..i + 1][0];
      parentNodes := current;
    }
    assert ils[..|levels|] == ils;
    CompiledTree(ils, tiers, repr, root);
  }

  /** After the last level, the heap below the root is the expanded tree of all levels. */
  lemma CompiledTree(ils: seq<IndexedLevel>, tiers: seq<seq<FacetObj>>, S: set<FacetObj>, root: FacetObj)
    requires Tiered(ils, tiers, S) && tiers[0] == [root]
    ensures Unfold(root.children, S, |ils|) == Expand(ils)
  {
    TieredUnfold(ils, tiers, S, 0);
    assert root in tiers[0];
    assert ils[0..] == ils;
  }

  /** The values of a run of assignments come from the run, and carry its definitions. */
  lemma {:induction false} RekeyedMap(entries: seq<(string, map<string, Json>)>, objs: seq<FacetObj>)
    requires FieldsMatch(objs, entries)
    ensures PutAll(map[], Rekey(entries, objs)).Keys == PutAll(map[], entries).Keys
    ensures forall k :: k in PutAll(map[], Rekey(entries, objs)) ==>
      PutAll(map[], Rekey(entries, objs))[k] in objs &&
      PutAll(map[], Rekey(entries, objs))[k].fields == PutAll(map[], entries)[k]
    decreases |entries|
  {
    if |entries| > 0 {
      var n := |entries| - 1;
      assert Rekey(entries, objs)[..n] == Rekey(entries[..n], objs[..n]);
      RekeyedMap(entries[..n], objs[..n]);
    }
  }

  /** One tier read through its links: the keyed facets, each with the tree `below`. */
  lemma UnfoldTier(entries: seq<(string, map<string, Json>)>, objs: seq<FacetObj>, S: set<FacetObj>,
                   d: nat, below: map<string, Facet>)
    requires FieldsMatch(objs, entries)
    requires forall o :: o in objs ==> o in S && Unfold(o.children, S, d) == below
    ensures Unfold(PutAll(map[], Rekey(entries, objs)), S, d + 1)
         == map k | k in PutAll(map[], entries) :: Facet(PutAll(map[], entries)[k], below)
  {
    RekeyedMap(entries, objs);
  }

  /** Reading the tiers from tier t down gives the expansion of the levels from t on. */
  lemma {:induction false} TieredUnfold(ils: seq<IndexedLevel>, tiers: seq<seq<FacetObj>>, S: set<FacetObj>, t: nat)
    requires Tiered(ils, tiers, S)
    requires t <= |ils|
    ensures forall o :: o in tiers[t] ==> Unfold(o.children, S, |ils| - t) == Expand(ils[t..])
    decreases |ils| - t
  {
    if t < |ils| {
      TieredUnfold(ils, tiers, S, t + 1);
      var entries := LevelFacets(ils[t].1, ils[t].0);
      assert ils[t..][1..] == ils[t + 1..];
      UnfoldTier(entries, tiers[t + 1], S, |ils| - t - 1, Expand(ils[t + 1..]));
    } else {
      assert ils[t..] == [];
    }
  }
}
