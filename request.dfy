/**
 * The request compiler of internal/skg/solr/request.go, pure part: positional names, the facet
 * definitions generated for one query node, the parameter table, and the fully expanded facet
 * tree that a compiled request denotes. The imperative compiler that builds the tree on the heap
 * is in request_heap.dfy and is proved to produce exactly this tree.
 */
module SolrRequest {
  import opened Wrappers
  import opened Strings
  import opened Json
  import opened Maps
  import opened Seqs
  import opened Skg

  const RelatednessFormula := "relatedness($fore,$back)"

  // ---------------------------------------------------------------- names

  /** `defaultNodeName(i, j)`: "f{i}" for the first node of level i, "f{i}_{j}" for the others. */
  function DefaultNodeName(i: nat, j: nat): string {
    if j == 0 then "f" + NatToString(i) else "f" + NatToString(i) + "_" + NatToString(j)
  }

  /** The name a node is compiled under: its own, or the positional default when it has none. */
  function NodeName(q: Query, i: nat, j: nat): (r: string)
    ensures q.name != "" ==> r == q.name
    ensures q.name == "" ==> r == DefaultNodeName(i, j)
  {
    if q.name == "" then DefaultNodeName(i, j) else q.name
  }

  /** The facet key `{name}_{k}` under which the k-th facet of a node is attached. */
  function FacetKey(name: string, k: nat): string {
    name + "_" + NatToString(k)
  }

  /** The parameter `{name}_{k}_query` that binds the k-th value of a query node. */
  function ParamKey(name: string, k: nat): string {
    FacetKey(name, k) + "_query"
  }

  /** `getDefaultOperator`: the operator is never empty, and an explicit one is kept. */
  function DefaultOperator(op: string): (r: string)
    ensures r != ""
    ensures op != "" ==> r == op
    ensures op == "" ==> r == "AND"
  {
    if op == "" then "AND" else op
  }

  /** The edismax query of the k-th query facet; it reads its literal from `ParamKey(name, k)`. */
  function QueryString(op: string, field: string, name: string, k: nat): string {
    "{!edismax q.op=" + DefaultOperator(op) + " qf=" + field + " v=$" + ParamKey(name, k) + "}"
  }

  /** A string with no underscore splits uniquely at the first underscore of `a + "_" + b`. */
  lemma SplitAtUnderscore(a: string, b: string, a': string, b': string)
    requires '_' !in a && '_' !in a'
    ensures a + "_" + b == a' + "_" + b' ==> a == a' && b == b'
  {
    var s, s' := a + "_" + b, a' + "_" + b';
    if s == s' {
      assert s[|a|] == '_' && s'[|a'|] == '_';
      assert |a| == |a'|;
      assert a == s[..|a|] == s'[..|a'|] == a';
      assert b == s[|a| + 1..] == s'[|a'| + 1..] == b';
    }
  }

  lemma DigitsHaveNoUnderscore(n: nat)
    ensures '_' !in NatToString(n)
  {
    var s := NatToString(n);
    forall k | 0 <= k < |s| ensures s[k] != '_' {
      assert IsDigit(s[k]);
    }
  }

  /** "f" followed by digits has no underscore. */
  lemma PrefixedDigits(i: nat, i': nat)
    ensures '_' !in "f" + NatToString(i)
    ensures "f" + NatToString(i) == "f" + NatToString(i') ==> i == i'
  {
    DigitsHaveNoUnderscore(i);
    NatToStringInjective(i, i');
    assert ("f" + NatToString(i))[1..] == NatToString(i);
    assert ("f" + NatToString(i'))[1..] == NatToString(i');
  }

  /** Positional default names are pairwise distinct. */
  lemma DefaultNodeNamesDistinct(i: nat, j: nat, i': nat, j': nat)
    requires (i, j) != (i', j')
    ensures DefaultNodeName(i, j) != DefaultNodeName(i', j')
  {
    var a, a' := "f" + NatToString(i), "f" + NatToString(i');
    PrefixedDigits(i, i');
    PrefixedDigits(i', i);
    NatToStringInjective(j, j');
    if j != 0 && j' != 0 {
      SplitAtUnderscore(a, NatToString(j), a', NatToString(j'));
    } else if j != 0 {
      assert (a + "_" + NatToString(j))[|a|] == '_';
    } else if j' != 0 {
      assert (a' + "_" + NatToString(j'))[|a'|] == '_';
    }
  }

  /** A facet key ends in a digit, so it never clashes with the nested "relatedness" facet. */
  lemma FacetKeyIsNotRelatedness(name: string, k: nat)
    ensures FacetKey(name, k) != "relatedness"
  {
    var d := NatToString(k);
    var key := FacetKey(name, k);
    assert key[|key| - 1] == d[|d| - 1];
    assert IsDigit(key[|key| - 1]);
  }

  // ---------------------------------------------------------------- facet definitions

  const SortByRelatedness: Json := JObj([("relatedness", JStr("desc"))])

  /** The nested `relatedness` function facet of `generateFacets`. */
  function RelatednessFacet(minPopularity: Option<int>): Json {
    var base := [("type", JStr("func")), ("func", JStr(RelatednessFormula))];
    JObj(if minPopularity.Some? then base + [("min_popularity", JNum(minPopularity.value as real))] else base)
  }

  /** The relatedness function facet carries `min_popularity` exactly when one is given. */
  lemma RelatednessFacetShape(minPopularity: Option<int>)
    ensures RelatednessFacet(minPopularity).JObj?
    ensures var ms := RelatednessFacet(minPopularity).members;
      && (HasKey(ms, "min_popularity") <==> minPopularity.Some?)
      && (minPopularity.Some? ==> ms[Find(ms, "min_popularity")].1 == JNum(minPopularity.value as real))
      && HasKey(ms, "type") && ms[Find(ms, "type")].1 == JStr("func")
      && HasKey(ms, "func") && ms[Find(ms, "func")].1 == JStr(RelatednessFormula)
  {
    var ms := RelatednessFacet(minPopularity).members;
    assert ms[0].0 == "type" && ms[1].0 == "func";
    assert minPopularity.Some? ==> ms[2].0 == "min_popularity";
  }

  /** The `facet` member every generated facet starts with: only the relatedness function. */
  function NestedFacets(minPopularity: Option<int>): Json {
    JObj([("relatedness", RelatednessFacet(minPopularity))])
  }

  /** What every generated facet carries, terms or query. */
  ghost predicate CommonShape(f: map<string, Json>, q: Query) {
    && "sort" in f && f["sort"] == SortByRelatedness
    && "facet" in f && f["facet"] == NestedFacets(q.minPopularity)
    && ("field" in f <==> q.field != "")
    && (q.field != "" ==> f["field"] == JStr(q.field))
    && f.Keys <= {"type", "limit", "sort", "facet", "mincount", "field", "query"}
  }

  /** The single facet of a node without values. */
  ghost predicate TermsShape(f: map<string, Json>, q: Query) {
    && "type" in f && f["type"] == JStr("terms")
    && "limit" in f && f["limit"] == JNum((if q.limit.Some? then q.limit.value else 10) as real)
    && ("mincount" in f <==> q.minOccurrence.Some?)
    && (q.minOccurrence.Some? ==> f["mincount"] == JNum(q.minOccurrence.value as real))
    && "query" !in f
  }

  /** The k-th facet of a node with values. */
  ghost predicate QueryShape(f: map<string, Json>, name: string, q: Query, k: nat) {
    && "type" in f && f["type"] == JStr("query")
    && "mincount" !in f
    && ("limit" in f <==> q.limit.Some?)
    && (q.limit.Some? ==> f["limit"] == JNum(q.limit.value as real))
    && "query" in f && f["query"] == JStr(QueryString(q.defaultOperator, q.field, name, k))
  }

  /** The fields `generateFacets` puts into `baseFacet` before it branches on the values. */
  function BaseFacet(q: Query): map<string, Json> {
    var t := if |q.values| > 0 then "query" else "terms";
    var lim := if q.limit.Some? then q.limit.value else 10;
    var f := map["type" := JStr(t), "limit" := JNum(lim as real), "sort" := SortByRelatedness,
                 "facet" := NestedFacets(q.minPopularity)];
    var f := if q.minOccurrence.Some? then f["mincount" := JNum(q.minOccurrence.value as real)] else f;
    if q.field != "" then f["field" := JStr(q.field)] else f
  }

  lemma BaseFacetShape(q: Query)
    ensures CommonShape(BaseFacet(q), q) && "query" !in BaseFacet(q)
    ensures "type" in BaseFacet(q) && BaseFacet(q)["type"] == JStr(if |q.values| > 0 then "query" else "terms")
    ensures "limit" in BaseFacet(q)
    ensures BaseFacet(q)["limit"] == JNum((if q.limit.Some? then q.limit.value else 10) as real)
    ensures ("mincount" in BaseFacet(q) <==> q.minOccurrence.Some?)
    ensures q.minOccurrence.Some? ==> BaseFacet(q)["mincount"] == JNum(q.minOccurrence.value as real)
  {
  }

  /** The facet definitions `generateFacets` returns for a node compiled under `name`. */
  function FacetSpecs(name: string, q: Query): (r: seq<map<string, Json>>)
    ensures |r| == if |q.values| > 0 then |q.values| else 1
  {
    var base := BaseFacet(q);
    if |q.values| == 0 then [base]
    else
      var trimmed := base - {"mincount"} - (if q.limit.None? then {"limit"} else {});
      seq(|q.values|, k requires 0 <= k => trimmed["query" := JStr(QueryString(q.defaultOperator, q.field, name, k))])
  }

  /**
   * What the generated definitions are: one terms facet for a node without values, otherwise
   * one query facet per value, reading its literal from the k-th parameter.
   */
  lemma FacetSpecsShape(name: string, q: Query)
    ensures forall k :: 0 <= k < |FacetSpecs(name, q)| ==> CommonShape(FacetSpecs(name, q)[k], q)
    ensures |q.values| == 0 ==> TermsShape(FacetSpecs(name, q)[0], q)
    ensures |q.values| > 0 ==> forall k :: 0 <= k < |q.values| ==> QueryShape(FacetSpecs(name, q)[k], name, q, k)
  {
    BaseFacetShape(q);
  }

  // ---------------------------------------------------------------- levels

  /** A level together with the index its default names are derived from. */
  type IndexedLevel = (nat, seq<Query>)

  function Indexed(levels: seq<seq<Query>>): (r: seq<IndexedLevel>)
    ensures |r| == |levels|
    ensures forall i :: 0 <= i < |r| ==> r[i] == (i, levels[i])
  {
    seq(|levels|, i requires 0 <= i < |levels| => (i, levels[i]))
  }

  /** The keyed facet definitions of node j at level i, in attachment order. */
  function NodeFacets(q: Query, i: nat, j: nat): (r: seq<(string, map<string, Json>)>)
    ensures |r| == |FacetSpecs(NodeName(q, i, j), q)|
    ensures forall k :: 0 <= k < |r| ==>
      r[k] == (FacetKey(NodeName(q, i, j), k), FacetSpecs(NodeName(q, i, j), q)[k])
  {
    var name := NodeName(q, i, j);
    var specs := FacetSpecs(name, q);
    seq(|specs|, k requires 0 <= k < |specs| => (FacetKey(name, k), specs[k]))
  }

  /** The keyed facet definitions of all nodes of a level, node by node. */
  function LevelFacets(level: seq<Query>, i: nat): seq<(string, map<string, Json>)>
    decreases |level|
  {
    if |level| == 0 then []
    else LevelFacets(level[..|level| - 1], i) + NodeFacets(level[|level| - 1], i, |level| - 1)
  }

  /** The parameter bindings of one node: `{name}_{k}_query = values[k]`. */
  function NodeBindings(q: Query, i: nat, j: nat): (r: seq<(string, string)>)
    ensures |r| == |q.values|
    ensures forall k :: 0 <= k < |r| ==> r[k] == (ParamKey(NodeName(q, i, j), k), q.values[k])
  {
    var name := NodeName(q, i, j);
    seq(|q.values|, k requires 0 <= k < |q.values| => (ParamKey(name, k), q.values[k]))
  }

  function LevelBindings(level: seq<Query>, i: nat): seq<(string, string)>
    decreases |level|
  {
    if |level| == 0 then []
    else LevelBindings(level[..|level| - 1], i) + NodeBindings(level[|level| - 1], i, |level| - 1)
  }

  function AllBindings(ils: seq<IndexedLevel>): seq<(string, string)>
    decreases |ils|
  {
    if |ils| == 0 then []
    else AllBindings(ils[..|ils| - 1]) + LevelBindings(ils[|ils| - 1].1, ils[|ils| - 1].0)
  }

  // ---------------------------------------------------------------- the compiled request

  /** The four parameters of `generateRequestRoot`. */
  function RootParams(): map<string, string> {
    map["q" := "*:*", "fore" := "{!${defType} v=$q}", "back" := "*:*", "defType" := "edismax"]
  }

  /** The parameter table after every binding of every level has been written, in order. */
  function Params(ils: seq<IndexedLevel>): map<string, string> {
    PutAll(RootParams(), AllBindings(ils))
  }

  /**
   * A facet of the compiled request: its own fields, and the sub-facets attached to it (which
   * live in the same `facet` member as the nested relatedness function).
   */
  datatype Facet = Facet(fields: map<string, Json>, facet: map<string, Facet>)

  /**
   * The facet tree the levels denote: every facet of a level carries, as its own copy, the
   * whole tree of the levels below it. Keys written twice within a level keep the last facet.
   */
  function Expand(ils: seq<IndexedLevel>): map<string, Facet>
    decreases |ils|
  {
    if |ils| == 0 then map[]
    else
      var here := PutAll(map[], LevelFacets(ils[0].1, ils[0].0));
      var below := Expand(ils[1..]);
      map k | k in here :: Facet(here[k], below)
  }

  /** The body of the request: `limit` 0, the parameter table, and the facet tree. */
  datatype Request = Request(limit: int, params: map<string, string>, facet: map<string, Facet>)

  function Compile(levels: seq<seq<Query>>): Request {
    Request(0, Params(Indexed(levels)), Expand(Indexed(levels)))
  }

  // ---------------------------------------------------------------- properties of the request

  /** The parameter keys of the bindings: `{name}_{k}_query` ends in "_query". */
  ghost predicate EndsInQuery(key: string) {
    |key| >= 6 && key[|key| - 6..] == "_query"
  }

  /** The four root parameters survive every binding, since none of them ends in "_query". */
  lemma RootParamsKept(ils: seq<IndexedLevel>)
    ensures forall key :: key in RootParams() ==> key in Params(ils) && Params(ils)[key] == RootParams()[key]
  {
    var bs := AllBindings(ils);
    AllBindingsEndInQuery(ils);
    forall key | key in RootParams()
      ensures key in Params(ils) && Params(ils)[key] == RootParams()[key]
    {
      assert !EndsInQuery(key);
      PutAllUntouched(RootParams(), bs, key);
    }
  }

  lemma {:induction false} AllBindingsEndInQuery(ils: seq<IndexedLevel>)
    ensures forall b :: 0 <= b < |AllBindings(ils)| ==> EndsInQuery(AllBindings(ils)[b].0)
    decreases |ils|
  {
    if |ils| > 0 {
      var n := |ils| - 1;
      AllBindingsEndInQuery(ils[..n]);
      LevelBindingsEndInQuery(ils[n].1, ils[n].0);
    }
  }

  lemma {:induction false} LevelBindingsEndInQuery(level: seq<Query>, i: nat)
    ensures forall b :: 0 <= b < |LevelBindings(level, i)| ==> EndsInQuery(LevelBindings(level, i)[b].0)
    decreases |level|
  {
    if |level| > 0 {
      var n := |level| - 1;
      LevelBindingsEndInQuery(level[..n], i);
      var nb := NodeBindings(level[n], i, n);
      forall b | 0 <= b < |nb|
        ensures EndsInQuery(nb[b].0)
      {
        var pk := nb[b].0;
        assert pk == FacetKey(NodeName(level[n], i, n), b) + "_query";
        assert pk[|pk| - 6..] == "_query";
      }
    }
  }

  /** Node j of level i defines, as its k-th facet, `spec` under `key`. */
  ghost predicate Defines(level: seq<Query>, i: nat, j: int, k: int, key: string, spec: map<string, Json>) {
    && 0 <= j < |level|
    && 0 <= k < |FacetSpecs(NodeName(level[j], i, j), level[j])|
    && key == FacetKey(NodeName(level[j], i, j), k)
    && spec == FacetSpecs(NodeName(level[j], i, j), level[j])[k]
  }

  /** Every entry of a level is the keyed definition of some facet of one of its nodes. */
  lemma {:induction false} LevelFacetEntriesSound(level: seq<Query>, i: nat, m: nat)
    requires m < |LevelFacets(level, i)|
    ensures exists j, k :: Defines(level, i, j, k, LevelFacets(level, i)[m].0, LevelFacets(level, i)[m].1)
    decreases |level|
  {
    var n := |level| - 1;
    var init := level[..n];
    var lf: seq<(string, map<string, Json>)>, nf: seq<(string, map<string, Json>)> := LevelFacets(init, i), NodeFacets(level[n], i, n);
    assert LevelFacets(level, i) == lf + nf;
    var e := (lf + nf)[m];
    if m < |lf| {
      LevelFacetEntriesSound(init, i, m);
      assert lf[m] == e;
      var j, k :| Defines(init, i, j, k, e.0, e.1);
      assert init[j] == level[j];
      assert Defines(level, i, j, k, e.0, e.1);
    } else {
      assert nf[m - |lf|] == e;
      assert Defines(level, i, n, m - |lf|, e.0, e.1);
    }
  }

  /** The keyed facet definitions of each node of a level. */
  function NodeFacetBlocks(level: seq<Query>, i: nat): (r: seq<seq<(string, map<string, Json>)>>)
    ensures |r| == |level|
  {
    seq(|level|, j requires 0 <= j < |level| => NodeFacets(level[j], i, j))
  }

  lemma {:induction false} LevelFacetsFlat(level: seq<Query>, i: nat)
    ensures LevelFacets(level, i) == Flatten(NodeFacetBlocks(level, i))
    decreases |level|
  {
    if |level| > 0 {
      var n := |level| - 1;
      var bs := NodeFacetBlocks(level, i);
      LevelFacetsFlat(level[..n], i);
      assert bs[..n] == NodeFacetBlocks(level[..n], i);
    }
  }

  /** Every facet of every node of a level has its keyed entry in the level, at position m. */
  lemma LevelFacetEntriesComplete(level: seq<Query>, i: nat, j: nat, k: nat, key: string, spec: map<string, Json>)
    returns (m: nat)
    requires Defines(level, i, j, k, key, spec)
    ensures m < |LevelFacets(level, i)| && LevelFacets(level, i)[m] == (key, spec)
  {
    var bs := NodeFacetBlocks(level, i);
    LevelFacetsFlat(level, i);
    assert bs[j] == NodeFacets(level[j], i, j);
    m := FlattenAt(bs, j, k);
  }

  /** Facet keys built from default names are pairwise distinct, across levels too. */
  lemma DefaultFacetKeysDistinct(i: nat, j: nat, k: nat, i': nat, j': nat, k': nat)
    ensures FacetKey(DefaultNodeName(i, j), k) == FacetKey(DefaultNodeName(i', j'), k') ==> (i, j, k) == (i', j', k')
  {
    var a, a' := "f" + NatToString(i), "f" + NatToString(i');
    var kd, kd' := NatToString(k), NatToString(k');
    var jd, jd' := NatToString(j), NatToString(j');
    var rest := if j == 0 then kd else jd + "_" + kd;
    var rest' := if j' == 0 then kd' else jd' + "_" + kd';
    assert FacetKey(DefaultNodeName(i, j), k) == a + "_" + rest;
    assert FacetKey(DefaultNodeName(i', j'), k') == a' + "_" + rest';
    PrefixedDigits(i, i');
    PrefixedDigits(i', i);
    DigitsHaveNoUnderscore(k);
    DigitsHaveNoUnderscore(k');
    DigitsHaveNoUnderscore(j);
    DigitsHaveNoUnderscore(j');
    NatToStringInjective(k, k');
    NatToStringInjective(j, j');
    SplitAtUnderscore(a, rest, a', rest');
    if j != 0 && j' != 0 {
      SplitAtUnderscore(jd, kd, jd', kd');
    } else if j != 0 {
      assert rest[|jd|] == '_';
    } else if j' != 0 {
      assert rest'[|jd'|] == '_';
    }
  }

  /** Every node of the level asks for a positional name. */
  ghost predicate Unnamed(level: seq<Query>) {
    forall j :: 0 <= j < |level| ==> level[j].name == ""
  }

  /**
   * In a level of unnamed nodes no two facets share a key, so the k-th facet of node j is the
   * one attached under `f{i}_{j}`'s k-th key.
   */
  lemma DefaultLevelFacet(level: seq<Query>, i: nat, j: nat, k: nat)
    requires Unnamed(level) && j < |level|
    requires k < |FacetSpecs(DefaultNodeName(i, j), level[j])|
    ensures FacetKey(DefaultNodeName(i, j), k) in PutAll(map[], LevelFacets(level, i))
    ensures PutAll(map[], LevelFacets(level, i))[FacetKey(DefaultNodeName(i, j), k)]
         == FacetSpecs(DefaultNodeName(i, j), level[j])[k]
  {
    var key, spec := FacetKey(DefaultNodeName(i, j), k), FacetSpecs(DefaultNodeName(i, j), level[j])[k];
    var lf := LevelFacets(level, i);
    assert Defines(level, i, j, k, key, spec);
    var m := LevelFacetEntriesComplete(level, i, j, k, key, spec);
    forall m | 0 <= m < |lf| && lf[m].0 == key
      ensures lf[m].1 == spec
    {
      LevelFacetEntriesSound(level, i, m);
      var j', k' :| Defines(level, i, j', k', key, lf[m].1);
      DefaultFacetKeysDistinct(i, j, k, i, j', k');
    }
    PutAllAgreed(map[], lf, key, spec);
  }

  /** A level without nodes generates no facets: the levels after it are attached nowhere. */
  lemma {:induction false} EmptyLevelCutsOff(ils: seq<IndexedLevel>, t: nat)
    requires t < |ils| && ils[t].1 == []
    ensures Expand(ils) == Expand(ils[..t])
    decreases t
  {
    if t == 0 {
      assert LevelFacets(ils[0].1, ils[0].0) == [];
    } else {
      EmptyLevelCutsOff(ils[1..], t - 1);
      assert ils[1..][..t - 1] == ils[..t][1..];
    }
  }

  // ---------------------------------------------------------------- the parameter table

  /** Node j of the level binds its k-th value `v` under `key`. */
  ghost predicate LevelBinds(level: seq<Query>, i: nat, j: int, k: int, key: string, v: string) {
    && 0 <= j < |level| && 0 <= k < |level[j].values|
    && key == ParamKey(NodeName(level[j], i, j), k)
    && v == level[j].values[k]
  }

  /** Node j of level t binds its k-th value `v` under `key`. */
  ghost predicate Binds(ils: seq<IndexedLevel>, t: int, j: int, k: int, key: string, v: string) {
    0 <= t < |ils| && LevelBinds(ils[t].1, ils[t].0, j, k, key, v)
  }

  lemma {:induction false} LevelBindingsSound(level: seq<Query>, i: nat, m: nat)
    requires m < |LevelBindings(level, i)|
    ensures exists j, k :: LevelBinds(level, i, j, k, LevelBindings(level, i)[m].0, LevelBindings(level, i)[m].1)
    decreases |level|
  {
    var n := |level| - 1;
    var init := level[..n];
    var lb, nb := LevelBindings(init, i), NodeBindings(level[n], i, n);
    assert LevelBindings(level, i) == lb + nb;
    var e := (lb + nb)[m];
    if m < |lb| {
      LevelBindingsSound(init, i, m);
      assert lb[m] == e;
      var j, k :| LevelBinds(init, i, j, k, e.0, e.1);
      assert init[j] == level[j];
      assert LevelBinds(level, i, j, k, e.0, e.1);
    } else {
      assert nb[m - |lb|] == e;
      assert LevelBinds(level, i, n, m - |lb|, e.0, e.1);
    }
  }

  lemma {:induction false} LevelBindingsComplete(level: seq<Query>, i: nat, j: nat, k: nat, key: string, v: string)
    requires LevelBinds(level, i, j, k, key, v)
    ensures (key, v) in LevelBindings(level, i)
    decreases |level|
  {
    var n := |level| - 1;
    var init := level[..n];
    var nb := NodeBindings(level[n], i, n);
    assert LevelBindings(level, i) == LevelBindings(init, i) + nb;
    if j < n {
      assert init[j] == level[j];
      LevelBindingsComplete(init, i, j, k, key, v);
    } else {
      assert nb[k] == (key, v);
    }
  }

  /** Every binding written is that of some value of some node. */
  lemma {:induction false} AllBindingsSound(ils: seq<IndexedLevel>, m: nat)
    requires m < |AllBindings(ils)|
    ensures exists t, j, k :: Binds(ils, t, j, k, AllBindings(ils)[m].0, AllBindings(ils)[m].1)
    decreases |ils|
  {
    var n := |ils| - 1;
    var init := ils[..n];
    var ab, lb := AllBindings(init), LevelBindings(ils[n].1, ils[n].0);
    assert AllBindings(ils) == ab + lb;
    var e := (ab + lb)[m];
    if m < |ab| {
      AllBindingsSound(init, m);
      assert ab[m] == e;
      var t, j, k :| Binds(init, t, j, k, e.0, e.1);
      assert init[t] == ils[t];
      assert Binds(ils, t, j, k, e.0, e.1);
    } else {
      assert lb[m - |ab|] == e;
      LevelBindingsSound(ils[n].1, ils[n].0, m - |ab|);
      var j, k :| LevelBinds(ils[n].1, ils[n].0, j, k, e.0, e.1);
      assert Binds(ils, n, j, k, e.0, e.1);
    }
  }

  /** Every value of every node has its binding written. */
  lemma {:induction false} AllBindingsComplete(ils: seq<IndexedLevel>, t: nat, j: nat, k: nat, key: string, v: string)
    requires Binds(ils, t, j, k, key, v)
    ensures (key, v) in AllBindings(ils)
    decreases |ils|
  {
    var n := |ils| - 1;
    var init := ils[..n];
    assert AllBindings(ils) == AllBindings(init) + LevelBindings(ils[n].1, ils[n].0);
    if t < n {
      assert init[t] == ils[t];
      AllBindingsComplete(init, t, j, k, key, v);
    } else {
      LevelBindingsComplete(ils[n].1, ils[n].0, j, k, key, v);
    }
  }

  /**
   * The parameter table holds the root parameters and the binding of every value of every
   * query node, and nothing else.
   */
  lemma ParamsExactly(ils: seq<IndexedLevel>, key: string)
    ensures key in Params(ils) <==> key in RootParams() || exists t, j, k, v :: Binds(ils, t, j, k, key, v)
  {
    var bs := AllBindings(ils);
    PutAllKeys(RootParams(), bs, key);
    if m :| 0 <= m < |bs| && bs[m].0 == key {
      AllBindingsSound(ils, m);
    }
    if t, j, k, v :| Binds(ils, t, j, k, key, v) {
      AllBindingsComplete(ils, t, j, k, key, v);
    }
  }

  /** Parameter keys built from default names are pairwise distinct. */
  lemma DefaultParamKeysDistinct(i: nat, j: nat, k: nat, i': nat, j': nat, k': nat)
    ensures ParamKey(DefaultNodeName(i, j), k) == ParamKey(DefaultNodeName(i', j'), k') ==> (i, j, k) == (i', j', k')
  {
    var a, a' := FacetKey(DefaultNodeName(i, j), k), FacetKey(DefaultNodeName(i', j'), k');
    if a + "_query" == a' + "_query" {
      assert |a| == |a'|;
      assert a == (a + "_query")[..|a|];
      assert a' == (a' + "_query")[..|a'|];
      DefaultFacetKeysDistinct(i, j, k, i', j', k');
    }
  }

  /**
   * In a request whose nodes all take positional names, the k-th value of node j at level i is
   * bound under `f{i}_{j}`'s k-th parameter key, the one its query facet reads.
   */
  lemma ParamsBindEveryValue(levels: seq<seq<Query>>, i: nat, j: nat, k: nat)
    requires forall t :: 0 <= t < |levels| ==> Unnamed(levels[t])
    requires i < |levels| && j < |levels[i]| && k < |levels[i][j].values|
    ensures ParamKey(DefaultNodeName(i, j), k) in Compile(levels).params
    ensures Compile(levels).params[ParamKey(DefaultNodeName(i, j), k)] == levels[i][j].values[k]
  {
    var ils := Indexed(levels);
    var key, v := ParamKey(DefaultNodeName(i, j), k), levels[i][j].values[k];
    var bs := AllBindings(ils);
    assert Binds(ils, i, j, k, key, v);
    AllBindingsComplete(ils, i, j, k, key, v);
    forall m | 0 <= m < |bs| && bs[m].0 == key
      ensures bs[m].1 == v
    {
      AllBindingsSound(ils, m);
      var t, j', k' :| Binds(ils, t, j', k', key, bs[m].1);
      assert levels[t][j'].name == "";
      DefaultParamKeysDistinct(i, j, k, t, j', k');
    }
    PutAllAgreed(RootParams(), bs, key, v);
  }
}
