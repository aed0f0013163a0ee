/**
 * The response decompiler: a decoded Solr JSON-facet response walked back into the
 * `Traversal` / `Node` tree of the query that produced it.
 *
 * A facet object's members are visited in the order of its association list (one of the orders
 * Go's `range` may take). The map of traversals that `transformResponseFacet` fills is kept as
 * a sequence with one entry per group name, in the order the groups were first created; that
 * is the order `transformNode` copies them in.
 */
module SolrResponse {
  import opened Wrappers
  import opened Strings
  import opened Json
  import opened Skg
  import SolrRequest

  /** The members of a facet object that never become traversals. */
  predicate Reserved(key: string) {
    key == "count" || key == "relatedness" || key == "val"
  }

  /** `m[key]` on a decoded object, with its `ok` result. */
  function Get(ms: seq<(string, Json)>, key: string): (r: Option<Json>)
    ensures r.Some? <==> HasKey(ms, key)
    ensures r.Some? ==> (key, r.value) in ms
    ensures r.None? ==> forall m :: 0 <= m < |ms| ==> ms[m].0 != key
  {
    var idx := Find(ms, key);
    if idx < 0 then None else Some(ms[idx].1)
  }

  // ---------------------------------------------------------------- removeSuffix

  /** `removeSuffix`: the part of `s` before its last underscore, or all of `s` without one. */
  function RemoveSuffix(s: string): string {
    var idx := LastIndexOf(s, '_');
    if idx != -1 then s[..idx] else s
  }

  lemma RemoveSuffixSpec(s: string)
    ensures '_' !in s ==> RemoveSuffix(s) == s
    ensures '_' in s ==>
      var r := RemoveSuffix(s);
      && |r| < |s| && s[..|r|] == r && s[|r|] == '_'
      && forall k :: |r| < k < |s| ==> s[k] != '_'
  {
    var idx := LastIndexOf(s, '_');
    if '_' in s {
      var k :| 0 <= k < |s| && s[k] == '_';
      assert idx >= k;
    }
  }

  /** The facet keys `{name}_{k}` of the request compiler group back under the node name. */
  lemma RemoveSuffixOfFacetKey(name: string, k: nat)
    ensures RemoveSuffix(SolrRequest.FacetKey(name, k)) == name
  {
    var d := NatToString(k);
    var s := SolrRequest.FacetKey(name, k);
    assert s == name + "_" + d;
    assert s[|name|] == '_';
    var idx := LastIndexOf(s, '_');
    assert idx >= |name|;
    if idx > |name| {
      assert false;
    }
    assert s[..|name|] == name;
  }

  lemma RemoveSuffixExamples()
    ensures RemoveSuffix("f0_0") == "f0"
    ensures RemoveSuffix("f1_0") == "f1"
    ensures RemoveSuffix("noSuffix") == "noSuffix"
    ensures RemoveSuffix("multiple_underscore_test_1") == "multiple_underscore_test"
    ensures RemoveSuffix("") == ""
  {
    RemoveSuffixOfFacetKey("f0", 0);
    RemoveSuffixOfFacetKey("f1", 0);
    RemoveSuffixOfFacetKey("multiple_underscore_test", 1);
    assert SolrRequest.FacetKey("multiple_underscore_test", 1) == "multiple_underscore_test_1";
    assert '_' !in "noSuffix";
  }

  // ---------------------------------------------------------------- extractRelatedness

  /** `extractRelatedness`: the nested relatedness score, read only when `count` is above zero. */
  function ExtractRelatedness(node: seq<(string, Json)>): real {
    match Get(node, "count")
    case Some(JNum(count)) =>
      if count <= 0.0 then 0.0
      else (
        match Get(node, "relatedness")
        case Some(JObj(rel)) => (match Get(rel, "relatedness") case Some(JNum(r)) => r case _ => 0.0)
        case _ => 0.0)
    case _ => 0.0
  }

  /** The node carries a positive numeric `count` and the numeric score `r` under `relatedness`. */
  ghost predicate Scored(node: seq<(string, Json)>, r: real) {
    && (exists c :: ("count", JNum(c)) in node && c > 0.0 && Find(node, "count") >= 0
          && node[Find(node, "count")].1 == JNum(c))
    && (exists rel :: Get(node, "relatedness") == Some(JObj(rel)) && Get(rel, "relatedness") == Some(JNum(r)))
  }

  /** A scored node yields its score; every other node yields 0. */
  lemma ExtractRelatednessSpec(node: seq<(string, Json)>)
    ensures forall r :: Scored(node, r) ==> ExtractRelatedness(node) == r
    ensures (forall r :: !Scored(node, r)) ==> ExtractRelatedness(node) == 0.0
    ensures ExtractRelatedness(node) != 0.0 ==> Scored(node, ExtractRelatedness(node))
  {
    var g := Get(node, "count");
    if g.Some? && g.value.JNum? && g.value.num > 0.0 {
      var c := g.value.num;
      assert ("count", JNum(c)) in node && node[Find(node, "count")].1 == JNum(c);
      var gr := Get(node, "relatedness");
      if gr.Some? && gr.value.JObj? {
        var rel := gr.value.members;
        var v := Get(rel, "relatedness");
        if v.Some? && v.value.JNum? {
          assert Scored(node, v.value.num);
        }
      }
    }
  }

  // ---------------------------------------------------------------- the decompiled tree

  /** The key of `transformNode`: the `%v` rendering of `val`, or "" when there is none. */
  function KeyOf(node: seq<(string, Json)>): string {
    match Get(node, "val")
    case Some(v) => Stringify(v)
    case None => ""
  }

  /** The index of the traversal named `name` in the group table, or -1. */
  function GroupIndex(ts: seq<Traversal>, name: string): (r: int)
    ensures -1 <= r < |ts|
    ensures r >= 0 ==> ts[r].name == name && forall t :: 0 <= t < r ==> ts[t].name != name
    ensures r < 0 ==> forall t :: 0 <= t < |ts| ==> ts[t].name != name
    decreases |ts|
  {
    if |ts| == 0 then -1
    else if ts[0].name == name then 0
    else
      var r := GroupIndex(ts[1..], name);
      if r < 0 then -1 else r + 1
  }

  /** `transformNode` of a decoded facet object. */
  function DecodeNode(node: seq<(string, Json)>): Node
    decreases JObj(node), 2, 0
  {
    Node(KeyOf(node), ExtractRelatedness(node), DecodeFacets(node, |node|))
  }

  /** The traversal table of `transformResponseFacet` after its loop has visited the first `n` members. */
  function DecodeFacets(node: seq<(string, Json)>, n: nat): seq<Traversal>
    requires n <= |node|
    decreases JObj(node), 1, n
  {
    if n == 0 then []
    else
      assert node[n - 1] in node;
      Visit(DecodeFacets(node, n - 1), node[n - 1].0, node[n - 1].1)
  }

  /**
   * One turn of that loop: a reserved key or a non-object value is skipped; an object with
   * `buckets` replaces its group's values, one without appends a single node to them.
   */
  function Visit(ts: seq<Traversal>, fullName: string, data: Json): seq<Traversal>
    decreases data, 3, 0
  {
    if Reserved(fullName) || !data.JObj? then ts
    else
      var name := RemoveSuffix(fullName);
      var g := GroupIndex(ts, name);
      var values :=
        match Get(data.members, "buckets")
        case Some(b) => DecodeBuckets(b)
        case None => (if g >= 0 then ts[g].values else []) + [DecodeNode(data.members)];
      if g >= 0 then ts[g := Traversal(name, values)] else ts + [Traversal(name, values)]
  }

  /** `processBuckets`: one node per object in the bucket list; nothing for a non-list. */
  function DecodeBuckets(buckets: Json): seq<Node>
    decreases buckets, 1, 0
  {
    if buckets.JArr? then DecodeItems(buckets.items, |buckets.items|) else []
  }

  function DecodeItems(items: seq<Json>, n: nat): seq<Node>
    requires n <= |items|
    decreases JArr(items), 0, n
  {
    if n == 0 then []
    else
      assert items[n - 1] in items;
      DecodeItems(items, n - 1) + (if items[n - 1].JObj? then [DecodeNode(items[n - 1].members)] else [])
  }

  // ---------------------------------------------------------------- the Go loops

  /** `transformResponseFacet`, with the traversal map kept in group-creation order. */
  method TransformResponseFacet(node: seq<(string, Json)>) returns (traversals: seq<Traversal>)
    ensures traversals == DecodeFacets(node, |node|)
    decreases JObj(node), 1, |node|
  {
    traversals := [];
    for n := 0 to |node|
      invariant traversals == DecodeFacets(node, n)
    {
      var fullName, data := node[n].0, node[n].1;
      assert node[n] in node;
      if !Reserved(fullName) && data.JObj? {
        var name := RemoveSuffix(fullName);
        var g := GroupIndex(traversals, name);
        var traversal := if g >= 0 then traversals[g] else Traversal(name, []);
        var buckets := Get(data.members, "buckets");
        if buckets.Some? {
          var values := ProcessBuckets(buckets.value);
          traversal := traversal.(values := values);
        } else {
          var single := TransformNode(data.members);
          traversal := traversal.(values := traversal.values + [single]);
        }
        if g >= 0 {
          traversals := traversals[g := traversal];
        } else {
          traversals := traversals + [traversal];
        }
      }
    }
  }

  /** `processBuckets`: the bucket list transformed in its own order, non-objects skipped. */
  method ProcessBuckets(buckets: Json) returns (values: seq<Node>)
    ensures values == DecodeBuckets(buckets)
    decreases buckets, 1, 0
  {
    if !buckets.JArr? {
      return [];
    }
    var bucketList := buckets.items;
    values := [];
    for k := 0 to |bucketList|
      invariant values == DecodeItems(bucketList, k)
    {
      var b := bucketList[k];
      assert b in bucketList;
      if b.JObj? {
        var node := TransformNode(b.members);
        values := values + [node];
      }
    }
  }

  /** `transformNode`: key, relatedness, and the nested traversals copied out of the table. */
  method TransformNode(node: seq<(string, Json)>) returns (valueNode: Node)
    ensures valueNode == DecodeNode(node)
    decreases JObj(node), 2, 0
  {
    var keyStr := "";
    var val := Get(node, "val");
    if val.Some? {
      keyStr := Stringify(val.value);
    }
    var relatedness := ExtractRelatedness(node);
    var subTraversals := TransformResponseFacet(node);
    var traversals: seq<Traversal> := [];
    for k := 0 to |subTraversals|
      invariant traversals == subTraversals[..k]
    {
      traversals := traversals + [subTraversals[k]];
    }
    assert subTraversals[..|subTraversals|] == subTraversals;
    valueNode := Node(keyStr, relatedness, traversals);
  }
}

module SolrResponseProperties {
  import opened Wrappers
  import opened Json
  import opened Skg
  import opened SolrResponse

  /** Member m of `node` is one that `transformResponseFacet` files under group `name`. */
  ghost predicate Contributes(node: seq<(string, Json)>, m: int, name: string) {
    0 <= m < |node| && !Reserved(node[m].0) && node[m].1.JObj? && RemoveSuffix(node[m].0) == name
  }

  /** What one visited member does to the table: it updates or appends the traversal of its group. */
  lemma VisitShape(ts: seq<Traversal>, fullName: string, data: Json)
    requires !Reserved(fullName) && data.JObj?
    ensures var ts' := Visit(ts, fullName, data);
      var name := RemoveSuffix(fullName);
      var g := GroupIndex(ts, name);
      var at := if g >= 0 then g else |ts|;
      && |ts'| == (if g >= 0 then |ts| else |ts| + 1)
      && (forall t :: 0 <= t < |ts| && t != at ==> ts'[t] == ts[t])
      && ts'[at].name == name
      && ts'[at].values ==
        match Get(data.members, "buckets")
        case Some(b) => DecodeBuckets(b)
        case None => (if g >= 0 then ts[g].values else []) + [DecodeNode(data.members)]
  {
  }

  ghost predicate NamesDistinct(ts: seq<Traversal>) {
    forall a, b :: 0 <= a < b < |ts| ==> ts[a].name != ts[b].name
  }

  lemma VisitKeepsNamesDistinct(ts: seq<Traversal>, fullName: string, data: Json)
    requires NamesDistinct(ts)
    ensures NamesDistinct(Visit(ts, fullName, data))
  {
    if !Reserved(fullName) && data.JObj? {
      VisitShape(ts, fullName, data);
      var ts' := Visit(ts, fullName, data);
      var g := GroupIndex(ts, RemoveSuffix(fullName));
      var at := if g >= 0 then g else |ts|;
      forall a, b | 0 <= a < b < |ts'|
        ensures ts'[a].name != ts'[b].name
      {
        if a != at && b != at {
          assert ts'[a] == ts[a] && ts'[b] == ts[b];
        } else if a == at {
          assert ts'[b] == ts[b];
        } else {
          assert ts'[a] == ts[a];
        }
      }
    }
  }

  /** The table has one traversal per group name. */
  lemma {:induction false} GroupNamesDistinct(node: seq<(string, Json)>, n: nat)
    requires n <= |node|
    ensures NamesDistinct(DecodeFacets(node, n))
  {
    if n > 0 {
      GroupNamesDistinct(node, n - 1);
      VisitKeepsNamesDistinct(DecodeFacets(node, n - 1), node[n - 1].0, node[n - 1].1);
    }
  }

  /** One turn creates the group of the member it files, and only that one. */
  lemma VisitGroups(ts: seq<Traversal>, fullName: string, data: Json, name: string)
    ensures GroupIndex(Visit(ts, fullName, data), name) >= 0 <==>
      GroupIndex(ts, name) >= 0 || (!Reserved(fullName) && data.JObj? && RemoveSuffix(fullName) == name)
  {
    if !Reserved(fullName) && data.JObj? {
      VisitShape(ts, fullName, data);
      var ts' := Visit(ts, fullName, data);
      var g := GroupIndex(ts, name);
      var at := if GroupIndex(ts, RemoveSuffix(fullName)) >= 0 then GroupIndex(ts, RemoveSuffix(fullName)) else |ts|;
      if g >= 0 && g != at {
        assert ts'[g] == ts[g];
      }
      if GroupIndex(ts', name) >= 0 && RemoveSuffix(fullName) != name {
        var t := GroupIndex(ts', name);
        assert t != at && ts'[t] == ts[t];
      }
    }
  }

  /** Some of the first n members files itself under group `name`. */
  ghost predicate Contributed(node: seq<(string, Json)>, n: int, name: string) {
    exists m :: m < n && Contributes(node, m, name)
  }

  lemma ContributedStep(node: seq<(string, Json)>, n: int, name: string)
    ensures Contributed(node, n + 1, name) <==> Contributed(node, n, name) || Contributes(node, n, name)
  {
    if Contributed(node, n + 1, name) && !Contributes(node, n, name) {
      var m :| m < n + 1 && Contributes(node, m, name);
      assert m < n;
    }
  }

  /** A group exists exactly when some visited, non-reserved object member has its name. */
  lemma {:induction false} GroupsExactly(node: seq<(string, Json)>, n: nat, name: string)
    requires n <= |node|
    ensures GroupIndex(DecodeFacets(node, n), name) >= 0 <==> Contributed(node, n, name)
  {
    if n > 0 {
      GroupsExactly(node, n - 1, name);
      VisitGroups(DecodeFacets(node, n - 1), node[n - 1].0, node[n - 1].1, name);
      ContributedStep(node, n - 1, name);
    }
  }

  /** A reserved or non-object member leaves the table as it is. */
  lemma SkippedMember(node: seq<(string, Json)>, n: nat)
    requires 0 < n <= |node| && (Reserved(node[n - 1].0) || !node[n - 1].1.JObj?)
    ensures DecodeFacets(node, n) == DecodeFacets(node, n - 1)
  {
  }

  /**
   * The values of group `name` after the first n members, followed for that group alone: a
   * member with `buckets` sets them, any other member of the group adds one node.
   */
  ghost function GroupValues(node: seq<(string, Json)>, n: nat, name: string): seq<Node>
    requires n <= |node|
  {
    if n == 0 then []
    else if !Contributes(node, n - 1, name) then GroupValues(node, n - 1, name)
    else
      match Get(node[n - 1].1.members, "buckets")
      case Some(b) => DecodeBuckets(b)
      case None => GroupValues(node, n - 1, name) + [DecodeNode(node[n - 1].1.members)]
  }

  /** A group no visited member contributes to has accumulated nothing. */
  lemma {:induction false} NoContributorNoValues(node: seq<(string, Json)>, n: nat, name: string)
    requires n <= |node| && forall m :: m < n ==> !Contributes(node, m, name)
    ensures GroupValues(node, n, name) == []
  {
    if n > 0 {
      NoContributorNoValues(node, n - 1, name);
    }
  }

  /** Every traversal named `name` in the table holds `values`. */
  ghost predicate ValuesAre(ts: seq<Traversal>, name: string, values: seq<Node>) {
    forall t :: 0 <= t < |ts| && ts[t].name == name ==> ts[t].values == values
  }

  /** A member of group `name` replaces or extends the values `prior` it held before. */
  lemma VisitOwnGroup(ts: seq<Traversal>, fullName: string, data: Json, name: string, prior: seq<Node>)
    requires !Reserved(fullName) && data.JObj? && RemoveSuffix(fullName) == name && NamesDistinct(ts)
    requires ValuesAre(ts, name, prior)
    requires GroupIndex(ts, name) < 0 ==> prior == []
    ensures ValuesAre(Visit(ts, fullName, data), name,
                      match Get(data.members, "buckets")
                      case Some(b) => DecodeBuckets(b)
                      case None => prior + [DecodeNode(data.members)])
  {
    VisitShape(ts, fullName, data);
    VisitKeepsNamesDistinct(ts, fullName, data);
    var g := GroupIndex(ts, name);
    var at := if g >= 0 then g else |ts|;
    var ts' := Visit(ts, fullName, data);
    forall t | 0 <= t < |ts'| && ts'[t].name == name
      ensures t == at
    {
      if t != at {
        assert false;
      }
    }
  }

  /** A member of another group, or one that is skipped, leaves the traversal of `name` alone. */
  lemma VisitOtherGroup(ts: seq<Traversal>, fullName: string, data: Json, name: string)
    requires Reserved(fullName) || !data.JObj? || RemoveSuffix(fullName) != name
    ensures var ts' := Visit(ts, fullName, data);
      forall t :: 0 <= t < |ts'| && ts'[t].name == name ==> t < |ts| && ts'[t] == ts[t]
  {
    if !Reserved(fullName) && data.JObj? {
      VisitShape(ts, fullName, data);
    }
  }

  /** Every traversal of the table holds exactly the values its group accumulates. */
  lemma {:induction false} GroupValuesAgree(node: seq<(string, Json)>, n: nat, name: string)
    requires n <= |node|
    ensures ValuesAre(DecodeFacets(node, n), name, GroupValues(node, n, name))
  {
    if n > 0 {
      GroupValuesAgree(node, n - 1, name);
      var ts := DecodeFacets(node, n - 1);
      var fullName, data := node[n - 1].0, node[n - 1].1;
      if Contributes(node, n - 1, name) {
        GroupNamesDistinct(node, n - 1);
        if GroupIndex(ts, name) < 0 {
          GroupsExactly(node, n - 1, name);
          NoContributorNoValues(node, n - 1, name);
        }
        VisitOwnGroup(ts, fullName, data, name, GroupValues(node, n - 1, name));
      } else {
        VisitOtherGroup(ts, fullName, data, name);
      }
    }
  }

  /** The last `buckets` member of a group decides its values; later single members add to them. */
  lemma {:induction false} BucketsReplace(node: seq<(string, Json)>, n: nat, name: string, m: nat, b: Json)
    requires m < n <= |node| && Contributes(node, m, name)
    requires Get(node[m].1.members, "buckets") == Some(b)
    requires forall m' :: m < m' < n ==> !Contributes(node, m', name)
    ensures GroupValues(node, n, name) == DecodeBuckets(b)
  {
    if n - 1 > m {
      BucketsReplace(node, n - 1, name, m, b);
    }
  }

  /** The nodes of the members among the first n that file themselves under `name`, in member order. */
  ghost function Singles(node: seq<(string, Json)>, n: nat, name: string): seq<Node>
    requires n <= |node|
  {
    if n == 0 then []
    else Singles(node, n - 1, name) + (if Contributes(node, n - 1, name) then [DecodeNode(node[n - 1].1.members)] else [])
  }

  /**
   * In a group without any `buckets` member, the values are the nodes of its members, one each,
   * in member order.
   */
  lemma {:induction false} SinglesAppend(node: seq<(string, Json)>, n: nat, name: string)
    requires n <= |node|
    requires forall m :: m < n && Contributes(node, m, name) ==> Get(node[m].1.members, "buckets").None?
    ensures GroupValues(node, n, name) == Singles(node, n, name)
    ensures forall m :: m < n && Contributes(node, m, name) ==> DecodeNode(node[m].1.members) in GroupValues(node, n, name)
    ensures |GroupValues(node, n, name)| <= n
  {
    if n > 0 {
      SinglesAppend(node, n - 1, name);
    }
  }

  /** The object members of a bucket list, in list order. */
  function Objects(items: seq<Json>): (r: seq<seq<(string, Json)>>)
    ensures |r| <= |items|
    decreases |items|
  {
    if |items| == 0 then []
    else
      var last := items[|items| - 1];
      Objects(items[..|items| - 1]) + (if last.JObj? then [last.members] else [])
  }

  /** `processBuckets` keeps bucket order: node m is the transform of the m-th object bucket. */
  lemma {:induction false} BucketsInOrder(items: seq<Json>, n: nat)
    requires n <= |items|
    ensures |DecodeItems(items, n)| == |Objects(items[..n])|
    ensures forall m :: 0 <= m < |Objects(items[..n])| ==> DecodeItems(items, n)[m] == DecodeNode(Objects(items[..n])[m])
  {
    if n > 0 {
      BucketsInOrder(items, n - 1);
      assert items[..n][..n - 1] == items[..n - 1];
    }
  }

  /** `processBuckets` of a list is its object elements transformed in order; of anything else, nothing. */
  lemma ProcessBucketsSpec(buckets: Json)
    ensures !buckets.JArr? ==> DecodeBuckets(buckets) == []
    ensures buckets.JArr? ==>
      var objs := Objects(buckets.items);
      && |DecodeBuckets(buckets)| == |objs|
      && forall m :: 0 <= m < |objs| ==> DecodeBuckets(buckets)[m] == DecodeNode(objs[m])
  {
    if buckets.JArr? {
      BucketsInOrder(buckets.items, |buckets.items|);
      assert buckets.items[..|buckets.items|] == buckets.items;
    }
  }

  /**
   * `transformNode`: the key is the rendered `val`, so a query-facet object (which has none) gets
   * the empty key; the traversals are the table of the same object.
   */
  lemma TransformNodeSpec(node: seq<(string, Json)>)
    ensures !HasKey(node, "val") ==> DecodeNode(node).key == ""
    ensures HasKey(node, "val") ==> DecodeNode(node).key == Stringify(node[Find(node, "val")].1)
    ensures DecodeNode(node).relatedness == ExtractRelatedness(node)
    ensures DecodeNode(node).traversals == DecodeFacets(node, |node|)
  {
  }

  /** The cases of `TestExtractRelatedness` with a well-formed relatedness. */
  lemma ExtractRelatednessExamples()
    ensures ExtractRelatedness([("count", JNum(100.0)), ("relatedness", JObj([("relatedness", JNum(0.75))]))]) == 0.75
    ensures ExtractRelatedness([("relatedness", JObj([("relatedness", JNum(0.75))]))]) == 0.0
    ensures ExtractRelatedness([("count", JNum(0.0)), ("relatedness", JObj([("relatedness", JNum(0.75))]))]) == 0.0
  {
  }

  /** The cases of `TestExtractRelatedness` whose relatedness is missing or malformed. */
  lemma ExtractRelatednessMalformed()
    ensures ExtractRelatedness([("count", JNum(100.0))]) == 0.0
    ensures ExtractRelatedness([("count", JNum(100.0)), ("relatedness", JObj([]))]) == 0.0
    ensures ExtractRelatedness([("count", JNum(100.0)), ("relatedness", JObj([("relatedness", JStr("not a float"))]))]) == 0.0
  {
  }

  /**
   * A bucket without `count` scores 0 even when it carries a relatedness: the second bucket of
   * the response fixture, for which the fixture expects 0.79354.
   */
  lemma UncountedBucketScoresZero()
    ensures ExtractRelatedness([("val", JStr("像")), ("relatedness", JObj([("relatedness", JNum(0.79354)),
      ("foreground_popularity", JNum(0.01326)), ("background_popularity", JNum(0.02334))]))]) == 0.0
  {
  }
}
