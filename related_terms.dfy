/**
 * The related-terms handlers' own logic: the fixed query levels they send, the flattening of
 * the traversal result into (term, relatedness) pairs, the noun selection that turns a
 * tokenized document into query values, and the final sort by relatedness.
 *
 * The result of a traversal is a Go map from names to traversals; it is taken here as the
 * sequence of its values in the order a `range` over it visits them.
 */
module RelatedTerms {
  import opened Wrappers
  import opened Skg
  import opened Sorting

  /** A term of the result with the relatedness of its node. */
  datatype RelatedTerm = RelatedTerm(term: string, relatedness: real)

  function Score(t: RelatedTerm): real {
    t.relatedness
  }

  // ---------------------------------------------------------------- the query levels

  /** `buildQueries`: the keyword as a query facet, then the terms co-occurring with it. */
  function BuildQueries(keyword: string): seq<seq<Query>> {
    [[Query("", [keyword], "text", None, None, None, "")],
     [Query("", [], "text", Some(2), Some(8), None, "")]]
  }

  /** The levels `CalcRelatedness` sends: the keyword, then one query facet per phrase. */
  function CalcQueries(keyword: string, phrases: seq<string>): seq<seq<Query>> {
    [[Query("", [keyword], "text", None, None, None, "")],
     [Query("", phrases, "text", None, None, None, "")]]
  }

  // ---------------------------------------------------------------- extractRelatedTerms

  /** One pair per node of a traversal, in order. */
  function ValueTerms(values: seq<Node>): (r: seq<RelatedTerm>)
    ensures |r| == |values|
    ensures forall k :: 0 <= k < |values| ==> r[k] == RelatedTerm(values[k].key, values[k].relatedness)
  {
    seq(|values|, k requires 0 <= k < |values| => RelatedTerm(values[k].key, values[k].relatedness))
  }

  /** The pairs of a list of traversals, traversal by traversal. */
  function TraversalTerms(ts: seq<Traversal>): seq<RelatedTerm>
    decreases |ts|
  {
    if |ts| == 0 then []
    else TraversalTerms(ts[..|ts| - 1]) + ValueTerms(ts[|ts| - 1].values)
  }

  /** The pairs of one result entry: those below its first node, none when it has no node. */
  function ItemTerms(item: Traversal): seq<RelatedTerm> {
    if |item.values| == 0 then [] else TraversalTerms(item.values[0].traversals)
  }

  /** The pairs of the whole result, entry by entry. */
  function TermsOf(result: seq<Traversal>): seq<RelatedTerm>
    decreases |result|
  {
    if |result| == 0 then []
    else TermsOf(result[..|result| - 1]) + ItemTerms(result[|result| - 1])
  }

  /** `extractRelatedTerms`: entries without nodes are skipped; the first node's traversals are flattened. */
  method ExtractRelatedTerms(result: seq<Traversal>) returns (relatedTerms: seq<RelatedTerm>)
    ensures relatedTerms == TermsOf(result)
  {
    relatedTerms := [];
    for i := 0 to |result|
      invariant relatedTerms == TermsOf(result[..i])
    {
      var item := result[i];
      assert result[..i + 1][..i] == result[..i];
      if |item.values| == 0 {
        continue;
      }
      relatedTerms := AppendTraversalTerms(relatedTerms, item.values[0].traversals);
    }
    assert result[..|result|] == result;
  }

  /** `extractRelatedTermsForCalc`: the same loops as `extractRelatedTerms`, so the same pairs. */
  method ExtractRelatedTermsForCalc(result: seq<Traversal>) returns (relatedTerms: seq<RelatedTerm>)
    ensures relatedTerms == TermsOf(result)
  {
    relatedTerms := [];
    for i := 0 to |result|
      invariant relatedTerms == TermsOf(result[..i])
    {
      var item := result[i];
      assert result[..i + 1][..i] == result[..i];
      if |item.values| == 0 {
        continue;
      }
      relatedTerms := AppendTraversalTerms(relatedTerms, item.values[0].traversals);
    }
    assert result[..|result|] == result;
  }

  /** The two inner loops of both extractors: every value of every traversal, appended in order. */
  method AppendTraversalTerms(terms0: seq<RelatedTerm>, traversals: seq<Traversal>) returns (terms: seq<RelatedTerm>)
    ensures terms == terms0 + TraversalTerms(traversals)
  {
    terms := terms0;
    for j := 0 to |traversals|
      invariant terms == terms0 + TraversalTerms(traversals[..j])
    {
      ghost var upTo := terms;
      var values := traversals[j].values;
      assert traversals[..j + 1][..j] == traversals[..j];
      assert TraversalTerms(traversals[..j + 1]) == TraversalTerms(traversals[..j]) + ValueTerms(values);
      for k := 0 to |values|
        invariant terms == upTo + ValueTerms(values)[..k]
      {
        assert ValueTerms(values)[..k + 1] == ValueTerms(values)[..k] + [ValueTerms(values)[k]];
        terms := terms + [RelatedTerm(values[k].key, values[k].relatedness)];
      }
      assert ValueTerms(values)[..|values|] == ValueTerms(values);
    }
    assert traversals[..|traversals|] == traversals;
  }

  // ---------------------------------------------------------------- token selection

  /**
   * A token of the morphological analyser: whether it is of the DUMMY class (the markers the
   * tokenizer adds around the text), its features (part of speech first, base form seventh),
   * and its surface form.
   */
  datatype Token = Token(dummy: bool, features: seq<string>, surface: string)

  /** The token is a noun, or carries no features at all. */
  predicate NounOrUnknown(t: Token) {
    |t.features| == 0 || t.features[0] == "名詞"
  }

  /** The base form of the token when the dictionary gives one. */
  predicate HasBaseForm(t: Token) {
    |t.features| > 6 && t.features[6] != "*"
  }

  /** The phrase a token contributes, if any. */
  function PhraseOf(t: Token): Option<string> {
    if t.dummy || !NounOrUnknown(t) then None
    else if HasBaseForm(t) then Some(t.features[6])
    else Some(t.surface)
  }

  /** The phrases of a token list, in token order. */
  function Phrases(tokens: seq<Token>): seq<string>
    decreases |tokens|
  {
    if |tokens| == 0 then []
    else
      var last := tokens[|tokens| - 1];
      Phrases(tokens[..|tokens| - 1]) + (if PhraseOf(last).Some? then [PhraseOf(last).value] else [])
  }

  /** The token-selection loop of `CalcRelatedness`. */
  method SelectPhrases(tokens: seq<Token>) returns (phrases: seq<string>)
    ensures phrases == Phrases(tokens)
  {
    phrases := [];
    for i := 0 to |tokens|
      invariant phrases == Phrases(tokens[..i])
    {
      assert tokens[..i + 1][..i] == tokens[..i];
      var token := tokens[i];
      if token.dummy {
        continue;
      }
      var features := token.features;
      if |features| > 0 && features[0] != "名詞" {
        continue;
      }
      if |features| > 6 && features[6] != "*" {
        phrases := phrases + [features[6]];
      } else {
        phrases := phrases + [token.surface];
      }
    }
    assert tokens[..|tokens|] == tokens;
  }

  // ---------------------------------------------------------------- the sorted response

  /** The response of `CalcRelatedness`: the extracted pairs, sorted in place by relatedness. */
  method CalcRelatednessResponse(result: seq<Traversal>) returns (response: seq<RelatedTerm>)
    ensures response == SortDesc(TermsOf(result), Score)
  {
    var terms := ExtractRelatedTermsForCalc(result);
    var a := new RelatedTerm[|terms|](k requires 0 <= k < |terms| => terms[k]);
    assert a[..] == terms;
    SortInPlace(a, Score);
    response := a[..];
  }
}

/** What the related-terms handlers promise of their queries, their term lists and their phrases. */
module RelatedTermsProperties {
  import opened Wrappers
  import opened Strings
  import opened Json
  import opened Maps
  import opened Skg
  import opened Sorting
  import opened Seqs
  import opened SolrRequest
  import opened RelatedTerms

  // ---------------------------------------------------------------- the query levels

  /** `buildQueries` binds the keyword, and nothing else, next to the root parameters. */
  lemma BuildQueriesParams(keyword: string)
    ensures Compile(BuildQueries(keyword)).params == RootParams()["f0_0_query" := keyword]
  {
    var ils := Indexed(BuildQueries(keyword));
    assert NatToString(0) == "0";
    assert ParamKey(DefaultNodeName(0, 0), 0) == "f0_0_query";
    assert LevelBindings(ils[1].1, 1) == [];
    assert LevelBindings(ils[0].1, 0) == [("f0_0_query", keyword)];
    assert AllBindings(ils[..1]) == [("f0_0_query", keyword)];
    assert AllBindings(ils) == [] + [("f0_0_query", keyword)];
    PutAllSnoc(RootParams(), [], "f0_0_query", keyword);
  }

  /** A first level of one node with at most one value is one facet holding the levels below. */
  lemma ExpandSingle(ils: seq<IndexedLevel>)
    requires |ils| > 0 && |ils[0].1| == 1 && |ils[0].1[0].values| <= 1
    ensures var q, i := ils[0].1[0], ils[0].0;
      Expand(ils) == map[FacetKey(NodeName(q, i, 0), 0) := Facet(FacetSpecs(NodeName(q, i, 0), q)[0], Expand(ils[1..]))]
  {
    var q, i := ils[0].1[0], ils[0].0;
    var key, spec := FacetKey(NodeName(q, i, 0), 0), FacetSpecs(NodeName(q, i, 0), q)[0];
    var nf := NodeFacets(q, i, 0);
    assert nf == [(key, spec)];
    assert ils[0].1[..0] == [];
    assert LevelFacets(ils[0].1, i) == [] + [(key, spec)];
    PutAllSnoc(map[], [], key, spec);
  }

  /**
   * `buildQueries` compiles to the facet of the keyword under `f0_0`, holding the terms facet
   * of the second level under `f1_0` and nothing below it.
   */
  lemma BuildQueriesTree(keyword: string)
    ensures var levels := BuildQueries(keyword);
      Compile(levels).facet
        == map["f0_0" := Facet(FacetSpecs("f0", levels[0][0])[0],
                               map["f1_0" := Facet(FacetSpecs("f1", levels[1][0])[0], map[])])]
  {
    var ils := Indexed(BuildQueries(keyword));
    assert NatToString(0) == "0";
    assert NatToString(1) == "1";
    assert DefaultNodeName(0, 0) == "f0" && DefaultNodeName(1, 0) == "f1";
    assert FacetKey("f0", 0) == "f0_0" && FacetKey("f1", 0) == "f1_0";
    ExpandSingle(ils);
    var below: seq<IndexedLevel> := ils[1..];
    ExpandSingle(below);
    assert |below[1..]| == 0;
  }

  /**
   * The two facets of `buildQueries`: an AND query facet on the text field reading `f0_0_query`,
   * and a terms facet on the text field of at most 8 terms seen at least twice.
   */
  lemma BuildQueriesFacets(keyword: string)
    ensures var q0 := BuildQueries(keyword)[0][0];
      var f0 := FacetSpecs("f0", q0)[0];
      && CommonShape(f0, q0) && QueryShape(f0, "f0", q0, 0)
      && f0["field"] == JStr("text") && f0["query"] == JStr(QueryString("AND", "text", "f0", 0))
    ensures var q1 := BuildQueries(keyword)[1][0];
      var f1 := FacetSpecs("f1", q1)[0];
      && CommonShape(f1, q1) && TermsShape(f1, q1)
      && f1["field"] == JStr("text") && f1["limit"] == JNum(8.0) && f1["mincount"] == JNum(2.0)
  {
    var q0, q1 := BuildQueries(keyword)[0][0], BuildQueries(keyword)[1][0];
    FacetSpecsShape("f0", q0);
    FacetSpecsShape("f1", q1);
    assert NatToString(0) == "0";
  }

  /**
   * The levels of `CalcRelatedness` bind the keyword to `f0_0_query` and the k-th phrase to
   * `f1_{k}_query`, where the k-th query facet of the second level reads it.
   */
  lemma CalcQueriesParams(keyword: string, phrases: seq<string>, k: nat)
    requires k < |phrases|
    ensures var ps := Compile(CalcQueries(keyword, phrases)).params;
      && ParamKey(DefaultNodeName(0, 0), 0) in ps && ps[ParamKey(DefaultNodeName(0, 0), 0)] == keyword
      && ParamKey(DefaultNodeName(1, 0), k) in ps && ps[ParamKey(DefaultNodeName(1, 0), k)] == phrases[k]
    ensures QueryShape(FacetSpecs(DefaultNodeName(1, 0), CalcQueries(keyword, phrases)[1][0])[k],
                       DefaultNodeName(1, 0), CalcQueries(keyword, phrases)[1][0], k)
  {
    var levels := CalcQueries(keyword, phrases);
    assert Unnamed(levels[0]) && Unnamed(levels[1]);
    ParamsBindEveryValue(levels, 0, 0, 0);
    ParamsBindEveryValue(levels, 1, 0, k);
    FacetSpecsShape(DefaultNodeName(1, 0), levels[1][0]);
  }

  /** With no phrases selected, the second level degrades to a terms facet of 10 terms. */
  lemma CalcQueriesWithoutPhrases(keyword: string)
    ensures var q := CalcQueries(keyword, [])[1][0];
      && |FacetSpecs(DefaultNodeName(1, 0), q)| == 1
      && TermsShape(FacetSpecs(DefaultNodeName(1, 0), q)[0], q)
      && FacetSpecs(DefaultNodeName(1, 0), q)[0]["limit"] == JNum(10.0)
      && "mincount" !in FacetSpecs(DefaultNodeName(1, 0), q)[0]
  {
    FacetSpecsShape(DefaultNodeName(1, 0), CalcQueries(keyword, [])[1][0]);
  }

  // ---------------------------------------------------------------- the term lists

  /** Value k of traversal j renders as `t`. */
  ghost predicate ValueTerm(ts: seq<Traversal>, j: int, k: int, t: RelatedTerm) {
    && 0 <= j < |ts| && 0 <= k < |ts[j].values|
    && t == RelatedTerm(ts[j].values[k].key, ts[j].values[k].relatedness)
  }

  lemma {:induction false} TraversalTermsExactly(ts: seq<Traversal>, t: RelatedTerm)
    ensures t in TraversalTerms(ts) <==> exists j, k :: ValueTerm(ts, j, k, t)
    decreases |ts|
  {
    if |ts| > 0 {
      var n := |ts| - 1;
      var init := ts[..n];
      var vt := ValueTerms(ts[n].values);
      TraversalTermsExactly(init, t);
      assert TraversalTerms(ts) == TraversalTerms(init) + vt;
      if t in TraversalTerms(ts) {
        if t in TraversalTerms(init) {
          var j, k :| ValueTerm(init, j, k, t);
          assert ValueTerm(ts, j, k, t);
        } else {
          var k :| 0 <= k < |vt| && vt[k] == t;
          assert ValueTerm(ts, n, k, t);
        }
      }
      if j, k :| ValueTerm(ts, j, k, t) {
        if j < n {
          assert ValueTerm(init, j, k, t);
        } else {
          assert vt[k] == t;
        }
      }
    }
  }

  /** The terms of each entry of the result. */
  function Blocks(result: seq<Traversal>): (r: seq<seq<RelatedTerm>>)
    ensures |r| == |result|
  {
    seq(|result|, i requires 0 <= i < |result| => ItemTerms(result[i]))
  }

  /** The extracted terms are the entries' terms laid end to end. */
  lemma {:induction false} TermsOfBlocks(result: seq<Traversal>)
    ensures TermsOf(result) == Flatten(Blocks(result))
    decreases |result|
  {
    if |result| > 0 {
      var n := |result| - 1;
      var bs := Blocks(result);
      TermsOfBlocks(result[..n]);
      assert bs[..n] == Blocks(result[..n]);
      assert bs[n] == ItemTerms(result[n]);
    }
  }

  /** Entry i has a first node, below which value k of traversal j renders as `t`. */
  ghost predicate ResultTerm(result: seq<Traversal>, i: int, j: int, k: int, t: RelatedTerm) {
    0 <= i < |result| && |result[i].values| > 0 && ValueTerm(result[i].values[0].traversals, j, k, t)
  }

  /**
   * The extracted terms are exactly the values of the traversals of each entry's first node:
   * entries without nodes, and the nodes after the first, contribute nothing.
   */
  lemma RelatedTermsExactly(result: seq<Traversal>, t: RelatedTerm)
    ensures t in TermsOf(result) <==> exists i, j, k :: ResultTerm(result, i, j, k, t)
  {
    TermsOfBlocks(result);
    FlattenMember(Blocks(result), t);
    if i :| 0 <= i < |result| && t in Blocks(result)[i] {
      TraversalTermsExactly(result[i].values[0].traversals, t);
      var j, k :| ValueTerm(result[i].values[0].traversals, j, k, t);
      assert ResultTerm(result, i, j, k, t);
    }
    if i, j, k :| ResultTerm(result, i, j, k, t) {
      TraversalTermsExactly(result[i].values[0].traversals, t);
      assert t in Blocks(result)[i];
    }
  }

  /** The term list of `CalcRelatedness` is sorted highest relatedness first and loses nothing. */
  lemma CalcResponseSorted(result: seq<Traversal>)
    ensures NonIncreasing(SortDesc(TermsOf(result), Score), Score)
    ensures multiset(SortDesc(TermsOf(result), Score)) == multiset(TermsOf(result))
  {
    SortDescSorted(TermsOf(result), Score);
    SortDescPermutes(TermsOf(result), Score);
  }

  // ---------------------------------------------------------------- the phrases

  /** Phrases come in token order. */
  lemma {:induction false} PhrasesAppend(a: seq<Token>, b: seq<Token>)
    ensures Phrases(a + b) == Phrases(a) + Phrases(b)
    decreases |b|
  {
    if |b| > 0 {
      var n := |b| - 1;
      PhrasesAppend(a, b[..n]);
      assert (a + b)[..|a + b| - 1] == a + b[..n];
    } else {
      assert a + b == a;
    }
  }

  /** The phrases are exactly those of the selected tokens. */
  lemma {:induction false} PhrasesExactly(tokens: seq<Token>, p: string)
    ensures p in Phrases(tokens) <==> exists i :: 0 <= i < |tokens| && PhraseOf(tokens[i]) == Some(p)
    decreases |tokens|
  {
    if |tokens| > 0 {
      var n := |tokens| - 1;
      PhrasesExactly(tokens[..n], p);
      if i :| 0 <= i < |tokens| && PhraseOf(tokens[i]) == Some(p) {
        if i < n {
          assert tokens[..n][i] == tokens[i];
        }
      }
    }
  }

  /** There is at most one phrase per token. */
  lemma {:induction false} PhrasesBound(tokens: seq<Token>)
    ensures |Phrases(tokens)| <= |tokens|
    decreases |tokens|
  {
    if |tokens| > 0 {
      PhrasesBound(tokens[..|tokens| - 1]);
    }
  }

  /**
   * The selection rule on single tokens: dummies and tokens of another part of speech give
   * nothing; a noun gives its base form, or its surface when the base form is "*" or missing;
   * a token without features gives its surface.
   */
  lemma SelectionExamples()
    ensures Phrases([Token(true, ["名詞", "一般", "*", "*", "*", "*", "猫", "ネコ", "ネコ"], "猫")]) == []
    ensures Phrases([Token(false, ["動詞", "自立", "*", "*", "五段", "基本形", "走る", "ハシル", "ハシル"], "走る")]) == []
    ensures Phrases([Token(false, ["名詞", "一般", "*", "*", "*", "*", "猫", "ネコ", "ネコ"], "猫")]) == ["猫"]
    ensures Phrases([Token(false, ["名詞", "一般", "*", "*", "*", "*", "*"], "スキグ")]) == ["スキグ"]
    ensures Phrases([Token(false, ["名詞", "一般"], "猫")]) == ["猫"]
    ensures Phrases([Token(false, [], "skg")]) == ["skg"]
  {
  }
}
