# skg: the Semantic Knowledge Graph compiler and decompiler, in Dafny

skg is a small Go service in front of Solr's Semantic Knowledge Graph (the JSON Facet API's
`relatedness($fore,$back)` function). At its core is a two-way compiler:

- **Request compiler** (`transformRequest`, `generateFacets`). It turns a multi-level query
  spec (`[][]Query`: levels of query nodes) into one nested JSON-facet request.
  - Every node becomes facets. A node with `Values` gets one `query` facet per value. A node
    without gets a single `terms` facet.
  - Facets are named by position: `f{i}` or `f{i}_{j}`, attached as `{name}_{k}`.
  - Every facet of level i is attached to every facet of level i − 1.
  - The literals of the query facets are written into a flat parameter table under
    `{name}_{k}_query`.
- **Response decompiler** (`transformResponseFacet`, `processBuckets`, `transformNode`,
  `extractRelatedness`, `removeSuffix`). It walks the decoded JSON response back into a tree of
  `Traversal`s and `Node`s.
  - It skips `count`, `relatedness` and `val`.
  - It groups sibling facets by stripping the `_{k}` suffix.
  - It reads a terms facet through its `buckets`, in order.
  - It reads a query facet as a single node.
  - A score is read only when `count > 0`.
- **Legacy copy** in the HTTP handler package. It has the same request compiler, behind a
  variadic `transformRequest` that skips arguments of other types. Its decompiler keys values
  by the rendered `val` (or by the parameter-table literal) and sorts each group by relatedness.
- **Related-terms handlers.** `buildQueries` is a fixed two-level spec. `extractRelatedTerms`
  and `extractRelatedTermsForCalc` flatten the result into `(term, relatedness)` pairs. The
  other pieces are the noun selection over tokenizer output and the final sort by relatedness.

## Files and modules

| file | modules and what they hold |
|---|---|
| `wrappers.dfy`, `strings.dfy`, `json.dfy`, `maps.dfy`, `seqs.dfy` | Generic vocabulary. Decoded JSON values, whose objects are association lists so that Go's map range order is an explicit input. `%d` and `%v` rendering. `PutAll`, the effect of a sequence of map stores, and `Put`/`Lookup` on association lists. Flattening of nested sequences. |
| `skg.dfy` (`Skg`) | `Query`, `Traversal`, `Node`. |
| `request.dfy` (`SolrRequest`) | The pure specification of the request: names, facet definitions, the parameter table, and the fully expanded facet tree `Expand`. |
| `request_heap.dfy` (`RequestCompiler`) | The compiler as Go runs it. Facet maps are heap objects (`FacetObj`), and the same object is attached to every parent. `TransformRequest` is proved to build, below its root, exactly the expanded tree in which every parent holds its own copy. |
| `response.dfy` (`SolrResponse`, `SolrResponseProperties`) | The decompiler as functions and the Go loops as methods proved equal to them. Then the grouping, ordering and scoring properties. |
| `legacy.dfy` (`LegacyHandler`, `LegacyHandlerProperties`, `LegacyDecompilerProperties`) | The handler package's copy. |
| `sorting.dfy` (`Sorting`) | `sort.Slice` by a score, highest first, as an in-place insertion sort on an array. Proved non-increasing and a permutation. |
| `related_terms.dfy` (`RelatedTerms`, `RelatedTermsProperties`) | `buildQueries`, the extractors, token selection and the final sort. |

## Model

| member | source | states |
|---|---|---|
| SolrRequest.NodeName | internal/skg/solr/request.go:23-25 | Definition: a node's own name is kept, an empty name becomes the positional default. What it guarantees is in `DefaultNodeNamesDistinct`. |
| SolrRequest.DefaultNodeNamesDistinct | internal/skg/solr/request.go:156-161 | Two different positions (i, j) never get the same default name ("f{i}" for the first node, "f{i}_{j}" for the others). |
| SolrRequest.DefaultOperator | internal/skg/solr/request.go:134-139 | Definition: the empty operator becomes "AND", any other is returned unchanged. The one added fact is that the result is never empty. |
| SolrRequest.DefaultFacetKeysDistinct | internal/skg/solr/request.go:36-39 | Facet keys `{name}_{k}` of default-named nodes coincide only for the same level, node and index, so no attachment overwrites another. |
| SolrRequest.DefaultParamKeysDistinct | internal/skg/solr/request.go:43-46 | Parameter keys `{name}_{k}_query` of default-named nodes coincide only for the same level, node and index. |
| SolrRequest.FacetKeyIsNotRelatedness | internal/skg/solr/request.go:36-39 | No facet key is "relatedness". Sub-facets attached into a facet's `facet` member therefore never replace its relatedness function. |
| SolrRequest.RelatednessFacetShape | internal/skg/solr/request.go:75-92 | The nested function facet has type "func" and function `relatedness($fore,$back)`. It carries `min_popularity` exactly when one is given, with that value. |
| SolrRequest.BaseFacetShape | internal/skg/solr/request.go:58-95 | `baseFacet` has type "query" when there are values and "terms" otherwise, and `limit` as given or 10. It has `mincount` exactly when `minOccurrence` is set, `field` exactly when the field is not empty, the relatedness sort and the nested facet. It has no `query`. |
| SolrRequest.FacetSpecs | internal/skg/solr/request.go:97-116 | `generateFacets` returns one definition per value, or exactly one when there are no values. |
| SolrRequest.FacetSpecsShape | internal/skg/solr/request.go:56-117 | Every definition sorts by relatedness, nests the relatedness function and has `field` exactly when it is set. With no values, the single facet is a terms facet with the limit (default 10) and `mincount` exactly when given. With n values, facet k is a query facet with no `mincount`, a `limit` only when one was given, and the edismax query that reads parameter `{name}_{k}_query`. |
| SolrRequest.Indexed | internal/skg/solr/request.go:19 | Definition: level i of the spec is compiled with index i. See `LegacyHandlerProperties.NoSkipIndexed`. |
| SolrRequest.NodeFacets | internal/skg/solr/request.go:26-39 | Definition: the k-th facet of a node is keyed `{name}_{k}` and holds the k-th definition of `generateFacets`. See `LevelFacetEntriesSound` and `LevelFacetEntriesComplete`. |
| SolrRequest.NodeBindings | internal/skg/solr/request.go:42-47 | Definition: a node writes one parameter per value, `{name}_{k}_query` to `values[k]`, in order. See `ParamsExactly` and `ParamsBindEveryValue`. |
| SolrRequest.LevelFacetsFlat | internal/skg/solr/request.go:26-27 | The facets of a level are the facets of its nodes, laid end to end in node order. |
| SolrRequest.LevelFacetEntriesSound | internal/skg/solr/request.go:22-40 | Every keyed facet of a level is facet k of some node j of the level, under that node's key. |
| SolrRequest.LevelFacetEntriesComplete | internal/skg/solr/request.go:22-40 | Every facet k of every node j of the level is among the level's keyed facets. |
| SolrRequest.DefaultLevelFacet | internal/skg/solr/request.go:22-40 | With default names, the facet map of a level holds facet k of node j under `{name}_{k}`. |
| SolrRequest.EmptyLevelCutsOff | internal/skg/solr/request.go:19-52 | A level with no nodes leaves no parents. Nothing of it or of any later level appears in the tree. |
| SolrRequest.RootParamsKept | internal/skg/solr/request.go:120-131 | The four root parameters `q`, `fore`, `back` and `defType` survive every binding with their values. |
| SolrRequest.LevelBindingsEndInQuery | internal/skg/solr/request.go:44 | Every key a level writes ends in "_query". |
| SolrRequest.AllBindingsEndInQuery | internal/skg/solr/request.go:44 | Every key any level writes ends in "_query". |
| SolrRequest.LevelBindingsSound | internal/skg/solr/request.go:42-47 | Every binding of a level is value k of some node j under `{name}_{k}_query`. |
| SolrRequest.LevelBindingsComplete | internal/skg/solr/request.go:42-47 | Every value of every node of a level is among the level's bindings. |
| SolrRequest.AllBindingsSound | internal/skg/solr/request.go:19-47 | Every binding written comes from value k of node j of some level. |
| SolrRequest.AllBindingsComplete | internal/skg/solr/request.go:19-47 | Every value of every node of every level is written. |
| SolrRequest.ParamsExactly | internal/skg/solr/request.go:42-47 | A key is in the parameter table exactly when it is a root parameter or the key of some value of some node. |
| SolrRequest.ParamsBindEveryValue | internal/skg/solr/request.go:42-47 | With default names, the compiled table binds `{name}_{k}_query` of node j at level i to that node's k-th value. |
| RequestCompiler.ChooseName | internal/skg/solr/request.go:23-25 | The name assigned in the node loop is the node's compiled name. |
| RequestCompiler.BuildNestedFacets | internal/skg/solr/request.go:75-92 | The nested `facet` member built is the nested relatedness function, with `min_popularity` when given. |
| RequestCompiler.BuildBaseFacet | internal/skg/solr/request.go:58-95 | The map built step by step is `baseFacet`. |
| RequestCompiler.QueryStringSpelled | internal/skg/solr/request.go:109 | The `Sprintf` format of the query is the edismax string that reads `{name}_{k}_query`. |
| RequestCompiler.CopyPerValue | internal/skg/solr/request.go:107-112 | The values loop makes one copy per value. Copy k holds the trimmed base facet plus the query of index k. |
| RequestCompiler.GenerateFacetFields | internal/skg/solr/request.go:97-116 | The deletions and copies of `generateFacets` produce exactly the definitions `FacetSpecs`. |
| RequestCompiler.GenerateFacets | internal/skg/solr/request.go:56-117 | `generateFacets` returns fresh, pairwise distinct facet maps. Each holds its definition and has no sub-facets. |
| RequestCompiler.Attach | internal/skg/solr/request.go:31-39 | One parent's `facet` member gains the node's facets under `{name}_{k}`. A later store of the same key wins. |
| RequestCompiler.AttachToAll | internal/skg/solr/request.go:30-40 | Every parent gains the same facet objects under the same keys. |
| RequestCompiler.AttachNode | internal/skg/solr/request.go:26-40 | After node j, every parent holds the keyed facets of nodes 0..j, and the new facets are fresh and unlinked. |
| RequestCompiler.BindValues | internal/skg/solr/request.go:42-47 | The values loop writes the node's bindings into the table, in order. |
| RequestCompiler.BindNode | internal/skg/solr/request.go:22-47 | After node j, the table holds the bindings of nodes 0..j of the level. |
| RequestCompiler.CompileNode | internal/skg/solr/request.go:26-40 | After node j, `currentFacets` is the facets of nodes 0..j in order, and every parent holds them keyed. |
| RequestCompiler.CompileLevel | internal/skg/solr/request.go:20-48 | After a level, `currentFacets` holds the definitions of all its facets in order, fresh and unlinked. Every parent holds all of them under their keys, and the table gains the level's bindings. |
| RequestCompiler.CompileTier | internal/skg/solr/request.go:19-51 | One level keeps the tiered heap invariant: tier t + 1 holds the facets of level t, linked from every object of tier t. The new parents are the level's facets (`parentNodes = currentFacets`). |
| RequestCompiler.TransformRequest | internal/skg/solr/request.go:12-53 | The root is `limit` 0 and the table is the root parameters plus every binding. Although one facet object is shared by all its parents, the tree reachable from the root is the fully expanded tree in which each parent holds its own copy of everything below. It has no precondition: every spec compiles. |
| RequestCompiler.TieredUnfold | internal/skg/solr/request.go:30-40 | Every object of tier t unfolds to the expanded tree of the levels from t on. |
| RequestCompiler.CompiledTree | internal/skg/solr/request.go:50 | After the last level, the root unfolds to the expanded tree of all levels. |
| SolrResponse.Get | internal/skg/solr/response.go:42 | A lookup in a decoded object finds a value exactly when the key is present, and that value is the key's. |
| SolrResponse.RemoveSuffixSpec | internal/skg/solr/response.go:133-138 | Without an underscore, the string is returned unchanged. Otherwise the result is the prefix before the last underscore, and the rest holds no underscore. |
| SolrResponse.RemoveSuffixOfFacetKey | internal/skg/solr/response.go:25 | Stripping a facet key `{name}_{k}` gives `name` back, so facets group under their node's name. |
| SolrResponse.RemoveSuffixExamples | internal/skg/solr/response_test.go:15-19 | "f0_0" becomes "f0", "f1_0" becomes "f1", "noSuffix" and "" are unchanged, and "multiple_underscore_test_1" becomes "multiple_underscore_test". |
| SolrResponse.ExtractRelatednessSpec | internal/skg/solr/response.go:100-129 | With a numeric `count` above 0 and a numeric score under `relatedness.relatedness`, the score is returned. Otherwise the result is 0. A non-zero result is always such a score. |
| SolrResponse.GroupIndex | internal/skg/solr/response.go:34-39 | It finds the first traversal of the given name, or says there is none. |
| SolrResponse.TransformResponseFacet | internal/skg/solr/response.go:12-53 | The loop over the members builds the traversal table `DecodeFacets`. |
| SolrResponse.ProcessBuckets | internal/skg/solr/response.go:56-72 | The bucket loop returns `DecodeBuckets`. |
| SolrResponse.TransformNode | internal/skg/solr/response.go:76-97 | `transformNode` returns `DecodeNode`. |
| SolrResponseProperties.VisitShape | internal/skg/solr/response.go:20-49 | A non-reserved object member updates the traversal of its group in place, or appends one when the group is new. Every other traversal is unchanged. `buckets` replace the group's values; a single node is appended to them. |
| SolrResponseProperties.VisitKeepsNamesDistinct | internal/skg/solr/response.go:34-49 | A visited member keeps the group names pairwise distinct. |
| SolrResponseProperties.GroupNamesDistinct | internal/skg/solr/response.go:18-50 | The table holds at most one traversal per group name. |
| SolrResponseProperties.VisitGroups | internal/skg/solr/response.go:20-49 | After a member, a group exists exactly when it existed or the member is a non-reserved object whose key strips to it. |
| SolrResponseProperties.GroupsExactly | internal/skg/solr/response.go:20-50 | A group exists exactly when some member is a non-reserved key with an object value that strips to its name. `count`, `relatedness`, `val` and non-objects produce nothing. |
| SolrResponseProperties.SkippedMember | internal/skg/solr/response.go:21-31 | A reserved key or a non-object value leaves the table as it was. |
| SolrResponseProperties.NoContributorNoValues | internal/skg/solr/response.go:34-39 | A group none of whose members has been visited has no values. |
| SolrResponseProperties.VisitOwnGroup | internal/skg/solr/response.go:42-49 | A member of its group replaces the group's values with its buckets, or appends its single node to them. |
| SolrResponseProperties.VisitOtherGroup | internal/skg/solr/response.go:20-49 | A member of another group, or a skipped member, leaves this group's traversal unchanged. |
| SolrResponseProperties.GroupValuesAgree | internal/skg/solr/response.go:18-50 | Every traversal holds exactly the values its own members accumulate, followed group by group. |
| SolrResponseProperties.BucketsReplace | internal/skg/solr/response.go:42-43 | When the last member of a group to be visited has `buckets`, the group's values are that bucket list alone. Earlier members are lost. |
| SolrResponseProperties.SinglesAppend | internal/skg/solr/response.go:44-46 | When no member of a group has `buckets`, the group's values are exactly its members' nodes, one each, in member order. |
| SolrResponseProperties.BucketsInOrder | internal/skg/solr/response.go:62-71 | The bucket nodes are the object buckets transformed in backend order, one each; non-objects are skipped. |
| SolrResponseProperties.ProcessBucketsSpec | internal/skg/solr/response.go:56-72 | A non-list gives no nodes. A list gives one node per object element, in input order, with nothing re-sorted. |
| SolrResponseProperties.TransformNodeSpec | internal/skg/solr/response.go:76-94 | The key is the rendered `val`, or "" without one, so a query-facet node's key is "". The score is `extractRelatedness`, and the traversals are the table of the same object. |
| SolrResponseProperties.ExtractRelatednessExamples | internal/skg/solr/response_test.go:36-63 | A valid score is returned, while a missing `count` or a zero `count` give 0. |
| SolrResponseProperties.ExtractRelatednessMalformed | internal/skg/solr/response_test.go:64-89 | No relatedness map, an empty map and a non-float score each give 0. |
| SolrResponseProperties.UncountedBucketScoresZero | internal/skg/solr/response_test.go:231-238 | The bucket "像" of the response fixture has no `count`, so the code gives it 0. |
| LegacyHandler.TransformRequest | internal/server/handler/skg.go:233-286 | Same as the Solr package's compiler, over the levels of the node and slice arguments, each at its argument position. The shared facets unfold to the expanded tree and the table holds every binding. |
| LegacyHandler.CompileArg | internal/server/handler/skg.go:240-283 | A `Node` is a level of one and a `[]Node` a level of its own. Any other argument is skipped and changes nothing. |
| LegacyHandler.Entries | internal/server/handler/skg.go:424-435 | Definition: one record per map entry, in range order, with its key, its value and that value's score. See `LegacyDecompilerProperties.SortByRelatednessSpec`. |
| LegacyHandler.SortedGroups | internal/server/handler/skg.go:389-395 | Every group keeps its name, and its values become the sorted records. |
| LegacyHandler.SortByRelatednessDesc | internal/server/handler/skg.go:417-447 | The records are copied into an array, sorted in place and copied out. The result is the insertion sort of the records by score. |
| LegacyHandler.TransformResponseFacet | internal/server/handler/skg.go:332-404 | The member loop then the sort loop build `FacetsOf`: the group table with its values sorted. |
| LegacyHandler.VisitMember | internal/server/handler/skg.go:340-386 | One turn of the member loop is `VisitOf`. |
| LegacyHandler.ProcessBuckets | internal/server/handler/skg.go:360-369 | The bucket loop builds the values map keyed by the rendered `val`. |
| LegacyHandler.TransformNode | internal/server/handler/skg.go:299-328 | The legacy `transformNode` returns `NodeOf`. |
| LegacyHandlerProperties.ArgLevelsSound | internal/server/handler/skg.go:240-251 | Every compiled level comes from a node or slice argument, at that argument's position. |
| LegacyHandlerProperties.ArgLevelsOrdered | internal/server/handler/skg.go:240 | The level positions increase strictly and stay below the argument count. |
| LegacyHandlerProperties.ArgLevelsComplete | internal/server/handler/skg.go:243-247 | Every node or slice argument is compiled as a level at its position. |
| LegacyHandlerProperties.NoSkipIndexed | internal/server/handler/skg.go:240-247 | Without skipped arguments, level i is argument i. |
| LegacyHandlerProperties.NoSkipIsCompile | internal/server/handler/skg.go:233-286 | Without skipped arguments, the legacy compiler gives the same parameter table and facet tree as the Solr package's. |
| LegacyHandlerProperties.SkippedArgumentKeepsPosition | internal/server/handler/skg.go:248-257 | A skipped first argument still advances the index: the unnamed node after it is level 1 and is named "f1". |
| LegacyDecompilerProperties.SortByRelatednessSpec | internal/server/handler/skg.go:417-447 | The sorted list holds the map's records, each as often as in the map. Each record carries its value's own score, and the scores never increase. |
| LegacyDecompilerProperties.BucketKeysDistinct | internal/server/handler/skg.go:361-369 | The bucket values have one entry per rendered `val`. |
| LegacyDecompilerProperties.BucketLastWins | internal/server/handler/skg.go:362-367 | Of the buckets with equal rendered `val`, the last one is kept. |
| LegacyDecompilerProperties.BucketKeysExactly | internal/server/handler/skg.go:361-369 | There is an entry for key k exactly when some object bucket renders its `val` as k. |
| LegacyDecompilerProperties.VisitGroup | internal/server/handler/skg.go:346-385 | After a non-reserved member its group exists. A non-object leaves the group's values, which are empty for a new group. A `buckets` list replaces them and other `buckets` leave them. An object without `buckets` stores its node under `params[fullName + "_query"]`, or "" when absent. |
| LegacyDecompilerProperties.VisitOtherGroups | internal/server/handler/skg.go:340-386 | A member leaves the existence and values of every other group unchanged. |
| LegacyDecompilerProperties.VisitAddsQueryNode | internal/server/handler/skg.go:371-384 | An object without `buckets` adds its node under its literal. Its siblings' entries in the same group are kept. |
| LegacyDecompilerProperties.RefillIsMap | internal/server/handler/skg.go:357-385 | A member's update leaves the group's values a map (no key twice). |
| LegacyDecompilerProperties.VisitKeepsMaps | internal/server/handler/skg.go:348-385 | One turn keeps the table a map of group names to values maps. |
| LegacyDecompilerProperties.GroupsAreMaps | internal/server/handler/skg.go:338-387 | The table has one traversal per group name, and each group's values are a map. |
| LegacyDecompilerProperties.GroupsExactly | internal/server/handler/skg.go:340-354 | A group exists exactly when some non-reserved key strips to its name, even if its value is not an object. |
| LegacyDecompilerProperties.NodeHasTraversals | internal/server/handler/skg.go:299-328 | `traversals` is present exactly when the object has a non-reserved key, and then it is the sorted table. The score is `extractRelatedness`'s. |
| LegacyDecompilerProperties.FacetsSorted | internal/server/handler/skg.go:389-395 | Every legacy traversal lists its values highest relatedness first. |
| Sorting.SortDescSorted | internal/server/handler/skg.go:437-439 | The sort by score is non-increasing in the score. |
| Sorting.SortDescPermutes | internal/server/handler/skg.go:437-439 | The sorted list is a permutation of the input. |
| Sorting.InsertAt | internal/server/handler/skg.go:437-439 | One in-place insertion step places `a[i]` into the sorted prefix and leaves the rest of the array alone. |
| Sorting.SortInPlace | internal/server/handler/related_terms.go:141-143 | The array ends as the sort of its old contents. |
| RelatedTerms.ValueTerms | internal/server/handler/related_terms.go:205-210 | Definition: one `(Key, Relatedness)` pair per value of a traversal, in order. See `RelatedTermsProperties.TraversalTermsExactly`. |
| RelatedTerms.AppendTraversalTerms | internal/server/handler/related_terms.go:204-211 | The two inner loops append the pairs of every value of every traversal, in order. |
| RelatedTerms.ExtractRelatedTerms | internal/server/handler/related_terms.go:194-215 | `extractRelatedTerms` returns `TermsOf` of the result. |
| RelatedTerms.ExtractRelatedTermsForCalc | internal/server/handler/related_terms.go:218-239 | `extractRelatedTermsForCalc` returns `TermsOf` too, so it equals `extractRelatedTerms` on every input. |
| RelatedTerms.SelectPhrases | internal/server/handler/related_terms.go:91-111 | The token loop returns `Phrases` of the tokens. |
| RelatedTerms.CalcRelatednessResponse | internal/server/handler/related_terms.go:138-143 | The response is the extracted pairs sorted in place by relatedness. |
| RelatedTermsProperties.BuildQueriesParams | internal/server/handler/related_terms.go:173-182 | `buildQueries` binds only the keyword, as `f0_0_query`, next to the root parameters. |
| RelatedTermsProperties.ExpandSingle | internal/skg/solr/request.go:22-40 | A first level of one node with at most one value compiles to one facet, which holds the tree of the levels below. |
| RelatedTermsProperties.BuildQueriesTree | internal/server/handler/related_terms.go:173-191 | `buildQueries` compiles to the facet `f0_0` holding `f1_0` and nothing else. |
| RelatedTermsProperties.BuildQueriesFacets | internal/server/handler/related_terms.go:173-191 | `f0_0` is a query facet on field "text" that reads `f0_0_query`. `f1_0` is a terms facet on "text" with limit 8 and mincount 2. |
| RelatedTermsProperties.CalcQueriesParams | internal/server/handler/related_terms.go:113-128 | `CalcRelatedness` binds the keyword to `f0_0_query` and phrase k to `f1_{k}_query`. Facet k of the second level is a query facet on that phrase. |
| RelatedTermsProperties.CalcQueriesWithoutPhrases | internal/server/handler/related_terms.go:113-128 | With no phrases, the second level is one terms facet on "text" with limit 10 and no mincount. |
| RelatedTermsProperties.TraversalTermsExactly | internal/server/handler/related_terms.go:204-211 | A pair is emitted for a list of traversals exactly when it is value k of some traversal j. |
| RelatedTermsProperties.TermsOfBlocks | internal/server/handler/related_terms.go:197-212 | The extracted pairs are the entries' pairs laid end to end, in entry order. |
| RelatedTermsProperties.RelatedTermsExactly | internal/server/handler/related_terms.go:194-215 | A pair is extracted exactly when some entry with values has, below its first node, value k of traversal j with that key and score. Entries without values contribute nothing. |
| RelatedTermsProperties.CalcResponseSorted | internal/server/handler/related_terms.go:138-143 | The final list is ordered by non-increasing relatedness and is a permutation of the extracted pairs. |
| RelatedTermsProperties.PhrasesAppend | internal/server/handler/related_terms.go:92-111 | Phrases come in token order. |
| RelatedTermsProperties.PhrasesExactly | internal/server/handler/related_terms.go:92-111 | A phrase is selected exactly when some token yields it. |
| RelatedTermsProperties.PhrasesBound | internal/server/handler/related_terms.go:92-111 | There is at most one phrase per token. |
| RelatedTermsProperties.SelectionExamples | internal/server/handler/related_terms.go:94-110 | DUMMY tokens and non-nouns are dropped. A noun with a base form gives the base form. A noun whose base form is "*", one with too few features, and a token without features give the surface. |

## Left out

- I/O: the HTTP POST to Solr, JSON encoding and decoding, the Echo handlers and request
  binding, logging. The result of `Traverse` is taken as the decoded JSON it would hand to
  `transformResponseFacet`. Its default collection "products" (internal/skg/solr/solr.go:28-30)
  is not modelled.
- The kagome tokenizer and its dictionary. A token is abstracted as (is DUMMY, features,
  surface).
- Go's map range order is nondeterministic, so the model takes it as an explicit order in
  three places:
  - the members of a decoded object, which are association lists;
  - the order of the traversal table, which is group-creation order;
  - the order of the values map of a legacy group.
  Every order-independent fact (which groups exist, which values they hold, sortedness,
  permutation) is proved for all orders.
- `sort.Slice` is not stable. The model sorts by stable insertion, which is one of the orders
  Go may produce. Sortedness and permutation are proved, and they hold of every admissible
  order.
- Floating point: scores and counts are `real`. They are only copied and compared, never
  computed, so IEEE behaviour does not matter. `limit`, `mincount` and `min_popularity` are
  stored as numbers.
- `%v` rendering of `val` is exact for strings, `<nil>`, booleans and integral numbers below
  10^6 in magnitude. Other values are rendered as "".
- Decoded objects may hold a key twice, which a Go map cannot. On such an input a lookup here
  finds the first member, whereas Go's JSON decoding keeps the last. Every property is proved
  for all association lists, so it also holds for the duplicate-free ones Go produces.
- nil and empty slices or maps are not distinguished. A Go nil `Traversals` is the empty
  sequence.
- `deepCopyMap` is the identity on immutable values. Its effect (no two query facets share a
  nested map) is captured by `GenerateFacets` returning distinct fresh objects.
- `requestToJSON` and `extract` (internal/server/handler/skg.go:96-109, 289-295). The first is a
  debugging aid. The second is dead code that appends to a slice passed by value.
- LegacyDecompilerProperties.SortByRelatednessSpec: it reads the score straight from the value
  node. The Go fallback to 0 for a missing or non-float score cannot arise there, since every
  value is a `transformNode` result with a float score.
- SolrRequest.ParamsBindEveryValue: it is stated for default-named nodes. With explicit names
  that collide, the last store of a key wins, as `ParamsExactly` and `AllBindings` describe.
- SolrRequest.DefaultLevelFacet: it is stated for default-named nodes, for the same reason.

## Notes on the code's behaviour

Behaviour of the code worth knowing:

- The parameter key of value k of a node is `{name}_{k}_query`.
- Every `[][]Query` compiles, including empty levels and empty names.
- `responseParams` is passed through the Solr decompiler but never read, so a query-facet
  node's key is "" (it has no `val`).
- One facet object is attached to all parents of a level, and later levels mutate it. The
  serialised tree is the expanded one nonetheless (`RequestCompiler.TransformRequest`).
- A `CalcRelatedness` call that selects no phrases sends a second level with no values. That
  compiles to a terms facet with limit 10 (`CalcQueriesWithoutPhrases`).
- The response fixture of the decompiler tests expects 0.79354 for the bucket "像". That bucket
  has no `count`, and the code returns 0 for it (`UncountedBucketScoresZero`).
