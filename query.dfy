/**
  The two entry points that turn a user's question into a tagged outcome:
  `QueryEngine.query` for how-to questions and `CDPComparator.compare_cdps`
  for comparisons, and the dispatch of the chat endpoint between them.
 */
module Orchestration {
  import opened Wrappers
  import opened Text
  import opened Records
  import opened Classifier
  import opened Retrieval

  /** The result dictionaries, one alternative per value of their `type` key. */
  datatype Outcome =
    | NotHowTo(message: string)
    | NoResults(message: string)
    | Results(cdp: Option<string>, query: string, results: seq<ScoredChunk>)
    | ComparisonError(message: string)
    | Comparison(feature: string, cdps: seq<string>, data: map<string, seq<ScoredChunk>>)

  const NOT_HOW_TO_MESSAGE: string :=
    "I'm a CDP support agent. I can help answer how-to questions about Segment, mParticle, Lytics, and Zeotap. Please ask me questions like 'How do I set up a new source in Segment?' or 'How can I create a user profile in mParticle?'"

  /** The words both `no_results` messages start with. */
  const NO_RESULTS_LEAD: string := "I couldn't find specific information about "

  const NO_RESULTS_TAIL: string :=
    "that" + ". Could you specify which CDP (Segment, mParticle, Lytics, or Zeotap) you're asking about?"

  const NO_RESULTS_MESSAGE: string := NO_RESULTS_LEAD + NO_RESULTS_TAIL

  const NEED_TWO_CDPS_MESSAGE: string :=
    "I can compare different CDPs, but I need to know which ones you want to compare. Please mention at least two CDPs from Segment, mParticle, Lytics, and Zeotap."

  /** How many results `query` asks `search` for, and how many each comparison sub-search asks for. */
  const QUERY_TOP_K: nat := 3
  const COMPARISON_TOP_K: nat := 2

  /** `query.lower().replace('how do i', '').replace('how to', '').strip()`: what the question asks how to do. */
  function Topic(query: string): string {
    Strip(Replace(Replace(Lower(query), "how do i", ""), "how to", ""))
  }

  /** The `no_results` message: product-specific when a product was named. */
  function NoResultsMessage(query: string, cdp: Option<string>): string {
    if Truthy(cdp) then
      NO_RESULTS_LEAD + "how to " + Topic(query) + " in " + Capitalize(cdp.value) +
      ". Could you try rephrasing your question or ask about a different feature?"
    else NO_RESULTS_MESSAGE
  }

  /** The product-specific message is never the generic one: they part at "how to" versus "that". */
  lemma NoResultsMessageNamesProduct(query: string, cdp: Option<string>)
    ensures NoResultsMessage(query, cdp) == NO_RESULTS_MESSAGE <==> !Truthy(cdp)
  {
    if Truthy(cdp) {
      assert NoResultsMessage(query, cdp)[|NO_RESULTS_LEAD|] == 'h';
      assert NO_RESULTS_MESSAGE[|NO_RESULTS_LEAD|] == NO_RESULTS_TAIL[0] == "that"[0];
    }
  }

  /** What `QueryEngine.query` returns for `query` against the index `ix`. */
  function QueryOutcome(ix: Index, query: string): Outcome {
    if !IsHowToQuestion(query) then NotHowTo(NOT_HOW_TO_MESSAGE)
    else
      var cdp := ExtractCdpName(query);
      var results := SearchResults(ix, query, QUERY_TOP_K, cdp);
      if results == [] then NoResults(NoResultsMessage(query, cdp))
      else Results(cdp, query, results)
  }

  /** The routing of `query`, stated on its outcome. */
  lemma QueryRouting(ix: Index, query: string)
    ensures var o := QueryOutcome(ix, query);
      && (o.NotHowTo? || o.NoResults? || o.Results?)
      && (o.NotHowTo? <==> !IsHowToQuestion(query))
      && (o.NotHowTo? ==> o.message == NOT_HOW_TO_MESSAGE)
      && (o.NoResults? ==>
            && SearchResults(ix, query, QUERY_TOP_K, ExtractCdpName(query)) == []
            && (o.message == NO_RESULTS_MESSAGE <==> ExtractCdpName(query).None?))
      && (o.Results? ==>
            && IsHowToQuestion(query)
            && o.cdp == ExtractCdpName(query) && o.query == query
            && o.results == SearchResults(ix, query, QUERY_TOP_K, o.cdp)
            && o.results != [] && |o.results| <= QUERY_TOP_K
            && RelevantResults(ix, o.cdp, o.results))
  {
    if IsHowToQuestion(query) {
      var cdp := ExtractCdpName(query);
      var results := SearchResults(ix, query, QUERY_TOP_K, cdp);
      if results == [] {
        NoResultsRouting(query, cdp);
        assert QueryOutcome(ix, query) == NoResults(NoResultsMessage(query, cdp));
      } else {
        SearchResultsProperties(ix, query, QUERY_TOP_K, cdp);
        assert QueryOutcome(ix, query) == Results(cdp, query, results);
      }
    }
  }

  /** An extracted product is one of the four names, so it is never the empty string. */
  lemma NoResultsRouting(query: string, cdp: Option<string>)
    requires cdp == ExtractCdpName(query)
    ensures NoResultsMessage(query, cdp) == NO_RESULTS_MESSAGE <==> cdp.None?
  {
    NoResultsMessageNamesProduct(query, cdp);
    if cdp.Some? {
      assert cdp.value in CDP_NAMES;
    }
  }

  /** `QueryEngine.query` */
  method Query(ix: Index, query: string) returns (o: Outcome)
    ensures o == QueryOutcome(ix, query)
    ensures o.NotHowTo? || o.NoResults? || o.Results?
    ensures o.Results? ==> o.results != [] && |o.results| <= QUERY_TOP_K && RelevantResults(ix, o.cdp, o.results)
  {
    QueryRouting(ix, query);
    if !IsHowToQuestion(query) {
      return NotHowTo(NOT_HOW_TO_MESSAGE);
    }
    var cdpName := ExtractCdpName(query);
    var results := Search(ix, query, QUERY_TOP_K, cdpName);
    if results == [] {
      return NoResults(NoResultsMessage(query, cdpName));
    }
    o := Results(cdpName, query, results);
  }

  // ---------------------------------------------------------------------------
  // Comparisons
  // ---------------------------------------------------------------------------

  function NeedFeatureMessage(cdps: seq<string>): string {
    "I can compare " + Join(", ", cdps) +
    ", but I need to know which feature you want to compare. For example, you can ask about audience creation, data integration, user profiles, etc."
  }

  function NotEnoughMessage(feature: string, cdps: seq<string>): string {
    "I couldn't find enough information to compare " + feature + " between " + Join(", ", cdps) +
    ". Could you try asking about a different feature?"
  }

  /** The sub-query `compare_cdps` sends for one product: `f"how to {feature} in {cdp}"`. */
  function SubQuery(feature: string, cdp: string): string {
    "how to " + feature + " in " + cdp
  }

  /** The results of the sub-search for `cdp`, restricted to that product. */
  function SubResults(ix: Index, feature: string, cdp: string): seq<ScoredChunk> {
    SearchResults(ix, SubQuery(feature, cdp), COMPARISON_TOP_K, Some(cdp))
  }

  /** The sub-search `compare_cdps` runs, as a function of the product. */
  function SubSearch(ix: Index, feature: string): string -> seq<ScoredChunk> {
    cdp => SubResults(ix, feature, cdp)
  }

  /**
    The map the loop of `compare_cdps` builds from `cdps` when `lookup` gives
    each product's results: a product is a key exactly when its results are not
    empty, and then maps to them.
   */
  function ComparisonMap(cdps: seq<string>, lookup: string -> seq<ScoredChunk>): (m: map<string, seq<ScoredChunk>>)
    ensures forall c :: c in m <==> c in cdps && lookup(c) != []
    ensures forall c | c in m :: m[c] == lookup(c)
    decreases |cdps|
  {
    if cdps == [] then map[]
    else
      var init := cdps[..|cdps| - 1];
      var c := cdps[|cdps| - 1];
      assert cdps == init + [c];
      var rest := ComparisonMap(init, lookup);
      if lookup(c) != [] then rest[c := lookup(c)] else rest
  }

  /** One more product extends the map by that product's results when they are not empty. */
  lemma ComparisonMapStep(cdps: seq<string>, i: nat, lookup: string -> seq<ScoredChunk>)
    requires i < |cdps|
    ensures ComparisonMap(cdps[..i + 1], lookup) ==
      var rest := ComparisonMap(cdps[..i], lookup);
      if lookup(cdps[i]) != [] then rest[cdps[i] := lookup(cdps[i])] else rest
  {
    assert cdps[..i + 1][..i] == cdps[..i];
  }

  /** `comparison_results` after the loop over `cdps`. */
  function ComparisonData(ix: Index, feature: string, cdps: seq<string>): map<string, seq<ScoredChunk>> {
    ComparisonMap(cdps, SubSearch(ix, feature))
  }

  /**
    The decisions of `compare_cdps` once its three tests are known: whether the
    question is a comparison, the products it names and the feature it names.
   */
  function CompareDecision(ix: Index, isComparison: bool, cdps: seq<string>, feature: Option<string>): Option<Outcome> {
    if !isComparison then None
    else if |cdps| < 2 then Some(ComparisonError(NEED_TWO_CDPS_MESSAGE))
    else if !Truthy(feature) then Some(ComparisonError(NeedFeatureMessage(cdps)))
    else
      var data := ComparisonData(ix, feature.value, cdps);
      if data == map[] then Some(ComparisonError(NotEnoughMessage(feature.value, cdps)))
      else Some(Comparison(feature.value, cdps, data))
  }

  /** What `CDPComparator.compare_cdps` returns; `None` when the question is not a comparison. */
  function CompareOutcome(ix: Index, query: string): Option<Outcome> {
    CompareDecision(ix, IsComparisonQuestion(query), Mentioned(CDP_NAMES, Lower(query)), ExtractFeatureToCompare(query))
  }

  /** The branches of `compare_cdps`, for any outcome of its three tests. */
  lemma CompareDecisionBranches(ix: Index, isComparison: bool, cdps: seq<string>, feature: Option<string>)
    ensures var o := CompareDecision(ix, isComparison, cdps, feature);
      && (o.None? <==> !isComparison)
      && (o.Some? ==> o.value.ComparisonError? || o.value.Comparison?)
      && (o.Some? && |cdps| < 2 ==> o == Some(ComparisonError(NEED_TWO_CDPS_MESSAGE)))
      && (o.Some? && feature.None? ==> o.value.ComparisonError?)
  {
  }

  /** A `comparison` outcome carries every extracted product, the feature, and the map of non-empty sub-searches. */
  lemma CompareDecisionPayload(ix: Index, isComparison: bool, cdps: seq<string>, feature: Option<string>)
    requires CompareDecision(ix, isComparison, cdps, feature).Some?
    requires CompareDecision(ix, isComparison, cdps, feature).value.Comparison?
    ensures var o := CompareDecision(ix, isComparison, cdps, feature).value;
      && isComparison && |cdps| >= 2 && o.cdps == cdps
      && feature == Some(o.feature)
      && o.data != map[]
      && o.data == ComparisonData(ix, o.feature, cdps)
  {
  }

  /** A product is a key of the comparison map exactly when its sub-search found something, and maps to those results. */
  lemma ComparisonDataAt(ix: Index, feature: string, cdps: seq<string>, c: string)
    ensures c in ComparisonData(ix, feature, cdps) <==> c in cdps && SubResults(ix, feature, c) != []
    ensures c in ComparisonData(ix, feature, cdps) ==> ComparisonData(ix, feature, cdps)[c] == SubResults(ix, feature, c)
  {
    var lookup := SubSearch(ix, feature);
    assert lookup(c) == SubResults(ix, feature, c);
  }

  /** The comparison map has no key outside the extracted products. */
  lemma ComparisonDataKeys(ix: Index, feature: string, cdps: seq<string>)
    ensures ComparisonData(ix, feature, cdps).Keys <= set c | c in cdps
  {
  }

  /** What `extract_cdps_to_compare` returns, as its method promises. */
  function ExtractCdpsToCompareSpec(query: string): Option<seq<string>> {
    var m := Mentioned(CDP_NAMES, Lower(query));
    if |m| >= 2 then Some(m) else None
  }

  /** The branches of `compare_cdps`, stated on the query. */
  lemma CompareRouting(ix: Index, query: string)
    ensures var o := CompareOutcome(ix, query);
      && (o.None? <==> !IsComparisonQuestion(query))
      && (o.Some? ==> o.value.ComparisonError? || o.value.Comparison?)
      && (o.Some? && o.value.Comparison? ==>
            && ExtractCdpsToCompareSpec(query) == Some(o.value.cdps)
            && ExtractFeatureToCompare(query) == Some(o.value.feature))
  {
    CompareDecisionBranches(ix, IsComparisonQuestion(query), Mentioned(CDP_NAMES, Lower(query)), ExtractFeatureToCompare(query));
  }

  /** Every value in the comparison map is a non-empty result list, as the formatter expects. */
  lemma ComparisonDataNonEmpty(ix: Index, feature: string, cdps: seq<string>)
    ensures var m := ComparisonData(ix, feature, cdps);
      forall c | c in m :: m[c] != [] && |m[c]| <= COMPARISON_TOP_K && RelevantResults(ix, Some(c), m[c])
  {
    var m := ComparisonData(ix, feature, cdps);
    forall c | c in m
      ensures m[c] != [] && |m[c]| <= COMPARISON_TOP_K && RelevantResults(ix, Some(c), m[c])
    {
      assert m[c] == SubResults(ix, feature, c);
      SearchResultsProperties(ix, SubQuery(feature, c), COMPARISON_TOP_K, Some(c));
    }
  }

  /** `CDPComparator.compare_cdps` */
  method CompareCdps(ix: Index, query: string) returns (o: Option<Outcome>)
    ensures o == CompareOutcome(ix, query)
    ensures o.None? <==> !IsComparisonQuestion(query)
  {
    var isComparison := IsComparisonQuestion(query);
    var mentioned := Mentioned(CDP_NAMES, Lower(query));
    var wanted := ExtractFeatureToCompare(query);
    CompareDecisionBranches(ix, isComparison, mentioned, wanted);
    o := CompareWith(ix, query, isComparison, mentioned, wanted);
  }

  /** The body of `compare_cdps`, given the results of its tests on the query. */
  method CompareWith(ix: Index, query: string, isComparison: bool, mentioned: seq<string>, wanted: Option<string>)
    returns (o: Option<Outcome>)
    requires isComparison == IsComparisonQuestion(query)
    requires mentioned == Mentioned(CDP_NAMES, Lower(query))
    requires wanted == ExtractFeatureToCompare(query)
    ensures o == CompareDecision(ix, isComparison, mentioned, wanted)
  {
    if !isComparison {
      return None;
    }
    var cdpsToCompare := ExtractCdpsToCompare(query);
    if cdpsToCompare.None? {
      return Some(ComparisonError(NEED_TWO_CDPS_MESSAGE));
    }
    var cdps := cdpsToCompare.value;
    var feature := wanted;
    if !Truthy(feature) {
      return Some(ComparisonError(NeedFeatureMessage(cdps)));
    }
    var comparisonResults := CollectComparisonData(ix, feature.value, cdps);
    if comparisonResults == map[] {
      return Some(ComparisonError(NotEnoughMessage(feature.value, cdps)));
    }
    o := Some(Comparison(feature.value, cdps, comparisonResults));
  }

  /** One sub-search of `compare_cdps`: the feature's how-to question, filtered to one product. */
  method SubSearchFor(ix: Index, feature: string, cdp: string) returns (results: seq<ScoredChunk>)
    ensures results == SubResults(ix, feature, cdp)
  {
    results := Search(ix, SubQuery(feature, cdp), COMPARISON_TOP_K, Some(cdp));
  }

  /** The loop of `compare_cdps`: one filtered sub-search per product, keeping the non-empty ones. */
  method CollectComparisonData(ix: Index, feature: string, cdps: seq<string>) returns (comparisonResults: map<string, seq<ScoredChunk>>)
    ensures comparisonResults == ComparisonData(ix, feature, cdps)
  {
    ghost var lookup := SubSearch(ix, feature);
    comparisonResults := map[];
    for i := 0 to |cdps|
      invariant comparisonResults == ComparisonMap(cdps[..i], lookup)
    {
      ComparisonMapStep(cdps, i, lookup);
      var cdp := cdps[i];
      var results := SubSearchFor(ix, feature, cdp);
      assert lookup(cdp) == results;
      if results != [] {
        comparisonResults := comparisonResults[cdp := results];
      }
    }
    assert cdps[..|cdps|] == cdps;
  }

  // ---------------------------------------------------------------------------
  // The chat endpoint
  // ---------------------------------------------------------------------------

  /** What the chat endpoint hands to the response generator as `result`. */
  function ChatOutcome(ix: Index, message: string): Option<Outcome> {
    if IsComparisonQuestion(message) then CompareOutcome(ix, message) else Some(QueryOutcome(ix, message))
  }

  /** Asking the comparator first means the generator is never handed `None`. */
  lemma ChatAlwaysAnswers(ix: Index, message: string)
    ensures ChatOutcome(ix, message).Some?
    ensures IsComparisonQuestion(message) ==> ChatOutcome(ix, message).value.ComparisonError? || ChatOutcome(ix, message).value.Comparison?
    ensures !IsComparisonQuestion(message) ==> ChatOutcome(ix, message) == Some(QueryOutcome(ix, message))
  {
    CompareRouting(ix, message);
  }

  /** The chat endpoint's dispatch: comparison first, else a how-to query. */
  method Chat(ix: Index, message: string) returns (result: Option<Outcome>)
    ensures result == ChatOutcome(ix, message)
    ensures result.Some?
  {
    ChatAlwaysAnswers(ix, message);
    if IsComparisonQuestion(message) {
      result := CompareCdps(ix, message);
    } else {
      var o := Query(ix, message);
      result := Some(o);
    }
  }
}
