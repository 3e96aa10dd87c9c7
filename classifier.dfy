/**
  Query classification of `QueryEngine` and `CDPComparator`: ordered,
  first-match-wins pattern tests over the lower-cased query.
 */
module Classifier {
  import opened Wrappers
  import opened Text

  // ---------------------------------------------------------------------------
  // How-to questions
  // ---------------------------------------------------------------------------

  /** One position of a how-to pattern: the words it accepts there, e.g. `(do|can|would|should)`. */
  type Slot = seq<string>

  /**
    A pattern `^w1\s+w2\s+ ... wn\s+`: a sequence of slots, each followed by at
    least one whitespace character, anchored at the start of the text.
   */
  type HowToPattern = seq<Slot>

  /** `is_how_to_question`'s pattern list, in its order. */
  const HOW_TO_PATTERNS: seq<HowToPattern> := [
    [["how"], ["to"]],
    [["how"], ["do", "can", "would", "should"], ["i"]],
    [["how"], ["do", "can", "would", "should"], ["you"]],
    [["what's"], ["the"], ["best"], ["way"], ["to"]],
    [["what"], ["is"], ["the"], ["process"], ["for"]],
    [["how"], ["do"], ["i"], ["set"], ["up"]],
    [["how"], ["do"], ["i"], ["create"]]
  ]

  /** `s` starts with `w` followed by at least one whitespace character. */
  predicate WordThenGap(s: string, w: string) {
    IsPrefix(w, s) && |s| > |w| && IsSpace(s[|w|])
  }

  /**
    `re.search` of an anchored pattern. Every word of a slot starts with a
    non-whitespace character, so `\s+` can only end where the whitespace run
    ends: the match continues at `StripLeft` of the rest.
   */
  predicate MatchesSlots(s: string, pattern: HowToPattern)
    decreases |pattern|
  {
    pattern == [] ||
    exists k | 0 <= k < |pattern[0]| ::
      WordThenGap(s, pattern[0][k]) && MatchesSlots(StripLeft(s[|pattern[0][k]|..]), pattern[1..])
  }

  /** Some pattern of `patterns` matches `s`. */
  predicate MatchesAny(s: string, patterns: seq<HowToPattern>) {
    exists k | 0 <= k < |patterns| :: MatchesSlots(s, patterns[k])
  }

  /** `QueryEngine.is_how_to_question`: the lower-cased query, NOT stripped, starts with a how-to phrase. */
  predicate IsHowToQuestion(query: string) {
    MatchesAny(Lower(query), HOW_TO_PATTERNS)
  }

  /** `g` accepts every text `p` accepts: it is no longer, and each of its slots has all of `p`'s words. */
  predicate Generalizes(g: HowToPattern, p: HowToPattern) {
    |g| <= |p| && forall j | 0 <= j < |g| :: forall w | w in p[j] :: w in g[j]
  }

  lemma {:induction false} GeneralizesMatch(s: string, g: HowToPattern, p: HowToPattern)
    requires Generalizes(g, p) && MatchesSlots(s, p)
    ensures MatchesSlots(s, g)
    decreases |g|
  {
    if g != [] {
      var k :| 0 <= k < |p[0]| && WordThenGap(s, p[0][k]) && MatchesSlots(StripLeft(s[|p[0][k]|..]), p[1..]);
      var w := p[0][k];
      assert w in p[0];
      var k' :| 0 <= k' < |g[0]| && g[0][k'] == w;
      assert Generalizes(g[1..], p[1..]) by {
        forall j | 0 <= j < |g[1..]|
          ensures forall w | w in p[1..][j] :: w in g[1..][j]
        {
          assert p[1..][j] == p[j + 1] && g[1..][j] == g[j + 1];
        }
      }
      GeneralizesMatch(StripLeft(s[|w|..]), g[1..], p[1..]);
    }
  }

  /**
    The last two how-to patterns (`how do i set up`, `how do i create`) are
    special cases of the second (`how (do|can|would|should) i`): dropping them
    changes nothing.
   */
  lemma LastTwoPatternsRedundant(query: string)
    ensures IsHowToQuestion(query) <==> MatchesAny(Lower(query), HOW_TO_PATTERNS[..5])
  {
    SetUpIsSpecialCase();
    CreateIsSpecialCase();
    DropSubsumed(Lower(query), HOW_TO_PATTERNS, 5, 1);
  }

  /** Patterns from position `n` on, each generalized by pattern `g < n`, can be dropped. */
  lemma DropSubsumed(s: string, patterns: seq<HowToPattern>, n: nat, g: nat)
    requires g < n <= |patterns|
    requires forall j | n <= j < |patterns| :: Generalizes(patterns[g], patterns[j])
    ensures MatchesAny(s, patterns) <==> MatchesAny(s, patterns[..n])
  {
    if MatchesAny(s, patterns) {
      var k :| 0 <= k < |patterns| && MatchesSlots(s, patterns[k]);
      if k >= n {
        GeneralizesMatch(s, patterns[g], patterns[k]);
        assert patterns[..n][g] == patterns[g];
      } else {
        assert patterns[..n][k] == patterns[k];
      }
    }
    if MatchesAny(s, patterns[..n]) {
      var k :| 0 <= k < n && MatchesSlots(s, patterns[..n][k]);
      assert patterns[..n][k] == patterns[k];
    }
  }

  lemma SetUpIsSpecialCase()
    ensures Generalizes(HOW_TO_PATTERNS[1], HOW_TO_PATTERNS[5])
  {
    var g, p := HOW_TO_PATTERNS[1], HOW_TO_PATTERNS[5];
    assert p[0] == g[0] == ["how"] && p[1] == ["do"] && "do" in g[1] && p[2] == g[2] == ["i"];
  }

  lemma CreateIsSpecialCase()
    ensures Generalizes(HOW_TO_PATTERNS[1], HOW_TO_PATTERNS[6])
  {
    var g, p := HOW_TO_PATTERNS[1], HOW_TO_PATTERNS[6];
    assert p[0] == g[0] == ["how"] && p[1] == ["do"] && "do" in g[1] && p[2] == g[2] == ["i"];
  }

  /**
    The match is anchored and the query is not stripped first: a query that
    begins with whitespace is never a how-to question.
   */
  lemma LeadingSpaceIsNotHowTo(query: string)
    requires query != [] && IsSpace(query[0])
    ensures !IsHowToQuestion(query)
  {
    var s := Lower(query);
    assert s[0] == query[0];
    forall k | 0 <= k < |HOW_TO_PATTERNS|
      ensures !MatchesSlots(s, HOW_TO_PATTERNS[k])
    {
      var p := HOW_TO_PATTERNS[k];
      assert p[0] == ["how"] || p[0] == ["what's"] || p[0] == ["what"];
      forall j | 0 <= j < |p[0]|
        ensures !WordThenGap(s, p[0][j])
      {
        assert p[0][j][0] == 'h' || p[0][j][0] == 'w';
      }
    }
  }

  // ---------------------------------------------------------------------------
  // Product names
  // ---------------------------------------------------------------------------

  /** The four products, in the order every scan uses. */
  const CDP_NAMES: seq<string> := ["segment", "mparticle", "lytics", "zeotap"]

  /** The first of `names` that occurs in `text`, scanning `names` in order. */
  function FirstMentioned(names: seq<string>, text: string): (r: Option<string>)
    ensures r.None? <==> forall k | 0 <= k < |names| :: !Contains(text, names[k])
    ensures r.Some? ==> exists k | 0 <= k < |names| ::
      && names[k] == r.value && Contains(text, names[k])
      && forall j | 0 <= j < k :: !Contains(text, names[j])
    decreases |names|
  {
    if names == [] then None
    else if Contains(text, names[0]) then Some(names[0])
    else
      var r := FirstMentioned(names[1..], text);
      assert forall k | 1 <= k < |names| :: names[k] == names[1..][k - 1];
      r
  }

  /** `QueryEngine.extract_cdp_name` */
  function ExtractCdpName(query: string): Option<string> {
    FirstMentioned(CDP_NAMES, Lower(query))
  }

  /** The names of `names` that occur in `text`, in the order of `names`. */
  function Mentioned(names: seq<string>, text: string): (r: seq<string>)
    ensures forall x :: x in r <==> x in names && Contains(text, x)
    ensures |r| <= |names|
    decreases |names|
  {
    if names == [] then []
    else
      var init := names[..|names| - 1];
      var last := names[|names| - 1];
      assert names == init + [last];
      Mentioned(init, text) + (if Contains(text, last) then [last] else [])
  }

  predicate Distinct(s: seq<string>) {
    forall i, j | 0 <= i < j < |s| :: s[i] != s[j]
  }

  /** Scanning a list of distinct names yields no name twice. */
  lemma {:induction false} MentionedDistinct(names: seq<string>, text: string)
    requires Distinct(names)
    ensures Distinct(Mentioned(names, text))
    decreases |names|
  {
    if names != [] {
      var init := names[..|names| - 1];
      var last := names[|names| - 1];
      assert Distinct(init);
      MentionedDistinct(init, text);
      assert last !in init;
    }
  }

  /** Extending the list at the end changes the first mention only when there was none. */
  lemma {:induction false} FirstMentionedSnoc(init: seq<string>, last: string, text: string)
    ensures FirstMentioned(init + [last], text) ==
      if FirstMentioned(init, text).Some? then FirstMentioned(init, text)
      else if Contains(text, last) then Some(last) else None
    decreases |init|
  {
    var names := init + [last];
    if init == [] {
      assert names == [last];
      assert names[1..] == [];
    } else {
      assert names[0] == init[0];
      assert names[1..] == init[1..] + [last];
      if !Contains(text, init[0]) {
        FirstMentionedSnoc(init[1..], last, text);
      }
    }
  }

  /** Every two collected names keep their order in `names`: the scan never reorders. */
  predicate InOrderOf(r: seq<string>, names: seq<string>) {
    forall i, j | 0 <= i < j < |r| :: Precedes(names, r[i], r[j])
  }

  /** `x` occurs in `names` at a position before one holding `y`. */
  predicate Precedes(names: seq<string>, x: string, y: string) {
    exists a, b | 0 <= a < b < |names| :: names[a] == x && names[b] == y
  }

  /** The names are collected in the order of `names`. */
  lemma {:induction false} MentionedInOrder(names: seq<string>, text: string)
    ensures InOrderOf(Mentioned(names, text), names)
    decreases |names|
  {
    if names != [] {
      var init := names[..|names| - 1];
      var last := names[|names| - 1];
      var m := Mentioned(init, text);
      MentionedInOrder(init, text);
      assert names == init + [last];
      InOrderSnoc(m, init, last, Contains(text, last));
    }
  }

  /** One step of the scan: appending the last name, or nothing, keeps the order. */
  lemma InOrderSnoc(m: seq<string>, init: seq<string>, last: string, keep: bool)
    requires InOrderOf(m, init)
    requires forall x | x in m :: x in init
    ensures InOrderOf(m + (if keep then [last] else []), init + [last])
  {
    var r, names := m + (if keep then [last] else []), init + [last];
    forall i, j | 0 <= i < j < |r| ensures Precedes(names, r[i], r[j]) {
      assert r[i] == m[i];
      if j < |m| {
        assert r[j] == m[j];
        assert Precedes(init, m[i], m[j]);
        var a, b :| 0 <= a < b < |init| && init[a] == m[i] && init[b] == m[j];
        assert names[a] == r[i] && names[b] == r[j];
      } else {
        assert r[j] == last;
        assert m[i] in init;
        var a :| 0 <= a < |init| && init[a] == m[i];
        assert names[a] == r[i] && names[|init|] == r[j];
      }
    }
  }

  /** The first collected name is the one `FirstMentioned` returns. */
  lemma {:induction false} MentionedHead(names: seq<string>, text: string)
    requires Mentioned(names, text) != []
    ensures FirstMentioned(names, text) == Some(Mentioned(names, text)[0])
    decreases |names|
  {
    var init := names[..|names| - 1];
    var last := names[|names| - 1];
    assert names == init + [last];
    FirstMentionedSnoc(init, last, text);
    if Mentioned(init, text) != [] {
      MentionedHead(init, text);
    } else {
      forall k | 0 <= k < |init| ensures !Contains(text, init[k]) {
        assert init[k] in init;
      }
    }
  }

  /** "segment" is a prefix of "segmentation": any query saying "segmentation" names Segment first. */
  lemma SegmentationNamesSegment(query: string)
    requires Contains(Lower(query), "segmentation")
    ensures ExtractCdpName(query) == Some("segment")
  {
    var i :| 0 <= i <= |Lower(query)| - 12 && ContainsAt(Lower(query), "segmentation", i);
    ContainsPrefixAt(Lower(query), "segmentation", "segment", i);
  }

  /** The loop of `extract_cdps_to_compare`: append each name of `names` that occurs in `text`. */
  method CollectMentioned(names: seq<string>, text: string) returns (mentioned: seq<string>)
    ensures mentioned == Mentioned(names, text)
  {
    mentioned := [];
    for i := 0 to |names|
      invariant mentioned == Mentioned(names[..i], text)
    {
      assert names[..i + 1][..i] == names[..i];
      if Contains(text, names[i]) {
        mentioned := mentioned + [names[i]];
      }
    }
    assert names[..|names|] == names;
  }

  lemma CdpNamesDistinct()
    ensures Distinct(CDP_NAMES)
  {
  }

  /** `CDPComparator.extract_cdps_to_compare`: every product named in the query, in list order, if at least two. */
  method ExtractCdpsToCompare(query: string) returns (r: Option<seq<string>>)
    ensures var m := Mentioned(CDP_NAMES, Lower(query));
      r == if |m| >= 2 then Some(m) else None
    ensures r.Some? ==> && |r.value| >= 2
                        && ExtractCdpName(query) == Some(r.value[0])
                        && Distinct(r.value)
                        && InOrderOf(r.value, CDP_NAMES)
                        && forall x :: x in r.value <==> x in CDP_NAMES && Contains(Lower(query), x)
  {
    var queryLower := Lower(query);
    var mentioned := CollectMentioned(CDP_NAMES, queryLower);
    r := if |mentioned| >= 2 then Some(mentioned) else None;
    if r.Some? {
      MentionedHead(CDP_NAMES, queryLower);
      CdpNamesDistinct();
      MentionedDistinct(CDP_NAMES, queryLower);
      MentionedInOrder(CDP_NAMES, queryLower);
    }
  }

  // ---------------------------------------------------------------------------
  // Comparison questions and features
  // ---------------------------------------------------------------------------

  /** No line break in `s[a..b]`: what `.` accepts without `re.DOTALL`. */
  predicate NoNewlineBetween(s: string, a: int, b: int) {
    forall k | a <= k < b && 0 <= k < |s| :: s[k] != '\n'
  }

  /** `re.search(r'how does .+ compare to', s)` */
  predicate HowDoesCompareTo(s: string) {
    exists i, j | 0 <= i && i + 9 < j <= |s| ::
      ContainsAt(s, "how does ", i) && ContainsAt(s, " compare to", j) && NoNewlineBetween(s, i + 9, j)
  }

  /** `CDPComparator.is_comparison_question`: its five patterns, in order, anywhere in the lower-cased query. */
  predicate IsComparisonQuestion(query: string) {
    var s := Lower(query);
    Contains(s, "compare") || Contains(s, "difference between") || HowDoesCompareTo(s) ||
    Contains(s, "versus") || Contains(s, "vs")
  }

  /** The `how does .+ compare to` pattern is subsumed by `compare`: four substrings decide. */
  lemma ComparisonMarkers(query: string)
    ensures IsComparisonQuestion(query) <==>
      var s := Lower(query);
      Contains(s, "compare") || Contains(s, "difference between") || Contains(s, "versus") || Contains(s, "vs")
  {
    var s := Lower(query);
    if HowDoesCompareTo(s) {
      var i, j :| 0 <= i && i + 9 < j <= |s| &&
        ContainsAt(s, "how does ", i) && ContainsAt(s, " compare to", j) && NoNewlineBetween(s, i + 9, j);
      assert " compare to"[1..8] == "compare";
      ContainsInfixAt(s, " compare to", j, 1, "compare");
    }
  }

  /** A feature pattern of `extract_feature_to_compare`: its alternatives written out, and its label. */
  datatype FeatureRule = FeatureRule(phrases: seq<string>, feature: string)

  /** `extract_feature_to_compare`'s (pattern, label) list, in its order. */
  const FEATURE_RULES: seq<FeatureRule> := [
    FeatureRule(["audience creation", "audience building", "audience segmentation"], "audience creation"),
    FeatureRule(["data integration", "data ingestion"], "data integration"),
    FeatureRule(["user profiles", "user identification"], "user profiles"),
    FeatureRule(["source connection", "source integration", "destination connection", "destination integration"], "connections"),
    FeatureRule(["event tracking", "event collection"], "event tracking"),
    FeatureRule(["privacy compliance", "privacy management"], "privacy"),
    FeatureRule(["identity resolution", "identity matching"], "identity resolution")
  ]

  predicate RuleMatches(text: string, rule: FeatureRule) {
    exists k | 0 <= k < |rule.phrases| :: Contains(text, rule.phrases[k])
  }

  /** The label of the first rule of `rules` that matches `text`. */
  function FirstRuleLabel(rules: seq<FeatureRule>, text: string): (r: Option<string>)
    ensures r.None? <==> forall k | 0 <= k < |rules| :: !RuleMatches(text, rules[k])
    ensures r.Some? ==> exists k | 0 <= k < |rules| ::
      && rules[k].feature == r.value && RuleMatches(text, rules[k])
      && forall j | 0 <= j < k :: !RuleMatches(text, rules[j])
    decreases |rules|
  {
    if rules == [] then None
    else if RuleMatches(text, rules[0]) then Some(rules[0].feature)
    else
      var r := FirstRuleLabel(rules[1..], text);
      assert forall k | 1 <= k < |rules| :: rules[k] == rules[1..][k - 1];
      r
  }

  /** `CDPComparator.extract_feature_to_compare` */
  function ExtractFeatureToCompare(query: string): Option<string> {
    FirstRuleLabel(FEATURE_RULES, Lower(query))
  }
}
