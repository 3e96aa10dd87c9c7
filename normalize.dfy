/**
  The text normalisation that the query engine applies to every query
  (`QueryEngine.preprocess_query`) and the indexer applies to every document
  (`DocumentProcessor.preprocess_text`). The two Python definitions are the
  same two substitutions, so both are modelled by the single `Preprocess`:
  queries are normalised exactly as the indexed text was.
 */
module Normalize {
  import opened Text

  /** `re.sub(r'[^\w\s]', ' ', c)` on one character. */
  function SymbolToSpace(c: char): char {
    if IsWordChar(c) || IsSpace(c) then c else ' '
  }

  /** `re.sub(r'[^\w\s]', ' ', s)` */
  function ReplaceSymbols(s: string): (r: string)
    ensures |r| == |s| && forall i | 0 <= i < |s| :: r[i] == SymbolToSpace(s[i])
    decreases |s|
  {
    if s == [] then [] else [SymbolToSpace(s[0])] + ReplaceSymbols(s[1..])
  }

  /**
    `re.sub(r'\s+', ' ', s)`, written as a scan: `afterSpace` says that the
    run of whitespace the scan is in has already been replaced by one space.
   */
  function CollapseFrom(s: string, afterSpace: bool): string
    decreases |s|
  {
    if s == [] then []
    else if IsSpace(s[0]) then
      if afterSpace then CollapseFrom(s[1..], true) else [' '] + CollapseFrom(s[1..], true)
    else [s[0]] + CollapseFrom(s[1..], false)
  }

  function Collapse(s: string): string {
    CollapseFrom(s, false)
  }

  /** `preprocess_query` / `preprocess_text` */
  function Preprocess(s: string): string {
    Strip(Collapse(ReplaceSymbols(s)))
  }

  /** The only whitespace character in `r` is the plain space. */
  predicate OnlyBlanks(r: string) {
    forall i | 0 <= i < |r| :: IsSpace(r[i]) ==> r[i] == ' '
  }

  predicate NoDoubleBlank(r: string) {
    forall i | 0 <= i < |r| - 1 :: !(r[i] == ' ' && r[i + 1] == ' ')
  }

  predicate WordsAndBlanks(r: string) {
    forall i | 0 <= i < |r| :: IsWordChar(r[i]) || r[i] == ' '
  }

  /** Whitespace only as single spaces, never two in a row, none at either end. */
  predicate Tidy(r: string) {
    OnlyBlanks(r) && NoDoubleBlank(r) && (r != [] ==> r[0] != ' ' && r[|r| - 1] != ' ')
  }

  /** The normal form of indexed text and of queries: word characters separated by single spaces. */
  predicate Normal(r: string) {
    Tidy(r) && WordsAndBlanks(r)
  }

  /** The word characters of `s`, in order. */
  function WordChars(s: string): string
    decreases |s|
  {
    if s == [] then [] else (if IsWordChar(s[0]) then [s[0]] else []) + WordChars(s[1..])
  }

  lemma {:induction false} WordCharsAppend(a: string, b: string)
    ensures WordChars(a + b) == WordChars(a) + WordChars(b)
    decreases |a|
  {
    if a == [] {
      assert a + b == b;
    } else {
      var head := if IsWordChar(a[0]) then [a[0]] else [];
      assert (a + b)[0] == a[0];
      assert (a + b)[1..] == a[1..] + b;
      assert WordChars(a + b) == head + WordChars(a[1..] + b);
      assert WordChars(a) == head + WordChars(a[1..]);
      WordCharsAppend(a[1..], b);
      AppendAssoc(head, WordChars(a[1..]), WordChars(b));
    }
  }

  lemma {:induction false} WordCharsStripLeft(s: string)
    ensures WordChars(StripLeft(s)) == WordChars(s)
    decreases |s|
  {
    if s == [] || !IsSpace(s[0]) {
      assert StripLeft(s) == s;
    } else {
      WordCharsStripLeft(s[1..]);
      WordCharsSkipSpace(s);
    }
  }

  lemma WordCharsSkipSpace(s: string)
    requires s != [] && IsSpace(s[0])
    ensures StripLeft(s) == StripLeft(s[1..]) && WordChars(s) == WordChars(s[1..])
  {
    assert !IsWordChar(s[0]);
  }

  lemma {:induction false} WordCharsStripRight(s: string)
    ensures WordChars(StripRight(s)) == WordChars(s)
    decreases |s|
  {
    if s != [] && IsSpace(s[|s| - 1]) {
      var init := s[..|s| - 1];
      WordCharsStripRight(init);
      assert s == init + [s[|s| - 1]];
      WordCharsAppend(init, [s[|s| - 1]]);
    }
  }

  /** Stripping drops whitespace only, so it keeps every word character. */
  lemma WordCharsStrip(s: string)
    ensures WordChars(Strip(s)) == WordChars(s)
  {
    WordCharsStripLeft(s);
    WordCharsStripRight(StripLeft(s));
  }

  lemma {:induction false} WordCharsReplaceSymbols(s: string)
    ensures WordChars(ReplaceSymbols(s)) == WordChars(s)
    decreases |s|
  {
    if s != [] {
      WordCharsReplaceSymbols(s[1..]);
    }
  }

  lemma {:induction false} WordCharsCollapse(s: string, afterSpace: bool)
    ensures WordChars(CollapseFrom(s, afterSpace)) == WordChars(s)
    decreases |s|
  {
    if s != [] {
      var rest := if IsSpace(s[0]) then true else false;
      WordCharsCollapse(s[1..], rest);
      if IsSpace(s[0]) && !afterSpace {
        WordCharsAppend([' '], CollapseFrom(s[1..], true));
      } else if !IsSpace(s[0]) {
        WordCharsAppend([s[0]], CollapseFrom(s[1..], false));
      }
    }
  }

  /**
    What the collapsing scan produces: whitespace only as single spaces, never
    two spaces in a row, and no space first once the scan is inside a run.
   */
  lemma {:induction false} CollapseShape(s: string, afterSpace: bool)
    ensures OnlyBlanks(CollapseFrom(s, afterSpace)) && NoDoubleBlank(CollapseFrom(s, afterSpace))
    ensures afterSpace && CollapseFrom(s, afterSpace) != [] ==> CollapseFrom(s, afterSpace)[0] != ' '
    decreases |s|
  {
    if s != [] {
      var rest := CollapseFrom(s[1..], IsSpace(s[0]));
      CollapseShape(s[1..], IsSpace(s[0]));
      var r := CollapseFrom(s, afterSpace);
      if IsSpace(s[0]) && afterSpace {
        assert r == rest;
      } else {
        var head := if IsSpace(s[0]) then ' ' else s[0];
        assert r == [head] + rest;
        assert !IsSpace(s[0]) ==> head != ' ';
        forall i | 0 <= i < |r|
          ensures IsSpace(r[i]) ==> r[i] == ' '
        {
          if i > 0 {
            assert r[i] == rest[i - 1];
          }
        }
        forall i | 0 <= i < |r| - 1
          ensures !(r[i] == ' ' && r[i + 1] == ' ')
        {
          assert r[i + 1] == rest[i];
          if i > 0 {
            assert r[i] == rest[i - 1];
          }
        }
      }
    }
  }

  /** Collapsing a text of word characters and whitespace leaves word characters and spaces. */
  lemma {:induction false} CollapseWordy(s: string, afterSpace: bool)
    requires forall i | 0 <= i < |s| :: IsWordChar(s[i]) || IsSpace(s[i])
    ensures WordsAndBlanks(CollapseFrom(s, afterSpace))
    decreases |s|
  {
    if s != [] {
      var rest := CollapseFrom(s[1..], IsSpace(s[0]));
      CollapseWordy(s[1..], IsSpace(s[0]));
      var r := CollapseFrom(s, afterSpace);
      if IsSpace(s[0]) && afterSpace {
        assert r == rest;
      } else {
        var head := if IsSpace(s[0]) then ' ' else s[0];
        assert r == [head] + rest;
        forall i | 0 <= i < |r|
          ensures IsWordChar(r[i]) || r[i] == ' '
        {
          if i > 0 {
            assert r[i] == rest[i - 1];
          }
        }
      }
    }
  }

  /** A slice keeps the properties of `Normal` that do not mention the ends. */
  lemma SliceKeepsShape(c: string, lo: nat, hi: nat)
    requires lo <= hi <= |c|
    requires OnlyBlanks(c) && NoDoubleBlank(c) && WordsAndBlanks(c)
    ensures OnlyBlanks(c[lo..hi]) && NoDoubleBlank(c[lo..hi]) && WordsAndBlanks(c[lo..hi])
  {
    var r := c[lo..hi];
    assert forall i | 0 <= i < |r| :: r[i] == c[lo + i];
  }

  /** Collapsing whitespace runs and stripping leaves single spaces only, none at either end. */
  lemma StripCollapseTidy(s: string)
    ensures Tidy(Strip(Collapse(s)))
  {
    var c := CollapseFrom(s, false);
    CollapseShape(s, false);
    var lo, hi := StripSlice(c);
    SliceKeepsBlanks(c, lo, hi);
    TidyEnds(Strip(c));
  }

  /** A text without whitespace at either end has no space at either end. */
  lemma TidyEnds(r: string)
    requires r != [] ==> !IsSpace(r[0]) && !IsSpace(r[|r| - 1])
    ensures r != [] ==> r[0] != ' ' && r[|r| - 1] != ' '
  {
  }

  lemma SliceKeepsBlanks(c: string, lo: nat, hi: nat)
    requires lo <= hi <= |c|
    requires OnlyBlanks(c) && NoDoubleBlank(c)
    ensures OnlyBlanks(c[lo..hi]) && NoDoubleBlank(c[lo..hi])
  {
    var r := c[lo..hi];
    assert forall i | 0 <= i < |r| :: r[i] == c[lo + i];
  }

  /** Every `Preprocess` result is in normal form. */
  lemma PreprocessNormal(s: string)
    ensures Normal(Preprocess(s))
  {
    var t := ReplaceSymbols(s);
    var c := CollapseFrom(t, false);
    CollapseShape(t, false);
    CollapseWordy(t, false);
    var lo, hi := StripSlice(c);
    SliceKeepsShape(c, lo, hi);
  }

  /** `Preprocess` keeps every word character of its input, in order, and only those. */
  lemma PreprocessKeepsWordChars(s: string)
    ensures WordChars(Preprocess(s)) == WordChars(s)
  {
    WordCharsReplaceSymbols(s);
    WordCharsCollapse(ReplaceSymbols(s), false);
    WordCharsStrip(Collapse(ReplaceSymbols(s)));
  }

  lemma {:induction false} CollapseFixes(s: string, afterSpace: bool)
    requires OnlyBlanks(s) && NoDoubleBlank(s)
    requires afterSpace && s != [] ==> s[0] != ' '
    ensures CollapseFrom(s, afterSpace) == s
    decreases |s|
  {
    if s != [] {
      CollapseFixes(s[1..], IsSpace(s[0]));
    }
  }

  // ---------------------------------------------------------------------------
  // What collapsing means: the maximal non-whitespace runs, one space apart.

  /** The length of the run of non-whitespace characters that `s` starts with. */
  function TokenLen(s: string): (n: nat)
    ensures n <= |s|
    decreases |s|
  {
    if s == [] || IsSpace(s[0]) then 0 else 1 + TokenLen(s[1..])
  }

  /** The run `TokenLen` measures has no whitespace and stops at whitespace or at the end. */
  lemma {:induction false} TokenLenRun(s: string)
    ensures var n := TokenLen(s); IsToken(s[..n]) || n == 0
    ensures var n := TokenLen(s); n < |s| ==> IsSpace(s[n])
    ensures s != [] && !IsSpace(s[0]) ==> TokenLen(s) > 0
    decreases |s|
  {
    if s != [] && !IsSpace(s[0]) {
      TokenLenRun(s[1..]);
      var n, m := TokenLen(s), TokenLen(s[1..]);
      assert n == m + 1;
      assert s[..n] == [s[0]] + s[1..][..m];
      assert s[n..] == s[1..][m..];
      assert forall i | 1 <= i < n :: s[..n][i] == s[1..][..m][i - 1];
    }
  }

  predicate AllSpace(s: string) {
    forall i | 0 <= i < |s| :: IsSpace(s[i])
  }

  /** A non-empty run without whitespace. */
  predicate IsToken(t: string) {
    t != [] && forall i | 0 <= i < |t| :: !IsSpace(t[i])
  }

  /** The maximal runs of non-whitespace characters of `s`, in order (Python's `s.split()`). */
  function Tokens(s: string): seq<string>
    decreases |s|
  {
    if s == [] then []
    else if IsSpace(s[0]) then Tokens(s[1..])
    else
      var n := TokenLen(s);
      [s[..n]] + Tokens(s[n..])
  }

  /** Every token is a non-empty run without whitespace. */
  lemma {:induction false} TokensAreTokens(s: string)
    ensures forall k | 0 <= k < |Tokens(s)| :: IsToken(Tokens(s)[k])
    decreases |s|
  {
    if s != [] {
      if IsSpace(s[0]) {
        TokensAreTokens(s[1..]);
      } else {
        var n := TokenLen(s);
        TokenLenRun(s);
        TokensAreTokens(s[n..]);
        ConsTokens(s[..n], Tokens(s[n..]));
      }
    }
  }

  lemma ConsTokens(h: string, tail: seq<string>)
    requires IsToken(h) && forall k | 0 <= k < |tail| :: IsToken(tail[k])
    ensures forall k | 0 <= k < |[h] + tail| :: IsToken(([h] + tail)[k])
  {
    var r := [h] + tail;
    forall k | 0 <= k < |r| ensures IsToken(r[k]) {
      if k > 0 {
        assert r[k] == tail[k - 1];
      }
    }
  }

  /** The characters of `s` that are not whitespace, in order. */
  function NonSpace(s: string): string
    decreases |s|
  {
    if s == [] then [] else (if IsSpace(s[0]) then [] else [s[0]]) + NonSpace(s[1..])
  }

  lemma {:induction false} NonSpaceAppend(a: string, b: string)
    ensures NonSpace(a + b) == NonSpace(a) + NonSpace(b)
    decreases |a|
  {
    if a == [] {
      assert a + b == b;
    } else {
      assert (a + b)[0] == a[0] && (a + b)[1..] == a[1..] + b;
      NonSpaceAppend(a[1..], b);
      var head := if IsSpace(a[0]) then [] else [a[0]];
      AppendAssoc(head, NonSpace(a[1..]), NonSpace(b));
    }
  }

  lemma {:induction false} NonSpaceOfToken(t: string)
    requires forall i | 0 <= i < |t| :: !IsSpace(t[i])
    ensures NonSpace(t) == t
    decreases |t|
  {
    if t != [] {
      assert forall i | 0 <= i < |t[1..]| :: t[1..][i] == t[i + 1];
      NonSpaceOfToken(t[1..]);
    }
  }

  /** The tokens hold every non-whitespace character of `s`, in order, and nothing else. */
  lemma {:induction false} TokensKeepNonSpace(s: string)
    ensures Concat(Tokens(s)) == NonSpace(s)
    decreases |s|
  {
    if s != [] {
      if IsSpace(s[0]) {
        TokensKeepNonSpace(s[1..]);
      } else {
        var n := TokenLen(s);
        var tok, rest := s[..n], s[n..];
        TokenLenRun(s);
        TokensKeepNonSpace(rest);
        NonSpaceOfToken(tok);
        assert s == tok + rest;
        NonSpaceAppend(tok, rest);
        var ts := Tokens(rest);
        assert Tokens(s) == [tok] + ts;
        assert ([tok] + ts)[0] == tok && ([tok] + ts)[1..] == ts;
      }
    }
  }

  /** A text without tokens is all whitespace. */
  lemma {:induction false} NoTokensAllSpace(s: string)
    requires Tokens(s) == []
    ensures AllSpace(s)
    decreases |s|
  {
    if s != [] {
      assert IsSpace(s[0]);
      NoTokensAllSpace(s[1..]);
      assert forall i | 1 <= i < |s| :: s[i] == s[1..][i - 1];
    }
  }

  /** The single space `re.sub` puts for a leading whitespace run, unless the scan is inside one. */
  function Lead(s: string, afterSpace: bool): string {
    if !afterSpace && s != [] && IsSpace(s[0]) then " " else ""
  }

  /** The single space `re.sub` puts for a trailing whitespace run after the last token. */
  function Trail(s: string): string {
    if s != [] && IsSpace(s[|s| - 1]) && Tokens(s) != [] then " " else ""
  }

  /** Inside a token the scan copies characters up to the next whitespace. */
  lemma {:induction false} CollapseWord(s: string, afterSpace: bool)
    requires s != [] && !IsSpace(s[0])
    ensures CollapseFrom(s, afterSpace) == s[..TokenLen(s)] + CollapseFrom(s[TokenLen(s)..], false)
    decreases |s|
  {
    var n := TokenLen(s);
    var rest := s[1..];
    if rest != [] && !IsSpace(rest[0]) {
      CollapseWord(rest, false);
      var m := TokenLen(rest);
      assert n == m + 1;
      assert s[..n] == [s[0]] + rest[..m];
      assert s[n..] == rest[m..];
      AppendAssoc([s[0]], rest[..m], CollapseFrom(rest[m..], false));
    } else {
      assert n == 1 && s[..1] == [s[0]] && s[1..] == rest;
    }
  }

  /** Dropping a leading whitespace character keeps the trailing space. */
  lemma TrailTail(s: string)
    requires s != [] && IsSpace(s[0])
    ensures Trail(s) == Trail(s[1..])
  {
    assert Tokens(s) == Tokens(s[1..]);
    if |s| > 1 {
      assert s[1..][|s| - 2] == s[|s| - 1];
    }
  }

  /** The whitespace step, once the collapsed rest is known. */
  lemma CollapseSpaceStep(s: string, afterSpace: bool, j: string, t: string)
    requires s != [] && IsSpace(s[0])
    requires j == Join(" ", Tokens(s)) && t == Trail(s)
    requires CollapseFrom(s[1..], true) == Join(" ", Tokens(s[1..])) + Trail(s[1..])
    ensures CollapseFrom(s, afterSpace) == Lead(s, afterSpace) + j + t
  {
    TrailTail(s);
    assert Tokens(s) == Tokens(s[1..]);
    assert CollapseFrom(s[1..], true) == j + t;
    if afterSpace {
      assert Lead(s, afterSpace) == [];
      assert Lead(s, afterSpace) + j + t == j + t;
    } else {
      assert Lead(s, afterSpace) == " ";
      AppendAssoc(" ", j, t);
    }
  }

  /** The trailing space of a text that starts with a token is that of the rest after it. */
  lemma TrailAfterWord(s: string, n: nat)
    requires s != [] && !IsSpace(s[0]) && n == TokenLen(s)
    ensures Trail(s) == if s[n..] == [] || Tokens(s[n..]) != [] then Trail(s[n..]) else " "
  {
    TokenLenRun(s);
    var rest := s[n..];
    assert Tokens(s) != [];
    if rest == [] {
      assert s[|s| - 1] == s[n - 1];
    } else {
      assert s[|s| - 1] == rest[|rest| - 1];
      if Tokens(rest) == [] {
        NoTokensAllSpace(rest);
      }
    }
  }

  /** The facts every case of the token step starts from. */
  lemma WordFacts(s: string, afterSpace: bool, n: nat)
    requires s != [] && !IsSpace(s[0]) && n == TokenLen(s)
    ensures CollapseFrom(s, afterSpace) == s[..n] + CollapseFrom(s[n..], false)
    ensures Tokens(s) == [s[..n]] + Tokens(s[n..])
    ensures Lead(s, afterSpace) == []
    ensures s[n..] != [] ==> Lead(s[n..], false) == " "
    ensures Trail(s) == if s[n..] == [] || Tokens(s[n..]) != [] then Trail(s[n..]) else " "
  {
    TokenLenRun(s);
    CollapseWord(s, afterSpace);
    TrailAfterWord(s, n);
  }

  /** `Join` of a list given by its first token and the rest. */
  lemma JoinCons(tok: string, ts: seq<string>)
    ensures Join(" ", [tok] + ts) == if ts == [] then tok else tok + " " + Join(" ", ts)
  {
    if ts != [] {
      assert ([tok] + ts)[1..] == ts;
    }
  }

  /** The token step, once the collapsed rest is known. */
  lemma CollapseWordStep(s: string, afterSpace: bool, n: nat, tok: string, rest: string, ts: seq<string>)
    requires s != [] && !IsSpace(s[0])
    requires n == TokenLen(s) && tok == s[..n] && rest == s[n..] && ts == Tokens(rest)
    requires CollapseFrom(rest, false) == Lead(rest, false) + Join(" ", ts) + Trail(rest)
    ensures CollapseFrom(s, afterSpace) == Lead(s, afterSpace) + Join(" ", Tokens(s)) + Trail(s)
  {
    if rest == [] {
      WordStepAtEnd(s, afterSpace, n, tok, rest, ts);
    } else if ts == [] {
      WordStepBeforeSpace(s, afterSpace, n, tok, rest, ts);
    } else {
      WordStepBeforeToken(s, afterSpace, n, tok, rest, ts);
    }
  }

  /** The token step when the token ends the text. */
  lemma WordStepAtEnd(s: string, afterSpace: bool, n: nat, tok: string, rest: string, ts: seq<string>)
    requires s != [] && !IsSpace(s[0])
    requires n == TokenLen(s) && tok == s[..n] && rest == s[n..] && ts == Tokens(rest)
    requires rest == []
    ensures CollapseFrom(s, afterSpace) == Lead(s, afterSpace) + Join(" ", Tokens(s)) + Trail(s)
  {
    WordFacts(s, afterSpace, n);
    JoinCons(tok, ts);
    var c, cr := CollapseFrom(s, afterSpace), CollapseFrom(rest, false);
    var lead, j, t := Lead(s, afterSpace), Join(" ", Tokens(s)), Trail(s);
    assert Tokens(s) == [tok] + ts;
    WordAssemble(c, lead, j, t, tok, cr, []);
  }

  /** The token step when only whitespace follows the token. */
  lemma WordStepBeforeSpace(s: string, afterSpace: bool, n: nat, tok: string, rest: string, ts: seq<string>)
    requires s != [] && !IsSpace(s[0])
    requires n == TokenLen(s) && tok == s[..n] && rest == s[n..] && ts == Tokens(rest)
    requires CollapseFrom(rest, false) == Lead(rest, false) + Join(" ", ts) + Trail(rest)
    requires rest != [] && ts == []
    ensures CollapseFrom(s, afterSpace) == Lead(s, afterSpace) + Join(" ", Tokens(s)) + Trail(s)
  {
    WordFacts(s, afterSpace, n);
    JoinCons(tok, ts);
    var c, cr := CollapseFrom(s, afterSpace), CollapseFrom(rest, false);
    var lead, j, t := Lead(s, afterSpace), Join(" ", Tokens(s)), Trail(s);
    assert Tokens(s) == [tok] + ts;
    WordAssemble(c, lead, j, t, tok, cr, []);
  }

  /** The token step when another token follows after whitespace. */
  lemma WordStepBeforeToken(s: string, afterSpace: bool, n: nat, tok: string, rest: string, ts: seq<string>)
    requires s != [] && !IsSpace(s[0])
    requires n == TokenLen(s) && tok == s[..n] && rest == s[n..] && ts == Tokens(rest)
    requires CollapseFrom(rest, false) == Lead(rest, false) + Join(" ", ts) + Trail(rest)
    requires rest != [] && ts != []
    ensures CollapseFrom(s, afterSpace) == Lead(s, afterSpace) + Join(" ", Tokens(s)) + Trail(s)
  {
    WordFacts(s, afterSpace, n);
    JoinCons(tok, ts);
    var c, cr := CollapseFrom(s, afterSpace), CollapseFrom(rest, false);
    var lead, j, t := Lead(s, afterSpace), Join(" ", Tokens(s)), Trail(s);
    assert Tokens(s) == [tok] + ts;
    WordAssemble(c, lead, j, t, tok, cr, " " + Join(" ", ts));
  }

  /** The concatenation that closes each case of `CollapseWordStep`. */
  lemma WordAssemble(c: string, lead: string, j: string, t: string, tok: string, cr: string, mid: string)
    requires c == tok + cr && cr == mid + t && lead == [] && j == tok + mid
    ensures c == lead + j + t
  {
    AppendAssoc(tok, mid, t);
  }

  /**
    `re.sub(r'\s+', ' ', s)` is the tokens of `s` one space apart, with one
    space for a whitespace run at either end (none at the start once the scan
    is inside a run).
   */
  lemma {:induction false} CollapseFromTokens(s: string, afterSpace: bool)
    ensures CollapseFrom(s, afterSpace) == Lead(s, afterSpace) + Join(" ", Tokens(s)) + Trail(s)
    decreases |s|
  {
    if s == [] {
    } else if IsSpace(s[0]) {
      CollapseFromTokens(s[1..], true);
      CollapseSpaceStep(s, afterSpace, Join(" ", Tokens(s)), Trail(s));
    } else {
      var n := TokenLen(s);
      CollapseFromTokens(s[n..], false);
      CollapseWordStep(s, afterSpace, n, s[..n], s[n..], Tokens(s[n..]));
    }
  }

  /** Tokens one space apart: non-empty exactly when there is a token, and no whitespace at either end. */
  lemma {:induction false} JoinTokensEnds(ts: seq<string>)
    requires forall k | 0 <= k < |ts| :: IsToken(ts[k])
    ensures var j := Join(" ", ts); (j == [] <==> ts == []) && (j != [] ==> !IsSpace(j[0]) && !IsSpace(j[|j| - 1]))
    decreases |ts|
  {
    if |ts| > 1 {
      assert forall k | 0 <= k < |ts[1..]| :: ts[1..][k] == ts[k + 1];
      JoinTokensEnds(ts[1..]);
      var j, rest := Join(" ", ts), Join(" ", ts[1..]);
      assert j == ts[0] + " " + rest;
      assert j[0] == ts[0][0] && j[|j| - 1] == rest[|rest| - 1];
    }
  }

  lemma {:induction false} StripLeftSpaces(w: string, y: string)
    requires AllSpace(w)
    ensures StripLeft(w + y) == StripLeft(y)
    decreases |w|
  {
    if w != [] {
      assert (w + y)[0] == w[0] && (w + y)[1..] == w[1..] + y;
      StripLeftSpaces(w[1..], y);
    } else {
      assert w + y == y;
    }
  }

  lemma {:induction false} StripRightSpaces(y: string, w: string)
    requires AllSpace(w)
    ensures StripRight(y + w) == StripRight(y)
    decreases |w|
  {
    if w != [] {
      var yw := y + w;
      assert yw[|yw| - 1] == w[|w| - 1] && yw[..|yw| - 1] == y + w[..|w| - 1];
      StripRightSpaces(y, w[..|w| - 1]);
    } else {
      assert y + w == y;
    }
  }

  /** Stripping removes whitespace put around a text that has none at its ends. */
  lemma StripAround(w1: string, x: string, w2: string)
    requires AllSpace(w1) && AllSpace(w2)
    requires x != [] ==> !IsSpace(x[0]) && !IsSpace(x[|x| - 1])
    ensures Strip(w1 + x + w2) == x
  {
    AppendAssoc(w1, x, w2);
    StripLeftSpaces(w1, x + w2);
    if x == [] {
      assert x + w2 == w2 + [];
      StripLeftSpaces(w2, []);
    } else {
      assert (x + w2)[0] == x[0];
      StripRightSpaces(x, w2);
    }
  }

  /** Collapsing and stripping gives the tokens of the text joined by single spaces. */
  lemma CollapseTokens(s: string)
    ensures Strip(Collapse(s)) == Join(" ", Tokens(s))
  {
    var ts := Tokens(s);
    var j := Join(" ", ts);
    CollapseFromTokens(s, false);
    TokensAreTokens(s);
    JoinTokensEnds(ts);
    LeadTrailSpace(s, false);
    StripAround(Lead(s, false), j, Trail(s));
  }

  /** What collapsing adds around the tokens is whitespace. */
  lemma LeadTrailSpace(s: string, afterSpace: bool)
    ensures AllSpace(Lead(s, afterSpace)) && AllSpace(Trail(s))
  {
  }

  /** `preprocess_query`: the tokens left once every symbol has become a space, one space apart. */
  lemma PreprocessTokens(s: string)
    ensures Preprocess(s) == Join(" ", Tokens(ReplaceSymbols(s)))
  {
    CollapseTokens(ReplaceSymbols(s));
  }

  /** Text already in normal form is left unchanged. */
  lemma NormalIsFixed(s: string)
    requires Normal(s)
    ensures Preprocess(s) == s
  {
    assert ReplaceSymbols(s) == s;
    CollapseFixes(s, false);
  }

  /** Normalising twice is normalising once. */
  lemma PreprocessIdempotent(s: string)
    ensures Preprocess(Preprocess(s)) == Preprocess(s)
  {
    PreprocessNormal(s);
    NormalIsFixed(Preprocess(s));
  }
}
