/**
  `ResponseGenerator`: turning an outcome of the query engine or the
  comparator into the text the chat endpoint sends back. `clean_text`,
  `extract_steps` and the dispatch are functions; the two formatters, which
  build their answer with `+=` inside loops, are methods proved against
  functions that describe the whole answer.
 */
module Responses {
  import opened Wrappers
  import opened Text
  import opened Normalize
  import opened Records
  import opened Orchestration
  import Classifier
  import Retrieval

  // ---------------------------------------------------------------------------
  // Scanning helpers
  // ---------------------------------------------------------------------------

  /** The position of the first `c` in `s`, if there is one. */
  function IndexOf(s: string, c: char): (r: Option<nat>)
    ensures r.Some? ==> r.value < |s| && s[r.value] == c && forall k | 0 <= k < r.value :: s[k] != c
    ensures r.None? ==> forall k | 0 <= k < |s| :: s[k] != c
    decreases |s|
  {
    if s == [] then None
    else if s[0] == c then Some(0)
    else match IndexOf(s[1..], c)
      case None => None
      case Some(k) => Some(k + 1)
  }

  /** The length of the run of digits `\d+` at the start of `s`. */
  function DigitRun(s: string): (n: nat)
    ensures n <= |s| && forall k | 0 <= k < n :: IsDigit(s[k])
    ensures n < |s| ==> !IsDigit(s[n])
    decreases |s|
  {
    if s != [] && IsDigit(s[0]) then 1 + DigitRun(s[1..]) else 0
  }

  /** The length of the run of whitespace `\s+` at the start of `s`. */
  function SpaceRun(s: string): (n: nat)
    ensures n <= |s| && forall k | 0 <= k < n :: IsSpace(s[k])
    ensures n < |s| ==> !IsSpace(s[n])
    decreases |s|
  {
    if s != [] && IsSpace(s[0]) then 1 + SpaceRun(s[1..]) else 0
  }

  // ---------------------------------------------------------------------------
  // clean_text
  // ---------------------------------------------------------------------------

  datatype LinkSpan = LinkSpan(close: nat, end: nat)

  /**
    `\[([^\]]+)\]\([^)]+\)` matches at the start of `s`, with its `]` at
    `close` and its final `)` at `end`: the label is `s[1..close]`.
   */
  predicate IsLinkSpan(s: string, close: nat, end: nat) {
    && 1 < close && close + 2 < end < |s|
    && s[0] == '[' && s[close] == ']' && s[close + 1] == '(' && s[end] == ')'
    && (forall k | 1 <= k < close :: s[k] != ']')
    && (forall k | close + 2 <= k < end :: s[k] != ')')
  }

  /** The link at the start of `s`, found by the regex engine's own route: the first `]`, then the first `)`. */
  function LinkAt(s: string): (r: Option<LinkSpan>)
    ensures r.Some? ==> IsLinkSpan(s, r.value.close, r.value.end)
  {
    if s == [] || s[0] != '[' then None
    else match IndexOf(s[1..], ']')
      case None => None
      case Some(a) =>
        var close := a + 1;
        if close == 1 || close + 1 >= |s| || s[close + 1] != '(' then None
        else match IndexOf(s[close + 2..], ')')
          case None => None
          case Some(b) => if b == 0 then None else Some(LinkSpan(close, close + 2 + b))
  }

  /** A link match is determined by where it starts. */
  lemma LinkSpanUnique(s: string, c1: nat, e1: nat, c2: nat, e2: nat)
    requires IsLinkSpan(s, c1, e1) && IsLinkSpan(s, c2, e2)
    ensures c1 == c2 && e1 == e2
  {
    assert s[c1] == ']' && s[c2] == ']';
    assert s[e1] == ')' && s[e2] == ')';
  }

  /** `LinkAt` misses no link: where the regex matches, it finds that match. */
  lemma LinkAtComplete(s: string, close: nat, end: nat)
    requires IsLinkSpan(s, close, end)
    ensures LinkAt(s) == Some(LinkSpan(close, end))
  {
    var t := s[1..];
    assert t[close - 1] == ']';
    assert forall k | 0 <= k < close - 1 :: t[k] == s[k + 1];
    var u := s[close + 2..];
    assert u[end - close - 2] == ')';
    assert forall k | 0 <= k < end - close - 2 :: u[k] == s[close + 2 + k];
  }

  /** `re.sub(r'\[([^\]]+)\]\([^)]+\)', r'\1', s)`: every markdown link, left to right, becomes its label. */
  function StripLinks(s: string): string
    decreases |s|
  {
    if s == [] then []
    else match LinkAt(s)
      case Some(l) => s[1..l.close] + StripLinks(s[l.end + 1..])
      case None => [s[0]] + StripLinks(s[1..])
  }

  /** `clean_text` */
  function CleanText(text: string): string {
    StripLinks(Strip(Collapse(text)))
  }

  /** `clean_text` removes the links from the tokens of the text put one space apart. */
  lemma CleanTextTokens(text: string)
    ensures CleanText(text) == StripLinks(Join(" ", Tokens(text)))
  {
    CollapseTokens(text);
  }

  /** Text without a `[` has no link to replace. */
  lemma {:induction false} StripLinksNoBracket(s: string)
    requires forall k | 0 <= k < |s| :: s[k] != '['
    ensures StripLinks(s) == s
    decreases |s|
  {
    if s != [] {
      StripLinksNoBracket(s[1..]);
    }
  }

  /** The markdown link `[text](target)`. */
  function Link(text: string, target: string): string {
    "[" + text + "](" + target + ")"
  }

  /** A link at the very start is replaced by its label. */
  lemma StripLinksAtLink(linkText: string, target: string, rest: string)
    requires linkText != [] && forall k | 0 <= k < |linkText| :: linkText[k] != ']'
    requires target != [] && forall k | 0 <= k < |target| :: target[k] != ')'
    ensures StripLinks(Link(linkText, target) + rest) == linkText + StripLinks(rest)
  {
    var s := Link(linkText, target) + rest;
    var close := |linkText| + 1;
    var end := |linkText| + |target| + 3;
    assert s[0] == '[' && s[close] == ']' && s[close + 1] == '(' && s[end] == ')';
    assert forall k | 1 <= k < close :: s[k] == linkText[k - 1];
    assert forall k | close + 2 <= k < end :: s[k] == target[k - close - 2];
    assert IsLinkSpan(s, close, end);
    LinkAtComplete(s, close, end);
    assert s[1..close] == linkText;
    assert s[end + 1..] == rest;
  }

  /** A character other than `[` is copied, and the scan goes on after it. */
  lemma StripLinksPlainHead(c: char, s: string)
    requires c != '['
    ensures StripLinks([c] + s) == [c] + StripLinks(s)
  {
    assert ([c] + s)[1..] == s;
  }

  /** Text without `[` passes through the link substitution unchanged, whatever follows it. */
  lemma {:induction false} StripLinksPlainPrefix(prefix: string, s: string)
    requires forall k | 0 <= k < |prefix| :: prefix[k] != '['
    ensures StripLinks(prefix + s) == prefix + StripLinks(s)
    decreases |prefix|
  {
    if prefix == [] {
      assert prefix + s == s;
    } else {
      ConsAppend(prefix, s);
      StripLinksPlainHead(prefix[0], prefix[1..] + s);
      StripLinksPlainPrefix(prefix[1..], s);
      ConsAppend(prefix, StripLinks(s));
    }
  }

  /** A link after plain text is replaced by its label, and the scan goes on after it. */
  lemma StripLinksReplacesLink(prefix: string, linkText: string, target: string, rest: string)
    requires forall k | 0 <= k < |prefix| :: prefix[k] != '['
    requires linkText != [] && forall k | 0 <= k < |linkText| :: linkText[k] != ']'
    requires target != [] && forall k | 0 <= k < |target| :: target[k] != ')'
    ensures StripLinks(prefix + Link(linkText, target) + rest) == prefix + linkText + StripLinks(rest)
  {
    var link := Link(linkText, target);
    AppendAssoc(prefix, link, rest);
    StripLinksPlainPrefix(prefix, link + rest);
    StripLinksAtLink(linkText, target, rest);
    AppendAssoc(prefix, linkText, StripLinks(rest));
  }

  /** Collapsing keeps every character that is not whitespace out of the result when it was not in the input. */
  lemma {:induction false} CollapseAddsNothing(s: string, afterSpace: bool, c: char)
    requires !IsSpace(c) && forall k | 0 <= k < |s| :: s[k] != c
    ensures forall k | 0 <= k < |CollapseFrom(s, afterSpace)| :: CollapseFrom(s, afterSpace)[k] != c
    decreases |s|
  {
    if s != [] {
      CollapseAddsNothing(s[1..], IsSpace(s[0]), c);
    }
  }

  lemma StripKeepsAbsent(c: string, ch: char)
    requires forall k | 0 <= k < |c| :: c[k] != ch
    ensures forall k | 0 <= k < |Strip(c)| :: Strip(c)[k] != ch
  {
    var lo, hi := StripSlice(c);
    assert forall k | 0 <= k < hi - lo :: Strip(c)[k] == c[lo + k];
  }

  /**
    On text without links `clean_text` collapses every whitespace run to one
    space and strips both ends.
   */
  lemma CleanTextWithoutLinks(text: string)
    requires forall k | 0 <= k < |text| :: text[k] != '['
    ensures CleanText(text) == Strip(Collapse(text))
    ensures CleanText(text) == Join(" ", Tokens(text))
    ensures Tidy(CleanText(text))
  {
    CleanTextNoLinks(text);
    CollapseTokens(text);
    StripCollapseTidy(text);
  }

  /** Without a `[` in the text, `StripLinks` has nothing to do after collapsing. */
  lemma CleanTextNoLinks(text: string)
    requires forall k | 0 <= k < |text| :: text[k] != '['
    ensures CleanText(text) == Strip(Collapse(text))
  {
    var c := Collapse(text);
    CollapseAddsNothing(text, false, '[');
    StripKeepsAbsent(c, '[');
    StripLinksNoBracket(Strip(c));
  }

  // ---------------------------------------------------------------------------
  // extract_steps
  // ---------------------------------------------------------------------------

  /** The two step patterns: `\d+\.\s+…` and `\*\s+…`. */
  datatype Marker = Numbered | Bullet

  /** The length of `\d+\.` (numbered) or `\*` (bullet) at the start of `s`. */
  function HeadLen(kind: Marker, s: string): (r: Option<nat>)
    ensures r.Some? ==> 1 <= r.value <= |s|
  {
    match kind
    case Numbered =>
      var d := DigitRun(s);
      if 0 < d < |s| && s[d] == '.' then Some(d + 1) else None
    case Bullet =>
      if s != [] && s[0] == '*' then Some(1) else None
  }

  /** The length of the step marker `\d+\.\s+` or `\*\s+` at the start of `s`. */
  function MarkerLen(kind: Marker, s: string): (r: Option<nat>)
    ensures r.Some? ==> 2 <= r.value <= |s|
  {
    match HeadLen(kind, s)
    case None => None
    case Some(h) =>
      var w := SpaceRun(s[h..]);
      if w > 0 then Some(h + w) else None
  }

  /** The lookahead `(?=marker|$)` holds at `e`: `$` matches at the end and before a final newline. */
  predicate AtStop(kind: Marker, s: string, e: nat)
    requires e <= |s|
  {
    e == |s| || (e + 1 == |s| && s[e] == '\n') || MarkerLen(kind, s[e..]).Some?
  }

  /** Where the lazy `.*?` stops: the first position from `e` on at which the lookahead holds. */
  function StopFrom(kind: Marker, s: string, e: nat): (r: nat)
    requires e <= |s|
    ensures e <= r <= |s| && AtStop(kind, s, r)
    ensures forall k | e <= k < r :: !AtStop(kind, s, k)
    decreases |s| - e
  {
    if AtStop(kind, s, e) then e
    else
      var r := StopFrom(kind, s, e + 1);
      NoStopBefore(kind, s, e, r);
      r
  }

  lemma NoStopBefore(kind: Marker, s: string, e: nat, r: nat)
    requires e < r <= |s| && !AtStop(kind, s, e)
    requires forall k | e + 1 <= k < r :: !AtStop(kind, s, k)
    ensures forall k | e <= k < r :: !AtStop(kind, s, k)
  {
    forall k | e <= k < r ensures !AtStop(kind, s, k) {
      if k == e {
      }
    }
  }

  /**
    `re.findall` of the step pattern with `re.DOTALL`, scanning from `p`: a
    step starts at a marker and runs to the next marker or the end.
   */
  function FindAll(kind: Marker, s: string, p: nat): seq<string>
    requires p <= |s|
    decreases |s| - p
  {
    if p == |s| then []
    else match NextStop(kind, s, p)
      case Some(e) => [s[p..e]] + FindAll(kind, s, e)
      case None => FindAll(kind, s, p + 1)
  }

  /** Where the step that starts at `p` ends, when a marker starts there. */
  function NextStop(kind: Marker, s: string, p: nat): (r: Option<nat>)
    requires p <= |s|
    ensures r.Some? ==> p < r.value <= |s|
  {
    match MarkerLen(kind, s[p..])
    case Some(m) => Some(StopFrom(kind, s, p + m))
    case None => None
  }

  /** A step starts exactly at a marker and ends at the first stop after the marker. */
  lemma NextStopAtMarker(kind: Marker, s: string, p: nat)
    requires p <= |s|
    ensures NextStop(kind, s, p).Some? <==> MarkerLen(kind, s[p..]).Some?
    ensures NextStop(kind, s, p).Some? ==> AtStop(kind, s, NextStop(kind, s, p).value)
  {
  }

  /** The scan finds steps exactly when some marker occurs. */
  lemma {:induction false} FindAllEmptyIff(kind: Marker, s: string, p: nat)
    requires p <= |s|
    ensures FindAll(kind, s, p) == [] <==> forall i | p <= i < |s| :: MarkerLen(kind, s[i..]).None?
    decreases |s| - p
  {
    if p < |s| {
      NextStopAtMarker(kind, s, p);
      if MarkerLen(kind, s[p..]).None? {
        FindAllEmptyIff(kind, s, p + 1);
      }
    }
  }

  /** `s` from `a` on is the concatenation of `steps`, followed at most by a final newline. */
  predicate Tiles(s: string, a: nat, steps: seq<string>)
    requires a <= |s|
  {
    s[a..] == Concat(steps) || s[a..] == Concat(steps) + "\n"
  }

  lemma TilesCons(s: string, p: nat, e: nat, rest: seq<string>)
    requires p <= e <= |s| && Tiles(s, e, rest)
    ensures Tiles(s, p, [s[p..e]] + rest)
  {
    var steps := [s[p..e]] + rest;
    assert steps[1..] == rest;
    assert Concat(steps) == s[p..e] + Concat(rest);
    assert s[p..] == s[p..e] + s[e..];
    AppendAssoc(s[p..e], Concat(rest), "\n");
  }

  /** At a marker the scan takes one step, up to the next stop. */
  lemma FindAllAtMarker(kind: Marker, s: string, p: nat, e: nat)
    requires p <= |s| && NextStop(kind, s, p) == Some(e)
    ensures FindAll(kind, s, p) == [s[p..e]] + FindAll(kind, s, e)
  {
  }

  /** Away from a marker the scan moves on by one character. */
  lemma FindAllSkip(kind: Marker, s: string, p: nat)
    requires p < |s| && NextStop(kind, s, p).None?
    ensures FindAll(kind, s, p) == FindAll(kind, s, p + 1)
  {
  }

  /** Once the scan has stopped, it finds more steps only when the stop was a marker. */
  lemma StopThenMore(kind: Marker, s: string, e: nat)
    requires e <= |s| && AtStop(kind, s, e)
    ensures FindAll(kind, s, e) != [] ==> MarkerLen(kind, s[e..]).Some?
    ensures FindAll(kind, s, e) == [] ==> Tiles(s, e, [])
  {
    if e < |s| && MarkerLen(kind, s[e..]).None? {
      assert e + 1 == |s| && s[e] == '\n';
      assert FindAll(kind, s, e) == FindAll(kind, s, e + 1) == [];
      assert s[e..] == "\n";
    }
  }

  /** The scan skips to the first marker, and finds from there what it finds from `p`. */
  lemma {:induction false} FirstMarker(kind: Marker, s: string, p: nat) returns (a: nat)
    requires p <= |s| && FindAll(kind, s, p) != []
    ensures p <= a < |s| && MarkerLen(kind, s[a..]).Some?
    ensures forall i | p <= i < a :: MarkerLen(kind, s[i..]).None?
    ensures FindAll(kind, s, a) == FindAll(kind, s, p)
    decreases |s| - p
  {
    assert p < |s|;
    NextStopAtMarker(kind, s, p);
    if NextStop(kind, s, p).None? {
      var m := MarkerLen(kind, s[p..]);
      assert m.None?;
      FindAllSkip(kind, s, p);
      a := FirstMarker(kind, s, p + 1);
      forall i | p <= i < a ensures MarkerLen(kind, s[i..]).None? {
        if i == p {
          assert s[i..] == s[p..];
        }
      }
    } else {
      a := p;
    }
  }

  /** From a marker on, the text is the steps one after the other, followed at most by a final newline. */
  lemma {:induction false} TilesFromMarker(kind: Marker, s: string, a: nat)
    requires a <= |s| && MarkerLen(kind, s[a..]).Some?
    ensures Tiles(s, a, FindAll(kind, s, a))
    decreases |s| - a
  {
    NextStopAtMarker(kind, s, a);
    var e := NextStop(kind, s, a).value;
    var rest := FindAll(kind, s, e);
    FindAllAtMarker(kind, s, a, e);
    StopThenMore(kind, s, e);
    if rest != [] {
      TilesFromMarker(kind, s, e);
    }
    TilesCons(s, a, e, rest);
  }

  /**
    The steps tile the text: from the first marker on, the text is the steps
    one after the other, followed at most by a final newline.
   */
  lemma StepsTile(kind: Marker, s: string, p: nat) returns (a: nat)
    requires p <= |s| && FindAll(kind, s, p) != []
    ensures p <= a < |s| && MarkerLen(kind, s[a..]).Some?
    ensures forall i | p <= i < a :: MarkerLen(kind, s[i..]).None?
    ensures Tiles(s, a, FindAll(kind, s, p))
  {
    a := FirstMarker(kind, s, p);
    TilesFromMarker(kind, s, a);
  }

  /** A sentence ends in `.`, `!` or `?`: the lookbehind `(?<=[.!?])`. */
  predicate IsSentenceEnd(c: char) {
    c == '.' || c == '!' || c == '?'
  }

  /**
    `re.split(r'(?<=[.!?])\s+', s)`, scanning from `i` with the current piece
    starting at `start`: the text splits at each whitespace run that follows
    the end of a sentence.
   */
  function SplitFrom(s: string, start: nat, i: nat): seq<string>
    requires start <= i <= |s|
    decreases |s| - i
  {
    if i == |s| then [s[start..]]
    else match BreakEnd(s, i)
      case Some(j) => [s[start..i]] + SplitFrom(s, j, j)
      case None => SplitFrom(s, start, i + 1)
  }

  /** The separator `\s+` matches at `i` after the end of a sentence, up to the returned position. */
  function BreakEnd(s: string, i: nat): (r: Option<nat>)
    requires i <= |s|
    ensures r.Some? ==> i < r.value <= |s|
  {
    if i < |s| && 0 < i && IsSentenceEnd(s[i - 1]) && IsSpace(s[i]) then Some(i + SpaceRun(s[i..])) else None
  }

  lemma BreakEndSpec(s: string, i: nat)
    requires i <= |s|
    ensures BreakEnd(s, i).Some? <==> i < |s| && 0 < i && IsSentenceEnd(s[i - 1]) && IsSpace(s[i])
    ensures BreakEnd(s, i).Some? ==> IsSpace(s[BreakEnd(s, i).value - 1])
  {
    if BreakEnd(s, i).Some? {
      var n := SpaceRun(s[i..]);
      assert IsSpace(s[i..][n - 1]);
    }
  }

  /** A non-empty piece whose last character ends a sentence. */
  predicate EndsSentence(t: string) {
    t != [] && IsSentenceEnd(t[|t| - 1])
  }

  /** Every piece of `r` but the last ends a sentence. */
  predicate PiecesEndSentences(r: seq<string>) {
    r != [] && forall k | 0 <= k < |r| - 1 :: EndsSentence(r[k])
  }

  lemma PiecesCons(x: string, rest: seq<string>)
    requires EndsSentence(x) && PiecesEndSentences(rest)
    ensures PiecesEndSentences([x] + rest)
  {
    var r := [x] + rest;
    assert forall k | 1 <= k < |r| :: r[k] == rest[k - 1];
  }

  /** Every piece but the last is a non-empty sentence ending in `.`, `!` or `?`. */
  lemma {:induction false} SplitPiecesEnd(s: string, start: nat, i: nat)
    requires start <= i <= |s|
    requires start == 0 || IsSpace(s[start - 1])
    ensures PiecesEndSentences(SplitFrom(s, start, i))
    decreases |s| - i
  {
    if i < |s| {
      BreakEndSpec(s, i);
      match BreakEnd(s, i)
      case Some(j) =>
        SplitPiecesEnd(s, j, j);
        assert i != start;
        PiecesCons(s[start..i], SplitFrom(s, j, j));
      case None =>
        SplitPiecesEnd(s, start, i + 1);
    }
  }

  /** No sentence end followed by whitespace inside `t`: the split point the lookbehind looks for. */
  predicate NoInnerBreak(t: string) {
    forall u | 0 < u < |t| :: !(IsSentenceEnd(t[u - 1]) && IsSpace(t[u]))
  }

  /** The slice `s[start..i]` has no split point inside when the scan passed none on its way. */
  lemma SliceNoInnerBreak(s: string, start: nat, i: nat)
    requires start <= i <= |s|
    requires forall q | start < q < i :: BreakEnd(s, q).None?
    ensures NoInnerBreak(s[start..i])
  {
    var t := s[start..i];
    forall u | 0 < u < |t|
      ensures !(IsSentenceEnd(t[u - 1]) && IsSpace(t[u]))
    {
      BreakEndSpec(s, start + u);
      assert t[u - 1] == s[start + u - 1] && t[u] == s[start + u];
    }
  }

  predicate AllWhole(r: seq<string>) {
    forall k | 0 <= k < |r| :: NoInnerBreak(r[k])
  }

  lemma AllWholeCons(x: string, rest: seq<string>)
    requires NoInnerBreak(x) && AllWhole(rest)
    ensures AllWhole([x] + rest)
  {
    var r := [x] + rest;
    assert forall k | 1 <= k < |r| :: r[k] == rest[k - 1];
  }

  lemma SplitAtBreak(s: string, start: nat, i: nat, j: nat)
    requires start <= i < |s| && BreakEnd(s, i) == Some(j)
    ensures SplitFrom(s, start, i) == [s[start..i]] + SplitFrom(s, j, j)
  {
  }

  lemma SplitSkip(s: string, start: nat, i: nat)
    requires start <= i < |s| && BreakEnd(s, i).None?
    ensures SplitFrom(s, start, i) == SplitFrom(s, start, i + 1)
  {
  }

  /** The last piece, at the end of the text, is whole. */
  lemma SplitWholeAtEnd(s: string, start: nat)
    requires start <= |s|
    requires forall q | start < q < |s| :: BreakEnd(s, q).None?
    ensures AllWhole(SplitFrom(s, start, |s|))
  {
    SliceNoInnerBreak(s, start, |s|);
    AllWholeCons(s[start..], []);
    assert [s[start..]] + [] == SplitFrom(s, start, |s|);
  }

  /** A piece closed at a split point is whole, and so is what follows when its pieces are. */
  lemma SplitWholeAtBreak(s: string, start: nat, i: nat, j: nat)
    requires start <= i < |s| && BreakEnd(s, i) == Some(j)
    requires forall q | start < q < i :: BreakEnd(s, q).None?
    requires AllWhole(SplitFrom(s, j, j))
    ensures AllWhole(SplitFrom(s, start, i))
  {
    SplitAtBreak(s, start, i, j);
    SliceNoInnerBreak(s, start, i);
    AllWholeCons(s[start..i], SplitFrom(s, j, j));
  }

  /** The text is split at every split point: no piece has one inside. */
  lemma {:induction false} SplitPiecesWhole(s: string, start: nat, i: nat)
    requires start <= i <= |s|
    requires forall q | start < q < i :: BreakEnd(s, q).None?
    ensures AllWhole(SplitFrom(s, start, i))
    decreases |s| - i
  {
    if i == |s| {
      SplitWholeAtEnd(s, start);
    } else if BreakEnd(s, i).Some? {
      var j := BreakEnd(s, i).value;
      SplitPiecesWhole(s, j, j);
      SplitWholeAtBreak(s, start, i, j);
    } else {
      SplitSkip(s, start, i);
      forall q | start < q < i + 1 ensures BreakEnd(s, q).None? {
        if q == i {
        }
      }
      SplitPiecesWhole(s, start, i + 1);
    }
  }

  /** The whitespace runs `re.split` drops, in order: the separators between the pieces of `SplitFrom`. */
  function SepsFrom(s: string, start: nat, i: nat): (r: seq<string>)
    requires start <= i <= |s|
    ensures forall k | 0 <= k < |r| :: r[k] != [] && forall u | 0 <= u < |r[k]| :: IsSpace(r[k][u])
    decreases |s| - i
  {
    if i == |s| then []
    else match BreakEnd(s, i)
      case Some(j) =>
        var rest := SepsFrom(s, j, j);
        var sep := s[i..j];
        assert forall u | 0 <= u < |sep| :: sep[u] == s[i..][u];
        [sep] + rest
      case None => SepsFrom(s, start, i + 1)
  }

  /** The pieces put back together with the separators between them. */
  function Rejoin(pieces: seq<string>, seps: seq<string>): string
    requires |pieces| == |seps| + 1
    decreases |seps|
  {
    if seps == [] then pieces[0] else pieces[0] + seps[0] + Rejoin(pieces[1..], seps[1..])
  }

  /** Nothing is lost or added: the pieces and the separators between them make up the text. */
  lemma {:induction false} SplitRejoins(s: string, start: nat, i: nat)
    requires start <= i <= |s|
    ensures |SplitFrom(s, start, i)| == |SepsFrom(s, start, i)| + 1
    ensures Rejoin(SplitFrom(s, start, i), SepsFrom(s, start, i)) == s[start..]
    decreases |s| - i
  {
    if i < |s| {
      match BreakEnd(s, i)
      case Some(j) =>
        SplitRejoins(s, j, j);
        SplitAtBreak(s, start, i, j);
        RejoinCons(s[start..i], s[i..j], SplitFrom(s, j, j), SepsFrom(s, j, j));
        SliceJoin(s, start, i, j);
      case None =>
        SplitSkip(s, start, i);
        SplitRejoins(s, start, i + 1);
    }
  }

  lemma RejoinCons(p: string, sep: string, pieces: seq<string>, seps: seq<string>)
    requires |pieces| == |seps| + 1
    ensures Rejoin([p] + pieces, [sep] + seps) == p + sep + Rejoin(pieces, seps)
  {
    assert ([p] + pieces)[1..] == pieces;
    assert ([sep] + seps)[1..] == seps;
  }

  lemma SliceJoin(s: string, start: nat, i: nat, j: nat)
    requires start <= i <= j <= |s|
    ensures s[start..i] + s[i..j] + s[j..] == s[start..]
  {
  }

  /** The first piece runs from `start` to some position at or after `i`. */
  lemma {:induction false} SplitFirstPiece(s: string, start: nat, i: nat)
    requires start <= i <= |s|
    ensures SplitFrom(s, start, i) != []
    ensures var p := SplitFrom(s, start, i)[0];
      i - start <= |p| <= |s| - start && p == s[start..start + |p|]
    decreases |s| - i
  {
    if i < |s| && BreakEnd(s, i).None? {
      SplitSkip(s, start, i);
      SplitFirstPiece(s, start, i + 1);
    }
  }

  /** Each separator is a whole whitespace run: the piece after it does not start with whitespace. */
  lemma {:induction false} SplitSepsMaximal(s: string, start: nat, i: nat)
    requires start <= i <= |s|
    ensures var r := SplitFrom(s, start, i);
      forall k | 1 <= k < |r| :: r[k] == [] || !IsSpace(r[k][0])
    decreases |s| - i
  {
    if i < |s| {
      match BreakEnd(s, i)
      case Some(j) =>
        SplitSepsMaximal(s, j, j);
        SplitAtBreak(s, start, i, j);
        SplitFirstPiece(s, j, j);
        assert j < |s| ==> !IsSpace(s[j]) by {
          assert j == i + SpaceRun(s[i..]);
          if j < |s| {
            assert s[i..][j - i] == s[j];
          }
        }
        var rest := SplitFrom(s, j, j);
        var r := [s[start..i]] + rest;
        forall k | 1 <= k < |r| ensures r[k] == [] || !IsSpace(r[k][0]) {
          assert r[k] == rest[k - 1];
          if k == 1 && rest[0] != [] {
            assert rest[0][0] == s[j];
          }
        }
      case None =>
        SplitSkip(s, start, i);
        SplitSepsMaximal(s, start, i + 1);
    }
  }

  /** A non-empty text with no whitespace at either end. */
  predicate Trimmed(t: string) {
    t != [] && !IsSpace(t[0]) && !IsSpace(t[|t| - 1])
  }

  lemma StripTrimmed(s: string)
    ensures Strip(s) != [] ==> Trimmed(Strip(s))
  {
    StripEnds(s);
  }

  /** `[t.strip() for t in pieces if t.strip()]` */
  function StrippedNonEmpty(pieces: seq<string>): (r: seq<string>)
    ensures |r| <= |pieces|
    ensures forall k | 0 <= k < |r| :: Trimmed(r[k])
    decreases |pieces|
  {
    if pieces == [] then []
    else
      var tail := StrippedNonEmpty(pieces[1..]);
      var t := Strip(pieces[0]);
      StripTrimmed(pieces[0]);
      if t != [] then [t] + tail else tail
  }

  /**
    `r` is `f` of every piece that `f` does not map to the empty string, in
    order: `idx` lists the positions of those pieces, increasing, and misses none.
   */
  predicate KeptAt(f: string -> string, pieces: seq<string>, r: seq<string>, idx: seq<nat>) {
    && |idx| == |r|
    && (forall k | 0 <= k < |idx| :: idx[k] < |pieces| && r[k] == f(pieces[idx[k]]))
    && (forall k | 0 < k < |idx| :: idx[k - 1] < idx[k])
    && (forall p | 0 <= p < |pieces| && f(pieces[p]) != [] :: p in idx)
  }

  function Shift(t: seq<nat>): (r: seq<nat>)
    ensures |r| == |t| && forall k | 0 <= k < |t| :: r[k] == t[k] + 1
  {
    seq(|t|, k requires 0 <= k < |t| => t[k] + 1)
  }

  /** A kept piece in front: position 0, then the positions of the rest shifted by one. */
  lemma KeptConsKeep(f: string -> string, pieces: seq<string>, tail: seq<string>, t: seq<nat>)
    requires pieces != [] && KeptAt(f, pieces[1..], tail, t) && f(pieces[0]) != []
    ensures KeptAt(f, pieces, [f(pieces[0])] + tail, [0] + Shift(t))
  {
    KeepValues(f, pieces, tail, t);
    ConsZeroIncreasing(t);
    KeepComplete(f, pieces, t);
  }

  lemma KeepValues(f: string -> string, pieces: seq<string>, tail: seq<string>, t: seq<nat>)
    requires pieces != [] && |t| == |tail|
    requires forall k | 0 <= k < |t| :: t[k] < |pieces| - 1 && tail[k] == f(pieces[1..][t[k]])
    ensures var r, idx := [f(pieces[0])] + tail, [0] + Shift(t);
      forall k | 0 <= k < |idx| :: idx[k] < |pieces| && r[k] == f(pieces[idx[k]])
  {
    var rest, r, idx := pieces[1..], [f(pieces[0])] + tail, [0] + Shift(t);
    forall k | 0 <= k < |idx| ensures idx[k] < |pieces| && r[k] == f(pieces[idx[k]]) {
      if k > 0 {
        assert idx[k] == t[k - 1] + 1 && r[k] == tail[k - 1];
        assert pieces[idx[k]] == rest[t[k - 1]];
      }
    }
  }

  lemma ConsZeroIncreasing(t: seq<nat>)
    requires forall k | 0 < k < |t| :: t[k - 1] < t[k]
    ensures var idx := [0] + Shift(t); forall k | 0 < k < |idx| :: idx[k - 1] < idx[k]
  {
    var idx := [0] + Shift(t);
    forall k | 0 < k < |idx| ensures idx[k - 1] < idx[k] {
      if k > 1 {
        assert idx[k - 1] == t[k - 2] + 1 && idx[k] == t[k - 1] + 1;
      }
    }
  }

  lemma KeepComplete(f: string -> string, pieces: seq<string>, t: seq<nat>)
    requires pieces != []
    requires forall p | 0 <= p < |pieces| - 1 && f(pieces[1..][p]) != [] :: p in t
    ensures var idx := [0] + Shift(t); forall p | 0 <= p < |pieces| && f(pieces[p]) != [] :: p in idx
  {
    var rest, idx := pieces[1..], [0] + Shift(t);
    forall p | 0 <= p < |pieces| && f(pieces[p]) != [] ensures p in idx {
      if p > 0 {
        assert pieces[p] == rest[p - 1];
        var k :| 0 <= k < |t| && t[k] == p - 1;
        assert idx[k + 1] == p;
      }
    }
  }

  /** A dropped piece in front: the positions of the rest shifted by one. */
  lemma KeptConsDrop(f: string -> string, pieces: seq<string>, tail: seq<string>, t: seq<nat>)
    requires pieces != [] && KeptAt(f, pieces[1..], tail, t) && f(pieces[0]) == []
    ensures KeptAt(f, pieces, tail, Shift(t))
  {
    var rest, idx := pieces[1..], Shift(t);
    forall k | 0 <= k < |idx| ensures idx[k] < |pieces| && tail[k] == f(pieces[idx[k]]) {
      assert pieces[idx[k]] == rest[t[k]];
    }
    forall p | 0 <= p < |pieces| && f(pieces[p]) != [] ensures p in idx {
      assert p > 0 && pieces[p] == rest[p - 1];
      var k :| 0 <= k < |t| && t[k] == p - 1;
      assert idx[k] == p;
    }
  }

  /** The comprehension keeps exactly the pieces that are not blank, stripped and in order. */
  lemma StrippedNonEmptyKeeps(pieces: seq<string>)
    ensures exists idx: seq<nat> :: KeptAt(Strip, pieces, StrippedNonEmpty(pieces), idx)
  {
    var idx := KeptPositions(pieces);
    assert KeptAt(Strip, pieces, StrippedNonEmpty(pieces), idx);
  }

  /** The positions of the kept pieces, by induction on the list. */
  lemma {:induction false} KeptPositions(pieces: seq<string>) returns (idx: seq<nat>)
    ensures KeptAt(Strip, pieces, StrippedNonEmpty(pieces), idx)
    decreases |pieces|
  {
    if pieces == [] {
      idx := [];
    } else {
      var t := KeptPositions(pieces[1..]);
      if Strip(pieces[0]) != [] {
        KeptConsKeep(Strip, pieces, StrippedNonEmpty(pieces[1..]), t);
        idx := [0] + Shift(t);
      } else {
        KeptConsDrop(Strip, pieces, StrippedNonEmpty(pieces[1..]), t);
        idx := Shift(t);
      }
    }
  }

  /** The stripped, non-empty sentences of `s`. */
  function Sentences(s: string): seq<string> {
    StrippedNonEmpty(SplitFrom(s, 0, 0))
  }

  predicate IsPrefixSeq(r: seq<string>, items: seq<string>) {
    |r| <= |items| && items[..|r|] == r
  }

  /** `extract_steps` */
  function ExtractSteps(text: string): seq<string> {
    var steps := FindAll(Numbered, text, 0);
    if steps != [] then steps
    else
      var bullets := FindAll(Bullet, text, 0);
      if bullets != [] then bullets
      else Take(Sentences(text), 5)
  }

  predicate HasMarker(kind: Marker, text: string) {
    exists i | 0 <= i < |text| :: MarkerLen(kind, text[i..]).Some?
  }

  /** Numbered steps when there is a numbered marker, else bullets when there is a bullet, else at most five sentences. */
  lemma ExtractStepsCases(text: string)
    ensures HasMarker(Numbered, text) ==>
      ExtractSteps(text) == FindAll(Numbered, text, 0) && ExtractSteps(text) != []
    ensures !HasMarker(Numbered, text) && HasMarker(Bullet, text) ==>
      ExtractSteps(text) == FindAll(Bullet, text, 0) && ExtractSteps(text) != []
    ensures !HasMarker(Numbered, text) && !HasMarker(Bullet, text) ==>
      && ExtractSteps(text) == Take(Sentences(text), 5) && |ExtractSteps(text)| <= 5
      && forall k | 0 <= k < |ExtractSteps(text)| :: Trimmed(ExtractSteps(text)[k])
  {
    FindAllEmptyIff(Numbered, text, 0);
    FindAllEmptyIff(Bullet, text, 0);
    TakeTrimmed(Sentences(text), 5);
  }

  lemma TakeTrimmed(items: seq<string>, n: nat)
    requires forall k | 0 <= k < |items| :: Trimmed(items[k])
    ensures forall k | 0 <= k < |Take(items, n)| :: Trimmed(Take(items, n)[k])
  {
    var r := Take(items, n);
    assert forall k | 0 <= k < |r| :: r[k] == items[k];
  }

  /**
    Marked steps tile the text: from the first marker of the kind used on,
    the text is the extracted steps one after another, with at most a final
    newline left over.
   */
  lemma ExtractedStepsTile(text: string) returns (kind: Marker, a: nat)
    requires HasMarker(Numbered, text) || HasMarker(Bullet, text)
    ensures kind == (if HasMarker(Numbered, text) then Numbered else Bullet)
    ensures a < |text| && MarkerLen(kind, text[a..]).Some?
    ensures forall i | 0 <= i < a :: MarkerLen(kind, text[i..]).None?
    ensures Tiles(text, a, ExtractSteps(text))
  {
    ExtractStepsCases(text);
    kind := if HasMarker(Numbered, text) then Numbered else Bullet;
    a := StepsTile(kind, text, 0);
  }

  /**
    `re.split` on sentence ends: the pieces and the dropped whitespace runs
    between them make up the text; every piece but the last ends a sentence;
    no piece has a sentence end followed by whitespace inside it; and every
    run is dropped whole, so no later piece starts with whitespace.
   */
  lemma SentenceSplit(s: string)
    ensures PiecesEndSentences(SplitFrom(s, 0, 0))
    ensures forall k | 0 <= k < |SplitFrom(s, 0, 0)| :: NoInnerBreak(SplitFrom(s, 0, 0)[k])
    ensures |SplitFrom(s, 0, 0)| == |SepsFrom(s, 0, 0)| + 1
    ensures Rejoin(SplitFrom(s, 0, 0), SepsFrom(s, 0, 0)) == s
    ensures forall k | 1 <= k < |SplitFrom(s, 0, 0)| :: SplitFrom(s, 0, 0)[k] == [] || !IsSpace(SplitFrom(s, 0, 0)[k][0])
  {
    SplitPiecesEnd(s, 0, 0);
    SplitPiecesWhole(s, 0, 0);
    SplitRejoins(s, 0, 0);
    assert s[0..] == s;
    SplitSepsMaximal(s, 0, 0);
  }

  // ---------------------------------------------------------------------------
  // format_how_to_response
  // ---------------------------------------------------------------------------

  predicate EndsWith(s: string, suffix: string) {
    |suffix| <= |s| && s[|s| - |suffix|..] == suffix
  }

  /** Appending one more part to a concatenation. */
  lemma ConcatStep(whole: seq<string>, init: seq<string>, x: string)
    requires whole == init + [x]
    ensures Concat(whole) == Concat(init) + x
  {
    ConcatSnoc(init, x);
  }

  lemma EndsWithAppend(x: string, y: string)
    ensures EndsWith(x + y, y)
  {
    assert (x + y)[|x|..] == y;
  }

  lemma PrefixOfAppend(a: string, b: string, c: string)
    ensures IsPrefix(a, a + b + c)
  {
    assert (a + b + c)[..|a|] == a;
  }

  /** `re.match(r'^\d+\.', step)` */
  predicate StartsNumbered(step: string) {
    HeadLen(Numbered, step).Some?
  }

  /** The digit run of a number followed by a non-digit is the number itself. */
  lemma {:induction false} DigitRunOfNumber(d: string, rest: string)
    requires forall k | 0 <= k < |d| :: IsDigit(d[k])
    requires rest != [] && !IsDigit(rest[0])
    ensures DigitRun(d + rest) == |d|
    decreases |d|
  {
    if d == [] {
      assert d + rest == rest;
    } else {
      assert (d + rest)[1..] == d[1..] + rest;
      DigitRunOfNumber(d[1..], rest);
    }
  }

  /** Whatever follows a leading number and dot, the text still starts with them. */
  lemma NumberedExtends(x: string, y: string)
    requires StartsNumbered(x)
    ensures StartsNumbered(x + y)
  {
    var d := DigitRun(x);
    DigitRunOfNumber(x[..d], x[d..] + y);
    assert x[..d] + (x[d..] + y) == x + y;
    assert (x + y)[d] == x[d];
  }

  /** The line for the `i`-th step (from 1), cleaned and numbered unless it already is. */
  function StepLine(i: nat, step: string): string {
    var cleaned := CleanText(step);
    if !StartsNumbered(cleaned) then NatToString(i) + ". " + cleaned + "\n" else cleaned + "\n"
  }

  /**
    Every step line starts with digits and a dot and ends with the cleaned
    step; it is the cleaned step alone exactly when that already starts so,
    and otherwise carries the step's position as its number.
   */
  lemma StepLineNumbered(i: nat, step: string)
    ensures StartsNumbered(StepLine(i, step))
    ensures EndsWith(StepLine(i, step), CleanText(step) + "\n")
    ensures StepLine(i, step) == CleanText(step) + "\n" <==> StartsNumbered(CleanText(step))
    ensures !StartsNumbered(CleanText(step)) ==> IsPrefix(NatToString(i) + ". ", StepLine(i, step))
  {
    var cleaned := CleanText(step);
    if StartsNumbered(cleaned) {
      KeptLine(cleaned);
    } else {
      NumberedLine(NatToString(i), cleaned);
    }
  }

  lemma KeptLine(cleaned: string)
    requires StartsNumbered(cleaned)
    ensures StartsNumbered(cleaned + "\n") && EndsWith(cleaned + "\n", cleaned + "\n")
  {
    NumberedExtends(cleaned, "\n");
  }

  lemma NumberedLine(n: string, cleaned: string)
    requires n != [] && forall k | 0 <= k < |n| :: IsDigit(n[k])
    ensures var line := n + ". " + cleaned + "\n";
      && StartsNumbered(line) && EndsWith(line, cleaned + "\n") && IsPrefix(n + ". ", line)
      && line != cleaned + "\n"
  {
    var line := n + ". " + cleaned + "\n";
    DigitRunOfNumber(n, ". ");
    assert (n + ". ")[|n|] == '.';
    assert StartsNumbered(n + ". ");
    NumberedExtends(n + ". ", cleaned);
    NumberedExtends(n + ". " + cleaned, "\n");
    AppendAssoc(n + ". ", cleaned, "\n");
    EndsWithAppend(n + ". ", cleaned + "\n");
    PrefixOfAppend(n + ". ", cleaned, "\n");
    assert |line| > |cleaned + "\n"|;
  }

  /** The step lines in order, numbered from 1. */
  function StepLines(steps: seq<string>): string
    decreases |steps|
  {
    if steps == [] then ""
    else StepLines(steps[..|steps| - 1]) + StepLine(|steps|, steps[|steps| - 1])
  }

  lemma StepLinesSnoc(steps: seq<string>, i: nat)
    requires i < |steps|
    ensures StepLines(steps[..i + 1]) == StepLines(steps[..i]) + StepLine(i + 1, steps[i])
  {
    assert steps[..i + 1][..i] == steps[..i];
  }

  /** The answer's step lines, one per step. */
  function NumberedLines(steps: seq<string>): seq<string> {
    MapNumbered(StepLine, steps)
  }

  /** The step block is one line per step, in order, and every line starts with its number. */
  lemma {:induction false} StepLinesAreNumbered(steps: seq<string>)
    ensures StepLines(steps) == Concat(NumberedLines(steps))
    ensures forall k | 0 <= k < |steps| :: StartsNumbered(NumberedLines(steps)[k])
    decreases |steps|
  {
    if steps != [] {
      var init := steps[..|steps| - 1];
      StepLinesAreNumbered(init);
      ConcatStep(NumberedLines(steps), NumberedLines(init), StepLine(|steps|, steps[|steps| - 1]));
    }
    MapNumberedAt(StepLine, steps);
    forall k | 0 <= k < |steps|
      ensures StartsNumbered(NumberedLines(steps)[k])
    {
      StepLineNumbered(k + 1, steps[k]);
    }
  }

  /** The product named in the heading, as the source writes it: `(cdp or "the CDP").capitalize()`. */
  function ProductDisplayAsWritten(cdp: Option<string>): string {
    Capitalize(if Truthy(cdp) then cdp.value else "the CDP")
  }

  /** Capitalising the fallback lowers its acronym: a missing product prints as "The cdp". */
  lemma MissingProductAsWritten()
    ensures ProductDisplayAsWritten(None) == "The cdp"
    ensures ProductDisplayAsWritten(Some("")) == "The cdp"
  {
    assert Lower("he CDP") == "he cdp";
  }

  /** The product named in the heading, as intended: a named product capitalised, a missing one as "the CDP". */
  function ProductDisplay(cdp: Option<string>): (r: string)
    ensures !Truthy(cdp) ==> r == "the CDP"
    ensures Truthy(cdp) ==> r == ProductDisplayAsWritten(cdp)
  {
    if Truthy(cdp) then Capitalize(cdp.value) else "the CDP"
  }

  function HeadingLead(query: string): string {
    "Here's how to " + Topic(query) + " in "
  }

  /** The heading of a how-to answer, naming the product as `display`. */
  function HeadingFor(query: string, display: string): (h: string)
    ensures var n := |HeadingLead(query)|; n + |display| <= |h| && h[n..n + |display|] == display
  {
    var lead := HeadingLead(query);
    assert (lead + display + ":\n\n")[|lead|..|lead| + |display|] == display;
    lead + display + ":\n\n"
  }

  /** The heading `format_how_to_response` prints: `(cdp or "the CDP").capitalize()` names the product. */
  function HowToHeading(query: string, cdp: Option<string>): string {
    HeadingFor(query, ProductDisplayAsWritten(cdp))
  }

  /** The heading as intended, with a missing product named "the CDP". */
  function IntendedHowToHeading(query: string, cdp: Option<string>): string {
    HeadingFor(query, ProductDisplay(cdp))
  }

  /** The printed heading is the intended one exactly when the outcome names a product. */
  lemma HeadingAsIntendedIff(query: string, cdp: Option<string>)
    ensures HowToHeading(query, cdp) == IntendedHowToHeading(query, cdp) <==> Truthy(cdp)
  {
    if !Truthy(cdp) {
      MissingProductAsWritten();
      var written, intended := ProductDisplayAsWritten(cdp), ProductDisplay(cdp);
      assert written == "The cdp" && intended == "the CDP";
      var n := |HeadingLead(query)|;
      assert HowToHeading(query, cdp)[n] == written[0] != intended[0] == IntendedHowToHeading(query, cdp)[n];
    }
  }

  function DocsLine(url: string): string {
    "\n\nFor more details, you can check the documentation at: " + url
  }

  /** Outcomes with a result list have at least one result, and every product in a comparison map has one. */
  predicate Displayable(o: Outcome) {
    && (o.Results? ==> o.results != [])
    && (o.Comparison? ==> forall c | c in o.data :: o.data[c] != [])
  }

  predicate IsHowToKind(o: Outcome) {
    o.NotHowTo? || o.NoResults? || o.Results?
  }

  /** The body of a how-to answer: the step lines, or the cleaned text itself when it has no steps. */
  function HowToBody(content: string): string {
    var steps := ExtractSteps(content);
    if steps != [] then StepLines(steps) else content
  }

  /** The whole answer of `format_how_to_response`. */
  function HowToText(o: Outcome): string
    requires IsHowToKind(o) && Displayable(o)
  {
    if !o.Results? then o.message
    else
      var best := o.results[0].chunk;
      HowToHeading(o.query, o.cdp) + HowToBody(CleanText(best.text)) + DocsLine(best.url)
  }

  /** A how-to answer is built from the best result: it opens with the heading and ends with that result's URL. */
  lemma HowToTextShape(o: Outcome)
    requires o.Results? && o.results != []
    ensures IsPrefix(HowToHeading(o.query, o.cdp), HowToText(o))
    ensures EndsWith(HowToText(o), DocsLine(o.results[0].chunk.url))
  {
    var best := o.results[0].chunk;
    var head := HowToHeading(o.query, o.cdp);
    var body := HowToBody(CleanText(best.text));
    PrefixOfAppend(head, body, DocsLine(best.url));
    EndsWithAppend(head + body, DocsLine(best.url));
  }

  /** The numbering loop of `format_how_to_response`, appending to `response`. */
  method AppendStepLines(response: string, steps: seq<string>) returns (r: string)
    ensures r == response + StepLines(steps)
  {
    r := response;
    for i := 0 to |steps|
      invariant r == response + StepLines(steps[..i])
    {
      var step := CleanText(steps[i]);
      var line;
      if !StartsNumbered(step) {
        line := NatToString(i + 1) + ". " + step + "\n";
      } else {
        line := step + "\n";
      }
      StepLinesSnoc(steps, i);
      AppendAssoc(response, StepLines(steps[..i]), line);
      r := r + line;
    }
    assert steps[..|steps|] == steps;
  }

  /** `format_how_to_response` */
  method FormatHowToResponse(o: Outcome) returns (response: string)
    requires IsHowToKind(o) && Displayable(o)
    ensures response == HowToText(o)
    ensures !o.Results? ==> response == o.message
  {
    if o.NotHowTo? {
      return o.message;
    }
    if o.NoResults? {
      return o.message;
    }
    var best := o.results[0].chunk;
    var content := CleanText(best.text);
    var steps := ExtractSteps(content);
    response := HowToHeading(o.query, o.cdp);
    if steps != [] {
      response := AppendStepLines(response, steps);
    } else {
      response := response + content;
    }
    response := response + DocsLine(best.url);
  }

  // ---------------------------------------------------------------------------
  // format_comparison_response
  // ---------------------------------------------------------------------------

  const NOTE: string :=
    "Note: This comparison is based on the available documentation and may not cover all aspects of the feature."

  /** The key points of a product: its first three sentences, or all of them when there are fewer. */
  function KeyPoints(content: string): (r: seq<string>)
    ensures |r| <= 3 && IsPrefixSeq(r, Sentences(content))
    ensures |Sentences(content)| >= 3 ==> |r| == 3
    ensures |Sentences(content)| <= 3 ==> r == Sentences(content)
    ensures forall k | 0 <= k < |r| :: Trimmed(r[k])
  {
    Take(Sentences(content), 3)
  }

  function BulletLine(point: string): string {
    "- " + point + "\n"
  }

  /** One `- point` line per key point. */
  function Bullets(points: seq<string>): string
    decreases |points|
  {
    if points == [] then "" else Bullets(points[..|points| - 1]) + BulletLine(points[|points| - 1])
  }

  lemma BulletsSnoc(points: seq<string>, j: nat)
    requires j < |points|
    ensures Bullets(points[..j + 1]) == Bullets(points[..j]) + BulletLine(points[j])
  {
    assert points[..j + 1][..j] == points[..j];
  }

  function FoundHead(cdp: string): string {
    "**" + Capitalize(cdp) + "**:\n"
  }

  function MoreDetails(url: string): string {
    "More details: " + url + "\n\n"
  }

  function MissingLine(feature: string, cdp: string): string {
    "**" + Capitalize(cdp) + "**: I couldn't find specific information about " + feature + " for this CDP.\n\n"
  }

  /** The section of one product: its best result's key points and URL, or the line saying nothing was found. */
  function Section(feature: string, data: map<string, seq<ScoredChunk>>, cdp: string): string {
    if cdp in data && data[cdp] != [] then
      var best := data[cdp][0].chunk;
      FoundHead(cdp) + Bullets(KeyPoints(CleanText(best.text))) + MoreDetails(best.url)
    else MissingLine(feature, cdp)
  }

  /** The sections of `cdps`, in order. */
  function Sections(feature: string, data: map<string, seq<ScoredChunk>>, cdps: seq<string>): string
    requires forall c | c in data :: data[c] != []
    decreases |cdps|
  {
    if cdps == [] then ""
    else Sections(feature, data, cdps[..|cdps| - 1]) + Section(feature, data, cdps[|cdps| - 1])
  }

  lemma SectionsSnoc(feature: string, data: map<string, seq<ScoredChunk>>, cdps: seq<string>, i: nat)
    requires forall c | c in data :: data[c] != []
    requires i < |cdps|
    ensures Sections(feature, data, cdps[..i + 1]) == Sections(feature, data, cdps[..i]) + Section(feature, data, cdps[i])
  {
    assert cdps[..i + 1][..i] == cdps[..i];
  }

  function SectionList(feature: string, data: map<string, seq<ScoredChunk>>, cdps: seq<string>): seq<string>
    requires forall c | c in data :: data[c] != []
  {
    MapStrings(c => Section(feature, data, c), cdps)
  }

  lemma SectionListSnoc(feature: string, data: map<string, seq<ScoredChunk>>, cdps: seq<string>)
    requires forall c | c in data :: data[c] != []
    requires cdps != []
    ensures SectionList(feature, data, cdps) ==
      SectionList(feature, data, cdps[..|cdps| - 1]) + [Section(feature, data, cdps[|cdps| - 1])]
  {
  }

  /** One section per requested product, in the requested order. */
  lemma SectionListAt(feature: string, data: map<string, seq<ScoredChunk>>, cdps: seq<string>)
    requires forall c | c in data :: data[c] != []
    ensures |SectionList(feature, data, cdps)| == |cdps|
    ensures forall k | 0 <= k < |cdps| :: SectionList(feature, data, cdps)[k] == Section(feature, data, cdps[k])
  {
    MapStringsAt(c => Section(feature, data, c), cdps);
  }

  /** The sections are one per product, in the order of `cdps`, products missing from the map included. */
  lemma {:induction false} SectionsInOrder(feature: string, data: map<string, seq<ScoredChunk>>, cdps: seq<string>)
    requires forall c | c in data :: data[c] != []
    ensures Sections(feature, data, cdps) == Concat(SectionList(feature, data, cdps))
    decreases |cdps|
  {
    if cdps != [] {
      var init := cdps[..|cdps| - 1];
      SectionsInOrder(feature, data, init);
      SectionListSnoc(feature, data, cdps);
      ConcatStep(SectionList(feature, data, cdps), SectionList(feature, data, init), Section(feature, data, cdps[|cdps| - 1]));
    }
  }

  /**
    A found product's section is its heading, at most three key points taken
    from the start of its best result's sentences, and that result's URL; a
    missing product gets the not-found line.
   */
  lemma SectionShape(feature: string, data: map<string, seq<ScoredChunk>>, cdp: string)
    requires cdp in data ==> data[cdp] != []
    ensures cdp !in data ==> Section(feature, data, cdp) == MissingLine(feature, cdp)
    ensures cdp in data ==>
      var best := data[cdp][0].chunk;
      var points := KeyPoints(CleanText(best.text));
      && |points| <= 3 && IsPrefixSeq(points, Sentences(CleanText(best.text)))
      && IsPrefix(FoundHead(cdp), Section(feature, data, cdp))
      && EndsWith(Section(feature, data, cdp), MoreDetails(best.url))
  {
    if cdp in data {
      var best := data[cdp][0].chunk;
      var mid := Bullets(KeyPoints(CleanText(best.text)));
      PrefixOfAppend(FoundHead(cdp), mid, MoreDetails(best.url));
      EndsWithAppend(FoundHead(cdp) + mid, MoreDetails(best.url));
    }
  }

  function ComparisonHeading(feature: string, cdps: seq<string>): string {
    "Here's a comparison of " + feature + " between " +
    Join(" and ", seq(|cdps|, k requires 0 <= k < |cdps| => Capitalize(cdps[k]))) + ":\n\n"
  }

  predicate IsComparisonKind(o: Outcome) {
    o.ComparisonError? || o.Comparison?
  }

  /** The whole answer of `format_comparison_response`. */
  function ComparisonText(o: Outcome): string
    requires IsComparisonKind(o) && Displayable(o)
  {
    if o.ComparisonError? then o.message
    else ComparisonHeading(o.feature, o.cdps) + Sections(o.feature, o.data, o.cdps) + NOTE
  }

  /** A comparison answer is the heading, then one section per product in order, and always ends with the note. */
  lemma ComparisonTextShape(o: Outcome)
    requires o.Comparison? && Displayable(o)
    ensures ComparisonText(o) ==
      ComparisonHeading(o.feature, o.cdps) + Concat(SectionList(o.feature, o.data, o.cdps)) + NOTE
    ensures EndsWith(ComparisonText(o), NOTE)
  {
    SectionsInOrder(o.feature, o.data, o.cdps);
    EndsWithAppend(ComparisonHeading(o.feature, o.cdps) + Sections(o.feature, o.data, o.cdps), NOTE);
  }

  /** The key-point loop of `format_comparison_response`, appending to `response`. */
  method AppendBullets(response: string, points: seq<string>) returns (r: string)
    ensures r == response + Bullets(points)
  {
    r := response;
    for j := 0 to |points|
      invariant r == response + Bullets(points[..j])
    {
      BulletsSnoc(points, j);
      AppendAssoc(response, Bullets(points[..j]), BulletLine(points[j]));
      r := r + BulletLine(points[j]);
    }
    assert points[..|points|] == points;
  }

  /** One pass of the product loop of `format_comparison_response`. */
  method AppendSection(response: string, feature: string, data: map<string, seq<ScoredChunk>>, cdp: string)
    returns (r: string)
    requires cdp in data ==> data[cdp] != []
    ensures r == response + Section(feature, data, cdp)
  {
    if cdp in data {
      var best := data[cdp][0].chunk;
      var content := CleanText(best.text);
      var keyPoints := KeyPoints(content);
      r := response + FoundHead(cdp);
      r := AppendBullets(r, keyPoints);
      r := r + MoreDetails(best.url);
      AppendAssoc(response, FoundHead(cdp), Bullets(keyPoints));
      AppendAssoc(response, FoundHead(cdp) + Bullets(keyPoints), MoreDetails(best.url));
    } else {
      r := response + MissingLine(feature, cdp);
    }
  }

  /** `format_comparison_response` */
  method FormatComparisonResponse(o: Outcome) returns (response: string)
    requires IsComparisonKind(o) && Displayable(o)
    ensures response == ComparisonText(o)
    ensures o.ComparisonError? ==> response == o.message
  {
    if o.ComparisonError? {
      return o.message;
    }
    var feature, cdps, data := o.feature, o.cdps, o.data;
    var heading := ComparisonHeading(feature, cdps);
    response := heading;
    for i := 0 to |cdps|
      invariant response == heading + Sections(feature, data, cdps[..i])
    {
      SectionsSnoc(feature, data, cdps, i);
      AppendAssoc(heading, Sections(feature, data, cdps[..i]), Section(feature, data, cdps[i]));
      response := AppendSection(response, feature, data, cdps[i]);
    }
    assert cdps[..|cdps|] == cdps;
    response := response + NOTE;
  }

  // ---------------------------------------------------------------------------
  // generate_response
  // ---------------------------------------------------------------------------

  const FALLBACK_MESSAGE: string :=
    "I'm sorry, I couldn't process your question. Please try asking a how-to question about Segment, mParticle, Lytics, or Zeotap."

  /** The answer `generate_response` gives for a result, `None` standing for anything that is not an outcome. */
  function ResponseText(result: Option<Outcome>): string
    requires result.Some? ==> Displayable(result.value)
  {
    match result
    case None => FALLBACK_MESSAGE
    case Some(o) => if IsComparisonKind(o) then ComparisonText(o) else HowToText(o)
  }

  /**
    The dispatch of `generate_response`: how-to outcomes to the how-to
    formatter, comparison outcomes to the comparison formatter, anything else
    to the fallback; message outcomes are passed through unchanged.
   */
  lemma ResponseRouting(result: Option<Outcome>)
    requires result.Some? ==> Displayable(result.value)
    ensures result.None? ==> ResponseText(result) == FALLBACK_MESSAGE
    ensures result.Some? && IsHowToKind(result.value) ==> ResponseText(result) == HowToText(result.value)
    ensures result.Some? && IsComparisonKind(result.value) ==> ResponseText(result) == ComparisonText(result.value)
    ensures result.Some? && !result.value.Results? && !result.value.Comparison? ==>
      ResponseText(result) == result.value.message
  {
  }

  /** `generate_response`; the query it is given is not used. */
  method GenerateResponse(query: string, result: Option<Outcome>) returns (response: string)
    requires result.Some? ==> Displayable(result.value)
    ensures response == ResponseText(result)
  {
    match result
    case None =>
      response := FALLBACK_MESSAGE;
    case Some(o) =>
      if IsComparisonKind(o) {
        response := FormatComparisonResponse(o);
      } else {
        response := FormatHowToResponse(o);
      }
  }

  /** Every outcome the chat endpoint produces can be displayed: result lists and comparison entries are never empty. */
  lemma ChatOutcomeDisplayable(ix: Retrieval.Index, message: string)
    ensures ChatOutcome(ix, message).Some? && Displayable(ChatOutcome(ix, message).value)
  {
    ChatAlwaysAnswers(ix, message);
    if Classifier.IsComparisonQuestion(message) {
      CompareRouting(ix, message);
      var o := ChatOutcome(ix, message).value;
      if o.Comparison? {
        CompareDecisionPayload(ix, true, Classifier.Mentioned(Classifier.CDP_NAMES, Lower(message)),
          Classifier.ExtractFeatureToCompare(message));
        ComparisonDataNonEmpty(ix, o.feature, o.cdps);
      }
    } else {
      QueryRouting(ix, message);
    }
  }

  // ---------------------------------------------------------------------------
  // The chat endpoint
  // ---------------------------------------------------------------------------

  const NO_MESSAGE_ERROR: string := "No message provided"

  /** The endpoint's JSON reply: the 400 error, or the answer together with the raw outcome. */
  datatype ChatReply =
    | Rejected(error: string)
    | Answered(response: string, rawResult: Option<Outcome>)

  /** What the chat endpoint replies to `message`; a missing message reads as the empty one. */
  function ChatReplyFor(ix: Retrieval.Index, message: string): ChatReply {
    if message == [] then Rejected(NO_MESSAGE_ERROR)
    else
      ChatOutcomeDisplayable(ix, message);
      Answered(ResponseText(ChatOutcome(ix, message)), ChatOutcome(ix, message))
  }

  /**
    Only the empty message is rejected; every other message is answered from
    an outcome, and one that is neither a comparison nor a how-to question is
    answered with the introduction of the support agent.
   */
  lemma ChatReplyCases(ix: Retrieval.Index, message: string)
    ensures ChatReplyFor(ix, message).Rejected? <==> message == []
    ensures message == [] ==> ChatReplyFor(ix, message).error == NO_MESSAGE_ERROR
    ensures message != [] ==> ChatReplyFor(ix, message).rawResult.Some?
    ensures message != [] && !Classifier.IsComparisonQuestion(message) && !Classifier.IsHowToQuestion(message) ==>
      ChatReplyFor(ix, message).response == NOT_HOW_TO_MESSAGE
  {
    if message != [] {
      ChatAlwaysAnswers(ix, message);
      if !Classifier.IsComparisonQuestion(message) {
        QueryRouting(ix, message);
      }
    }
  }

  /** The chat endpoint: reject an empty message, else dispatch and format the outcome. */
  method ChatEndpoint(ix: Retrieval.Index, message: string) returns (reply: ChatReply)
    ensures reply == ChatReplyFor(ix, message)
  {
    if message == [] {
      return Rejected(NO_MESSAGE_ERROR);
    }
    var result := Chat(ix, message);
    ChatOutcomeDisplayable(ix, message);
    var response := GenerateResponse(message, result);
    reply := Answered(response, result);
  }
}
