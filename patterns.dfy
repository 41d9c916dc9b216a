/** The regular expressions of auto_p, seen through what their matches look
    like.  The regex engine itself is not modelled: an `Oracle` answers each
    `captures_iter` call, and `Sound` states what every answer satisfies —
    matches are in bounds, left to right and non-overlapping, carry the
    capture groups of their pattern, and show the pattern's fixed parts
    (the literal `<p>`, `</p>`, `<br>\n`, the tag names of the sets).  What
    is verified here is `replace_all`: how the matches and a replacement
    template rebuild the buffer. */
module Patterns {
  import opened Text
  import opened Tags

  /** One constructor per compiled regex of src/lib.rs (the literal ones,
      for `<p></p>`, for CR LF or CR and for the `<br>` variants, are scanned
      directly instead). */
  datatype Pattern =
    | Element(kind: Kind)   // (<kind ATTRS>)([\s\S]*?)(</kind\s*>)
    | AnyTag                // </?[^\s<]+(ATTRS)/?>
    | EndTagMissingStart    // (<BLOCK-EXCEPT-P ATTRS>)(\s*)([^<]+)</p>
    | StartTagMissingEnd    // <p>([^<]+)(\s*)(</BLOCK-EXCEPT-P\s*>)
    | LiInParagraph         // <p>(<li ATTRS>[\s\S]*)</p>
    | BlockAfterPStart      // <p>(</?BLOCK-OR-PRESERVED ATTRS>)
    | BlockBeforePEnd       // (</?BLOCK-OR-PRESERVED ATTRS>)</p>
    | BrAfterBlock          // (</?BLOCK ATTRS>)<br>\n
    | BrBeforeBlock         // <br>\n(</?BLOCK ATTRS>)

  /** A match: its whole span and the spans of its capture groups 1, 2, … */
  datatype Match = Match(whole: Span, groups: seq<Span>)

  function GroupCount(p: Pattern): nat {
    match p
    case Element(_) => 3
    case EndTagMissingStart => 3
    case StartTagMissingEnd => 3
    case _ => 1
  }

  /** `t` occurs at `at`, compared as the `(?i)` flag compares. */
  predicate LitI(s: String, at: nat, t: String) {
    at + |t| <= |s| && Fold(s[at..at + |t|]) == t
  }

  predicate NoLt(s: String, sp: Span)
    requires sp.end <= |s|
  {
    forall i :: sp.start <= i < sp.end ==> s[i] != '<'
  }

  predicate AllWhitespace(s: String, sp: Span)
    requires sp.end <= |s|
  {
    forall i :: sp.start <= i < sp.end ==> IsWhitespace(s[i])
  }

  /** Where the groups of a match of pattern `p` lie. */
  predicate Layout(p: Pattern, s: String, m: Match) {
    var w, g := m.whole, m.groups;
    w.start <= w.end <= |s| && |g| == GroupCount(p) &&
    (forall i :: 0 <= i < |g| ==> w.start <= g[i].start <= g[i].end <= w.end) &&
    match p
    case Element(k) =>
      g[0].start == w.start && g[0].end == g[1].start && g[1].end == g[2].start && g[2].end == w.end
    case AnyTag =>
      w.start + 2 <= g[0].start && g[0].end < w.end
    case EndTagMissingStart =>
      g[0].start == w.start && g[0].end == g[1].start && g[1].end == g[2].start &&
      g[2].start < g[2].end && g[2].end + 4 == w.end
    case StartTagMissingEnd =>
      // `[^<]+` is greedy and `\s*` cannot match `<`, so group 2 is always empty
      g[0].start == w.start + 3 && g[0].start < g[0].end &&
      g[0].end == g[1].start == g[1].end == g[2].start && g[2].end == w.end
    case LiInParagraph =>
      // group 1 holds at least `<li>`
      w.start + 11 <= w.end && g[0] == Span(w.start + 3, w.end - 4)
    case BlockAfterPStart =>
      g[0] == Span(w.start + 3, w.end)
    case BlockBeforePEnd =>
      w.start + 4 <= w.end && g[0] == Span(w.start, w.end - 4)
    case BrAfterBlock =>
      w.start + 5 <= w.end && g[0] == Span(w.start, w.end - 5)
    case BrBeforeBlock =>
      g[0] == Span(w.start + 5, w.end)
  }

  /** What a match of pattern `p` in `s` looks like: where its groups lie,
      its literal parts and the tags it contains. */
  predicate Shape(p: Pattern, s: String, m: Match) {
    Layout(p, s, m) &&
    var w, g := m.whole, m.groups;
    match p
    case Element(k) => TagAt(s, g[0], Opening) && TagAt(s, g[2], Closing)
    case AnyTag =>
      s[w.start] == '<' && s[w.end - 1] == '>' &&
      (forall i :: w.start < i < g[0].start ==> !IsWhitespace(s[i]) && s[i] != '<')
    case EndTagMissingStart =>
      LitI(s, g[2].end, "</p>") && TagAt(s, g[0], Opening) && AllWhitespace(s, g[1]) && NoLt(s, g[2])
    case StartTagMissingEnd =>
      LitI(s, w.start, "<p>") && NoLt(s, g[0]) && TagAt(s, g[2], Closing)
    case LiInParagraph =>
      LitI(s, w.start, "<p>") && LitI(s, w.end - 4, "</p>") && s[g[0].start] == '<'
    case BlockAfterPStart =>
      LitI(s, w.start, "<p>") && TagAt(s, g[0], OpeningOrClosing)
    case BlockBeforePEnd =>
      LitI(s, w.end - 4, "</p>") && TagAt(s, g[0], OpeningOrClosing)
    case BrAfterBlock =>
      LitI(s, w.end - 5, "<br>\n") && TagAt(s, g[0], OpeningOrClosing)
    case BrBeforeBlock =>
      LitI(s, w.start, "<br>\n") && TagAt(s, g[0], OpeningOrClosing)
  }

  /** The names of the tags a match of `p` contains: the element's own name,
      `li`, or a name of the block or preserved sets. */
  predicate Named(p: Pattern, s: String, m: Match) {
    var w, g := m.whole, m.groups;
    w.end <= |s| && |g| == GroupCount(p) && (forall i :: 0 <= i < |g| ==> g[i].end <= |s|) &&
    match p
    case Element(k) => NameIn(s, g[0], {KindName(k)}) && NameIn(s, g[2], {KindName(k)})
    case AnyTag => true
    case EndTagMissingStart => NameIn(s, g[0], BlocksExceptP)
    case StartTagMissingEnd => NameIn(s, g[2], BlocksExceptP)
    case LiInParagraph => StartsWithTag(s, g[0], "li")
    case BlockAfterPStart => NameIn(s, g[0], BlocksAndPreserved)
    case BlockBeforePEnd => NameIn(s, g[0], BlocksAndPreserved)
    case BrAfterBlock => NameIn(s, g[0], AllBlocks)
    case BrBeforeBlock => NameIn(s, g[0], AllBlocks)
  }

  lemma ShapeGroupsIn(p: Pattern, s: String, m: Match)
    requires Shape(p, s, m)
    ensures Layout(p, s, m) && GroupsIn(p, s, m)
  {
  }

  function Wholes(ms: seq<Match>): (spans: seq<Span>)
    ensures |spans| == |ms| && forall i :: 0 <= i < |ms| ==> spans[i] == ms[i].whole
  {
    seq(|ms|, i requires 0 <= i < |ms| => ms[i].whole)
  }

  /** The matches `captures_iter` reports for `p` on `s`. */
  predicate Fits(p: Pattern, s: String, ms: seq<Match>) {
    AscendingFrom(Wholes(ms), 0, |s|) &&
    forall i {:trigger Shape(p, s, ms[i])} :: 0 <= i < |ms| ==> Shape(p, s, ms[i])
  }

  /** The tag names in the matches `captures_iter` reports for `p` on `s`;
      kept apart from `Fits` because only statements about tag names need
      the name sets. */
  predicate AllNamed(p: Pattern, s: String, ms: seq<Match>) {
    forall i {:trigger Named(p, s, ms[i])} :: 0 <= i < |ms| ==> Named(p, s, ms[i])
  }

  /** The regex engine, answering each `captures_iter(pattern, buffer)`. */
  type Oracle = (Pattern, String) -> seq<Match>

  ghost predicate Sound(o: Oracle) {
    (forall p, s {:trigger Fits(p, s, o(p, s))} :: Fits(p, s, o(p, s))) &&
    (forall p, s {:trigger AllNamed(p, s, o(p, s))} :: AllNamed(p, s, o(p, s)))
  }

  /** A replacement template, read left to right: literal text and `$n`
      group references. */
  datatype Template = Done | Literal(text: String, rest: Template) | Capture(n: nat, rest: Template)

  /** Every `$n` of the template names a group of `p`. */
  predicate TemplateFor(p: Pattern, tpl: Template) {
    match tpl
    case Done => true
    case Literal(_, rest) => TemplateFor(p, rest)
    case Capture(n, rest) => 1 <= n <= GroupCount(p) && TemplateFor(p, rest)
  }

  /** The groups of `m` are those of `p` and lie within `s`. */
  predicate GroupsIn(p: Pattern, s: String, m: Match) {
    |m.groups| == GroupCount(p) && forall i :: 0 <= i < |m.groups| ==> m.groups[i].start <= m.groups[i].end <= |s|
  }

  /** The template with every `$n` replaced by the text of group n. */
  function Expand(p: Pattern, s: String, m: Match, tpl: Template): String
    requires GroupsIn(p, s, m) && TemplateFor(p, tpl)
  {
    match tpl
    case Done => []
    case Literal(t, rest) => t + Expand(p, s, m, rest)
    case Capture(n, rest) => s[m.groups[n - 1].start..m.groups[n - 1].end] + Expand(p, s, m, rest)
  }

  lemma FitsGroupsIn(p: Pattern, s: String, ms: seq<Match>)
    requires Fits(p, s, ms)
    ensures forall i :: 0 <= i < |ms| ==> Layout(p, s, ms[i]) && GroupsIn(p, s, ms[i])
  {
    forall i | 0 <= i < |ms| ensures Layout(p, s, ms[i]) && GroupsIn(p, s, ms[i]) {
      ShapeGroupsIn(p, s, ms[i]);
    }
  }

  function Expansions(p: Pattern, s: String, ms: seq<Match>, tpl: Template): (reps: seq<String>)
    requires (forall i :: 0 <= i < |ms| ==> GroupsIn(p, s, ms[i])) && TemplateFor(p, tpl)
    ensures |reps| == |ms| && forall i :: 0 <= i < |ms| ==> reps[i] == Expand(p, s, ms[i], tpl)
  {
    seq(|ms|, i requires 0 <= i < |ms| => Expand(p, s, ms[i], tpl))
  }

  /** `Regex::replace_all(s, template)` given the engine's matches `ms`. */
  function ReplaceAll(p: Pattern, s: String, ms: seq<Match>, tpl: Template): String
    requires Fits(p, s, ms) && TemplateFor(p, tpl)
  {
    FitsGroupsIn(p, s, ms);
    ReplaceSpans(s, Wholes(ms), Expansions(p, s, ms, tpl), 0)
  }

  /** When each match's expansion keeps the text of the match around an
      inner part and only rewrites that part, the pass is the rewriting of
      the inner parts alone. */
  lemma ReplaceAllEdits(p: Pattern, s: String, ms: seq<Match>, tpl: Template, inner: seq<Span>, edits: seq<String>)
    requires Fits(p, s, ms) && TemplateFor(p, tpl) && |inner| == |edits| == |ms|
    requires forall i :: 0 <= i < |ms| ==> GroupsIn(p, s, ms[i])
    requires forall i :: 0 <= i < |ms| ==>
      ms[i].whole.start <= inner[i].start <= inner[i].end <= ms[i].whole.end <= |s| &&
      Expand(p, s, ms[i], tpl) == s[ms[i].whole.start..inner[i].start] + edits[i] + s[inner[i].end..ms[i].whole.end]
    ensures AscendingFrom(inner, 0, |s|)
    ensures ReplaceAll(p, s, ms, tpl) == ReplaceSpans(s, inner, edits, 0)
  {
    ReplaceSpansNarrow(s, Wholes(ms), Expansions(p, s, ms, tpl), inner, edits, 0);
  }

  /** From the start of each `a[i]` to the end of `b[i]`. */
  function Hull(a: seq<Span>, b: seq<Span>): (r: seq<Span>)
    requires |a| == |b|
    ensures |r| == |a| && forall i :: 0 <= i < |a| ==> r[i] == Span(a[i].start, b[i].end)
  {
    seq(|a|, i requires 0 <= i < |a| => Span(a[i].start, b[i].end))
  }

  /** From the end of each `a[i]` to the start of `b[i]`. */
  function Between(a: seq<Span>, b: seq<Span>): (r: seq<Span>)
    requires |a| == |b|
    ensures |r| == |a| && forall i :: 0 <= i < |a| ==> r[i] == Span(a[i].end, b[i].start)
  {
    seq(|a|, i requires 0 <= i < |a| => Span(a[i].end, b[i].start))
  }

  lemma {:induction false} EdgesInterleave(a: seq<Span>, b: seq<Span>)
    requires |a| == |b|
    ensures Edges(Hull(a, b), Between(a, b)) == Interleave(a, b)
    decreases |a|
  {
    if a != [] {
      EdgesInterleave(a[1..], b[1..]);
      assert Hull(a, b)[1..] == Hull(a[1..], b[1..]);
      assert Between(a, b)[1..] == Between(a[1..], b[1..]);
    }
  }

  /** The text from the end of each `a[i]` to the start of `b[i]`, between
      `lefts[i]` and `rights[i]`. */
  function Middles(s: String, a: seq<Span>, b: seq<Span>, lefts: seq<String>, rights: seq<String>): (r: seq<String>)
    requires |a| == |b| == |lefts| == |rights|
    requires forall i :: 0 <= i < |a| ==> a[i].end <= b[i].start <= |s|
    ensures |r| == |a| && forall i :: 0 <= i < |a| ==> r[i] == lefts[i] + s[a[i].end..b[i].start] + rights[i]
  {
    seq(|a|, i requires 0 <= i < |a| => lefts[i] + s[a[i].end..b[i].start] + rights[i])
  }

  lemma Regroup3(x: String, l: String, m: String, r: String, y: String)
    ensures x + l + m + r + y == x + (l + m + r) + y
  {
  }

  /** When each match's expansion is its own text with a span `a[i]`
      replaced by `lefts[i]` and a later span `b[i]` replaced by
      `rights[i]`, the pass is the rewriting of those spans alone. */
  lemma ReplaceAllAround(p: Pattern, s: String, ms: seq<Match>, tpl: Template, a: seq<Span>, b: seq<Span>,
                         lefts: seq<String>, rights: seq<String>)
    requires Fits(p, s, ms) && TemplateFor(p, tpl) && |a| == |b| == |lefts| == |rights| == |ms|
    requires forall i :: 0 <= i < |ms| ==> GroupsIn(p, s, ms[i])
    requires forall i :: 0 <= i < |ms| ==>
      ms[i].whole.start <= a[i].start <= a[i].end <= b[i].start <= b[i].end <= ms[i].whole.end <= |s| &&
      Expand(p, s, ms[i], tpl) ==
        s[ms[i].whole.start..a[i].start] + lefts[i] + s[a[i].end..b[i].start] + rights[i] + s[b[i].end..ms[i].whole.end]
    ensures AscendingFrom(Interleave(a, b), 0, |s|)
    ensures ReplaceAll(p, s, ms, tpl) == ReplaceSpans(s, Interleave(a, b), Interleave(lefts, rights), 0)
  {
    var inner, kept := Hull(a, b), Between(a, b);
    var edits := Middles(s, a, b, lefts, rights);
    forall i | 0 <= i < |ms|
      ensures ms[i].whole.start <= inner[i].start <= inner[i].end <= ms[i].whole.end <= |s|
      ensures Expand(p, s, ms[i], tpl) == s[ms[i].whole.start..inner[i].start] + edits[i] + s[inner[i].end..ms[i].whole.end]
    {
      Regroup3(s[ms[i].whole.start..a[i].start], lefts[i], s[a[i].end..b[i].start], rights[i], s[b[i].end..ms[i].whole.end]);
    }
    ReplaceAllEdits(p, s, ms, tpl, inner, edits);
    ReplaceSpansEdges(s, inner, edits, kept, lefts, rights, 0);
    EdgesInterleave(a, b);
  }

  /** `replace_all` with the oracle's matches. */
  function Rewrite(o: Oracle, p: Pattern, s: String, tpl: Template): String
    requires Sound(o) && TemplateFor(p, tpl)
  {
    ReplaceAll(p, s, o(p, s), tpl)
  }

  /** When every replacement is non-empty and does not start with a newline,
      a buffer that does not start with a newline keeps not doing so. */
  lemma LeadingNewlineNotIntroduced(s: String, spans: seq<Span>, reps: seq<String>)
    requires |reps| == |spans| && AscendingFrom(spans, 0, |s|)
    requires forall i :: 0 <= i < |reps| ==> reps[i] != [] && reps[i][0] != '\n'
    requires s == [] || s[0] != '\n'
    ensures var r := ReplaceSpans(s, spans, reps, 0); r == [] || r[0] != '\n'
  {
    if spans != [] {
      var rest := ReplaceSpans(s, spans[1..], reps[1..], spans[0].end);
      var head := s[..spans[0].start];
      assert ReplaceSpans(s, spans, reps, 0) == head + reps[0] + rest;
      assert head != [] ==> head[0] == s[0];
    }
  }

  /** A template that starts with group 1, where group 1 starts the match
      with a tag, or with a literal starting with `<`, expands to a text
      starting with `<`. */
  lemma ExpandStartsWithLt(p: Pattern, s: String, m: Match, tpl: Template)
    requires Shape(p, s, m) && TemplateFor(p, tpl) && !tpl.Done?
    requires tpl.Literal? ==> tpl.text != [] && tpl.text[0] == '<'
    requires tpl.Capture? ==>
      (tpl.n == 1 &&
       (p.EndTagMissingStart? || p.LiInParagraph? || p.BlockAfterPStart? || p.BlockBeforePEnd? ||
        p.BrAfterBlock? || p.BrBeforeBlock?))
    ensures var e := Expand(p, s, m, tpl); e != [] && e[0] == '<'
  {
  }

  /** A pass whose every expansion starts with `<` keeps a buffer that does
      not start with a newline from starting with one. */
  lemma ReplaceAllKeepsFirst(p: Pattern, s: String, ms: seq<Match>, tpl: Template)
    requires Fits(p, s, ms) && TemplateFor(p, tpl) && !tpl.Done?
    requires tpl.Literal? ==> tpl.text != [] && tpl.text[0] == '<'
    requires tpl.Capture? ==>
      (tpl.n == 1 &&
       (p.EndTagMissingStart? || p.LiInParagraph? || p.BlockAfterPStart? || p.BlockBeforePEnd? ||
        p.BrAfterBlock? || p.BrBeforeBlock?))
    requires s == [] || s[0] != '\n'
    ensures var r := ReplaceAll(p, s, ms, tpl); r == [] || r[0] != '\n'
  {
    FitsGroupsIn(p, s, ms);
    var reps := Expansions(p, s, ms, tpl);
    forall i | 0 <= i < |reps| ensures reps[i] != [] && reps[i][0] != '\n' {
      assert Shape(p, s, ms[i]);
      ExpandStartsWithLt(p, s, ms[i], tpl);
    }
    LeadingNewlineNotIntroduced(s, Wholes(ms), reps);
  }
  /** `ReplaceAllKeepsFirst` for the oracle's own matches. */
  lemma RewriteKeepsFirst(o: Oracle, p: Pattern, s: String, tpl: Template)
    requires Sound(o) && TemplateFor(p, tpl) && !tpl.Done?
    requires tpl.Literal? ==> tpl.text != [] && tpl.text[0] == '<'
    requires tpl.Capture? ==> (tpl.n == 1 && (p.EndTagMissingStart? || p.LiInParagraph? || p.BlockAfterPStart? || p.BlockBeforePEnd? || p.BrAfterBlock? || p.BrBeforeBlock?))
    requires s == [] || s[0] != '\n'
    ensures var r := Rewrite(o, p, s, tpl); r == [] || r[0] != '\n'
  {
    assert Fits(p, s, o(p, s));
    ReplaceAllKeepsFirst(p, s, o(p, s), tpl);
  }

}
