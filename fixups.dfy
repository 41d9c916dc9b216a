/** The fixup passes between wrapping and line breaks, and the two passes
    that take `<br>` away next to block tags.  Each is one `replace_all`;
    the lemma stated for each pass says which parts of every match it
    rewrites and into what, everything else being copied unchanged, and
    what the rewritten parts were. */
module Fixups {
  import opened Text
  import opened Tags
  import opened Patterns

  /** `$1$2<p>$3</p>` */
  const MissingStartTemplate: Template := Capture(1, Capture(2, Literal("<p>", Capture(3, Literal("</p>", Done)))))
  /** `<p>$1</p>$2$3` */
  const MissingEndTemplate: Template := Literal("<p>", Capture(1, Literal("</p>", Capture(2, Capture(3, Done)))))
  /** `$1` */
  const GroupOneTemplate: Template := Capture(1, Done)
  /** `$1\n` */
  const BrAfterTemplate: Template := Capture(1, Literal("\n", Done))
  /** `\n$1` */
  const BrBeforeTemplate: Template := Literal("\n", Capture(1, Done))

  /** Group `n + 1` of a match. */
  function GroupOf(m: Match, n: nat): Span {
    if n < |m.groups| then m.groups[n] else m.whole
  }

  /** Group `n + 1` of each match. */
  function GroupSpans(ms: seq<Match>, n: nat): (r: seq<Span>)
    ensures |r| == |ms| && forall i :: 0 <= i < |ms| ==> r[i] == GroupOf(ms[i], n)
  {
    seq(|ms|, i requires 0 <= i < |ms| => GroupOf(ms[i], n))
  }

  /** From the start of each match to the start of group `n + 1`. */
  function Before(ms: seq<Match>, n: nat): (r: seq<Span>)
    ensures |r| == |ms| && forall i :: 0 <= i < |ms| ==> r[i] == Span(ms[i].whole.start, GroupOf(ms[i], n).start)
  {
    seq(|ms|, i requires 0 <= i < |ms| => Span(ms[i].whole.start, GroupOf(ms[i], n).start))
  }

  /** From the end of group `n + 1` to the end of each match. */
  function After(ms: seq<Match>, n: nat): (r: seq<Span>)
    ensures |r| == |ms| && forall i :: 0 <= i < |ms| ==> r[i] == Span(GroupOf(ms[i], n).end, ms[i].whole.end)
  {
    seq(|ms|, i requires 0 <= i < |ms| => Span(GroupOf(ms[i], n).end, ms[i].whole.end))
  }

  /** The empty span at the start of group `n + 1` of each match. */
  function AtGroupStart(ms: seq<Match>, n: nat): (r: seq<Span>)
    ensures |r| == |ms| && forall i :: 0 <= i < |ms| ==> r[i] == Span(GroupOf(ms[i], n).start, GroupOf(ms[i], n).start)
  {
    seq(|ms|, i requires 0 <= i < |ms| => Span(GroupOf(ms[i], n).start, GroupOf(ms[i], n).start))
  }

  /** The empty span at the end of group `n + 1` of each match. */
  function AtGroupEnd(ms: seq<Match>, n: nat): (r: seq<Span>)
    ensures |r| == |ms| && forall i :: 0 <= i < |ms| ==> r[i] == Span(GroupOf(ms[i], n).end, GroupOf(ms[i], n).end)
  {
    seq(|ms|, i requires 0 <= i < |ms| => Span(GroupOf(ms[i], n).end, GroupOf(ms[i], n).end))
  }

  /** The text of `sp` folded as `(?i)` folds it. */
  function FoldedText(s: String, sp: Span): String
    requires sp.start <= sp.end <= |s|
  {
    Fold(s[sp.start..sp.end])
  }

  /** All matches of `p` have their layout and their groups in `s`. */
  predicate AllLaidOut(p: Pattern, s: String, ms: seq<Match>) {
    forall j :: 0 <= j < |ms| ==> Layout(p, s, ms[j]) && GroupsIn(p, s, ms[j])
  }

  // ---------------------------------------------------------------------
  // Regrouping concatenations, over plain strings

  lemma RegroupStart(a: String, b: String, x: String, c: String, y: String)
    ensures a + (b + (x + (c + (y + [])))) == (a + b) + x + c + y + []
  {
    assert a + (b + (x + (c + (y + [])))) == (a + b) + (x + (c + y));
  }

  lemma RegroupEnd(x: String, a: String, y: String, b: String, c: String)
    ensures x + (a + (y + (b + (c + [])))) == [] + x + a + y + (b + c)
  {
    assert x + (a + (y + (b + (c + [])))) == (x + a + y) + (b + c);
  }

  lemma RegroupOne(a: String)
    ensures a + [] == [] + [] + a + [] + []
  {
  }

  lemma RegroupSuffix(a: String, x: String)
    ensures a + (x + []) == a + x + []
  {
  }

  lemma RegroupPrefix(x: String, a: String)
    ensures x + (a + []) == [] + x + a
  {
  }

  // ---------------------------------------------------------------------
  // src/lib.rs:261, a block's opening tag, white space and text without `<`
  // followed by `</p>`: `$1$2<p>$3</p>`

  lemma MissingStartMatch(s: String, m: Match)
    requires Layout(EndTagMissingStart, s, m)
    ensures TemplateFor(EndTagMissingStart, MissingStartTemplate)
    ensures var w, k := m.whole, GroupOf(m, 2);
      w.start <= k.start <= k.end <= w.end <= |s| &&
      Expand(EndTagMissingStart, s, m, MissingStartTemplate) ==
        s[w.start..k.start] + "<p>" + s[k.start..k.end] + "</p>" + s[w.end..w.end]
  {
    var p, t, g := EndTagMissingStart, MissingStartTemplate, m.groups;
    var t0, t1, t2 := s[g[0].start..g[0].end], s[g[1].start..g[1].end], s[g[2].start..g[2].end];
    assert Expand(p, s, m, t.rest.rest.rest.rest) == "</p>" + [];
    assert Expand(p, s, m, t.rest.rest.rest) == t2 + ("</p>" + []);
    assert Expand(p, s, m, t.rest.rest) == "<p>" + (t2 + ("</p>" + []));
    assert Expand(p, s, m, t.rest) == t1 + ("<p>" + (t2 + ("</p>" + [])));
    assert Expand(p, s, m, t) == t0 + (t1 + ("<p>" + (t2 + ("</p>" + []))));
    RegroupStart(t0, t1, "<p>", t2, "</p>");
    assert s[m.whole.start..g[2].start] == t0 + t1;
    assert s[m.whole.end..m.whole.end] == [];
    assert GroupOf(m, 2) == g[2];
  }

  lemma MissingStartAll(s: String, ms: seq<Match>)
    requires AllLaidOut(EndTagMissingStart, s, ms)
    ensures TemplateFor(EndTagMissingStart, MissingStartTemplate)
    ensures forall i :: 0 <= i < |ms| ==>
      ms[i].whole.start <= AtGroupStart(ms, 2)[i].start <= AtGroupStart(ms, 2)[i].end <= After(ms, 2)[i].start <= After(ms, 2)[i].end <= ms[i].whole.end <= |s| &&
      Expand(EndTagMissingStart, s, ms[i], MissingStartTemplate) ==
        s[ms[i].whole.start..AtGroupStart(ms, 2)[i].start] + Repeat("<p>", |ms|)[i] + s[AtGroupStart(ms, 2)[i].end..After(ms, 2)[i].start] + Repeat("</p>", |ms|)[i] + s[After(ms, 2)[i].end..ms[i].whole.end]
  {
    forall i | 0 <= i < |ms|
      ensures ms[i].whole.start <= AtGroupStart(ms, 2)[i].start <= AtGroupStart(ms, 2)[i].end <= After(ms, 2)[i].start <= After(ms, 2)[i].end <= ms[i].whole.end <= |s| &&
        Expand(EndTagMissingStart, s, ms[i], MissingStartTemplate) ==
          s[ms[i].whole.start..AtGroupStart(ms, 2)[i].start] + Repeat("<p>", |ms|)[i] + s[AtGroupStart(ms, 2)[i].end..After(ms, 2)[i].start] + Repeat("</p>", |ms|)[i] + s[After(ms, 2)[i].end..ms[i].whole.end]
    {
      MissingStartMatch(s, ms[i]);
    }
  }

  /** What follows the text of each match is `</p>` in some case. */
  lemma MissingStartContent(s: String, ms: seq<Match>)
    requires Fits(EndTagMissingStart, s, ms)
    ensures forall i :: 0 <= i < |ms| ==>
      After(ms, 2)[i].start <= After(ms, 2)[i].end <= |s| && FoldedText(s, After(ms, 2)[i]) == "</p>"
  {
    forall i | 0 <= i < |ms|
      ensures After(ms, 2)[i].start <= After(ms, 2)[i].end <= |s| && FoldedText(s, After(ms, 2)[i]) == "</p>"
    {
      assert Shape(EndTagMissingStart, s, ms[i]);
    }
  }

  /** The pass (src/lib.rs:261): `<p>` is inserted before the text of each
      match, and the `</p>` that follows the text, whatever its case, is
      written `</p>`; nothing else changes. */
  lemma MissingStartInserts(s: String, ms: seq<Match>)
    requires Fits(EndTagMissingStart, s, ms)
    ensures TemplateFor(EndTagMissingStart, MissingStartTemplate)
    ensures AscendingFrom(Interleave(AtGroupStart(ms, 2), After(ms, 2)), 0, |s|)
    ensures ReplaceAll(EndTagMissingStart, s, ms, MissingStartTemplate) ==
      ReplaceSpans(s, Interleave(AtGroupStart(ms, 2), After(ms, 2)),
                   Interleave(Repeat("<p>", |ms|), Repeat("</p>", |ms|)), 0)
  {
    FitsGroupsIn(EndTagMissingStart, s, ms);
    MissingStartAll(s, ms);
    ReplaceAllAround(EndTagMissingStart, s, ms, MissingStartTemplate, AtGroupStart(ms, 2), After(ms, 2),
                     Repeat("<p>", |ms|), Repeat("</p>", |ms|));
  }

  // ---------------------------------------------------------------------
  // src/lib.rs:267, `<p>`, text without `<` and a block's closing tag:
  // `<p>$1</p>$2$3`

  lemma MissingEndMatch(s: String, m: Match)
    requires Layout(StartTagMissingEnd, s, m)
    ensures TemplateFor(StartTagMissingEnd, MissingEndTemplate)
    ensures var w, k := m.whole, GroupOf(m, 0);
      w.start <= k.start <= k.end <= w.end <= |s| &&
      Expand(StartTagMissingEnd, s, m, MissingEndTemplate) ==
        s[w.start..w.start] + "<p>" + s[k.start..k.end] + "</p>" + s[k.end..w.end]
  {
    var p, t, g := StartTagMissingEnd, MissingEndTemplate, m.groups;
    var t0, t1, t2 := s[g[0].start..g[0].end], s[g[1].start..g[1].end], s[g[2].start..g[2].end];
    assert Expand(p, s, m, t.rest.rest.rest.rest) == t2 + [];
    assert Expand(p, s, m, t.rest.rest.rest) == t1 + (t2 + []);
    assert Expand(p, s, m, t.rest.rest) == "</p>" + (t1 + (t2 + []));
    assert Expand(p, s, m, t.rest) == t0 + ("</p>" + (t1 + (t2 + [])));
    assert Expand(p, s, m, t) == "<p>" + (t0 + ("</p>" + (t1 + (t2 + []))));
    RegroupEnd("<p>", t0, "</p>", t1, t2);
    assert s[g[0].end..m.whole.end] == t1 + t2;
    assert s[m.whole.start..m.whole.start] == [];
    assert GroupOf(m, 0) == g[0];
  }

  lemma MissingEndAll(s: String, ms: seq<Match>)
    requires AllLaidOut(StartTagMissingEnd, s, ms)
    ensures TemplateFor(StartTagMissingEnd, MissingEndTemplate)
    ensures forall i :: 0 <= i < |ms| ==>
      ms[i].whole.start <= Before(ms, 0)[i].start <= Before(ms, 0)[i].end <= AtGroupEnd(ms, 0)[i].start <= AtGroupEnd(ms, 0)[i].end <= ms[i].whole.end <= |s| &&
      Expand(StartTagMissingEnd, s, ms[i], MissingEndTemplate) ==
        s[ms[i].whole.start..Before(ms, 0)[i].start] + Repeat("<p>", |ms|)[i] + s[Before(ms, 0)[i].end..AtGroupEnd(ms, 0)[i].start] + Repeat("</p>", |ms|)[i] + s[AtGroupEnd(ms, 0)[i].end..ms[i].whole.end]
  {
    forall i | 0 <= i < |ms|
      ensures ms[i].whole.start <= Before(ms, 0)[i].start <= Before(ms, 0)[i].end <= AtGroupEnd(ms, 0)[i].start <= AtGroupEnd(ms, 0)[i].end <= ms[i].whole.end <= |s| &&
        Expand(StartTagMissingEnd, s, ms[i], MissingEndTemplate) ==
          s[ms[i].whole.start..Before(ms, 0)[i].start] + Repeat("<p>", |ms|)[i] + s[Before(ms, 0)[i].end..AtGroupEnd(ms, 0)[i].start] + Repeat("</p>", |ms|)[i] + s[AtGroupEnd(ms, 0)[i].end..ms[i].whole.end]
    {
      MissingEndMatch(s, ms[i]);
    }
  }

  /** What precedes the text of each match is `<p>` in some case. */
  lemma MissingEndContent(s: String, ms: seq<Match>)
    requires Fits(StartTagMissingEnd, s, ms)
    ensures forall i :: 0 <= i < |ms| ==>
      Before(ms, 0)[i].start <= Before(ms, 0)[i].end <= |s| && FoldedText(s, Before(ms, 0)[i]) == "<p>"
  {
    forall i | 0 <= i < |ms|
      ensures Before(ms, 0)[i].start <= Before(ms, 0)[i].end <= |s| && FoldedText(s, Before(ms, 0)[i]) == "<p>"
    {
      assert Shape(StartTagMissingEnd, s, ms[i]);
    }
  }

  /** The pass (src/lib.rs:267): the `<p>` before the text of each match,
      whatever its case, is written `<p>`, and `</p>` is inserted right
      after the text, before the block's closing tag; nothing else changes. */
  lemma MissingEndInserts(s: String, ms: seq<Match>)
    requires Fits(StartTagMissingEnd, s, ms)
    ensures TemplateFor(StartTagMissingEnd, MissingEndTemplate)
    ensures AscendingFrom(Interleave(Before(ms, 0), AtGroupEnd(ms, 0)), 0, |s|)
    ensures ReplaceAll(StartTagMissingEnd, s, ms, MissingEndTemplate) ==
      ReplaceSpans(s, Interleave(Before(ms, 0), AtGroupEnd(ms, 0)),
                   Interleave(Repeat("<p>", |ms|), Repeat("</p>", |ms|)), 0)
  {
    FitsGroupsIn(StartTagMissingEnd, s, ms);
    MissingEndAll(s, ms);
    ReplaceAllAround(StartTagMissingEnd, s, ms, MissingEndTemplate, Before(ms, 0), AtGroupEnd(ms, 0),
                     Repeat("<p>", |ms|), Repeat("</p>", |ms|));
  }

  // ---------------------------------------------------------------------
  // src/lib.rs:273, `<p>` around a text starting with `<li`: `$1`

  lemma LiMatch(s: String, m: Match)
    requires Layout(LiInParagraph, s, m)
    ensures TemplateFor(LiInParagraph, GroupOneTemplate)
    ensures var w, k := m.whole, GroupOf(m, 0);
      w.start <= k.start <= k.end <= w.end <= |s| &&
      Expand(LiInParagraph, s, m, GroupOneTemplate) == s[w.start..w.start] + [] + s[k.start..k.end] + [] + s[w.end..w.end]
  {
    var g := m.groups;
    assert Expand(LiInParagraph, s, m, GroupOneTemplate) == s[g[0].start..g[0].end] + [];
    assert s[m.whole.start..m.whole.start] == [] && s[m.whole.end..m.whole.end] == [];
    RegroupOne(s[g[0].start..g[0].end]);
    assert GroupOf(m, 0) == g[0];
  }

  lemma LiAll(s: String, ms: seq<Match>)
    requires AllLaidOut(LiInParagraph, s, ms)
    ensures TemplateFor(LiInParagraph, GroupOneTemplate)
    ensures forall i :: 0 <= i < |ms| ==>
      ms[i].whole.start <= Before(ms, 0)[i].start <= Before(ms, 0)[i].end <= After(ms, 0)[i].start <= After(ms, 0)[i].end <= ms[i].whole.end <= |s| &&
      Expand(LiInParagraph, s, ms[i], GroupOneTemplate) ==
        s[ms[i].whole.start..Before(ms, 0)[i].start] + Repeat([], |ms|)[i] + s[Before(ms, 0)[i].end..After(ms, 0)[i].start] + Repeat([], |ms|)[i] + s[After(ms, 0)[i].end..ms[i].whole.end]
  {
    forall i | 0 <= i < |ms|
      ensures ms[i].whole.start <= Before(ms, 0)[i].start <= Before(ms, 0)[i].end <= After(ms, 0)[i].start <= After(ms, 0)[i].end <= ms[i].whole.end <= |s| &&
        Expand(LiInParagraph, s, ms[i], GroupOneTemplate) ==
          s[ms[i].whole.start..Before(ms, 0)[i].start] + Repeat([], |ms|)[i] + s[Before(ms, 0)[i].end..After(ms, 0)[i].start] + Repeat([], |ms|)[i] + s[After(ms, 0)[i].end..ms[i].whole.end]
    {
      LiMatch(s, ms[i]);
    }
  }

  /** Around the kept text of each match stand `<p>` and `</p>`, in some
      case, and the kept text starts with an `<li` tag. */
  lemma LiContent(s: String, ms: seq<Match>)
    requires Fits(LiInParagraph, s, ms) && AllNamed(LiInParagraph, s, ms)
    ensures forall i :: 0 <= i < |ms| ==>
      Before(ms, 0)[i].start <= Before(ms, 0)[i].end <= |s| && FoldedText(s, Before(ms, 0)[i]) == "<p>" &&
      After(ms, 0)[i].start <= After(ms, 0)[i].end <= |s| && FoldedText(s, After(ms, 0)[i]) == "</p>" &&
      GroupSpans(ms, 0)[i].end <= |s| && StartsWithTag(s, GroupSpans(ms, 0)[i], "li")
  {
    forall i | 0 <= i < |ms|
      ensures Before(ms, 0)[i].start <= Before(ms, 0)[i].end <= |s| && FoldedText(s, Before(ms, 0)[i]) == "<p>"
      ensures After(ms, 0)[i].start <= After(ms, 0)[i].end <= |s| && FoldedText(s, After(ms, 0)[i]) == "</p>"
      ensures GroupSpans(ms, 0)[i].end <= |s| && StartsWithTag(s, GroupSpans(ms, 0)[i], "li")
    {
      assert Shape(LiInParagraph, s, ms[i]);
      assert Named(LiInParagraph, s, ms[i]);
    }
  }

  /** The pass (src/lib.rs:273): the `<p>` and `</p>` around each `<li`
      text are deleted; nothing else changes. */
  lemma LiUnwraps(s: String, ms: seq<Match>)
    requires Fits(LiInParagraph, s, ms)
    ensures TemplateFor(LiInParagraph, GroupOneTemplate)
    ensures AscendingFrom(Interleave(Before(ms, 0), After(ms, 0)), 0, |s|)
    ensures ReplaceAll(LiInParagraph, s, ms, GroupOneTemplate) ==
      ReplaceSpans(s, Interleave(Before(ms, 0), After(ms, 0)), Repeat([], 2 * |ms|), 0)
  {
    FitsGroupsIn(LiInParagraph, s, ms);
    LiAll(s, ms);
    ReplaceAllAround(LiInParagraph, s, ms, GroupOneTemplate, Before(ms, 0), After(ms, 0),
                     Repeat([], |ms|), Repeat([], |ms|));
    InterleaveEmpty(|ms|);
  }

  lemma {:induction false} InterleaveEmpty(n: nat)
    ensures Interleave(Repeat([], n), Repeat([], n)) == Repeat([], 2 * n)
  {
    if n > 0 {
      InterleaveEmpty(n - 1);
      assert Repeat([], n)[1..] == Repeat([], n - 1);
      assert Repeat([], 2 * n) == [[], []] + Repeat([], 2 * (n - 1));
    }
  }

  // ---------------------------------------------------------------------
  // src/lib.rs:279, `<p>` right before a block or preserved tag: `$1`

  lemma PBeforeBlockMatch(s: String, m: Match)
    requires Layout(BlockAfterPStart, s, m)
    ensures TemplateFor(BlockAfterPStart, GroupOneTemplate)
    ensures var w, k := m.whole, GroupOf(m, 0);
      w.start <= k.start <= k.end == w.end <= |s| &&
      Expand(BlockAfterPStart, s, m, GroupOneTemplate) == s[w.start..w.start] + [] + s[k.start..w.end]
  {
    var g := m.groups;
    assert Expand(BlockAfterPStart, s, m, GroupOneTemplate) == s[g[0].start..g[0].end] + [];
    assert s[m.whole.start..m.whole.start] == [];
    RegroupPrefix([], s[g[0].start..g[0].end]);
    assert GroupOf(m, 0) == g[0];
  }

  lemma PBeforeBlockAll(s: String, ms: seq<Match>)
    requires AllLaidOut(BlockAfterPStart, s, ms)
    ensures TemplateFor(BlockAfterPStart, GroupOneTemplate)
    ensures forall i :: 0 <= i < |ms| ==>
      ms[i].whole.start <= Before(ms, 0)[i].start <= Before(ms, 0)[i].end <= ms[i].whole.end <= |s| &&
      Expand(BlockAfterPStart, s, ms[i], GroupOneTemplate) == s[ms[i].whole.start..Before(ms, 0)[i].start] + Repeat([], |ms|)[i] + s[Before(ms, 0)[i].end..ms[i].whole.end]
  {
    forall i | 0 <= i < |ms|
      ensures ms[i].whole.start <= Before(ms, 0)[i].start <= Before(ms, 0)[i].end <= ms[i].whole.end <= |s| &&
      Expand(BlockAfterPStart, s, ms[i], GroupOneTemplate) == s[ms[i].whole.start..Before(ms, 0)[i].start] + Repeat([], |ms|)[i] + s[Before(ms, 0)[i].end..ms[i].whole.end]
    {
      PBeforeBlockMatch(s, ms[i]);
    }
  }


  /** The deleted text is `<p>` in some case, and a block or preserved tag
      follows it. */
  lemma PBeforeBlockContent(s: String, ms: seq<Match>)
    requires Fits(BlockAfterPStart, s, ms) && AllNamed(BlockAfterPStart, s, ms)
    ensures forall i :: 0 <= i < |ms| ==>
      Before(ms, 0)[i].start <= Before(ms, 0)[i].end <= |s| && FoldedText(s, Before(ms, 0)[i]) == "<p>" &&
      GroupSpans(ms, 0)[i].end <= |s| && TagAt(s, GroupSpans(ms, 0)[i], OpeningOrClosing) &&
      NameIn(s, GroupSpans(ms, 0)[i], BlocksAndPreserved)
  {
    forall i | 0 <= i < |ms|
      ensures Before(ms, 0)[i].start <= Before(ms, 0)[i].end <= |s| && FoldedText(s, Before(ms, 0)[i]) == "<p>"
      ensures GroupSpans(ms, 0)[i].end <= |s| && TagAt(s, GroupSpans(ms, 0)[i], OpeningOrClosing)
      ensures NameIn(s, GroupSpans(ms, 0)[i], BlocksAndPreserved)
    {
      assert Shape(BlockAfterPStart, s, ms[i]);
      assert Named(BlockAfterPStart, s, ms[i]);
    }
  }

  /** The pass (src/lib.rs:279): every `<p>` directly before a block or
      preserved tag is deleted; nothing else changes. */
  lemma PBeforeBlockDeletes(s: String, ms: seq<Match>)
    requires Fits(BlockAfterPStart, s, ms)
    ensures TemplateFor(BlockAfterPStart, GroupOneTemplate)
    ensures AscendingFrom(Before(ms, 0), 0, |s|)
    ensures ReplaceAll(BlockAfterPStart, s, ms, GroupOneTemplate) == ReplaceSpans(s, Before(ms, 0), Repeat([], |ms|), 0)
  {
    FitsGroupsIn(BlockAfterPStart, s, ms);
    PBeforeBlockAll(s, ms);
    ReplaceAllEdits(BlockAfterPStart, s, ms, GroupOneTemplate, Before(ms, 0), Repeat([], |ms|));
  }

  // ---------------------------------------------------------------------
  // src/lib.rs:285, `</p>` right after a block or preserved tag: `$1`

  lemma PAfterBlockMatch(s: String, m: Match)
    requires Layout(BlockBeforePEnd, s, m)
    ensures TemplateFor(BlockBeforePEnd, GroupOneTemplate)
    ensures var w, k := m.whole, GroupOf(m, 0);
      w.start == k.start <= k.end <= w.end <= |s| &&
      Expand(BlockBeforePEnd, s, m, GroupOneTemplate) == s[w.start..k.end] + [] + s[w.end..w.end]
  {
    var g := m.groups;
    assert Expand(BlockBeforePEnd, s, m, GroupOneTemplate) == s[g[0].start..g[0].end] + [];
    assert s[m.whole.end..m.whole.end] == [];
    assert GroupOf(m, 0) == g[0];
  }

  lemma PAfterBlockAll(s: String, ms: seq<Match>)
    requires AllLaidOut(BlockBeforePEnd, s, ms)
    ensures TemplateFor(BlockBeforePEnd, GroupOneTemplate)
    ensures forall i :: 0 <= i < |ms| ==>
      ms[i].whole.start <= After(ms, 0)[i].start <= After(ms, 0)[i].end <= ms[i].whole.end <= |s| &&
      Expand(BlockBeforePEnd, s, ms[i], GroupOneTemplate) == s[ms[i].whole.start..After(ms, 0)[i].start] + Repeat([], |ms|)[i] + s[After(ms, 0)[i].end..ms[i].whole.end]
  {
    forall i | 0 <= i < |ms|
      ensures ms[i].whole.start <= After(ms, 0)[i].start <= After(ms, 0)[i].end <= ms[i].whole.end <= |s| &&
      Expand(BlockBeforePEnd, s, ms[i], GroupOneTemplate) == s[ms[i].whole.start..After(ms, 0)[i].start] + Repeat([], |ms|)[i] + s[After(ms, 0)[i].end..ms[i].whole.end]
    {
      PAfterBlockMatch(s, ms[i]);
    }
  }


  /** The deleted text is `</p>` in some case, right after a block or
      preserved tag. */
  lemma PAfterBlockContent(s: String, ms: seq<Match>)
    requires Fits(BlockBeforePEnd, s, ms) && AllNamed(BlockBeforePEnd, s, ms)
    ensures forall i :: 0 <= i < |ms| ==>
      After(ms, 0)[i].start <= After(ms, 0)[i].end <= |s| && FoldedText(s, After(ms, 0)[i]) == "</p>" &&
      GroupSpans(ms, 0)[i].end <= |s| && TagAt(s, GroupSpans(ms, 0)[i], OpeningOrClosing) &&
      NameIn(s, GroupSpans(ms, 0)[i], BlocksAndPreserved)
  {
    forall i | 0 <= i < |ms|
      ensures After(ms, 0)[i].start <= After(ms, 0)[i].end <= |s| && FoldedText(s, After(ms, 0)[i]) == "</p>"
      ensures GroupSpans(ms, 0)[i].end <= |s| && TagAt(s, GroupSpans(ms, 0)[i], OpeningOrClosing)
      ensures NameIn(s, GroupSpans(ms, 0)[i], BlocksAndPreserved)
    {
      assert Shape(BlockBeforePEnd, s, ms[i]);
      assert Named(BlockBeforePEnd, s, ms[i]);
    }
  }

  /** The pass (src/lib.rs:285): every `</p>` directly after a block or
      preserved tag is deleted; nothing else changes. */
  lemma PAfterBlockDeletes(s: String, ms: seq<Match>)
    requires Fits(BlockBeforePEnd, s, ms)
    ensures TemplateFor(BlockBeforePEnd, GroupOneTemplate)
    ensures AscendingFrom(After(ms, 0), 0, |s|)
    ensures ReplaceAll(BlockBeforePEnd, s, ms, GroupOneTemplate) == ReplaceSpans(s, After(ms, 0), Repeat([], |ms|), 0)
  {
    FitsGroupsIn(BlockBeforePEnd, s, ms);
    PAfterBlockAll(s, ms);
    ReplaceAllEdits(BlockBeforePEnd, s, ms, GroupOneTemplate, After(ms, 0), Repeat([], |ms|));
  }

  // ---------------------------------------------------------------------
  // src/lib.rs:346, `<br>` and a newline right after a block tag: `$1\n`

  lemma BrAfterBlockMatch(s: String, m: Match)
    requires Layout(BrAfterBlock, s, m)
    ensures TemplateFor(BrAfterBlock, BrAfterTemplate)
    ensures var w, k := m.whole, GroupOf(m, 0);
      w.start == k.start <= k.end <= w.end <= |s| &&
      Expand(BrAfterBlock, s, m, BrAfterTemplate) == s[w.start..k.end] + "\n" + s[w.end..w.end]
  {
    var g, t := m.groups, BrAfterTemplate;
    assert Expand(BrAfterBlock, s, m, t.rest) == "\n" + [];
    assert Expand(BrAfterBlock, s, m, t) == s[g[0].start..g[0].end] + ("\n" + []);
    RegroupSuffix(s[g[0].start..g[0].end], "\n");
    assert s[m.whole.end..m.whole.end] == [];
    assert GroupOf(m, 0) == g[0];
  }

  lemma BrAfterBlockAll(s: String, ms: seq<Match>)
    requires AllLaidOut(BrAfterBlock, s, ms)
    ensures TemplateFor(BrAfterBlock, BrAfterTemplate)
    ensures forall i :: 0 <= i < |ms| ==>
      ms[i].whole.start <= After(ms, 0)[i].start <= After(ms, 0)[i].end <= ms[i].whole.end <= |s| &&
      Expand(BrAfterBlock, s, ms[i], BrAfterTemplate) == s[ms[i].whole.start..After(ms, 0)[i].start] + Repeat("\n", |ms|)[i] + s[After(ms, 0)[i].end..ms[i].whole.end]
  {
    forall i | 0 <= i < |ms|
      ensures ms[i].whole.start <= After(ms, 0)[i].start <= After(ms, 0)[i].end <= ms[i].whole.end <= |s| &&
      Expand(BrAfterBlock, s, ms[i], BrAfterTemplate) == s[ms[i].whole.start..After(ms, 0)[i].start] + Repeat("\n", |ms|)[i] + s[After(ms, 0)[i].end..ms[i].whole.end]
    {
      BrAfterBlockMatch(s, ms[i]);
    }
  }


  /** The rewritten text is `<br>` and a newline, `<br>` in some case,
      right after a block tag. */
  lemma BrAfterBlockContent(s: String, ms: seq<Match>)
    requires Fits(BrAfterBlock, s, ms) && AllNamed(BrAfterBlock, s, ms)
    ensures forall i :: 0 <= i < |ms| ==>
      After(ms, 0)[i].start <= After(ms, 0)[i].end <= |s| && FoldedText(s, After(ms, 0)[i]) == "<br>\n" &&
      GroupSpans(ms, 0)[i].end <= |s| && TagAt(s, GroupSpans(ms, 0)[i], OpeningOrClosing) &&
      NameIn(s, GroupSpans(ms, 0)[i], AllBlocks)
  {
    forall i | 0 <= i < |ms|
      ensures After(ms, 0)[i].start <= After(ms, 0)[i].end <= |s| && FoldedText(s, After(ms, 0)[i]) == "<br>\n"
      ensures GroupSpans(ms, 0)[i].end <= |s| && TagAt(s, GroupSpans(ms, 0)[i], OpeningOrClosing)
      ensures NameIn(s, GroupSpans(ms, 0)[i], AllBlocks)
    {
      assert Shape(BrAfterBlock, s, ms[i]);
      assert Named(BrAfterBlock, s, ms[i]);
    }
  }

  /** The pass (src/lib.rs:346): each `<br>` plus newline right after a
      block tag becomes a bare newline; nothing else changes. */
  lemma BrAfterBlockDrops(s: String, ms: seq<Match>)
    requires Fits(BrAfterBlock, s, ms)
    ensures TemplateFor(BrAfterBlock, BrAfterTemplate)
    ensures AscendingFrom(After(ms, 0), 0, |s|)
    ensures ReplaceAll(BrAfterBlock, s, ms, BrAfterTemplate) == ReplaceSpans(s, After(ms, 0), Repeat("\n", |ms|), 0)
  {
    FitsGroupsIn(BrAfterBlock, s, ms);
    BrAfterBlockAll(s, ms);
    ReplaceAllEdits(BrAfterBlock, s, ms, BrAfterTemplate, After(ms, 0), Repeat("\n", |ms|));
  }

  // ---------------------------------------------------------------------
  // src/lib.rs:352, `<br>` and a newline right before a block tag: `\n$1`

  lemma BrBeforeBlockMatch(s: String, m: Match)
    requires Layout(BrBeforeBlock, s, m)
    ensures TemplateFor(BrBeforeBlock, BrBeforeTemplate)
    ensures var w, k := m.whole, GroupOf(m, 0);
      w.start <= k.start <= k.end == w.end <= |s| &&
      Expand(BrBeforeBlock, s, m, BrBeforeTemplate) == s[w.start..w.start] + "\n" + s[k.start..w.end]
  {
    var g, t := m.groups, BrBeforeTemplate;
    assert Expand(BrBeforeBlock, s, m, t.rest) == s[g[0].start..g[0].end] + [];
    assert Expand(BrBeforeBlock, s, m, t) == "\n" + (s[g[0].start..g[0].end] + []);
    RegroupPrefix("\n", s[g[0].start..g[0].end]);
    assert s[m.whole.start..m.whole.start] == [];
    assert GroupOf(m, 0) == g[0];
  }

  lemma BrBeforeBlockAll(s: String, ms: seq<Match>)
    requires AllLaidOut(BrBeforeBlock, s, ms)
    ensures TemplateFor(BrBeforeBlock, BrBeforeTemplate)
    ensures forall i :: 0 <= i < |ms| ==>
      ms[i].whole.start <= Before(ms, 0)[i].start <= Before(ms, 0)[i].end <= ms[i].whole.end <= |s| &&
      Expand(BrBeforeBlock, s, ms[i], BrBeforeTemplate) == s[ms[i].whole.start..Before(ms, 0)[i].start] + Repeat("\n", |ms|)[i] + s[Before(ms, 0)[i].end..ms[i].whole.end]
  {
    forall i | 0 <= i < |ms|
      ensures ms[i].whole.start <= Before(ms, 0)[i].start <= Before(ms, 0)[i].end <= ms[i].whole.end <= |s| &&
      Expand(BrBeforeBlock, s, ms[i], BrBeforeTemplate) == s[ms[i].whole.start..Before(ms, 0)[i].start] + Repeat("\n", |ms|)[i] + s[Before(ms, 0)[i].end..ms[i].whole.end]
    {
      BrBeforeBlockMatch(s, ms[i]);
    }
  }


  /** The rewritten text is `<br>` and a newline, `<br>` in some case,
      right before a block tag. */
  lemma BrBeforeBlockContent(s: String, ms: seq<Match>)
    requires Fits(BrBeforeBlock, s, ms) && AllNamed(BrBeforeBlock, s, ms)
    ensures forall i :: 0 <= i < |ms| ==>
      Before(ms, 0)[i].start <= Before(ms, 0)[i].end <= |s| && FoldedText(s, Before(ms, 0)[i]) == "<br>\n" &&
      GroupSpans(ms, 0)[i].end <= |s| && TagAt(s, GroupSpans(ms, 0)[i], OpeningOrClosing) &&
      NameIn(s, GroupSpans(ms, 0)[i], AllBlocks)
  {
    forall i | 0 <= i < |ms|
      ensures Before(ms, 0)[i].start <= Before(ms, 0)[i].end <= |s| && FoldedText(s, Before(ms, 0)[i]) == "<br>\n"
      ensures GroupSpans(ms, 0)[i].end <= |s| && TagAt(s, GroupSpans(ms, 0)[i], OpeningOrClosing)
      ensures NameIn(s, GroupSpans(ms, 0)[i], AllBlocks)
    {
      assert Shape(BrBeforeBlock, s, ms[i]);
      assert Named(BrBeforeBlock, s, ms[i]);
    }
  }

  /** The pass (src/lib.rs:352): each `<br>` plus newline right before a
      block tag becomes a bare newline; nothing else changes. */
  lemma BrBeforeBlockDrops(s: String, ms: seq<Match>)
    requires Fits(BrBeforeBlock, s, ms)
    ensures TemplateFor(BrBeforeBlock, BrBeforeTemplate)
    ensures AscendingFrom(Before(ms, 0), 0, |s|)
    ensures ReplaceAll(BrBeforeBlock, s, ms, BrBeforeTemplate) == ReplaceSpans(s, Before(ms, 0), Repeat("\n", |ms|), 0)
  {
    FitsGroupsIn(BrBeforeBlock, s, ms);
    BrBeforeBlockAll(s, ms);
    ReplaceAllEdits(BrBeforeBlock, s, ms, BrBeforeTemplate, Before(ms, 0), Repeat("\n", |ms|));
  }
}
