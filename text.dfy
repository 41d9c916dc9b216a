/** Character classes, trimming, literal search and span splicing over the
    text buffer that every stage of auto_p threads through.  The buffer is a
    sequence of characters: every byte the pipeline inspects or overwrites is
    ASCII, and no byte of a multi-byte UTF-8 sequence is ASCII, so indexing by
    character instead of by byte changes no decision the pipeline takes. */
module Text {

  type String = seq<char>

  /** Unicode White_Space: what Rust's `str::trim` strips and what the regex
      class `\s` matches in Unicode mode. */
  predicate IsWhitespace(c: char) {
    c == '\t' || c == '\n' || c == '\U{B}' || c == '\U{C}' || c == '\r' || c == ' ' ||
    c == '\U{85}' || c == '\U{A0}' || c == '\U{1680}' || ('\U{2000}' <= c <= '\U{200A}') ||
    c == '\U{2028}' || c == '\U{2029}' || c == '\U{202F}' || c == '\U{205F}' || c == '\U{3000}'
  }

  /** Rust's `u8::is_ascii_whitespace`: space, tab, line feed, form feed and
      carriage return (vertical tab is not included). */
  predicate IsAsciiWhitespace(c: char) {
    c == ' ' || c == '\t' || c == '\n' || c == '\U{C}' || c == '\r'
  }

  /** A set of characters a trim removes: all white space (`trim`) or one
      character (`trim_matches`). */
  datatype CharClass = AnyWhitespace | Only(c: char)

  predicate InClass(k: CharClass, c: char) {
    match k
    case AnyWhitespace => IsWhitespace(c)
    case Only(d) => c == d
  }

  /** Drops the leading characters of class `k`. */
  function TrimStart(s: String, k: CharClass): (r: String)
    ensures |r| <= |s| && r == s[|s| - |r|..]
    ensures forall i :: 0 <= i < |s| - |r| ==> InClass(k, s[i])
    ensures r == [] || !InClass(k, r[0])
    decreases |s|
  {
    if s != [] && InClass(k, s[0]) then TrimStart(s[1..], k) else s
  }

  /** Drops the trailing characters of class `k`. */
  function TrimEnd(s: String, k: CharClass): (r: String)
    ensures |r| <= |s| && r == s[..|r|]
    ensures forall i :: |r| <= i < |s| ==> InClass(k, s[i])
    ensures r == [] || !InClass(k, r[|r| - 1])
    decreases |s|
  {
    if s != [] && InClass(k, s[|s| - 1]) then TrimEnd(s[..|s| - 1], k) else s
  }

  /** `str::trim` (k = AnyWhitespace) and `trim_matches(c)` (k = Only(c)). */
  function Trim(s: String, k: CharClass): String {
    TrimEnd(TrimStart(s, k), k)
  }

  /** The trimmed text is empty exactly when every character of `s` is in
      class `k`; otherwise it starts and ends outside the class. */
  lemma TrimEmptyIff(s: String, k: CharClass)
    ensures var r := Trim(s, k);
      (r == [] <==> forall i :: 0 <= i < |s| ==> InClass(k, s[i])) &&
      (r != [] ==> !InClass(k, r[0]) && !InClass(k, r[|r| - 1]))
  {
    var t := TrimStart(s, k);
    var r := TrimEnd(t, k);
    if r != [] {
      assert !InClass(k, t[0]);
    }
  }

  /** The trimmed text is the slice of `s` that starts after the leading
      run of class `k` and ends before the trailing one. */
  lemma TrimSlice(s: String, k: CharClass)
    ensures var r := Trim(s, k); var a := |s| - |TrimStart(s, k)|;
      a + |r| <= |s| && r == s[a..a + |r|] &&
      (forall i :: 0 <= i < a ==> InClass(k, s[i])) &&
      (forall i :: a + |r| <= i < |s| ==> InClass(k, s[i]))
  {
    var t := TrimStart(s, k);
    var r := TrimEnd(t, k);
    var a := |s| - |t|;
    assert t == s[a..];
    assert r == t[..|r|];
    forall i | a + |r| <= i < |s| ensures InClass(k, s[i]) {
      assert t[i - a] == s[i];
    }
  }

  /** Trimming twice is trimming once. */
  lemma TrimIdempotent(s: String, k: CharClass)
    ensures Trim(Trim(s, k), k) == Trim(s, k)
  {
    var r := Trim(s, k);
    TrimEmptyIff(s, k);
    if r != [] {
      assert TrimStart(r, k) == r;
      assert TrimEnd(r, k) == r;
    }
  }

  // ---------------------------------------------------------------------
  // Spans and splicing

  /** A half-open range `[start, end)` of buffer positions. */
  datatype Span = Span(start: nat, end: nat)

  /** `spans` are in bounds, non-overlapping, left to right, and none starts
      before `from`. */
  predicate AscendingFrom(spans: seq<Span>, from: nat, n: nat)
    ensures AscendingFrom(spans, from, n) ==>
      forall i :: 0 <= i < |spans| ==> from <= spans[i].start <= spans[i].end <= n
    decreases |spans|
  {
    spans == [] ||
    (from <= spans[0].start <= spans[0].end <= n && AscendingFrom(spans[1..], spans[0].end, n))
  }

  lemma AscendingLower(spans: seq<Span>, from: nat, lower: nat, n: nat)
    requires lower <= from && AscendingFrom(spans, from, n)
    ensures AscendingFrom(spans, lower, n)
  {
  }

  lemma {:induction false} AscendingBounds(spans: seq<Span>, from: nat, n: nat)
    requires AscendingFrom(spans, from, n)
    ensures forall i :: 0 <= i < |spans| ==> from <= spans[i].start <= spans[i].end <= n
    ensures forall i, j :: 0 <= i < j < |spans| ==> spans[i].end <= spans[j].start
    decreases |spans|
  {
    if spans != [] {
      AscendingBounds(spans[1..], spans[0].end, n);
      assert forall i :: 0 < i < |spans| ==> spans[i] == spans[1..][i - 1];
    }
  }

  lemma {:induction false} AscendingFromPairwise(spans: seq<Span>, from: nat, n: nat)
    requires forall i :: 0 <= i < |spans| ==> from <= spans[i].start <= spans[i].end <= n
    requires forall i, j :: 0 <= i < j < |spans| ==> spans[i].end <= spans[j].start
    ensures AscendingFrom(spans, from, n)
    decreases |spans|
  {
    if spans != [] {
      assert forall i :: 0 <= i < |spans| - 1 ==> spans[1..][i] == spans[i + 1];
      AscendingFromPairwise(spans[1..], spans[0].end, n);
    }
  }

  /** Any slice of an ascending list is ascending. */
  lemma AscendingSlice(spans: seq<Span>, from: nat, n: nat, a: nat, b: nat)
    requires AscendingFrom(spans, from, n) && a <= b <= |spans|
    ensures AscendingFrom(spans[a..b], 0, n)
  {
    AscendingBounds(spans, from, n);
    var t := spans[a..b];
    assert forall i :: 0 <= i < |t| ==> t[i] == spans[a + i];
    AscendingFromPairwise(t, 0, n);
  }

  /** Position `j` lies in one of the spans. */
  predicate Covered(spans: seq<Span>, j: nat) {
    exists t :: 0 <= t < |spans| && spans[t].start <= j < spans[t].end
  }

  /** Below the first span, nothing is covered; from the end of the first
      span on, being covered means being covered by one of the others. */
  lemma CoveredFront(spans: seq<Span>, from: nat, n: nat, j: nat)
    requires spans != [] && AscendingFrom(spans, from, n)
    ensures j < spans[0].start ==> !Covered(spans, j)
    ensures spans[0].start <= j < spans[0].end ==> Covered(spans, j)
    ensures j >= spans[0].end ==> (Covered(spans, j) <==> Covered(spans[1..], j))
  {
    AscendingBounds(spans, from, n);
    if Covered(spans, j) {
      var t :| 0 <= t < |spans| && spans[t].start <= j < spans[t].end;
      if t > 0 { assert spans[1..][t - 1] == spans[t]; }
    }
    if Covered(spans[1..], j) {
      var t :| 0 <= t < |spans| - 1 && spans[1..][t].start <= j < spans[1..][t].end;
      assert spans[t + 1] == spans[1..][t];
    }
  }

  lemma CoveredSnoc(spans: seq<Span>, i: nat, x: nat)
    requires i < |spans|
    ensures Covered(spans[..i + 1], x) <==> Covered(spans[..i], x) || spans[i].start <= x < spans[i].end
  {
    if Covered(spans[..i + 1], x) {
      var t :| 0 <= t < i + 1 && spans[..i + 1][t].start <= x < spans[..i + 1][t].end;
      if t < i { assert spans[..i][t] == spans[t]; }
    }
    if Covered(spans[..i], x) {
      var t :| 0 <= t < i && spans[..i][t].start <= x < spans[..i][t].end;
      assert spans[..i + 1][t] == spans[t];
    }
    if spans[i].start <= x < spans[i].end {
      assert spans[..i + 1][i] == spans[i];
    }
  }

  lemma SliceOfSlice(s: String, a: nat, b: nat, i: nat, j: nat)
    requires a <= b <= |s| && i <= j <= b - a
    ensures s[a..b][i..j] == s[a + i..a + j]
  {
    assert forall x :: 0 <= x < j - i ==> s[a..b][i..j][x] == s[a + i + x];
  }

  lemma Regroup2(a: String, b: String, e: String, c: String, rest: String)
    ensures a + (b + e + c) + rest == (a + b) + e + (c + rest)
  {
    assert b + e + c == b + (e + c);
    assert a + (b + (e + c)) == (a + b) + (e + c);
    assert ((a + b) + (e + c)) + rest == (a + b) + ((e + c) + rest);
    assert (e + c) + rest == e + (c + rest);
    assert (a + b) + (e + (c + rest)) == ((a + b) + e) + (c + rest);
  }

  lemma Regroup(a: String, l: String, k: String, r: String, rest: String)
    ensures (a + l) + ((k + r) + rest) == (a + ((l + k) + r)) + rest
  {
    assert (k + r) + rest == k + (r + rest);
    assert (a + l) + (k + (r + rest)) == a + (l + (k + (r + rest)));
    assert (l + k) + r == l + (k + r);
    assert (a + (l + (k + r))) + rest == a + ((l + (k + r)) + rest);
    assert (l + (k + r)) + rest == l + ((k + r) + rest);
  }

  /** Appending an empty slice changes nothing. */
  lemma EmptyTail(a: String, s: String, j: nat)
    requires j <= |s|
    ensures a + s[j..j] == a
  {
    assert s[j..j] == [];
  }

  /** Rust's `String::replace_range(sp, t)`. */
  function Splice(s: String, sp: Span, t: String): (r: String)
    requires sp.start <= sp.end <= |s|
    ensures |r| == |s| - (sp.end - sp.start) + |t|
    ensures r[..sp.start] == s[..sp.start] && r[sp.start..sp.start + |t|] == t
    ensures r[sp.start + |t|..] == s[sp.end..]
  {
    s[..sp.start] + t + s[sp.end..]
  }

  /** How much longer the buffer gets when each span is replaced by its text. */
  function Growth(spans: seq<Span>, reps: seq<String>): int
    requires |spans| == |reps|
  {
    if spans == [] then 0
    else |reps[0]| - (spans[0].end - spans[0].start) + Growth(spans[1..], reps[1..])
  }

  /** The text from `from` on, with each span replaced by the text paired
      with it: the gaps between spans are copied unchanged, in order. */
  function ReplaceSpans(s: String, spans: seq<Span>, reps: seq<String>, from: nat): (r: String)
    requires |reps| == |spans| && from <= |s| && AscendingFrom(spans, from, |s|)
    ensures |r| == |s| - from + Growth(spans, reps)
    decreases |spans|
  {
    if spans == [] then s[from..]
    else s[from..spans[0].start] + reps[0] + ReplaceSpans(s, spans[1..], reps[1..], spans[0].end)
  }

  /** Replacing nothing leaves the text as it was. */
  lemma ReplaceNothing(s: String, from: nat)
    requires from <= |s|
    ensures ReplaceSpans(s, [], [], from) == s[from..]
  {
  }

  /** Starting the copy earlier only prepends the untouched text in between. */
  lemma {:induction false} ReplaceSpansShift(s: String, spans: seq<Span>, reps: seq<String>, from: nat, f: nat)
    requires |reps| == |spans| && from <= f <= |s| && AscendingFrom(spans, f, |s|)
    ensures AscendingFrom(spans, from, |s|)
    ensures ReplaceSpans(s, spans, reps, from) == s[from..f] + ReplaceSpans(s, spans, reps, f)
  {
    AscendingLower(spans, f, from, |s|);
    if spans != [] {
      assert s[from..spans[0].start] == s[from..f] + s[f..spans[0].start];
    }
  }

  /** Splicing the first span into a buffer where only the later spans have
      been replaced gives the buffer with all spans replaced: the later
      replacements leave the positions of the first span where they were. */
  lemma {:induction false} SpliceFront(s: String, spans: seq<Span>, reps: seq<String>)
    requires |reps| == |spans| > 0 && AscendingFrom(spans, 0, |s|)
    ensures AscendingFrom(spans[1..], 0, |s|)
    ensures var t := ReplaceSpans(s, spans[1..], reps[1..], 0);
      spans[0].end <= |t| && Splice(t, spans[0], reps[0]) == ReplaceSpans(s, spans, reps, 0)
  {
    var e := spans[0].end;
    ReplaceSpansShift(s, spans[1..], reps[1..], 0, e);
    var t := ReplaceSpans(s, spans[1..], reps[1..], 0);
    var u := ReplaceSpans(s, spans[1..], reps[1..], e);
    assert t == s[..e] + u;
    assert t[..spans[0].start] == s[..spans[0].start];
    assert t[e..] == u;
  }

  /** One step of splicing spans from the last to the first: with the spans
      after `j` already replaced, splicing span `j` replaces the spans from
      `j` on. */
  lemma SpliceStep(s: String, spans: seq<Span>, reps: seq<String>, j: nat)
    requires |reps| == |spans| && j < |spans| && AscendingFrom(spans, 0, |s|)
    ensures AscendingFrom(spans[j + 1..], 0, |s|) && AscendingFrom(spans[j..], 0, |s|)
    ensures var t := ReplaceSpans(s, spans[j + 1..], reps[j + 1..], 0);
      spans[j].end <= |t| && Splice(t, spans[j], reps[j]) == ReplaceSpans(s, spans[j..], reps[j..], 0)
  {
    AscendingSlice(spans, 0, |s|, j, |spans|);
    assert spans[j..|spans|] == spans[j..];
    SpliceFront(s, spans[j..], reps[j..]);
    assert spans[j..][1..] == spans[j + 1..] && reps[j..][1..] == reps[j + 1..];
  }

  /** Replacing each span by a text that keeps the span's outer parts and
      rewrites only an inner part is the same edit as replacing just those
      inner parts: the pass is fully described by its inner edits. */
  lemma {:induction false} ReplaceSpansNarrow(s: String, outer: seq<Span>, reps: seq<String>,
                                               inner: seq<Span>, edits: seq<String>, from: nat)
    requires |reps| == |outer| == |inner| == |edits| && from <= |s| && AscendingFrom(outer, from, |s|)
    requires forall i :: 0 <= i < |outer| ==>
      outer[i].start <= inner[i].start <= inner[i].end <= outer[i].end <= |s| &&
      reps[i] == s[outer[i].start..inner[i].start] + edits[i] + s[inner[i].end..outer[i].end]
    ensures AscendingFrom(inner, from, |s|)
    ensures ReplaceSpans(s, outer, reps, from) == ReplaceSpans(s, inner, edits, from)
    decreases |outer|
  {
    if outer != [] {
      var o, n := outer[0], inner[0];
      ReplaceSpansNarrow(s, outer[1..], reps[1..], inner[1..], edits[1..], o.end);
      ReplaceSpansShift(s, inner[1..], edits[1..], n.end, o.end);
      var restO := ReplaceSpans(s, outer[1..], reps[1..], o.end);
      var restI := ReplaceSpans(s, inner[1..], edits[1..], n.end);
      assert restI == s[n.end..o.end] + restO;
      assert ReplaceSpans(s, outer, reps, from) == s[from..o.start] + reps[0] + restO;
      assert ReplaceSpans(s, inner, edits, from) == s[from..n.start] + edits[0] + restI;
      assert s[from..n.start] == s[from..o.start] + s[o.start..n.start];
      Regroup2(s[from..o.start], s[o.start..n.start], edits[0], s[n.end..o.end], restO);
    }
  }

  /** The two edges of each span around the part of it that is kept: the
      text before `kept[i]` and the text after it. */
  function Edges(outer: seq<Span>, kept: seq<Span>): (r: seq<Span>)
    requires |outer| == |kept|
    ensures |r| == 2 * |outer|
    decreases |outer|
  {
    if outer == [] then []
    else [Span(outer[0].start, kept[0].start), Span(kept[0].end, outer[0].end)] + Edges(outer[1..], kept[1..])
  }

  /** `a[0], b[0], a[1], b[1], …` */
  function Interleave<T>(a: seq<T>, b: seq<T>): (r: seq<T>)
    requires |a| == |b|
    ensures |r| == 2 * |a|
    decreases |a|
  {
    if a == [] then [] else [a[0], b[0]] + Interleave(a[1..], b[1..])
  }

  function Repeat(t: String, n: nat): (r: seq<String>)
    ensures |r| == n && forall i :: 0 <= i < n ==> r[i] == t
  {
    seq(n, _ => t)
  }

  lemma {:induction false} EdgesAscending(outer: seq<Span>, kept: seq<Span>, from: nat, n: nat)
    requires |outer| == |kept| && AscendingFrom(outer, from, n)
    requires forall i :: 0 <= i < |outer| ==> outer[i].start <= kept[i].start <= kept[i].end <= outer[i].end
    ensures AscendingFrom(Edges(outer, kept), from, n)
    decreases |outer|
  {
    if outer != [] {
      EdgesAscending(outer[1..], kept[1..], outer[0].end, n);
      var e := Edges(outer, kept);
      assert e[1..][1..] == Edges(outer[1..], kept[1..]);
      assert AscendingFrom(e[1..], kept[0].start, n);
    }
  }

  /** Replacing each span by a text that keeps a middle part of it is the
      same edit as replacing the two edges around that middle part. */
  lemma {:induction false} ReplaceSpansEdges(s: String, outer: seq<Span>, reps: seq<String>, kept: seq<Span>,
                                             lefts: seq<String>, rights: seq<String>, from: nat)
    requires |reps| == |outer| == |kept| == |lefts| == |rights| && from <= |s| && AscendingFrom(outer, from, |s|)
    requires forall i :: 0 <= i < |outer| ==>
      outer[i].start <= kept[i].start <= kept[i].end <= outer[i].end <= |s| &&
      reps[i] == lefts[i] + s[kept[i].start..kept[i].end] + rights[i]
    ensures AscendingFrom(Edges(outer, kept), from, |s|)
    ensures ReplaceSpans(s, outer, reps, from) == ReplaceSpans(s, Edges(outer, kept), Interleave(lefts, rights), from)
    decreases |outer|
  {
    EdgesAscending(outer, kept, from, |s|);
    if outer != [] {
      var o, k := outer[0], kept[0];
      ReplaceSpansEdges(s, outer[1..], reps[1..], kept[1..], lefts[1..], rights[1..], o.end);
      var e := Edges(outer, kept);
      var il := Interleave(lefts, rights);
      var e2, il2 := e[1..][1..], il[1..][1..];
      assert e2 == Edges(outer[1..], kept[1..]);
      assert il2 == Interleave(lefts[1..], rights[1..]);
      var rest := ReplaceSpans(s, e2, il2, o.end);
      assert rest == ReplaceSpans(s, outer[1..], reps[1..], o.end);
      var mid := ReplaceSpans(s, e[1..], il[1..], k.start);
      assert mid == s[k.start..k.end] + rights[0] + rest;
      assert ReplaceSpans(s, e, il, from) == s[from..o.start] + lefts[0] + mid;
      assert ReplaceSpans(s, outer, reps, from) == s[from..o.start] + reps[0] + rest;
      Regroup(s[from..o.start], lefts[0], s[k.start..k.end], rights[0], rest);
    }
  }

  // ---------------------------------------------------------------------
  // Literal search, leftmost first, as `replace_all` and `split` use it

  /** `lit` occurs in `s` at position `j`. */
  predicate OccursAt(s: String, lit: String, j: nat) {
    j + |lit| <= |s| && s[j..j + |lit|] == lit
  }

  /** No occurrence of `lit` starts in `[a, b)`. */
  predicate NoOccurrenceIn(s: String, lit: String, a: nat, b: nat) {
    forall j: nat :: a <= j < b ==> !OccursAt(s, lit, j)
  }

  /** Declarative leftmost-first search: the first span is the first
      occurrence at or after `from`, the rest is the search resumed at its
      end, and after the last span nothing occurs. */
  predicate LeftmostMatches(s: String, lit: String, r: seq<Span>, from: nat)
    decreases |r|
  {
    if r == [] then NoOccurrenceIn(s, lit, from, |s|)
    else (from <= r[0].start && r[0].end == r[0].start + |lit| && OccursAt(s, lit, r[0].start) &&
          NoOccurrenceIn(s, lit, from, r[0].start) && LeftmostMatches(s, lit, r[1..], r[0].end))
  }

  /** Each span of a leftmost list is an occurrence of `lit`. */
  lemma {:induction false} LeftmostEach(s: String, lit: String, r: seq<Span>, from: nat)
    requires LeftmostMatches(s, lit, r, from)
    ensures forall i :: 0 <= i < |r| ==> r[i].end == r[i].start + |lit| && OccursAt(s, lit, r[i].start)
    decreases |r|
  {
    if r != [] {
      LeftmostEach(s, lit, r[1..], r[0].end);
      assert forall i :: 1 <= i < |r| ==> r[i] == r[1..][i - 1];
    }
  }

  /** The scanner: all non-overlapping occurrences of the non-empty `lit`,
      leftmost first, from `from` on. */
  function Occurrences(s: String, lit: String, from: nat): (r: seq<Span>)
    requires |lit| > 0 && from <= |s|
    ensures AscendingFrom(r, from, |s|)
    ensures LeftmostMatches(s, lit, r, from)
    decreases |s| - from
  {
    if from + |lit| > |s| then []
    else if s[from..from + |lit|] == lit then [Span(from, from + |lit|)] + Occurrences(s, lit, from + |lit|)
    else Occurrences(s, lit, from + 1)
  }

  /** The leftmost-first match list is unique, so the scanner computes it. */
  lemma {:induction false} LeftmostUnique(s: String, lit: String, r1: seq<Span>, r2: seq<Span>, from: nat)
    requires |lit| > 0
    requires LeftmostMatches(s, lit, r1, from) && LeftmostMatches(s, lit, r2, from)
    ensures r1 == r2
    decreases |r1|
  {
    if r1 != [] && r2 != [] {
      assert r1[0].start == r2[0].start by {
        assert OccursAt(s, lit, r1[0].start) && OccursAt(s, lit, r2[0].start);
      }
      LeftmostUnique(s, lit, r1[1..], r2[1..], r1[0].end);
    }
  }

  /** `replace_all` of a literal pattern by a fixed text. */
  function ReplaceLiteral(s: String, lit: String, rep: String): String
    requires |lit| > 0
  {
    var ms := Occurrences(s, lit, 0);
    ReplaceSpans(s, ms, seq(|ms|, _ => rep), 0)
  }

  /** Replacing the matches of a literal that does not occur changes nothing. */
  lemma ReplaceLiteralAbsent(s: String, lit: String, rep: String)
    requires |lit| > 0 && NoOccurrenceIn(s, lit, 0, |s|)
    ensures ReplaceLiteral(s, lit, rep) == s
  {
    LeftmostUnique(s, lit, Occurrences(s, lit, 0), [], 0);
  }

  /** The strings one after another, as a loop appending them builds it. */
  function Concat(xs: seq<String>): String
    decreases |xs|
  {
    if xs == [] then [] else Concat(xs[..|xs| - 1]) + xs[|xs| - 1]
  }

  lemma {:induction false} ConcatCons(x: String, rest: seq<String>)
    ensures Concat([x] + rest) == x + Concat(rest)
    decreases |rest|
  {
    var xs := [x] + rest;
    if rest == [] {
      assert xs[..0] == [];
    } else {
      var last := |rest| - 1;
      assert xs[..|xs| - 1] == [x] + rest[..last];
      assert xs[|xs| - 1] == rest[last];
      ConcatCons(x, rest[..last]);
    }
  }

  /** Each string followed by `sep`, one after another, is the strings joined
      by `sep` with one more `sep` at the end. */
  lemma {:induction false} ConcatTerminated(xs: seq<String>, sep: String)
    requires xs != []
    ensures Concat(seq(|xs|, i requires 0 <= i < |xs| => xs[i] + sep)) == Join(xs, sep) + sep
    decreases |xs|
  {
    var ys := seq(|xs|, i requires 0 <= i < |xs| => xs[i] + sep);
    assert ys == [ys[0]] + ys[1..];
    ConcatCons(ys[0], ys[1..]);
    if |xs| > 1 {
      ConcatTerminated(xs[1..], sep);
      assert ys[1..] == seq(|xs| - 1, i requires 0 <= i < |xs| - 1 => xs[1..][i] + sep);
    }
  }

  /** Deleting every occurrence of a literal glues together the pieces that
      splitting on it gives. */
  lemma DeleteIsSplitAndGlue(s: String, lit: String)
    requires |lit| > 0
    ensures ReplaceLiteral(s, lit, []) == Join(Split(s, lit), [])
  {
    var ms := Occurrences(s, lit, 0);
    GluedGaps(s, ms, seq(|ms|, _ => []), 0);
  }

  lemma {:induction false} GluedGaps(s: String, spans: seq<Span>, reps: seq<String>, from: nat)
    requires |reps| == |spans| && from <= |s| && AscendingFrom(spans, from, |s|)
    requires forall i :: 0 <= i < |reps| ==> reps[i] == []
    ensures ReplaceSpans(s, spans, reps, from) == Join(Gaps(s, spans, from), [])
    decreases |spans|
  {
    if spans != [] {
      GluedGaps(s, spans[1..], reps[1..], spans[0].end);
      var g := Gaps(s, spans, from);
      assert g[1..] == Gaps(s, spans[1..], spans[0].end);
      assert Join(g, []) == g[0] + [] + Join(g[1..], []);
    }
  }

  /** `str::split(lit)`: the gaps between the leftmost-first occurrences. */
  function Split(s: String, lit: String): (pieces: seq<String>)
    requires |lit| > 0
    ensures |pieces| == |Occurrences(s, lit, 0)| + 1
  {
    Gaps(s, Occurrences(s, lit, 0), 0)
  }

  function Gaps(s: String, spans: seq<Span>, from: nat): (pieces: seq<String>)
    requires from <= |s| && AscendingFrom(spans, from, |s|)
    ensures |pieces| == |spans| + 1
    decreases |spans|
  {
    if spans == [] then [s[from..]]
    else [s[from..spans[0].start]] + Gaps(s, spans[1..], spans[0].end)
  }

  /** The inverse of `Split`: the pieces joined by the separator. */
  function Join(pieces: seq<String>, sep: String): String
    decreases |pieces|
  {
    if pieces == [] then [] else if |pieces| == 1 then pieces[0]
    else pieces[0] + sep + Join(pieces[1..], sep)
  }

  lemma {:induction false} JoinGaps(s: String, lit: String, spans: seq<Span>, from: nat)
    requires |lit| > 0 && from <= |s| && LeftmostMatches(s, lit, spans, from)
    requires AscendingFrom(spans, from, |s|)
    ensures Join(Gaps(s, spans, from), lit) == s[from..]
    decreases |spans|
  {
    if spans != [] {
      JoinGaps(s, lit, spans[1..], spans[0].end);
      var g := Gaps(s, spans, from);
      assert g[1..] == Gaps(s, spans[1..], spans[0].end);
      assert s[from..] == s[from..spans[0].start] + s[spans[0].start..spans[0].end] + s[spans[0].end..];
    }
  }

  /** Splitting on a literal and joining with it gives back the text. */
  lemma SplitJoin(s: String, lit: String)
    requires |lit| > 0
    ensures Join(Split(s, lit), lit) == s
  {
    JoinGaps(s, lit, Occurrences(s, lit, 0), 0);
  }

  lemma {:induction false} GapsFree(s: String, lit: String, spans: seq<Span>, from: nat)
    requires |lit| > 0 && from <= |s| && LeftmostMatches(s, lit, spans, from)
    requires AscendingFrom(spans, from, |s|)
    ensures forall i :: 0 <= i < |spans| + 1 ==> NoOccurrenceIn(Gaps(s, spans, from)[i], lit, 0, |Gaps(s, spans, from)[i]|)
    decreases |spans|
  {
    var g := Gaps(s, spans, from);
    var end := if spans == [] then |s| else spans[0].start;
    forall j: nat | j < |g[0]| ensures !OccursAt(g[0], lit, j) {
      if OccursAt(g[0], lit, j) {
        assert g[0] == s[from..end];
        SliceOfSlice(s, from, end, j, j + |lit|);
        assert OccursAt(s, lit, from + j);
        assert false;
      }
    }
    if spans != [] {
      GapsFree(s, lit, spans[1..], spans[0].end);
      assert forall i :: 1 <= i < |g| ==> g[i] == Gaps(s, spans[1..], spans[0].end)[i - 1];
    }
  }

  /** No piece of a split contains the separator. */
  lemma SplitPiecesFree(s: String, lit: String)
    requires |lit| > 0
    ensures forall p :: p in Split(s, lit) ==> NoOccurrenceIn(p, lit, 0, |p|)
  {
    GapsFree(s, lit, Occurrences(s, lit, 0), 0);
  }
}
