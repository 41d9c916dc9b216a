/** The vault of auto_p: the inner HTML of `<pre>`, `<textarea>`, `<script>`,
    `<style>` and `<svg>` elements is copied out and overwritten with `'0'`
    (the nested `reserve` function), and later spliced back in place of the
    filler that the same patterns find again (the nested `recover`). */
module Vault {
  import opened Text
  import opened Tags
  import opened Patterns

  /** One vaulted inner HTML: its text and the range it occupied. */
  datatype Entry = Entry(content: String, start: nat, end: nat)

  /** Group 2 of each element match: the inner HTML. */
  function Inners(ms: seq<Match>): (spans: seq<Span>)
    ensures |spans| == |ms|
    ensures forall i :: 0 <= i < |ms| && |ms[i].groups| >= 2 ==> spans[i] == ms[i].groups[1]
  {
    seq(|ms|, i requires 0 <= i < |ms| => if |ms[i].groups| >= 2 then ms[i].groups[1] else ms[i].whole)
  }

  lemma {:induction false} InnersAscendingFrom(k: Kind, s: String, ms: seq<Match>, from: nat)
    requires AscendingFrom(Wholes(ms), from, |s|)
    requires forall i :: 0 <= i < |ms| ==> Shape(Element(k), s, ms[i])
    ensures AscendingFrom(Inners(ms), from, |s|)
    decreases |ms|
  {
    if ms != [] {
      assert Wholes(ms)[1..] == Wholes(ms[1..]);
      assert Inners(ms)[1..] == Inners(ms[1..]);
      InnersAscendingFrom(k, s, ms[1..], ms[0].whole.end);
      AscendingLower(Inners(ms[1..]), ms[0].whole.end, ms[0].groups[1].end, |s|);
    }
  }

  lemma ElementGroups(k: Kind, s: String, ms: seq<Match>)
    requires Fits(Element(k), s, ms)
    ensures forall i :: 0 <= i < |ms| ==>
      |ms[i].groups| == 3 && ms[i].groups[1].start <= ms[i].groups[1].end <= |s|
  {
    forall i | 0 <= i < |ms|
      ensures |ms[i].groups| == 3 && ms[i].groups[1].start <= ms[i].groups[1].end <= |s|
    {
      assert Shape(Element(k), s, ms[i]);
    }
  }

  /** The inner HTML spans of element matches are in bounds, left to right
      and disjoint, like the matches themselves. */
  lemma InnersAscending(k: Kind, s: String, ms: seq<Match>)
    requires Fits(Element(k), s, ms)
    ensures AscendingFrom(Inners(ms), 0, |s|)
  {
    InnersAscendingFrom(k, s, ms, 0);
  }

  /** What `reserve` pushes: for each match, in match order, the inner HTML
      and its `(start, end)`. */
  function Record(k: Kind, s: String, ms: seq<Match>): (entries: seq<Entry>)
    requires Fits(Element(k), s, ms)
    ensures |entries| == |ms|
    ensures forall i :: 0 <= i < |ms| ==>
      Span(entries[i].start, entries[i].end) == Inners(ms)[i] &&
      entries[i].start <= entries[i].end <= |s| &&
      entries[i].content == s[entries[i].start..entries[i].end]
  {
    InnersAscending(k, s, ms);
    seq(|ms|, i requires 0 <= i < |ms| =>
      var g := Inners(ms)[i]; Entry(s[g.start..g.end], g.start, g.end))
  }

  function Zeros(n: nat): (z: String)
    ensures |z| == n && forall i :: 0 <= i < n ==> z[i] == '0'
  {
    seq(n, _ => '0')
  }

  /** A run of `'0'`s as long as each span. */
  function ZeroFills(spans: seq<Span>): (z: seq<String>)
    requires forall i :: 0 <= i < |spans| ==> spans[i].start <= spans[i].end
    ensures |z| == |spans| && forall i :: 0 <= i < |spans| ==> z[i] == Zeros(spans[i].end - spans[i].start)
  {
    seq(|spans|, i requires 0 <= i < |spans| => Zeros(spans[i].end - spans[i].start))
  }

  /** The buffer with every span overwritten by `'0'`s of the same length. */
  function Fill(s: String, spans: seq<Span>): String
    requires AscendingFrom(spans, 0, |s|)
  {
    ReplaceSpans(s, spans, ZeroFills(spans), 0)
  }

  lemma {:induction false} FillFromAt(s: String, spans: seq<Span>, from: nat, j: nat)
    requires from <= j < |s| && AscendingFrom(spans, from, |s|)
    ensures var r := ReplaceSpans(s, spans, ZeroFills(spans), from);
      |r| == |s| - from && r[j - from] == if Covered(spans, j) then '0' else s[j]
    decreases |spans|
  {
    var z := ZeroFills(spans);
    GrowthZero(spans, z);
    var r := ReplaceSpans(s, spans, z, from);
    if spans == [] {
      assert r == s[from..];
    } else {
      var sp := spans[0];
      var z1 := ZeroFills(spans[1..]);
      assert z[1..] == z1;
      var rest := ReplaceSpans(s, spans[1..], z1, sp.end);
      assert r == s[from..sp.start] + z[0] + rest;
      CoveredFront(spans, from, |s|, j);
      if j < sp.start {
        assert r[j - from] == s[j];
      } else if j < sp.end {
        assert r[j - from] == z[0][j - sp.start];
      } else {
        FillFromAt(s, spans[1..], sp.end, j);
        assert r[j - from] == rest[j - sp.end];
      }
    }
  }

  /** Filling keeps the length, writes `'0'` over every position of every
      span and leaves every other position as it was. */
  lemma FillAt(s: String, spans: seq<Span>)
    requires AscendingFrom(spans, 0, |s|)
    ensures |Fill(s, spans)| == |s|
    ensures forall j :: 0 <= j < |s| ==> Fill(s, spans)[j] == if Covered(spans, j) then '0' else s[j]
  {
    GrowthZero(spans, ZeroFills(spans));
    forall j | 0 <= j < |s|
      ensures Fill(s, spans)[j] == if Covered(spans, j) then '0' else s[j]
    {
      FillFromAt(s, spans, 0, j);
    }
  }

  lemma {:induction false} GrowthZero(spans: seq<Span>, reps: seq<String>)
    requires |reps| == |spans|
    requires forall i :: 0 <= i < |spans| ==> spans[i].start <= spans[i].end && |reps[i]| == spans[i].end - spans[i].start
    ensures Growth(spans, reps) == 0
    decreases |spans|
  {
    if spans != [] {
      GrowthZero(spans[1..], reps[1..]);
    }
  }

  /** Overwrites `buf[start..end]` with `'0'`. */
  method FillRange(buf: array<char>, start: nat, end: nat)
    requires start <= end <= buf.Length
    modifies buf
    ensures forall x :: 0 <= x < buf.Length ==>
      buf[x] == if start <= x < end then '0' else old(buf[x])
  {
    for j := start to end
      invariant forall x :: 0 <= x < buf.Length ==>
        buf[x] == if start <= x < j then '0' else old(buf[x])
    {
      buf[j] := '0';
    }
  }

  /** The first loop of `reserve` (src/lib.rs:191-195): one entry per match,
      in match order. */
  method RecordMatches(buf: array<char>, k: Kind, ms: seq<Match>) returns (entries: seq<Entry>)
    requires Fits(Element(k), buf[..], ms)
    ensures entries == Record(k, buf[..], ms)
  {
    ElementGroups(k, buf[..], ms);
    ghost var rec := Record(k, buf[..], ms);
    entries := [];
    for i := 0 to |ms|
      invariant entries == rec[..i]
    {
      var g := ms[i].groups[1];
      entries := entries + [Entry(buf[g.start..g.end], g.start, g.end)];
    }
    assert rec[..|ms|] == rec;
  }

  /** The second loop of `reserve` (src/lib.rs:197-203): every recorded range
      becomes `'0'`s. */
  method FillEntries(buf: array<char>, entries: seq<Entry>, ghost spans: seq<Span>)
    requires |entries| == |spans| && AscendingFrom(spans, 0, buf.Length)
    requires forall i :: 0 <= i < |entries| ==> Span(entries[i].start, entries[i].end) == spans[i]
    modifies buf
    ensures buf[..] == Fill(old(buf[..]), spans)
  {
    ghost var s := buf[..];
    for i := 0 to |entries|
      invariant forall j :: 0 <= j < buf.Length ==>
        buf[j] == if Covered(spans[..i], j) then '0' else s[j]
    {
      FillRange(buf, entries[i].start, entries[i].end);
      forall x | 0 <= x < buf.Length
        ensures buf[x] == if Covered(spans[..i + 1], x) then '0' else s[x]
      {
        CoveredSnoc(spans, i, x);
      }
    }
    assert spans[..|entries|] == spans;
    FillAt(s, spans);
  }

  /** `reserve` (src/lib.rs:190-204): records the inner HTML of every match
      of `k`, then overwrites those ranges of the buffer with `'0'`. */
  method Reserve(buf: array<char>, k: Kind, ms: seq<Match>) returns (entries: seq<Entry>)
    requires Fits(Element(k), buf[..], ms)
    modifies buf
    ensures entries == Record(k, old(buf[..]), ms)
    ensures AscendingFrom(Inners(ms), 0, buf.Length)
    ensures buf[..] == Fill(old(buf[..]), Inners(ms))
  {
    InnersAscending(k, buf[..], ms);
    entries := RecordMatches(buf, k, ms);
    FillEntries(buf, entries, Inners(ms));
  }

  /** The text `recover` leaves: the i-th span replaced by the i-th text, for
      as many pairs as both lists have, everything else copied. */
  function Restore(s: String, spans: seq<Span>, texts: seq<String>): String
    requires AscendingFrom(spans, 0, |s|)
  {
    var n := if |spans| < |texts| then |spans| else |texts|;
    AscendingSlice(spans, 0, |s|, 0, n);
    ReplaceSpans(s, spans[..n], texts[..n], 0)
  }

  /** Splices `texts[j]` over `spans[j]` for j from the last to the first,
      so that each splice leaves the positions of the earlier spans valid. */
  method SpliceBackward(s: String, spans: seq<Span>, texts: seq<String>) returns (r: String)
    requires |texts| == |spans| && AscendingFrom(spans, 0, |s|)
    ensures r == ReplaceSpans(s, spans, texts, 0)
  {
    var n := |spans|;
    r := s;
    var j := n;
    AscendingSlice(spans, 0, |s|, n, n);
    while j > 0
      invariant 0 <= j <= n
      invariant AscendingFrom(spans[j..], 0, |s|)
      invariant r == ReplaceSpans(s, spans[j..], texts[j..], 0)
    {
      j := j - 1;
      AscendingSlice(spans, 0, |s|, j, n);
      SpliceFront(s, spans[j..], texts[j..]);
      assert spans[j..][1..] == spans[j + 1..] && texts[j..][1..] == texts[j + 1..];
      r := Splice(r, spans[j], texts[j]);
    }
    assert spans[0..] == spans && texts[0..] == texts;
  }

  /** `recover` (src/lib.rs:364-376), with the texts to splice in already
      chosen: pair the i-th match with the i-th text while both lists last,
      then splice the pairs from the last to the first. */
  method Recover(s: String, k: Kind, ms: seq<Match>, texts: seq<String>) returns (r: String)
    requires Fits(Element(k), s, ms)
    ensures AscendingFrom(Inners(ms), 0, |s|)
    ensures r == Restore(s, Inners(ms), texts)
  {
    InnersAscending(k, s, ms);
    ElementGroups(k, s, ms);
    ghost var spans := Inners(ms);
    var ranges: seq<Span> := [];
    var inner: seq<String> := [];
    var i := 0;
    while i < |ms| && i < |texts|
      invariant 0 <= i <= |ms| && i <= |texts|
      invariant ranges == spans[..i] && inner == texts[..i]
    {
      ranges := ranges + [ms[i].groups[1]];
      inner := inner + [texts[i]];
      i := i + 1;
    }
    AscendingSlice(spans, 0, |s|, 0, i);
    assert i == if |spans| < |texts| then |spans| else |texts|;
    r := SpliceBackward(s, ranges, inner);
    assert r == ReplaceSpans(s, spans[..i], texts[..i], 0);
  }

  /** The text of `s` under each span. */
  function Originals(s: String, spans: seq<Span>): (texts: seq<String>)
    requires forall i :: 0 <= i < |spans| ==> spans[i].start <= spans[i].end <= |s|
    ensures |texts| == |spans| && forall i :: 0 <= i < |spans| ==> texts[i] == s[spans[i].start..spans[i].end]
  {
    seq(|spans|, i requires 0 <= i < |spans| => s[spans[i].start..spans[i].end])
  }

  /** Splicing each span's original text back into a buffer that differs
      from the original only inside the spans gives back the original. */
  lemma {:induction false} RestoreOriginals(s: String, t: String, spans: seq<Span>, from: nat)
    requires |t| == |s| && from <= |s| && AscendingFrom(spans, from, |s|)
    requires forall j :: from <= j < |s| && !Covered(spans, j) ==> t[j] == s[j]
    ensures ReplaceSpans(t, spans, Originals(s, spans), from) == s[from..]
    decreases |spans|
  {
    var texts := Originals(s, spans);
    if spans == [] {
      assert t[from..] == s[from..];
    } else {
      var sp := spans[0];
      forall j | from <= j < sp.start ensures t[j] == s[j] {
        CoveredFront(spans, from, |s|, j);
      }
      forall j | sp.end <= j < |s| && !Covered(spans[1..], j) ensures t[j] == s[j] {
        CoveredFront(spans, from, |s|, j);
      }
      RestoreOriginals(s, t, spans[1..], sp.end);
      assert texts[1..] == Originals(s, spans[1..]);
      calc {
        ReplaceSpans(t, spans, texts, from);
        t[from..sp.start] + texts[0] + ReplaceSpans(t, spans[1..], texts[1..], sp.end);
        { assert t[from..sp.start] == s[from..sp.start]; }
        s[from..sp.start] + s[sp.start..sp.end] + s[sp.end..];
        s[from..];
      }
    }
  }

  /** The vault round trip: restoring the recorded inner HTML into the
      filled buffer at the same spans gives back the buffer as it was before
      `reserve`. */
  lemma VaultRoundTrip(k: Kind, s: String, ms: seq<Match>)
    requires Fits(Element(k), s, ms)
    ensures AscendingFrom(Inners(ms), 0, |s|)
    ensures var f := Fill(s, Inners(ms));
      |f| == |s| && Restore(f, Inners(ms), Contents(Record(k, s, ms))) == s
  {
    InnersAscending(k, s, ms);
    var spans := Inners(ms);
    var f := Fill(s, spans);
    FillAt(s, spans);
    var texts := Contents(Record(k, s, ms));
    assert texts[..|spans|] == texts;
    assert spans[..|spans|] == spans;
    assert texts == Originals(s, spans);
    RestoreOriginals(s, f, spans, 0);
  }

  function Contents(entries: seq<Entry>): (texts: seq<String>)
    ensures |texts| == |entries| && forall i :: 0 <= i < |entries| ==> texts[i] == entries[i].content
  {
    seq(|entries|, i requires 0 <= i < |entries| => entries[i].content)
  }
}
