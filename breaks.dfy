/** The optional line-break stage of auto_p (src/lib.rs:291-343): every
    spelling of `<br>` is normalised, then a backward scan over the buffer
    records, for each newline, the white space in front of it, and each
    recorded range is replaced by `<br>`.  (The two passes that follow,
    which drop a `<br>` next to a block tag, are in the Fixups module.) */
module Breaks {
  import opened Text
  import opened Tags

  // ---------------------------------------------------------------------
  // Normalising `(?i)<br\s*/?>` to `<br>` (src/lib.rs:110, 293)

  /** `x` starts with a `<br>` tag of `n` characters: `<`, `b` and `r` in
      either case, white space, an optional `/`, and `>`. */
  predicate BrTag(x: String, n: nat) {
    4 <= n <= |x| && x[0] == '<' && FoldChar(x[1]) == 'b' && FoldChar(x[2]) == 'r' && x[n - 1] == '>' &&
    (forall j :: 3 <= j < n - 2 ==> IsWhitespace(x[j])) &&
    (n == 4 || IsWhitespace(x[n - 2]) || x[n - 2] == '/')
  }

  /** The first position at or after `i` that is not white space. */
  function SkipSpace(x: String, i: nat): (j: nat)
    requires i <= |x|
    ensures i <= j <= |x| && (forall k :: i <= k < j ==> IsWhitespace(x[k]))
    ensures j < |x| ==> !IsWhitespace(x[j])
    decreases |x| - i
  {
    if i == |x| || !IsWhitespace(x[i]) then i else SkipSpace(x, i + 1)
  }

  /** The length of the `<br>` tag `x` starts with, 0 when there is none;
      the pattern matches at a position in only one way. */
  function BrLength(x: String): (n: nat)
    ensures n > 0 ==> BrTag(x, n)
    ensures forall m :: BrTag(x, m) ==> m == n
  {
    if |x| >= 3 && x[0] == '<' && FoldChar(x[1]) == 'b' && FoldChar(x[2]) == 'r' then
      var j := SkipSpace(x, 3);
      var k := if j < |x| && x[j] == '/' then j + 1 else j;
      if k < |x| && x[k] == '>' then k + 1 else 0
    else 0
  }

  /** `replace_all` of the `<br>` pattern with `<br>`: a scan from the left
      that rewrites each tag it meets and goes on after it. */
  function NormalizeBr(s: String): (r: String)
    decreases |s|
  {
    if s == [] then []
    else if BrLength(s) > 0 then "<br>" + NormalizeBr(s[BrLength(s)..])
    else [s[0]] + NormalizeBr(s[1..])
  }

  /** Up to the first `<` of the result, the normalised text is the text
      itself. */
  lemma {:induction false} NormalizeBrPrefix(u: String, m: nat)
    requires m <= |NormalizeBr(u)| && forall j :: 0 <= j < m ==> NormalizeBr(u)[j] != '<'
    ensures m <= |u| && u[..m] == NormalizeBr(u)[..m]
    decreases |u|
  {
    if m > 0 {
      NormalizeBrFirst(u);
      assert BrLength(u) == 0;
      var r := NormalizeBr(u[1..]);
      assert NormalizeBr(u) == [u[0]] + r;
      assert forall j :: 0 <= j < m - 1 ==> r[j] == NormalizeBr(u)[j + 1];
      NormalizeBrPrefix(u[1..], m - 1);
      assert u[..m] == [u[0]] + u[1..][..m - 1];
    }
  }

  /** Whether a tag of `n` characters starts a text depends on its first
      `n` characters only. */
  lemma BrTagPrefix(x: String, y: String, n: nat)
    requires n <= |x| && n <= |y| && x[..n] == y[..n]
    ensures BrTag(x, n) == BrTag(y, n)
  {
    assert forall j :: 0 <= j < n ==> x[j] == x[..n][j] && y[j] == y[..n][j];
  }

  lemma BrTagNoLt(x: String, n: nat)
    requires BrTag(x, n)
    ensures forall j :: 1 <= j < n ==> x[j] != '<'
  {
  }

  lemma TailNoLt(c: char, r: String, n: nat)
    requires 0 < n <= 1 + |r| && forall j :: 1 <= j < n ==> ([c] + r)[j] != '<'
    ensures n - 1 <= |r| && forall j :: 0 <= j < n - 1 ==> r[j] != '<'
  {
    assert forall j :: 0 <= j < n - 1 ==> r[j] == ([c] + r)[j + 1];
  }

  /** A character that does not start a `<br>` tag still does not once the
      text after it is normalised. */
  lemma NoBrAfterNormalizing(s: String)
    requires s != [] && BrLength(s) == 0
    ensures BrLength([s[0]] + NormalizeBr(s[1..])) == 0
  {
    var r := NormalizeBr(s[1..]);
    var t := [s[0]] + r;
    var n := BrLength(t);
    if n > 0 {
      BrTagNoLt(t, n);
      TailNoLt(s[0], r, n);
      NormalizeBrPrefix(s[1..], n - 1);
      assert t[..n] == [s[0]] + r[..n - 1];
      assert s[..n] == [s[0]] + s[1..][..n - 1];
      BrTagPrefix(s, t, n);
      assert false;
    }
  }

  /** Normalising twice changes nothing more. */
  lemma {:induction false} NormalizeBrIdempotent(s: String)
    ensures NormalizeBr(NormalizeBr(s)) == NormalizeBr(s)
    decreases |s|
  {
    if s != [] {
      var t := NormalizeBr(s);
      if BrLength(s) > 0 {
        var rest := NormalizeBr(s[BrLength(s)..]);
        assert BrTag(t, 4);
        assert t[4..] == rest;
        NormalizeBrIdempotent(s[BrLength(s)..]);
      } else {
        NoBrAfterNormalizing(s);
        assert t[1..] == NormalizeBr(s[1..]);
        NormalizeBrIdempotent(s[1..]);
      }
    }
  }

  /** A tag starts with `<`, so a text that does not start with a newline
      keeps not doing so. */
  lemma NormalizeBrFirst(s: String)
    ensures s == [] <==> NormalizeBr(s) == []
    ensures s != [] ==> NormalizeBr(s)[0] == if BrLength(s) > 0 then '<' else s[0]
  {
  }

  // ---------------------------------------------------------------------
  // The backward scan (src/lib.rs:299-339)

  /** The inner loop from a newline at `q`: step back over ASCII white
      space and stop on the first other character, or at the start. */
  function WsBack(s: String, q: nat): (pp: nat)
    requires q <= |s|
    ensures pp <= q && (q > 0 ==> pp < q)
    ensures forall j :: pp < j < q ==> IsAsciiWhitespace(s[j])
    ensures 0 < pp ==> !IsAsciiWhitespace(s[pp])
    decreases q
  {
    if q == 0 then 0
    else if !IsAsciiWhitespace(s[q - 1]) then q - 1
    else WsBack(s, q - 1)
  }

  /** `s[pp - 3..pp + 1]` is `<br>`: the newline already follows a break. */
  predicate AfterBr(s: String, pp: nat)
    requires pp < |s|
  {
    pp >= 3 && s[pp - 3..pp + 1] == "<br>"
  }

  /** The ranges the scan records looking at `s[..p]`, in the order it
      records them (from the right). */
  function Scan(s: String, p: nat): seq<Span>
    requires p <= |s|
    decreases p
  {
    if p == 0 then []
    else if s[p - 1] != '\n' then Scan(s, p - 1)
    else
      var pp := WsBack(s, p - 1);
      (if AfterBr(s, pp) then [] else [Span(pp + 1, p - 1)]) + Scan(s, pp)
  }

  /** The scan as the source writes it: two nested backward loops over the
      bytes, pushing a range for every newline not already after `<br>`. */
  method BrScan(s: String) returns (v: seq<Span>)
    ensures v == Scan(s, |s|)
  {
    v := [];
    var p: nat := |s|;
    while p > 0
      invariant p <= |s|
      invariant v + Scan(s, p) == Scan(s, |s|)
    {
      p := p - 1;
      if s[p] == '\n' {
        var pp: nat := p;
        var done := false;
        while !done
          invariant pp <= p
          invariant !done ==> WsBack(s, pp) == WsBack(s, p)
          invariant done ==> pp == WsBack(s, p)
          decreases pp, !done
        {
          if pp == 0 {
            done := true;
          } else {
            pp := pp - 1;
            if !IsAsciiWhitespace(s[pp]) {
              done := true;
            }
          }
        }
        if pp < 3 || s[pp - 3..pp + 1] != "<br>" {
          v := v + [Span(pp + 1, p)];
        }
        assert v + Scan(s, pp) == Scan(s, |s|);
        p := pp;
      }
    }
  }

  /** `v` in the opposite order. */
  function Reversed(v: seq<Span>): (r: seq<Span>)
    ensures |r| == |v| && forall i :: 0 <= i < |v| ==> r[i] == v[|v| - 1 - i]
  {
    seq(|v|, i requires 0 <= i < |v| => v[|v| - 1 - i])
  }

  lemma {:induction false} AscendingSnoc(a: seq<Span>, x: Span, from: nat, m: nat, n: nat)
    requires AscendingFrom(a, from, m) && from <= m <= x.start <= x.end <= n
    ensures AscendingFrom(a + [x], from, n)
    decreases |a|
  {
    if a != [] {
      assert (a + [x])[1..] == a[1..] + [x];
      AscendingSnoc(a[1..], x, a[0].end, m, n);
    } else {
      assert [] + [x] == [x];
    }
  }

  /** When the text does not start with a newline, the ranges are well
      formed and recorded from right to left without overlapping: read in
      reverse, they are ascending, so applying them in recorded order keeps
      every later index valid. */
  lemma {:induction false} ScanAscending(s: String, p: nat)
    requires p <= |s| && (s == [] || s[0] != '\n')
    ensures AscendingFrom(Reversed(Scan(s, p)), 0, p)
    decreases p
  {
    if p > 0 {
      if s[p - 1] != '\n' {
        ScanAscending(s, p - 1);
        assert AscendingFrom(Reversed(Scan(s, p)), 0, p) by {
          AscendingBoundsUp(Reversed(Scan(s, p - 1)), 0, p - 1, p);
        }
      } else {
        var pp := WsBack(s, p - 1);
        ScanAscending(s, pp);
        var rest := Scan(s, pp);
        if !AfterBr(s, pp) {
          var x := Span(pp + 1, p - 1);
          assert Scan(s, p) == [x] + rest;
          assert Reversed([x] + rest) == Reversed(rest) + [x];
          AscendingSnoc(Reversed(rest), x, 0, pp, p);
        } else {
          assert Scan(s, p) == rest;
          AscendingBoundsUp(Reversed(rest), 0, pp, p);
        }
      }
    }
  }

  lemma {:induction false} AscendingBoundsUp(a: seq<Span>, from: nat, m: nat, n: nat)
    requires AscendingFrom(a, from, m) && m <= n
    ensures AscendingFrom(a, from, n)
    decreases |a|
  {
    if a != [] {
      AscendingBoundsUp(a[1..], a[0].end, m, n);
    }
  }

  /** Each range covers the ASCII white space that runs back from a newline
      to the previous other character (or to the start), and that
      character does not end an existing `<br>`. */
  lemma {:induction false} ScanRanges(s: String, p: nat)
    requires p <= |s|
    ensures forall i :: 0 <= i < |Scan(s, p)| ==>
      var r := Scan(s, p)[i];
      1 <= r.start && r.end < p && s[r.end] == '\n' &&
      r.start - 1 == WsBack(s, r.end) && !AfterBr(s, r.start - 1)
    decreases p
  {
    if p > 0 {
      if s[p - 1] != '\n' {
        ScanRanges(s, p - 1);
      } else {
        var pp := WsBack(s, p - 1);
        ScanRanges(s, pp);
        if !AfterBr(s, pp) {
          assert Scan(s, p) == [Span(pp + 1, p - 1)] + Scan(s, pp);
        }
      }
    }
  }

  /** From anywhere in a run of ASCII white space, stepping back reaches
      the same character. */
  lemma {:induction false} WsBackRun(s: String, q1: nat, q2: nat)
    requires q1 <= q2 <= |s| && forall j :: q1 <= j < q2 ==> IsAsciiWhitespace(s[j])
    ensures WsBack(s, q2) == WsBack(s, q1)
    decreases q2
  {
    if q1 < q2 {
      WsBackRun(s, q1, q2 - 1);
    }
  }

  /** The newline at `q` lies in one of the ranges `v` (their ends
      included), or its run of white space follows an existing `<br>`. */
  predicate Handled(s: String, v: seq<Span>, q: nat)
    requires q < |s|
  {
    (exists i :: 0 <= i < |v| && v[i].start <= q <= v[i].end) || AfterBr(s, WsBack(s, q))
  }

  /** No newline is missed: every newline after the first character lies in
      a recorded range (as its end, or in the white space before it),
      unless its run of white space follows an existing `<br>`. */
  lemma {:induction false} ScanComplete(s: String, p: nat)
    requires p <= |s|
    ensures forall q :: 0 < q < p && s[q] == '\n' ==> Handled(s, Scan(s, p), q)
    decreases p
  {
    if p > 0 {
      var v := Scan(s, p);
      if s[p - 1] != '\n' {
        ScanComplete(s, p - 1);
        assert v == Scan(s, p - 1);
      } else {
        var pp := WsBack(s, p - 1);
        ScanComplete(s, pp);
        var rest := Scan(s, pp);
        var pushed := !AfterBr(s, pp);
        assert v == (if pushed then [Span(pp + 1, p - 1)] else []) + rest;
        forall q | 0 < q < p && s[q] == '\n'
          ensures Handled(s, v, q)
        {
          if q > pp {
            WsBackRun(s, q, p - 1);
            if pushed {
              assert v[0].start <= q <= v[0].end;
            }
          } else if q < pp {
            assert Handled(s, rest, q);
            if !AfterBr(s, WsBack(s, q)) {
              var i :| 0 <= i < |rest| && rest[i].start <= q <= rest[i].end;
              if pushed {
                assert v[i + 1] == rest[i];
              } else {
                assert v[i] == rest[i];
              }
            }
          }
        }
      }
    }
  }

  // ---------------------------------------------------------------------
  // Applying the ranges (src/lib.rs:341-343)

  /** The line-break rewrite: every recorded range becomes `<br>`. */
  function Breaks(s: String): (r: String)
    requires s == [] || s[0] != '\n'
  {
    ScanAscending(s, |s|);
    ReplaceSpans(s, Reversed(Scan(s, |s|)), Repeat("<br>", |Scan(s, |s|)|), 0)
  }

  /** One turn of the splicing loop: with the last `i` ranges replaced, replacing
      range `i` as well replaces the last `i + 1`. */
  lemma BreakStep(s: String, v: seq<Span>, i: nat, r: String)
    requires AscendingFrom(Reversed(v), 0, |s|) && i < |v|
    requires AscendingFrom(Reversed(v)[|v| - i..], 0, |s|)
    requires r == ReplaceSpans(s, Reversed(v)[|v| - i..], Repeat("<br>", |v|)[|v| - i..], 0)
    ensures AscendingFrom(Reversed(v)[|v| - (i + 1)..], 0, |s|)
    ensures v[i].end <= |r|
    ensures Splice(r, v[i], "<br>")
      == ReplaceSpans(s, Reversed(v)[|v| - (i + 1)..], Repeat("<br>", |v|)[|v| - (i + 1)..], 0)
  {
    var j := |v| - i - 1;
    SpliceStep(s, Reversed(v), Repeat("<br>", |v|), j);
    assert j + 1 == |v| - i && j == |v| - (i + 1);
    assert Reversed(v)[j] == v[i] && Repeat("<br>", |v|)[j] == "<br>";
  }

  /** `replace_range(range, "<br>")` for the ranges in recorded order. */
  method ApplyBreaks(s: String, v: seq<Span>) returns (r: String)
    requires AscendingFrom(Reversed(v), 0, |s|)
    ensures r == ReplaceSpans(s, Reversed(v), Repeat("<br>", |v|), 0)
  {
    r := s;
    var i := 0;
    assert Reversed(v)[|v|..] == [] && Repeat("<br>", |v|)[|v|..] == [];
    while i < |v|
      invariant 0 <= i <= |v|
      invariant AscendingFrom(Reversed(v)[|v| - i..], 0, |s|)
      invariant r == ReplaceSpans(s, Reversed(v)[|v| - i..], Repeat("<br>", |v|)[|v| - i..], 0)
    {
      BreakStep(s, v, i, r);
      r := Splice(r, v[i], "<br>");
      i := i + 1;
    }
    assert Reversed(v)[0..] == Reversed(v) && Repeat("<br>", |v|)[0..] == Repeat("<br>", |v|);
  }

  /** The stage as the source runs it, proved equal to `Breaks`. */
  method InsertBreaks(s: String) returns (r: String)
    requires s == [] || s[0] != '\n'
    ensures r == Breaks(s)
  {
    var v := BrScan(s);
    ScanAscending(s, |s|);
    r := ApplyBreaks(s, v);
  }
}
