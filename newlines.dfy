/** The newline passes of auto_p: CR LF and lone CR become LF, the newlines
    inside tags are hidden as CR while paragraphs are cut, and every CR
    turns back into LF at the very end. */
module Newlines {
  import opened Text
  import opened Patterns

  /** `replace_all` of `\r\n|\r` by `\n`: at a CR the two-character
      alternative is tried first. */
  function Standardize(s: String): (r: String)
    ensures forall i :: 0 <= i < |r| ==> r[i] != '\r'
    ensures |r| <= |s| && (s == [] <==> r == [])
    ensures s != [] && s[0] != '\r' ==> r[0] == s[0]
    decreases |s|
  {
    if s == [] then []
    else if s[0] != '\r' then [s[0]] + Standardize(s[1..])
    else if |s| >= 2 && s[1] == '\n' then "\n" + Standardize(s[2..])
    else "\n" + Standardize(s[1..])
  }

  predicate NoCr(s: String) {
    forall i :: 0 <= i < |s| ==> s[i] != '\r'
  }

  /** Text without CR is left as it is. */
  lemma {:induction false} StandardizeKeeps(s: String)
    requires NoCr(s)
    ensures Standardize(s) == s
    decreases |s|
  {
    if s != [] {
      assert NoCr(s[1..]) by { assert forall i :: 0 <= i < |s| - 1 ==> s[1..][i] == s[i + 1]; }
      StandardizeKeeps(s[1..]);
    }
  }

  /** Standardizing twice is standardizing once. */
  lemma StandardizeIdempotent(s: String)
    ensures Standardize(Standardize(s)) == Standardize(s)
  {
    StandardizeKeeps(Standardize(s));
  }

  /** Group 1 of each tag match: the attributes, where newlines are hidden. */
  function Attributes(ms: seq<Match>): (spans: seq<Span>)
    ensures |spans| == |ms|
  {
    seq(|ms|, i requires 0 <= i < |ms| => if ms[i].groups != [] then ms[i].groups[0] else ms[i].whole)
  }

  lemma AttributesInBounds(s: String, ms: seq<Match>)
    requires Fits(AnyTag, s, ms)
    ensures forall i :: 0 <= i < |ms| ==> |ms[i].groups| == 1 && Attributes(ms)[i] == ms[i].groups[0]
    ensures forall i :: 0 <= i < |ms| ==> Attributes(ms)[i].start <= Attributes(ms)[i].end <= |s|
  {
    forall i | 0 <= i < |ms|
      ensures |ms[i].groups| == 1 && Attributes(ms)[i] == ms[i].groups[0]
      ensures Attributes(ms)[i].start <= Attributes(ms)[i].end <= |s|
    {
      assert Shape(AnyTag, s, ms[i]);
    }
  }

  /** `s` with each newline inside one of `spans` turned into CR. */
  function Shielded(s: String, spans: seq<Span>): (r: String)
    ensures |r| == |s|
  {
    seq(|s|, i requires 0 <= i < |s| => if s[i] == '\n' && Covered(spans, i) then '\r' else s[i])
  }

  /** Every CR turned back into LF. */
  function Unshielded(s: String): (r: String)
    ensures |r| == |s| && NoCr(r)
  {
    seq(|s|, i requires 0 <= i < |s| => if s[i] == '\r' then '\n' else s[i])
  }

  /** Hiding and restoring the newlines of tags gives back a text free of
      CR exactly as it was. */
  lemma ShieldRoundTrip(s: String, spans: seq<Span>)
    requires NoCr(s)
    ensures Unshielded(Shielded(s, spans)) == s
  {
  }

  /** Once shielded, no newline is left inside a tag. */
  lemma ShieldedTagsHaveNoNewline(s: String, spans: seq<Span>, j: nat)
    requires j < |s| && Covered(spans, j)
    ensures Shielded(s, spans)[j] != '\n'
  {
  }

  /** The separators `\n\n` that `split` finds in a shielded text all lie
      outside the tags. */
  lemma SeparatorsOutsideTags(s: String, spans: seq<Span>)
    ensures var t := Shielded(s, spans);
            forall i, j :: 0 <= i < |Occurrences(t, "\n\n", 0)| &&
                           Occurrences(t, "\n\n", 0)[i].start <= j < Occurrences(t, "\n\n", 0)[i].end ==>
                           !Covered(spans, j)
  {
    var t := Shielded(s, spans);
    var occ := Occurrences(t, "\n\n", 0);
    LeftmostEach(t, "\n\n", occ, 0);
    forall i, j | 0 <= i < |occ| && occ[i].start <= j < occ[i].end
      ensures !Covered(spans, j)
    {
      assert OccursAt(t, "\n\n", occ[i].start);
      assert t[j] == "\n\n"[j - occ[i].start];
    }
  }

  /** Collects the positions of the newlines inside the attributes of the
      tags matched by `ms`. */
  method CollectNewlines(buf: array<char>, ms: seq<Match>) returns (idx: seq<nat>)
    requires Fits(AnyTag, buf[..], ms)
    ensures forall t :: 0 <= t < |idx| ==> idx[t] < buf.Length
    ensures forall j: nat :: j in idx <==> j < buf.Length && buf[j] == '\n' && Covered(Attributes(ms), j)
  {
    AttributesInBounds(buf[..], ms);
    var spans := Attributes(ms);
    idx := [];
    var i := 0;
    while i < |ms|
      invariant i <= |ms|
      invariant forall t :: 0 <= t < |idx| ==> idx[t] < buf.Length
      invariant forall j: nat :: j in idx <==> j < buf.Length && buf[j] == '\n' && Covered(spans[..i], j)
    {
      var g := spans[i];
      var x := g.start;
      while x < g.end
        invariant g.start <= x <= g.end
        invariant forall t :: 0 <= t < |idx| ==> idx[t] < buf.Length
        invariant forall j: nat :: j in idx <==>
          j < buf.Length && buf[j] == '\n' && (Covered(spans[..i], j) || g.start <= j < x)
      {
        if buf[x] == '\n' {
          idx := idx + [x];
        }
        x := x + 1;
      }
      forall j: nat ensures Covered(spans[..i + 1], j) <==> Covered(spans[..i], j) || g.start <= j < g.end {
        CoveredSnoc(spans, i, j);
      }
      i := i + 1;
    }
    assert spans[..i] == spans;
  }

  /** The tag pass: turns the newlines inside tags into CR. */
  method Shield(buf: array<char>, ms: seq<Match>)
    requires Fits(AnyTag, buf[..], ms)
    modifies buf
    ensures buf[..] == Shielded(old(buf[..]), Attributes(ms))
  {
    var idx := CollectNewlines(buf, ms);
    ghost var s := buf[..];
    var t := 0;
    while t < |idx|
      invariant t <= |idx|
      invariant buf.Length == |s|
      invariant forall j :: 0 <= j < |s| ==> buf[j] == (if j in idx[..t] then '\r' else s[j])
    {
      buf[idx[t]] := '\r';
      assert idx[..t + 1] == idx[..t] + [idx[t]];
      t := t + 1;
    }
    assert idx[..t] == idx;
  }

  /** The final pass: every CR becomes LF again. */
  method Unshield(buf: array<char>)
    modifies buf
    ensures buf[..] == Unshielded(old(buf[..]))
  {
    var i := 0;
    while i < buf.Length
      invariant i <= buf.Length
      invariant forall j :: 0 <= j < i ==> buf[j] == (if old(buf[j]) == '\r' then '\n' else old(buf[j]))
      invariant forall j :: i <= j < buf.Length ==> buf[j] == old(buf[j])
    {
      if buf[i] == '\r' {
        buf[i] := '\n';
      }
      i := i + 1;
    }
  }
}
