/** `auto_p` (src/lib.rs:173-414) as a whole: trim, vault the inner HTML of
    the preserved elements, standardize newlines, hide the newlines inside
    tags, wrap paragraphs, run the fixups, optionally insert line breaks,
    splice the vaulted inner HTML back and turn the hidden newlines back
    into newlines.  Each stage is the function its own module defines; the
    method `AutoP` runs the stages the way the source does, on buffers and
    with the stage methods, and is proved to compute `AutoPText`. */
module AutoP {
  import opened Text
  import opened Tags
  import opened Patterns
  import opened Vault
  import opened Newlines
  import opened Paragraphs
  import opened Fixups
  import opened Breaks

  /** The five inner-HTML buffers. */
  datatype Vaults = Vaults(pre: seq<Entry>, textarea: seq<Entry>, script: seq<Entry>, style: seq<Entry>, svg: seq<Entry>)

  /** The buffer after the five `reserve` calls, and what they recorded. */
  datatype Reserved = Reserved(text: String, vaults: Vaults)

  /** The kinds in the order `reserve` is called on them. */
  const Kinds: seq<Kind> := [Pre, Textarea, Script, Style, Svg]

  // ---------------------------------------------------------------------
  // Vaulting (src/lib.rs:188-210)

  /** One `reserve` call on `s`: the inner HTML of every element of kind `k`
      that the pattern finds is overwritten with `'0'`. */
  function VaultedBy(o: Oracle, k: Kind, s: String): (r: String)
    requires Sound(o)
    ensures |r| == |s| && forall j :: 0 <= j < |s| ==> r[j] == s[j] || r[j] == '0'
  {
    var ms := o(Element(k), s);
    assert Fits(Element(k), s, ms);
    InnersAscending(k, s, ms);
    FillAt(s, Inners(ms));
    Fill(s, Inners(ms))
  }

  /** What one `reserve` call on `s` pushes into its buffer. */
  function RecordOf(o: Oracle, k: Kind, s: String): seq<Entry>
    requires Sound(o)
  {
    assert Fits(Element(k), s, o(Element(k), s));
    Record(k, s, o(Element(k), s))
  }

  /** The buffer before each `reserve` call, and after the last. */
  function Buffers(o: Oracle, t: String): (bs: seq<String>)
    requires Sound(o)
  {
    var s1 := VaultedBy(o, Pre, t);
    var s2 := VaultedBy(o, Textarea, s1);
    var s3 := VaultedBy(o, Script, s2);
    var s4 := VaultedBy(o, Style, s3);
    [t, s1, s2, s3, s4, VaultedBy(o, Svg, s4)]
  }

  function ReserveAll(o: Oracle, t: String): (r: Reserved)
    requires Sound(o)
  {
    var bs := Buffers(o, t);
    Reserved(bs[5], Vaults(RecordOf(o, Pre, bs[0]), RecordOf(o, Textarea, bs[1]), RecordOf(o, Script, bs[2]),
                           RecordOf(o, Style, bs[3]), RecordOf(o, Svg, bs[4])))
  }

  // ---------------------------------------------------------------------
  // Newlines, paragraphs and fixups (src/lib.rs:212-289)

  /** Newlines standardized to LF, then those inside tags hidden as CR. */
  function Shielding(o: Oracle, s: String): String
    requires Sound(o)
  {
    var n := Standardize(s);
    Shielded(n, Attributes(o(AnyTag, n)))
  }

  /** The five fixup passes, in the order of the source. */
  function FixedUp(o: Oracle, s: String): String
    requires Sound(o)
  {
    var s1 := Rewrite(o, EndTagMissingStart, s, MissingStartTemplate);
    var s2 := Rewrite(o, StartTagMissingEnd, s1, MissingEndTemplate);
    var s3 := Rewrite(o, LiInParagraph, s2, GroupOneTemplate);
    var s4 := Rewrite(o, BlockAfterPStart, s3, GroupOneTemplate);
    Rewrite(o, BlockBeforePEnd, s4, GroupOneTemplate)
  }

  /** Every fixup expansion starts with `<`, so a buffer that does not start
      with a newline still does not after the fixups: the line-break scan,
      which would record the invalid range `1..0` for a leading newline,
      never meets one. */
  lemma FixedUpKeepsFirst(o: Oracle, s: String)
    requires Sound(o) && (s == [] || s[0] != '\n')
    ensures var r := FixedUp(o, s); r == [] || r[0] != '\n'
  {
    var s1 := Rewrite(o, EndTagMissingStart, s, MissingStartTemplate);
    RewriteKeepsFirst(o, EndTagMissingStart, s, MissingStartTemplate);
    var s2 := Rewrite(o, StartTagMissingEnd, s1, MissingEndTemplate);
    RewriteKeepsFirst(o, StartTagMissingEnd, s1, MissingEndTemplate);
    var s3 := Rewrite(o, LiInParagraph, s2, GroupOneTemplate);
    RewriteKeepsFirst(o, LiInParagraph, s2, GroupOneTemplate);
    var s4 := Rewrite(o, BlockAfterPStart, s3, GroupOneTemplate);
    RewriteKeepsFirst(o, BlockAfterPStart, s3, GroupOneTemplate);
    RewriteKeepsFirst(o, BlockBeforePEnd, s4, GroupOneTemplate);
  }

  // ---------------------------------------------------------------------
  // Line breaks (src/lib.rs:291-359)

  /** `<br>` normalized, remaining newlines turned into `<br>`, and `<br>`
      taken away next to block tags. */
  function LineBroken(o: Oracle, s: String): String
    requires Sound(o) && (s == [] || s[0] != '\n')
  {
    var n := NormalizeBr(s);
    NormalizeBrFirst(s);
    var b := Breaks.Breaks(n);
    var a := Rewrite(o, BrAfterBlock, b, BrAfterTemplate);
    Rewrite(o, BrBeforeBlock, a, BrBeforeTemplate)
  }

  // ---------------------------------------------------------------------
  // Recovery (src/lib.rs:361-401)

  /** One `recover` call: the element pattern runs on `s` and the i-th inner
      HTML it finds becomes `texts[i]`. */
  function Unvault(o: Oracle, k: Kind, s: String, texts: seq<String>): String
    requires Sound(o)
  {
    var ms := o(Element(k), s);
    assert Fits(Element(k), s, ms);
    InnersAscending(k, s, ms);
    Restore(s, Inners(ms), texts)
  }

  /** The recorded `pre` contents, each passed through the HTML escaper. */
  function Escaped(escape: String -> String, entries: seq<Entry>): (texts: seq<String>)
    ensures |texts| == |entries| && forall i :: 0 <= i < |entries| ==> texts[i] == escape(entries[i].content)
  {
    seq(|entries|, i requires 0 <= i < |entries| => escape(entries[i].content))
  }

  /** The five `recover` steps, with the texts spliced into the textarea
      elements given separately. */
  function RecoverWith(o: Oracle, s: String, v: Vaults, escPre: bool, escape: String -> String,
                       textareaTexts: seq<String>): String
    requires Sound(o)
  {
    var r1 := Unvault(o, Svg, s, Contents(v.svg));
    var r2 := Unvault(o, Style, r1, Contents(v.style));
    var r3 := Unvault(o, Script, r2, Contents(v.script));
    var r4 := Unvault(o, Textarea, r3, textareaTexts);
    Unvault(o, Pre, r4, if escPre then Escaped(escape, v.pre) else Contents(v.pre))
  }

  /** Recovery as src/lib.rs:381 writes it: the textarea elements receive
      the inner HTML recorded for the svg elements. It agrees with the
      intended recovery whenever the two buffers hold the same texts. */
  function RecoveredAsWritten(o: Oracle, s: String, v: Vaults, escPre: bool, escape: String -> String): (r: String)
    requires Sound(o)
    ensures Contents(v.svg) == Contents(v.textarea) ==> r == Recovered(o, s, v, escPre, escape)
  {
    RecoverWith(o, s, v, escPre, escape, Contents(v.svg))
  }

  /** Recovery as intended: the textarea elements receive their own inner
      HTML. */
  function Recovered(o: Oracle, s: String, v: Vaults, escPre: bool, escape: String -> String): String
    requires Sound(o)
  {
    RecoverWith(o, s, v, escPre, escape, Contents(v.textarea))
  }

  // ---------------------------------------------------------------------
  // The whole function

  /** The text `auto_p(pee, br, esc_pre)` returns, with the textarea
      recovery corrected. */
  function AutoPText(o: Oracle, escape: String -> String, pee: String, br: bool, escPre: bool): (r: String)
    requires Sound(o)
    ensures NoCr(r)
    ensures Trim(pee, AnyWhitespace) == [] ==> r == []
  {
    var t := Trim(pee, AnyWhitespace);
    if t == [] then [] else
    var v := ReserveAll(o, t);
    var p := Paragraphed(Shielding(o, v.text));
    TrimNewlinesEnds(RemoveEmptyParagraphs(Paragraphs.Paragraphs(Split(Shielding(o, v.text), "\n\n"))));
    var f := FixedUp(o, p);
    FixedUpKeepsFirst(o, p);
    var b := if br then LineBroken(o, f) else f;
    Unshielded(Recovered(o, b, v.vaults, escPre, escape))
  }

  /** A copy of `s` in a fresh array. */
  method ToArray(s: String) returns (buf: array<char>)
    ensures fresh(buf) && buf[..] == s
  {
    buf := new char[|s|](i requires 0 <= i < |s| => s[i]);
  }

  /** One `reserve` call: the elements of kind `k` recorded, their inner
      HTML filled in the buffer. */
  method ReserveOne(o: Oracle, buf: array<char>, k: Kind) returns (entries: seq<Entry>)
    requires Sound(o)
    modifies buf
    ensures entries == RecordOf(o, k, old(buf[..])) && buf[..] == VaultedBy(o, k, old(buf[..]))
  {
    assert Fits(Element(k), buf[..], o(Element(k), buf[..]));
    entries := Reserve(buf, k, o(Element(k), buf[..]));
  }

  /** The five `reserve` calls on a buffer holding `t`. */
  method ReserveStage(o: Oracle, t: String) returns (text: String, v: Vaults)
    requires Sound(o)
    ensures Reserved(text, v) == ReserveAll(o, t)
  {
    var buf := ToArray(t);
    var pre := ReserveOne(o, buf, Pre);
    var textarea := ReserveOne(o, buf, Textarea);
    var script := ReserveOne(o, buf, Script);
    var style := ReserveOne(o, buf, Style);
    var svg := ReserveOne(o, buf, Svg);
    text, v := buf[..], Vaults(pre, textarea, script, style, svg);
  }

  /** Newlines standardized and hidden in tags, paragraphs wrapped, fixups
      run. */
  method ParagraphStage(o: Oracle, s: String) returns (r: String)
    requires Sound(o)
    ensures r == FixedUp(o, Paragraphed(Shielding(o, s)))
    ensures r == [] || r[0] != '\n'
  {
    var n := Standardize(s);
    var tags := ToArray(n);
    Shield(tags, o(AnyTag, tags[..]));
    var p := BuildParagraphs(tags[..]);
    r := FixedUp(o, p);
    FixedUpKeepsFirst(o, p);
  }

  /** The line-break stage, with the scan run as the source runs it. */
  method BreakStage(o: Oracle, s: String) returns (r: String)
    requires Sound(o) && (s == [] || s[0] != '\n')
    ensures r == LineBroken(o, s)
  {
    NormalizeBrFirst(s);
    var b := InsertBreaks(NormalizeBr(s));
    var a := Rewrite(o, BrAfterBlock, b, BrAfterTemplate);
    r := Rewrite(o, BrBeforeBlock, a, BrBeforeTemplate);
  }

  /** The five `recover` calls, with the textarea recovery corrected. */
  method RecoverStage(o: Oracle, s: String, v: Vaults, escPre: bool, escape: String -> String) returns (r: String)
    requires Sound(o)
    ensures r == Recovered(o, s, v, escPre, escape)
  {
    r := Recover(s, Svg, o(Element(Svg), s), Contents(v.svg));
    r := Recover(r, Style, o(Element(Style), r), Contents(v.style));
    r := Recover(r, Script, o(Element(Script), r), Contents(v.script));
    r := Recover(r, Textarea, o(Element(Textarea), r), Contents(v.textarea));
    var preTexts := if escPre then Escaped(escape, v.pre) else Contents(v.pre);
    r := Recover(r, Pre, o(Element(Pre), r), preTexts);
  }

  /** `auto_p` run stage by stage: the vaulting, newline hiding and
      restoring on arrays, the paragraphs, line breaks and recovery with
      the methods that compute them. */
  method AutoP(o: Oracle, escape: String -> String, pee: String, br: bool, escPre: bool) returns (r: String)
    requires Sound(o)
    ensures r == AutoPText(o, escape, pee, br, escPre)
  {
    var t := Trim(pee, AnyWhitespace);
    if t == [] {
      return [];
    }
    var text, v := ReserveStage(o, t);
    var f := ParagraphStage(o, text);
    if br {
      f := BreakStage(o, f);
    }
    var q := RecoverStage(o, f, v, escPre, escape);
    var out := ToArray(q);
    Unshield(out);
    r := out[..];
  }

  // ---------------------------------------------------------------------
  // The vault round trip

  /** Filling the inner HTML of an element with `'0'` leaves the pattern
      finding the same elements. */
  ghost predicate Refound(o: Oracle, k: Kind, s: String)
    requires Sound(o)
  {
    o(Element(k), VaultedBy(o, k, s)) == o(Element(k), s)
  }

  /** One `recover` step undoes its `reserve` step when the pattern finds
      the same elements in the filled buffer. */
  lemma UnvaultUndoes(o: Oracle, k: Kind, s: String)
    requires Sound(o) && Refound(o, k, s)
    ensures Unvault(o, k, VaultedBy(o, k, s), Contents(RecordOf(o, k, s))) == s
  {
    assert Fits(Element(k), s, o(Element(k), s));
    VaultRoundTrip(k, s, o(Element(k), s));
  }

  /** Nothing between vaulting and recovery changing, recovery gives back
      the text as it was before vaulting, every preserved element's inner
      HTML in place — given that each pattern finds the same elements
      once their inner HTML is filled. */
  lemma VaultsRoundTrip(o: Oracle, escape: String -> String, t: String)
    requires Sound(o)
    requires forall i :: 0 <= i < 5 ==> Refound(o, Kinds[i], Buffers(o, t)[i])
    ensures var v := ReserveAll(o, t); Recovered(o, v.text, v.vaults, false, escape) == t
  {
    var bs := Buffers(o, t);
    assert Refound(o, Kinds[4], bs[4]) && Refound(o, Kinds[3], bs[3]) && Refound(o, Kinds[2], bs[2]);
    assert Refound(o, Kinds[1], bs[1]) && Refound(o, Kinds[0], bs[0]);
    UnvaultUndoes(o, Svg, bs[4]);
    UnvaultUndoes(o, Style, bs[3]);
    UnvaultUndoes(o, Script, bs[2]);
    UnvaultUndoes(o, Textarea, bs[1]);
    UnvaultUndoes(o, Pre, bs[0]);
  }

  // ---------------------------------------------------------------------
  // The textarea recovery as written: a counterexample

  /** `<textarea>ab</textarea>` */
  const Example: String := "<textarea>ab</textarea>"

  /** A textarea element filling a buffer of 23 characters. */
  predicate TextareaAt(s: String) {
    |s| == 23 && s[..10] == "<textarea>" && s[12..] == "</textarea>"
  }

  const ExampleMatch: Match := Match(Span(0, 23), [Span(0, 10), Span(10, 12), Span(12, 23)])

  /** A regex engine that finds the one textarea element of such a buffer
      and nothing else. */
  const ExampleOracle: Oracle :=
    (p: Pattern, s: String) => if p == Element(Textarea) && TextareaAt(s) then [ExampleMatch] else []

  lemma ExampleTags(s: String)
    requires TextareaAt(s)
    ensures TagAt(s, Span(0, 10), Opening) && TagAt(s, Span(12, 23), Closing)
  {
    assert s[0] == '<' && s[9] == '>' && s[1] != '/' by { assert s[..10][0] == s[0] && s[..10][9] == s[9] && s[..10][1] == s[1]; }
    assert s[12] == '<' && s[22] == '>' && s[13] == '/' by { assert s[12..][0] == s[12] && s[12..][10] == s[22] && s[12..][1] == s[13]; }
  }

  lemma ExampleNames(s: String)
    requires TextareaAt(s)
    ensures NameIn(s, Span(0, 10), {"textarea"}) && NameIn(s, Span(12, 23), {"textarea"})
  {
    ExampleTags(s);
    assert s[1..9] == "textarea" by { assert s[1..9] == s[..10][1..9]; }
    assert s[14..22] == "textarea" by { assert s[14..22] == s[12..][2..10]; }
    forall j | 1 <= j < 9 ensures !IsWhitespace(s[j]) && s[j] != '>' { assert s[j] == s[1..9][j - 1]; }
    NameEndRun(s, 1, 9);
    forall j | 14 <= j < 22 ensures !IsWhitespace(s[j]) && s[j] != '>' { assert s[j] == s[14..22][j - 14]; }
    NameEndRun(s, 14, 22);
    assert Fold("textarea") == "textarea";
  }

  lemma ExampleMatchFits(s: String)
    requires TextareaAt(s)
    ensures Fits(Element(Textarea), s, [ExampleMatch]) && AllNamed(Element(Textarea), s, [ExampleMatch])
  {
    var m := ExampleMatch;
    ExampleTags(s);
    assert Shape(Element(Textarea), s, m);
    ExampleNames(s);
    assert Named(Element(Textarea), s, m);
    assert Wholes([m]) == [Span(0, 23)];
  }

  /** A tag name running up to the limit ends there. */
  lemma {:induction false} NameEndRun(s: String, i: nat, limit: nat)
    requires i <= limit <= |s|
    requires forall j :: i <= j < limit ==> !IsWhitespace(s[j]) && s[j] != '>'
    ensures NameEnd(s, i, limit) == limit
    decreases limit - i
  {
    if i < limit {
      NameEndRun(s, i + 1, limit);
    }
  }

  lemma ExampleOracleSound()
    ensures Sound(ExampleOracle)
  {
    forall p, s ensures Fits(p, s, ExampleOracle(p, s)) && AllNamed(p, s, ExampleOracle(p, s)) {
      if p == Element(Textarea) && TextareaAt(s) {
        ExampleMatchFits(s);
      } else {
        assert ExampleOracle(p, s) == [];
      }
    }
  }

  /** Nothing found, nothing filled. */
  lemma FillNothing(s: String)
    ensures AscendingFrom([], 0, |s|) && Fill(s, []) == s
  {
    assert ReplaceSpans(s, [], [], 0) == s[0..];
  }

  /** As written, recovery leaves the `'0'` filler in a textarea when the
      svg buffer is shorter than the textarea one: for
      `<textarea>ab</textarea>`, with no svg element, the vaulting gives
      `<textarea>00</textarea>` and the recovery keeps it, although every
      pattern finds the same elements before and after filling. */
  lemma TextareaFromSvgLosesContent(escape: String -> String)
    ensures Sound(ExampleOracle)
    ensures forall i :: 0 <= i < 5 ==> Refound(ExampleOracle, Kinds[i], Buffers(ExampleOracle, Example)[i])
    ensures var v := ReserveAll(ExampleOracle, Example);
      RecoveredAsWritten(ExampleOracle, v.text, v.vaults, false, escape) != Example &&
      Recovered(ExampleOracle, v.text, v.vaults, false, escape) == Example
  {
    ExampleRefound();
    ExampleReserved();
    var v := ReserveAll(ExampleOracle, Example);
    ExampleAsWritten(v.vaults, escape);
    ExampleChanged();
    VaultsRoundTrip(ExampleOracle, escape, Example);
  }

  /** The vaulting of the example leaves the filled buffer and records
      nothing but the textarea's inner HTML. */
  lemma ExampleReserved()
    ensures Sound(ExampleOracle)
    ensures var v := ReserveAll(ExampleOracle, Example);
      v.text == Filled && v.vaults.svg == [] && v.vaults.style == [] && v.vaults.script == [] && v.vaults.pre == []
  {
    ExampleBuffers();
  }

  /** `<textarea>00</textarea>` */
  const Filled: String := "<textarea>00</textarea>"

  /** The buffers of the vaulting of the example: only the textarea step
      changes anything, and every pattern finds the same elements after
      each step. */
  lemma ExampleBuffers()
    ensures Sound(ExampleOracle)
    ensures Buffers(ExampleOracle, Example) == [Example, Example, Filled, Filled, Filled, Filled]
  {
    ExampleOracleSound();
    ExampleSteps();
  }

  /** Each vaulting step of the example. */
  lemma ExampleSteps()
    ensures Sound(ExampleOracle)
    ensures VaultedBy(ExampleOracle, Pre, Example) == Example
    ensures VaultedBy(ExampleOracle, Textarea, Example) == Filled
    ensures forall k :: k != Pre && k != Textarea ==> VaultedBy(ExampleOracle, k, Filled) == Filled
  {
    ExampleOracleSound();
    FillNothing(Example);
    FillNothing(Filled);
    ExampleTextareaStep();
  }

  lemma ExampleTextareaStep()
    ensures Sound(ExampleOracle) && VaultedBy(ExampleOracle, Textarea, Example) == Filled
  {
    ExampleOracleSound();
    assert TextareaAt(Example);
    assert Inners([ExampleMatch]) == [Span(10, 12)];
    ExampleFill();
  }

  lemma ExampleRefound()
    ensures Sound(ExampleOracle)
    ensures forall i :: 0 <= i < 5 ==> Refound(ExampleOracle, Kinds[i], Buffers(ExampleOracle, Example)[i])
  {
    ExampleBuffers();
    var o := ExampleOracle;
    assert Refound(o, Pre, Example) by { FillNothing(Example); }
    assert Refound(o, Textarea, Example) by {
      ExampleFill();
      assert TextareaAt(Example) && TextareaAt(Filled);
    }
    assert Refound(o, Script, Filled) && Refound(o, Style, Filled) && Refound(o, Svg, Filled) by {
      FillNothing(Filled);
    }
  }

  lemma ExampleFill()
    ensures AscendingFrom([Span(10, 12)], 0, |Example|) && Fill(Example, [Span(10, 12)]) == Filled
  {
    var t := Example;
    assert ReplaceSpans(t, [Span(10, 12)], ZeroFills([Span(10, 12)]), 0) ==
      t[0..10] + Zeros(2) + ReplaceSpans(t, [], [], 12);
    assert ReplaceSpans(t, [], [], 12) == t[12..];
  }

  /** With no svg entry, the as-written recovery of the filled example
      splices nothing anywhere. */
  lemma ExampleAsWritten(v: Vaults, escape: String -> String)
    requires v.svg == [] && v.style == [] && v.script == [] && v.pre == []
    ensures Sound(ExampleOracle) && RecoveredAsWritten(ExampleOracle, Filled, v, false, escape) == Filled
  {
    ExampleOracleSound();
    assert TextareaAt(Filled);
    assert Inners([ExampleMatch]) == [Span(10, 12)];
    assert Restore(Filled, [], []) == Filled by { assert ReplaceSpans(Filled, [], [], 0) == Filled[0..]; }
    assert Restore(Filled, [Span(10, 12)], []) == Filled by {
      assert [Span(10, 12)][..0] == [];
      assert ReplaceSpans(Filled, [], [], 0) == Filled[0..];
    }
  }

  /** The filler differs from the inner HTML it replaced. */
  lemma ExampleChanged()
    ensures Filled != Example
  {
    assert Filled[10] == '0' && Example[10] == 'a';
  }
}
