/** Cutting the buffer into paragraphs: split on blank lines, wrap each
    trimmed piece in `<p>…</p>`, drop the empty paragraphs and the newlines
    at both ends. */
module Paragraphs {
  import opened Text

  /** One piece, trimmed and wrapped in `<p>…</p>`. */
  function Element(piece: String): String {
    "<p>" + Trim(piece, AnyWhitespace) + "</p>"
  }

  /** The element followed by a newline, as the wrapping loop writes it. */
  function Paragraph(piece: String): String {
    Element(piece) + "\n"
  }

  /** One paragraph per piece, in order. */
  function ParagraphList(pieces: seq<String>): (ps: seq<String>)
    ensures |ps| == |pieces| && forall i :: 0 <= i < |pieces| ==> ps[i] == Paragraph(pieces[i])
  {
    seq(|pieces|, i requires 0 <= i < |pieces| => Paragraph(pieces[i]))
  }

  /** The text the wrapping loop builds. */
  function Paragraphs(pieces: seq<String>): String {
    Concat(ParagraphList(pieces))
  }

  /** The wrapping loop: appends one paragraph per piece. */
  method Wrap(pieces: seq<String>) returns (out: String)
    ensures out == Paragraphs(pieces)
  {
    out := [];
    var i := 0;
    while i < |pieces|
      invariant i <= |pieces|
      invariant out == Concat(ParagraphList(pieces)[..i])
    {
      var ps := ParagraphList(pieces)[..i + 1];
      assert ps[..i] == ParagraphList(pieces)[..i];
      out := out + Paragraph(pieces[i]);
      i := i + 1;
    }
    assert ParagraphList(pieces)[..i] == ParagraphList(pieces);
  }

  function Elements(pieces: seq<String>): (els: seq<String>)
    ensures |els| == |pieces| && forall i :: 0 <= i < |pieces| ==> els[i] == Element(pieces[i])
  {
    seq(|pieces|, i requires 0 <= i < |pieces| => Element(pieces[i]))
  }

  /** The wrapped text is the pieces' `<p>…</p>` elements joined by newlines,
      with a final newline. */
  lemma ParagraphsJoined(pieces: seq<String>)
    requires pieces != []
    ensures Paragraphs(pieces) == Join(Elements(pieces), "\n") + "\n"
  {
    var els := Elements(pieces);
    ConcatTerminated(els, "\n");
    assert ParagraphList(pieces) == seq(|els|, i requires 0 <= i < |els| => els[i] + "\n");
  }

  /** A piece gives an empty paragraph exactly when it is blank. */
  lemma EmptyParagraphIff(piece: String)
    ensures Paragraph(piece) == "<p></p>\n" <==> forall i :: 0 <= i < |piece| ==> IsWhitespace(piece[i])
  {
    TrimEmptyIff(piece, AnyWhitespace);
    if Paragraph(piece) == "<p></p>\n" {
      assert |Trim(piece, AnyWhitespace)| == 0;
    }
  }

  /** Deleting `<p></p>` (case-sensitive, leftmost first). */
  function RemoveEmptyParagraphs(s: String): String {
    ReplaceLiteral(s, "<p></p>", [])
  }

  /** What is left is the text between the deleted occurrences, in order,
      and none of those pieces holds `<p></p>`. */
  lemma RemoveEmptyParagraphsGlues(s: String)
    ensures RemoveEmptyParagraphs(s) == Join(Split(s, "<p></p>"), [])
    ensures forall p :: p in Split(s, "<p></p>") ==> NoOccurrenceIn(p, "<p></p>", 0, |p|)
  {
    DeleteIsSplitAndGlue(s, "<p></p>");
    SplitPiecesFree(s, "<p></p>");
  }

  /** `trim_matches_in_place('\n')`. */
  function TrimNewlines(s: String): String {
    Trim(s, Only('\n'))
  }

  /** After trimming, the buffer neither starts nor ends with a newline, and
      it is what lies between the leading and trailing runs of newlines. */
  lemma TrimNewlinesEnds(s: String)
    ensures var r := TrimNewlines(s);
      (r == [] || (r[0] != '\n' && r[|r| - 1] != '\n')) &&
      (r == [] <==> forall i :: 0 <= i < |s| ==> s[i] == '\n')
  {
    TrimEmptyIff(s, Only('\n'));
  }

  /** The paragraph stage from the shielded buffer to the trimmed one
      (src/lib.rs:238-259). */
  function Paragraphed(s: String): String {
    TrimNewlines(RemoveEmptyParagraphs(Paragraphs(Split(s, "\n\n"))))
  }

  /** The stage as the source runs it: the pieces wrapped one by one. */
  method BuildParagraphs(s: String) returns (r: String)
    ensures r == Paragraphed(s)
    ensures r == [] || (r[0] != '\n' && r[|r| - 1] != '\n')
  {
    var pieces := Split(s, "\n\n");
    var wrapped := Wrap(pieces);
    r := TrimNewlines(RemoveEmptyParagraphs(wrapped));
    TrimNewlinesEnds(RemoveEmptyParagraphs(wrapped));
  }
}
