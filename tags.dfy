/** The tag-name sets that the fixup and line-break patterns alternate over,
    and the case-insensitive comparison the patterns use on tag names. */
module Tags {
  import opened Text

  /** Block elements other than `p`; `h[1-6]` is written out. */
  const BlocksExceptP: set<String> := {
    "table", "thead", "tfoot", "caption", "col", "colgroup", "tbody", "tr", "td", "th",
    "div", "dl", "dd", "dt", "ul", "ol", "li", "pre", "form", "map", "area", "blockquote",
    "address", "math", "h1", "h2", "h3", "h4", "h5", "h6", "hr", "fieldset", "legend",
    "section", "article", "aside", "hgroup", "header", "footer", "nav", "figure",
    "figcaption", "details", "menu", "summary"
  }

  /** All block elements: the above and `p`. */
  const AllBlocks: set<String> := BlocksExceptP + {"p"}

  /** Elements whose content is vaulted besides `pre`. */
  const Preserved: set<String> := {"textarea", "script", "style", "svg"}

  const BlocksAndPreserved: set<String> := AllBlocks + Preserved

  /** The five vaulted element kinds, in the order they are vaulted. */
  datatype Kind = Pre | Textarea | Script | Style | Svg

  function KindName(k: Kind): (name: String)
    ensures name == "pre" || name in Preserved
  {
    match k
    case Pre => "pre"
    case Textarea => "textarea"
    case Script => "script"
    case Style => "style"
    case Svg => "svg"
  }

  /** Every vaulted kind is one of the names the block-and-preserved
      patterns alternate over, and `pre` is also a block tag, so it takes
      part in the fixups as well as being vaulted. */
  lemma KindsAgainstBlocks(k: Kind)
    ensures KindName(k) in BlocksAndPreserved
    ensures k == Pre ==> KindName(k) in BlocksExceptP
  {
  }

  /** Case folding as the `(?i)` flag applies it to the letters of the tag
      names: ASCII upper case folds to lower case, and the simple case
      folding of Unicode also maps KELVIN SIGN to `k` and LONG S to `s`. */
  function FoldChar(c: char): char {
    if 'A' <= c <= 'Z' then (c as int + 32) as char
    else if c == '\U{212A}' then 'k'
    else if c == '\U{17F}' then 's'
    else c
  }

  function Fold(s: String): (r: String)
    ensures |r| == |s| && forall i :: 0 <= i < |s| ==> r[i] == FoldChar(s[i])
  {
    seq(|s|, i requires 0 <= i < |s| => FoldChar(s[i]))
  }

  /** The first position at or after `i` (and at most `limit`) holding white
      space or `>`: where a tag name ends. */
  function NameEnd(s: String, i: nat, limit: nat): (j: nat)
    requires i <= limit <= |s|
    ensures i <= j <= limit
    ensures forall k :: i <= k < j ==> !IsWhitespace(s[k]) && s[k] != '>'
    ensures j == limit || IsWhitespace(s[j]) || s[j] == '>'
    decreases limit - i
  {
    if i == limit || IsWhitespace(s[i]) || s[i] == '>' then i else NameEnd(s, i + 1, limit)
  }

  datatype TagForm = Opening | Closing | OpeningOrClosing

  /** The text of `sp` is one tag `<name …>` or `</name …>` of the given
      form (its name is constrained separately, by `NameIn`). */
  predicate TagAt(s: String, sp: Span, form: TagForm)
    requires sp.end <= |s|
  {
    sp.start + 3 <= sp.end && s[sp.start] == '<' && s[sp.end - 1] == '>' &&
    match form
    case Opening => s[sp.start + 1] != '/'
    case Closing => s[sp.start + 1] == '/'
    case OpeningOrClosing => true
  }

  /** The name of the tag at `sp`, compared case-insensitively, is in
      `names`. */
  predicate NameIn(s: String, sp: Span, names: set<String>)
    requires sp.end <= |s|
  {
    sp.start + 3 <= sp.end &&
    var i := if s[sp.start + 1] == '/' then sp.start + 2 else sp.start + 1;
    Fold(s[i..NameEnd(s, i, sp.end - 1)]) in names
  }

  /** `sp` starts with an opening tag named `name`, followed by more text. */
  predicate StartsWithTag(s: String, sp: Span, name: String)
    requires sp.end <= |s|
  {
    sp.start + 2 <= sp.end && s[sp.start] == '<' &&
    var j := NameEnd(s, sp.start + 1, sp.end);
    j < sp.end && Fold(s[sp.start + 1..j]) == name
  }
}
