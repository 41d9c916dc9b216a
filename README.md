# html-auto-p: `auto_p` in Dafny

`auto_p(pee, br, esc_pre)` is the crate's Rust port of WordPress's
`wpautop`. It turns text separated by blank lines into `<p>` paragraphs and,
when `br` is set, turns the remaining newlines into `<br>`. It runs these
stages in order on one string buffer:

1. Trim the input. Blank input gives `""`.
2. Vault the inner HTML of `<pre>`, `<textarea>`, `<script>`, `<style>` and
   `<svg>` elements. The inner HTML is copied out and overwritten with `'0'`.
3. Standardize CR LF and lone CR to LF.
4. Hide every newline inside a tag as CR.
5. Split on `"\n\n"` and wrap each trimmed piece as `<p>…</p>\n`.
6. Delete `<p></p>` and trim newlines from both ends.
7. Run five fixup `replace_all` passes.
8. Optionally insert line breaks:
   - normalize `<br>` variants;
   - run a backward scan that records ranges;
   - replace those ranges with `<br>`;
   - run two passes that drop `<br>` next to block tags.
9. Splice the vaulted inner HTML back in. With `esc_pre`, the `<pre>`
   contents are escaped first.
10. Turn every CR back into LF.

The model follows those stages, one module each:

| file | module | models |
|---|---|---|
| `text.dfy` | `Text` | Strings, Unicode and ASCII white space, `trim`, spans, the splice `ReplaceSpans`, literal search, `split` and `join` |
| `tags.dfy` | `Tags` | The block and preserved tag-name sets, `(?i)` case folding, and tag shapes |
| `patterns.dfy` | `Patterns` | The regexes, seen through their matches (an oracle), and `replace_all` with a `$n` template |
| `vault.dfy` | `Vault` | `reserve` and `recover` |
| `newlines.dfy` | `Newlines` | Newline standardization and the CR shielding of newlines inside tags |
| `paragraphs.dfy` | `Paragraphs` | Split and wrap, empty-paragraph removal, and newline trimming |
| `fixups.dfy` | `Fixups` | The five fixup passes and the two `<br>`-next-to-block passes |
| `breaks.dfy` | `Breaks` | `<br>` normalization, the backward newline scan, and applying its ranges |
| `autop.dfy` | `AutoP` | The whole function, the vault round trip, and the textarea finding |

Some parts of the source change a buffer in place:
- `reserve`;
- the shielding and unshielding byte loops;
- the wrap loop;
- the backward scan;
- the `replace_range` loops.

These are methods over arrays or strings, with loops and invariants. Each
method is proved equal to a specification function. The `replace_all`
rewrites are functions.

The regex engine is an oracle: `Oracle = (Pattern, String) -> seq<Match>`.
`Sound(o)` states what every answer satisfies:
- matches are in bounds, left to right and non-overlapping;
- each match carries its pattern's capture groups, laid out as the regex lays them out;
- each match has the literal parts of its regex (`<p>`, `</p>`, `<br>\n`);
- each match has the tag shapes of its regex, and tag names from the right set.

The three literal regexes are written out as scanners: `<p></p>`,
`\r\n|\r` and `<br\s*/?>`. The buffer is a `seq<char>`, indexed by
character where the source indexes bytes. The characters the source tests
and the ones it writes are ASCII, so every test and every edit lands at the
same place in both. One place differs: filling writes one `'0'` per
character, where the source writes one per UTF-8 byte (see "## Left out").

## Model

| member | source | states |
|---|---|---|
| Text.TrimSlice | src/lib.rs:176 | `trim_in_place` keeps the slice between the leading and the trailing runs of Unicode white space |
| Text.TrimIdempotent | src/lib.rs:176 | Trimming twice is the same as trimming once |
| Text.TrimEmptyIff | src/lib.rs:176-180 | The trimmed text is empty exactly when every character is white space. This is the early-exit condition. |
| Text.SplitJoin | src/lib.rs:242 | Joining the pieces of `split("\n\n")` with `"\n\n"` gives back the text |
| Text.SplitPiecesFree | src/lib.rs:242 | No piece of a split contains the separator |
| Text.DeleteIsSplitAndGlue | src/lib.rs:253 | `replace_all` of a literal with `""` is the split pieces glued together |
| Text.SpliceFront | src/lib.rs:341-343 | With ascending spans, splicing the first span last gives the same text as replacing all spans at once. This is why the last-to-first splice order keeps indices valid. |
| Tags.KindsAgainstBlocks | src/lib.rs:39-61 | Each vaulted kind is in the block-and-preserved set, and `pre` is also a block tag |
| Patterns.ReplaceAllAround | src/lib.rs:261-288 | When each expansion rewrites two spans inside its match and copies the rest, `replace_all` equals replacing those spans alone |
| Patterns.ReplaceAllEdits | src/lib.rs:273-288 | The same, for one span per match |
| Patterns.ReplaceAllKeepsFirst | src/lib.rs:261-288 | A pass whose expansions all start with `<` never makes the buffer start with a newline |
| Patterns.LeadingNewlineNotIntroduced | src/lib.rs:261-288 | Non-empty replacements that do not start with a newline keep a buffer from starting with one |
| Vault.Record | src/lib.rs:191-195 | `reserve` records one entry per match, in match order. Each entry is the group-2 span and the original text at `[start, end)`. |
| Vault.FillAt | src/lib.rs:197-203 | After filling, the buffer has the same length in characters. Every character inside a recorded range is `'0'`; every other character is unchanged (one `'0'` per character, not per byte) |
| Vault.Reserve | src/lib.rs:190-204 | The in-place `reserve` returns exactly `Record` and leaves the buffer equal to `Fill` of the old buffer, which writes one `'0'` per character. The ranges are ascending. |
| Vault.Recover | src/lib.rs:364-376 | `recover` pairs the i-th match with the i-th text for min(#matches, #texts) pairs, and splices them from last to first. The result equals `Restore`: those spans replaced, all other text copied. |
| Vault.SpliceBackward | src/lib.rs:374-376 | Splicing ascending spans from the last to the first equals replacing them all at once |
| Vault.VaultRoundTrip | src/lib.rs:190-210 | Restoring the recorded texts into the filled buffer at the same spans gives back the original buffer |
| Newlines.Standardize | src/lib.rs:214-217 | After replacing CR LF and lone CR with LF, no CR is left. The length does not grow, and the text is empty only if the input was. |
| Newlines.StandardizeKeeps | src/lib.rs:214-217 | Text without CR is unchanged |
| Newlines.StandardizeIdempotent | src/lib.rs:214-217 | Standardizing twice is the same as once |
| Newlines.Shield | src/lib.rs:220-239 | The in-place pass turns exactly the newlines inside the tags' attribute groups into CR. The length does not change. |
| Newlines.CollectNewlines | src/lib.rs:222-231 | Collects exactly the indices of the newlines inside the attribute groups |
| Newlines.ShieldRoundTrip | src/lib.rs:220-239 | On CR-free text, shielding and then unshielding gives back the text. So a blank line inside an attribute value comes back exactly, as tests/tests.rs:66-71 expects. |
| Newlines.ShieldedTagsHaveNoNewline | src/lib.rs:220-239 | After shielding, no newline is left inside a tag |
| Newlines.SeparatorsOutsideTags | src/lib.rs:242 | Every `"\n\n"` that `split` finds in the shielded text lies outside the tags |
| Newlines.Unshield | src/lib.rs:403-411 | The in-place loop maps every CR to LF and leaves every other character unchanged |
| Paragraphs.Wrap | src/lib.rs:245-250 | The wrap loop produces `Paragraphs`, which is the concatenation of `<p>` + trimmed piece + `</p>\n` over the pieces, in order |
| Paragraphs.ParagraphsJoined | src/lib.rs:245-250 | The wrapped text is the paragraphs joined by `\n`, with a final `\n` |
| Paragraphs.EmptyParagraphIff | src/lib.rs:245-256 | A piece gives `<p></p>\n` exactly when it is all white space |
| Paragraphs.RemoveEmptyParagraphsGlues | src/lib.rs:253-256 | Removing `<p></p>` glues together the pieces between occurrences, and none of those pieces contains `<p></p>` |
| Paragraphs.TrimNewlinesEnds | src/lib.rs:258 | After `trim_matches('\n')`, the buffer neither starts nor ends with a newline. It is empty exactly when it held only newlines. |
| Paragraphs.BuildParagraphs | src/lib.rs:242-258 | The paragraph stage computes `Paragraphed` and leaves no newline at either end |
| Fixups.MissingStartInserts | src/lib.rs:261-264 | The pass inserts `<p>` at the start of group 3 and `</p>` in place of the trailing `</p>`. All other text is copied. |
| Fixups.MissingStartContent | src/lib.rs:118-126 | The replaced text is `</p>` (case-folded). Group 1 is an opening tag from the block-except-`p` set. |
| Fixups.MissingEndInserts | src/lib.rs:267-270 | The pass replaces the leading `<p>` (in any case) with `<p>` and inserts `</p>` after group 1. All other text is copied. |
| Fixups.MissingEndContent | src/lib.rs:128-131 | The replaced text is `<p>`. Group 3 is a closing tag from the block-except-`p` set. |
| Fixups.LiUnwraps | src/lib.rs:273-276 | The pass deletes the `<p>` before and the `</p>` after each `<li>…`, and copies the rest |
| Fixups.LiContent | src/lib.rs:133-135 | The deleted texts are `<p>` and `</p>`, and group 1 starts with an `li` tag |
| Fixups.PBeforeBlockDeletes | src/lib.rs:279-282 | The pass deletes exactly the `<p>` in front of each matched tag |
| Fixups.PBeforeBlockContent | src/lib.rs:137-145 | The deleted text is `<p>`, followed by a block or preserved tag |
| Fixups.PAfterBlockDeletes | src/lib.rs:285-288 | The pass deletes exactly the `</p>` after each matched tag |
| Fixups.PAfterBlockContent | src/lib.rs:147-156 | The deleted text is `</p>`, preceded by a block or preserved tag |
| Fixups.BrAfterBlockDrops | src/lib.rs:346-349 | The pass replaces each `<br>\n` after a block tag with `\n` |
| Fixups.BrAfterBlockContent | src/lib.rs:158-161 | The replaced text is `<br>\n`, after a block tag |
| Fixups.BrBeforeBlockDrops | src/lib.rs:352-355 | The pass replaces each `<br>\n` before a block tag with `\n` |
| Fixups.BrBeforeBlockContent | src/lib.rs:162-165 | The replaced text is `<br>\n`, before a block tag |
| Breaks.BrLength | src/lib.rs:110 | The length of the `<br\s*/?>` tag at the front. The pattern matches there in at most one way. |
| Breaks.NoBrAfterNormalizing | src/lib.rs:293 | A character that starts no `<br>` tag still starts none after the rest of the text is normalized |
| Breaks.NormalizeBrIdempotent | src/lib.rs:293 | Normalizing `<br>` variants twice is the same as once |
| Breaks.NormalizeBrFirst | src/lib.rs:293 | Normalizing keeps empty text empty, and keeps the first character unless a tag starts there, in which case it becomes `<` |
| Breaks.BrScan | src/lib.rs:299-339 | The nested backward loops record exactly the ranges of `Scan` over the whole buffer, in the same order |
| Breaks.ScanAscending | src/lib.rs:299-343 | On text not starting with a newline, the recorded ranges, reversed, are ascending, disjoint and in bounds. So splicing them in recorded order (right to left) keeps later indices valid. |
| Breaks.ScanRanges | src/lib.rs:311-337 | Each range ends at a newline. It starts just after the first non-white-space character before that newline, and that character does not end an existing `<br>`. |
| Breaks.ScanComplete | src/lib.rs:304-337 | Every newline after the first character lies in a recorded range, unless its white space follows an existing `<br>` (tests/tests.rs:10,12) |
| Breaks.ApplyBreaks | src/lib.rs:341-343 | `replace_range(range, "<br>")` applied in recorded order equals replacing all ranges with `<br>` at once |
| Breaks.InsertBreaks | src/lib.rs:299-343 | Scan plus splice computes `Breaks` |
| AutoP.VaultedBy | src/lib.rs:190-204 | One `reserve` call keeps the length in characters and writes only `'0'`, one per character |
| AutoP.FixedUpKeepsFirst | src/lib.rs:261-288 | After the fixups, the buffer still does not start with a newline. So the scan never meets the leading newline for which it would record the invalid range `1..0`. |
| AutoP.AutoPText | src/lib.rs:173-414 | Blank input gives `""` for every flag value (tests/tests.rs:5-8). The output holds no CR, including CR inside restored inner HTML. |
| AutoP.ReserveOne | src/lib.rs:188-210 | One in-place `reserve` call records the elements of its kind as `RecordOf` does and leaves the buffer as `VaultedBy` describes: same length, each character kept or turned into `0` |
| AutoP.ReserveStage | src/lib.rs:188-210 | The five in-place `reserve` calls, in the order pre, textarea, script, style, svg, compute `ReserveAll` |
| AutoP.ParagraphStage | src/lib.rs:212-288 | Standardize, shield, wrap and fix up. The result does not start with a newline. |
| AutoP.BreakStage | src/lib.rs:291-360 | The line-break stage computes `LineBroken` |
| AutoP.RecoverStage | src/lib.rs:362-399 | The five `recover` calls, with the textarea call corrected to use the textarea buffer, compute `Recovered`, with the `pre` texts escaped when `esc_pre` is set |
| AutoP.RecoveredAsWritten | src/lib.rs:378-399 | The recovery as written: svg, style, script, then the textarea elements from the svg buffer, then pre (escaped when `esc_pre` is set). It agrees with `Recovered` whenever the svg and textarea buffers hold the same texts; `TextareaFromSvgLosesContent` shows an input where they differ |
| AutoP.AutoP | src/lib.rs:173-414 | The stage-by-stage run computes `AutoPText` |
| AutoP.UnvaultUndoes | src/lib.rs:190-210 | One `recover` undoes its `reserve` when the pattern finds the same elements in the filled buffer |
| AutoP.VaultsRoundTrip | src/lib.rs:188-210 | Recovery with each kind's own recorded texts gives back the text as it was before vaulting. This assumes each element pattern finds the same elements after its inner HTML is filled (tests/tests.rs:73-78, 106-123). |
| AutoP.TextareaFromSvgLosesContent | src/lib.rs:381 | For `<textarea>ab</textarea>` with an oracle that satisfies `Sound` and the round-trip assumption, the as-written recovery returns `<textarea>00</textarea>`, while the corrected one returns the input |

## Left out

- The regex engine and its `Lazy` statics (src/lib.rs:87-165) are not modelled. Matches come from the oracle, constrained by `Sound`. What the attribute grammar accepts is not modelled beyond the tag shapes and name sets.
- `html_escape::encode_safe` is the parameter `escape`, a function with no stated properties.
- `trim_in_place` and the `unsafe` byte access are modelled on `seq<char>` and `array<char>`. UTF-8 validity is not modelled: the bytes the source writes are ASCII, and each run it overwrites covers whole characters.
- AutoP.VaultedBy: it writes one `'0'` per character of the inner HTML. src/lib.rs:197-203 writes one per UTF-8 byte, so a character of n bytes becomes n zeros there. Byte lengths are not modelled. Where a recovery puts the recorded texts back over the filler, the difference does not reach the output. It becomes visible where filler survives: with the as-written recovery, `<textarea>é</textarea>` leaves `<textarea>00</textarea>` in the source and `<textarea>0</textarea>` in the model.
- Vault.FillAt: the same per-character filler; the length it keeps is the length in characters, not in bytes.
- Vault.Reserve: the same per-character filler, through `Fill`.
- src/options.rs is not part of this model: `auto_p` takes no options. tests/data.rs is also not part of this model: it does file I/O over fixture files.
- AutoP.AutoP: src/lib.rs:381 restores the textarea elements from the svg buffer. This method follows the corrected recovery, `Recovered`. The as-written recovery is `AutoP.RecoveredAsWritten` (see Findings).
- AutoP.AutoPText: it also follows the corrected recovery, for the same reason.
- AutoP.RecoverStage: it follows the corrected recovery too. Its textarea call uses the textarea buffer, not the svg buffer that src/lib.rs:381 passes. So on `<textarea>ab</textarea>` it returns the input, where the source leaves `<textarea>00</textarea>`.
- AutoP.VaultsRoundTrip: the round trip is stated for the vault alone, with nothing run between vaulting and recovery. It assumes each element pattern finds the same elements once their inner HTML is filled. The oracle alone cannot guarantee this, and the model does not prove that the paragraph, fixup and break stages leave vaulted elements alone.
- AutoP.AutoPText does not state the pipeline's outputs on concrete inputs (tests/tests.rs:9-123). With an abstract oracle those outputs are not determined.
- The line-break scan records the range `1..0` when the buffer starts with a newline, and `replace_range` would panic on it. The model's `Breaks` requires a buffer that does not start with a newline. `AutoP.FixedUpKeepsFirst` proves that the pipeline meets this requirement.
- Fixups.MissingEndInserts: the regex `<p>([^<]+)(\s*)(</…>)` always leaves group 2 empty, because `[^<]+` is greedy and also takes the white space. The model's match layout states this.

## Findings

| source | as written | input that shows it | evidently intended | confidence | as-written member | corrected member |
|---|---|---|---|---|---|---|
| src/lib.rs:381 | `recover(&mut pee, &*RE_TEXTAREA_ELEMENT, &svg_inner_html_buffer)` gives the textarea elements the inner HTML recorded for the svg elements | `<textarea>ab</textarea>`, with no svg element: the result keeps the filler, `<textarea>00</textarea>` | Use `textarea_inner_html_buffer`, so that a textarea's inner HTML comes back unchanged | high; not executed | AutoP.TextareaFromSvgLosesContent | AutoP.VaultsRoundTrip |
