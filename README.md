# Bullet-journal signifiers, modelled in Dafny

The journal app lets its user start a line of Markdown with a bullet-journal
signifier: `*` for priority, `x` for done, `>` for migrated, `<` for
scheduled, `o` for event, `-` for note and `!` for inspiration. The module
`app/renderer/markdown.py` turns such text into HTML in three steps:

1. `_preprocess_signifiers` rewrites every signifier line `S<blanks>rest`
   into the Markdown bullet `- @sig(token) rest`;
2. markdown-it renders the Markdown; in a tight list (items not separated
   by blank lines) each such bullet becomes `<li>@sig(token) rest…`;
3. `_decorate_signifiers` replaces each `<li>@sig(token)` and the white
   space after it with a list item carrying the class `bj-<token>` and the
   token's glyph, and `render_markdown_with_signifiers` puts a fixed
   `<style>` block in front.

The project models these steps as pure functions over `string`
(`seq<char>`) and proves what they do:

- `wrappers.dfy` (module `Wrappers`) holds the `Option` type the two
  matchers return.
- `text.dfy` (module `Text`) splits text into lines at `'\n'` and joins
  them again.
- `lexicon.dfy` (module `Lexicon`) holds the signifier table, the glyph
  table and the fallbacks.
- `preprocess.dfy` (module `Preprocessor`) holds the line pattern
  `^(\*|x|>|<|o|-|!)[\t ]+(.*)$` (MULTILINE) and the line rewrite.
- `decorate.dfy` (module `Decorator`) holds the scan of
  `re.sub(r"<li>@sig\(([^)]+)\)\s*", …)` and the replacement markup.
- `render.dfy` (module `Render`) holds the whole pipeline. The Markdown
  renderer is a parameter of it.

How the two regular expressions are modelled:

- **Preprocessor.** With `re.MULTILINE`, `^` and `$` match only at line
  boundaries. The middle group `.*` cannot cross a `'\n'`. So a match is
  always one whole line, and `re.sub` over the text is the line rewrite
  applied to each `'\n'`-separated line.
- **Decorator.** `re.sub` scans from left to right. At each position it
  either replaces a match and resumes after it, or copies one character.
  `[^)]+` takes a non-empty token up to the first `)`. `\s*` is greedy
  over Python's Unicode white space for `str` patterns.

## Model

| member | source | states |
|---|---|---|
| Lexicon.TokenNames | app/renderer/markdown.py:8-16 | each of the seven signifier symbols maps to its own token name (`*`→priority … `!`→inspiration) |
| Lexicon.SymbolsAreKeys | app/renderer/markdown.py:8-26 | the symbol alternatives of the line pattern are exactly the keys of the signifier table, so the `"unknown"` default of the lookup is never used for a matched line |
| Lexicon.TokensDistinct | app/renderer/markdown.py:8-16 | different signifiers give different tokens |
| Lexicon.TokensHaveGlyphs | app/renderer/markdown.py:8-42 | every signifier's token has its own glyph, not the fallback, and is a plain class word |
| Lexicon.GlyphKeysAreTokens | app/renderer/markdown.py:8-42 | the glyph table's keys are exactly the signifier tokens, and `"unknown"` has no glyph |
| Lexicon.UnknownTokenGlyph | app/renderer/markdown.py:34-42 | a token that is not a signifier token gets the fallback glyph `•` |
| Lexicon.TokenFor | app/renderer/markdown.py:23 | the lookup gives `"unknown"` exactly for a symbol that is not a key of the signifier table |
| Lexicon.GlyphFor | app/renderer/markdown.py:34-42 | every glyph, fallback included, is one character and neither `<` nor `)`, and the fallback `•` is given exactly for tokens the glyph table lacks |
| Text.Lines | app/renderer/markdown.py:26 | splitting at `'\n'` gives at least one line, and no line holds a `'\n'` |
| Text.LinesCount | app/renderer/markdown.py:26 | a text with n line breaks has n + 1 lines |
| Text.UnlinesLines | app/renderer/markdown.py:26 | joining the lines of a text with `'\n'` gives back the text |
| Text.LinesUnlines | app/renderer/markdown.py:26 | splitting the join of `'\n'`-free lines gives back those lines |
| Preprocessor.MatchSignifier | app/renderer/markdown.py:26 | a match on a line has the line's first character as its symbol, and its rest is a suffix of the line after at least one blank that does not start with a blank |
| Preprocessor.BlankRun | app/renderer/markdown.py:26 | the run of `[\t ]` at the front is all blanks and stops at a non-blank |
| Preprocessor.BlankRunGreedy | app/renderer/markdown.py:26 | `[\t ]+` takes every blank before the first non-blank |
| Preprocessor.MatchSignifierSound | app/renderer/markdown.py:26 | a match on a line splits it into a signifier symbol, one or more blanks, and a rest that does not start with a blank, since the blank run is taken greedily |
| Preprocessor.MatchSignifierComplete | app/renderer/markdown.py:26 | every such split of a line is found by the match, with that symbol and that rest |
| Preprocessor.RewriteLine | app/renderer/markdown.py:20-26 | rewriting a line never adds a line break |
| Preprocessor.RewriteSignifierLine | app/renderer/markdown.py:20-26 | a signifier line `S<blanks>rest` becomes `- @sig(<token of S>) rest` |
| Preprocessor.RewrittenBullet | app/renderer/markdown.py:24 | the rewritten line is the Markdown bullet `- ` followed by `@sig(token) rest` |
| Preprocessor.RewriteLineUnchanged | app/renderer/markdown.py:26 | a line is left unchanged if and only if it does not start with a signifier symbol followed by a tab or space (empty, indented, `*bold*`, a bare `*`) |
| Preprocessor.RewrittenLineShape | app/renderer/markdown.py:24 | every line that changes now starts with `- ` |
| Preprocessor.PreprocessSignifiers | app/renderer/markdown.py:19-27 | the pass keeps the number of line breaks; Preprocessor.PreprocessLineLocal and Preprocessor.PreprocessIsLineMap state line by line what it writes |
| Preprocessor.PreprocessLineLocal | app/renderer/markdown.py:26-27 | the output has as many lines as the input, and line i of the output is line i of the input rewritten |
| Preprocessor.PreprocessIsLineMap | app/renderer/markdown.py:26-27 | preprocessing equals split at `'\n'`, rewrite each line, join with `'\n'` |
| Preprocessor.PreprocessCons | app/renderer/markdown.py:26-27 | a leading line and the text after its line break are rewritten independently |
| Preprocessor.PreprocessSignifierText | app/renderer/markdown.py:19-27 | a one-line signifier text becomes its `- @sig(token) rest` bullet |
| Preprocessor.PreprocessTwoItems | app/renderer/markdown.py:19-27 | two signifier lines, each ending in a line break, become two bullets with their own tokens |
| Preprocessor.PreprocessShoppingList | app/renderer/markdown.py:19-27 | `* Buy milk` and `x Pay rent` become `- @sig(priority) Buy milk` and `- @sig(done) Pay rent` |
| Preprocessor.PreprocessEmphasis | app/renderer/markdown.py:26 | `*bold* text` is not a signifier line and passes unchanged |
| Preprocessor.PreprocessNotIdempotent | app/renderer/markdown.py:24-26 | a line the pass changes is changed again by a second pass, because `- ` is itself the note signifier |
| Decorator.IsSpace | app/renderer/markdown.py:45 | a character `\s` accepts is never `<` or `)`, so the white-space run cannot swallow the start of a marker or a token's end |
| Decorator.CloseParen | app/renderer/markdown.py:45 | the length of the `[^)]` run never exceeds the text; Decorator.CloseParenSpec states where it stops |
| Decorator.SpaceRun | app/renderer/markdown.py:45 | the length of the `\s` run never exceeds the text; Decorator.SpaceRunSpec states where it stops |
| Decorator.Replacement | app/renderer/markdown.py:43 | the replacement markup starts with `<li class="bj-li">` and does not itself start a marker |
| Decorator.DecorateSignifiers | app/renderer/markdown.py:30-45 | its meaning is stated by Decorator.DecorateStep (a match at the front is replaced) and Decorator.DecorateVerbatim (unchanged exactly when no position starts a match) |
| Decorator.CloseParenSpec | app/renderer/markdown.py:45 | `[^)]` stops at the first `)`: nothing before it is `)` |
| Decorator.CloseParenOf | app/renderer/markdown.py:45 | for a `)`-free token followed by `)`, the token ends right at that `)` |
| Decorator.SpaceRunSpec | app/renderer/markdown.py:45 | `\s*` takes only white space and stops at the first non-space |
| Decorator.SpaceRunGreedy | app/renderer/markdown.py:45 | `\s*` takes all of a run of white space |
| Decorator.MatchMarker | app/renderer/markdown.py:45 | a match starts with `<li>@sig(` and covers at least the opener, one token character and `)` |
| Decorator.MatchMarkerSound | app/renderer/markdown.py:45 | a match splits the text into opener, non-empty `)`-free token, `)`, white space and a tail that does not start with white space |
| Decorator.MatchMarkerComplete | app/renderer/markdown.py:45 | every such split is the match found, with that token and that length |
| Decorator.MatchNeedsParen | app/renderer/markdown.py:45 | no match without a `)` |
| Decorator.DecorateStep | app/renderer/markdown.py:32-45 | a match at the front is replaced by the token's list item and span with its glyph, and the scan resumes after the white space |
| Decorator.DecorateNoParen | app/renderer/markdown.py:45 | HTML without `)` is left unchanged |
| Decorator.DecorateCopies | app/renderer/markdown.py:45 | a `<`-free prefix is copied as is, since no match starts on another character |
| Decorator.DecorateShowsPrefix | app/renderer/markdown.py:45 | a `<`-free prefix of the output was already a prefix of the input |
| Decorator.DecorateChangesMatch | app/renderer/markdown.py:43-45 | HTML that starts with a match is changed |
| Decorator.DecorateNoMarker | app/renderer/markdown.py:45 | HTML in which no position starts a match is left unchanged |
| Decorator.DecorateFixedNoMarker | app/renderer/markdown.py:45 | HTML that the pass leaves unchanged holds no match |
| Decorator.DecorateVerbatim | app/renderer/markdown.py:30-45 | the pass leaves HTML unchanged if and only if no position in it starts a match |
| Decorator.NoOpenerVerbatim | app/renderer/markdown.py:45 | HTML without `<li>@sig(` is left unchanged |
| Decorator.GuardedNoMarker | app/renderer/markdown.py:45 | markup in which no `<` starts `<li>` cannot start a match, even with more text after it |
| Decorator.DecorateGuardedPrefix | app/renderer/markdown.py:45 | such markup is copied as is, and the rest is decorated on its own |
| Decorator.GuardedVerbatim | app/renderer/markdown.py:45 | such markup is left unchanged |
| Decorator.ReplacementGuarded | app/renderer/markdown.py:43 | the replacement markup for a `<`-free token cannot start a new match |
| Decorator.DecorateTwoMarkers | app/renderer/markdown.py:30-45 | two markers between such markup are both replaced, and everything else is kept |
| Decorator.DecorateQuiet | app/renderer/markdown.py:30-45 | when no match in the input has a token holding `<`, the output holds no match |
| Decorator.DecorateIdempotent | app/renderer/markdown.py:30-45 | under that condition, decorating the decorated HTML again changes nothing |
| Decorator.NestedOpenerPass | app/renderer/markdown.py:45 | in `<li>@sig(<li>@sig(u))`, the first match takes `<li>@sig(u` as its token and leaves the last `)` |
| Decorator.DecorateNotIdempotent | app/renderer/markdown.py:30-45 | for that input, a second pass changes the output again: the pass is not idempotent in general |
| Render.RenderMarkdownWithSignifiers | app/renderer/markdown.py:48-69 | the result starts with the exact `<style>` block of the source |
| Render.RenderVerbatim | app/renderer/markdown.py:48-69 | when the rendered HTML holds no match, the result is the style block followed by that HTML unchanged |
| Render.MarkerHandshake | app/renderer/markdown.py:19-45 | the decorator matches exactly the token the preprocessor wrote into the bullet, and uses that token's glyph |
| Render.DecoratedItem | app/renderer/markdown.py:19-45 | a rendered signifier item between markup that cannot start a match becomes the decorated item followed by the line's text |
| Render.RenderSignifierItem | app/renderer/markdown.py:48-69 | end to end for one signifier line: style block, list markup, the token's class and glyph, then the line's text |
| Render.ListMarkupGuarded | app/renderer/markdown.py:45 | `<ul>` and `</li></ul>` markup cannot start a match |
| Render.RenderShoppingList | app/renderer/markdown.py:48-69 | end to end for `* Buy milk` and `x Pay rent`: both items come out with the priority `★` and done `✔` classes and glyphs |

## Left out

- The Markdown renderer (`_md.render`, markdown-it in CommonMark mode with
  linkify and typographer, at `app/renderer/markdown.py:5` and `:50`) is a
  foreign library. The pipeline takes it as the parameter `render`. Lemmas
  that need its output state it as a precondition.
- Render.RenderSignifierItem: states the result only for renderer output of
  the given shape, because the renderer is not modelled.
- Render.DecoratedItem: likewise stated only for rendered HTML of that
  shape.
- Render.RenderShoppingList: likewise stated only for the renderer output
  it names.
- Decorator.DecorateIdempotent: idempotence is stated only for HTML in
  which no match has a token holding `<`. In general the pass is not
  idempotent; Decorator.DecorateNotIdempotent gives the counterexample.
  A decorated text with no markers left is, however, a fixed point in
  every case (Decorator.DecorateVerbatim).
- Line breaks: the code splits lines only at `'\n'` (the pattern's `.` and
  `$` under `re.MULTILINE`), so a `'\r'` before it stays at the end of the
  line's rest and is kept as it was.
- Tokens: the code's `[^)]+` requires at least one character, so
  `<li>@sig()` is not a match and is left as it is.
- Loose lists: when markdown-it renders a list whose items are separated by
  blank lines, each item becomes `<li>` followed by a line break and `<p>`,
  so `<li>@sig(` never appears and the decorator leaves such items with the
  literal `@sig(token)` text. The end-to-end lemmas state the tight-list
  shape only.
- Fenced code: the line rewrite does not track code blocks, so
  a signifier line inside a fenced code block is rewritten to `- @sig(…)`
  too. The model follows the code and rewrites every such line.
- The CSS is modelled only as the constant text `Render.StyleBlock`. What it
  does in a browser is not modelled.
- The desktop window, editor, timer, preview, export and storage code
  (`main.py`, `app/db/sqlite.py`) are not part of this model.
