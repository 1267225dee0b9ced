/**
 The signifier lexicon: the symbol-to-token table SIGNIFIER_MAP, the symbol
 class of the preprocessor's pattern, and the decorator's token-to-glyph table.
 */
module Lexicon {

  /** SIGNIFIER_MAP: a leading symbol names a bullet-journal token. */
  const SignifierMap: map<char, string> := map[
    '*' := "priority",
    'x' := "done",
    '>' := "migrated",
    '<' := "scheduled",
    'o' := "event",
    '-' := "note",
    '!' := "inspiration"
  ]

  /** The alternatives `\*|x|>|<|o|-|!` of the preprocessor's first group. */
  const PatternSymbols: set<char> := {'*', 'x', '>', '<', 'o', '-', '!'}

  /** `SIGNIFIER_MAP.get(symbol, "unknown")`. */
  const UnknownToken: string := "unknown"

  function TokenFor(symbol: char): (t: string)
    ensures t == UnknownToken <==> symbol !in SignifierMap
  {
    if symbol in SignifierMap then SignifierMap[symbol] else UnknownToken
  }

  /** The seven lookups, one by one. */
  lemma TokenNames()
    ensures TokenFor('*') == "priority" && TokenFor('x') == "done"
    ensures TokenFor('>') == "migrated" && TokenFor('<') == "scheduled"
    ensures TokenFor('o') == "event" && TokenFor('-') == "note"
    ensures TokenFor('!') == "inspiration"
  {
  }

  /**
   The marker that carries a token from the preprocessor to the decorator:
   `@sig(`, the token, then `)`.
   */
  const MarkerOpen: string := "@sig("

  /** The icon table of the decorator's callback. */
  const Glyphs: map<string, string> := map[
    "priority" := "\U{2605}",
    "done" := "\U{2714}",
    "migrated" := "\U{00BB}",
    "scheduled" := "\U{00AB}",
    "event" := "\U{25CB}",
    "note" := "\U{2013}",
    "inspiration" := "!"
  ]

  /** The icon of a token the table does not know: a bullet. */
  const FallbackGlyph: string := "\U{2022}"

  /**
   `{…}.get(token, "•")`. Every glyph, the fallback included, is a single
   character other than the '<' that opens markup and the ')' that closes a
   marker, and the fallback is drawn exactly for the tokens the table lacks.
   */
  function GlyphFor(token: string): (g: string)
    ensures |g| == 1 && g[0] != '<' && g[0] != ')'
    ensures g == FallbackGlyph <==> token !in Glyphs
  {
    if token in Glyphs then
      var g := Glyphs[token];
      assert g in Glyphs.Values;
      assert g == "\U{2605}" || g == "\U{2714}" || g == "\U{00BB}" || g == "\U{00AB}"
        || g == "\U{25CB}" || g == "\U{2013}" || g == "!";
      g
    else FallbackGlyph
  }

  /** The seven token names, each a lower-case ASCII word (usable in a CSS class). */
  predicate IsClassWord(t: string)
  {
    |t| > 0 && forall i | 0 <= i < |t| :: 'a' <= t[i] <= 'z'
  }

  /**
   The symbol class of the pattern is exactly the key set of SIGNIFIER_MAP, so
   for every symbol the pattern accepts the lookup finds a real token: the
   "unknown" fallback is never taken.
   */
  lemma SymbolsAreKeys()
    ensures PatternSymbols == SignifierMap.Keys
    ensures forall c | c in PatternSymbols :: TokenFor(c) != UnknownToken
  {
  }

  /**
   Every token the preprocessor can emit has its own glyph in the decorator's
   table, distinct from the fallback bullet, and is a CSS-safe word.
   */
  lemma TokensHaveGlyphs(c: char)
    requires c in PatternSymbols
    ensures TokenFor(c) in Glyphs && GlyphFor(TokenFor(c)) != FallbackGlyph
    ensures IsClassWord(TokenFor(c))
  {
  }

  /**
   The two tables agree in the other direction too: the glyph table knows
   exactly the tokens SIGNIFIER_MAP can produce, and not "unknown".
   */
  lemma GlyphKeysAreTokens()
    ensures SignifierMap.Values == Glyphs.Keys
    ensures UnknownToken !in Glyphs
  {
    forall t | t in Glyphs.Keys ensures t in SignifierMap.Values {
      var c :=
        if t == "priority" then '*' else if t == "done" then 'x'
        else if t == "migrated" then '>' else if t == "scheduled" then '<'
        else if t == "event" then 'o' else if t == "note" then '-' else '!';
      assert c in SignifierMap && SignifierMap[c] == t;
    }
  }

  /** Symbols are unique and so are tokens: SIGNIFIER_MAP is injective. */
  lemma TokensDistinct(a: char, b: char)
    requires a in PatternSymbols && b in PatternSymbols && a != b
    ensures TokenFor(a) != TokenFor(b)
  {
  }

  /** A token SIGNIFIER_MAP never produces gets the fallback bullet. */
  lemma UnknownTokenGlyph(token: string)
    requires token !in SignifierMap.Values
    ensures GlyphFor(token) == FallbackGlyph
  {
    GlyphKeysAreTokens();
  }
}
