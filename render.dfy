/**
 The entry point `render_markdown_with_signifiers`: preprocess, render the
 Markdown, decorate the HTML, and put the style sheet in front.

 The Markdown renderer (markdown-it, CommonMark with linkify and
 typographer, raw HTML off) is a foreign library; the model takes it as a
 parameter `render` and assumes nothing about it except where a lemma
 states what it returned.
 */
module Render {
  import opened Text
  import opened Lexicon
  import opened Preprocessor
  import opened Decorator

  /** The `<style>` block put in front of every result, character for character. */
  const StyleBlock: string :=
    "\n"
    + "    <style>\n"
    + "      body { font-family: Segoe UI, Arial, sans-serif; padding: 12px; }\n"
    + "      ul, ol { list-style-position: outside; padding-left: 1.6em; margin-left: 0; }\n"
    + "      li.bj-li { list-style-type: none; position: relative; padding-left: 1.6em; }\n"
    + "      li.bj-li::marker { content: ''; }\n"
    + "      .bj-sign { position: absolute; left: 0; width: 1.2em; text-align: center; margin-right: 6px; color: #444; }\n"
    + "      .bj-priority { color: #d97706; }\n"
    + "      .bj-done { color: #16a34a; }\n"
    + "      .bj-migrated { color: #2563eb; }\n"
    + "      .bj-scheduled { color: #0ea5e9; }\n"
    + "      .bj-event { color: #6b7280; }\n"
    + "      .bj-note { color: #6b7280; }\n"
    + "      .bj-inspiration { color: #db2777; font-weight: 700; }\n"
    + "      pre, code { background: #f3f4f6; }\n"
    + "    </style>\n"
    + "    "

  /** `render_markdown_with_signifiers`, for a given Markdown renderer. */
  function RenderMarkdownWithSignifiers(render: string -> string, text: string): (r: string)
    ensures |StyleBlock| <= |r| && r[..|StyleBlock|] == StyleBlock
  {
    StyleBlock + DecorateSignifiers(render(PreprocessSignifiers(text)))
  }

  /**
   The handshake between the two passes. A signifier line is rewritten to a
   `- ` bullet; where the renderer turns that bullet into `<li>` followed by
   the bullet's text, the decorator matches exactly the token the
   preprocessor wrote, swallows the space after it and any white space that
   follows, and draws that token's own glyph.
   */
  lemma MarkerHandshake(symbol: char, blanks: string, rest: string, tail: string)
    requires IsSignifierSplit([symbol] + blanks + rest, symbol, blanks, rest)
    requires '\n' !in rest
    ensures var line := RewriteLine([symbol] + blanks + rest);
      var after := rest + tail;
      && line[..2] == Bullet
      && DecorateSignifiers(ItemTag + line[2..] + tail)
         == Replacement(SignifierMap[symbol]) + DecorateSignifiers(after[SpaceRun(after)..])
  {
    RewrittenBullet(symbol, blanks, rest);
    var token := SignifierMap[symbol];
    var line := RewriteLine([symbol] + blanks + rest);
    var after := rest + tail;
    var n := SpaceRun(after);
    var spaces := " " + after[..n];
    assert ItemTag + line[2..] + tail == Opener + token + ")" + spaces + after[n..] by {
      OpenerIsItemMarker();
      RegroupItem(ItemTag, MarkerOpen, token, ")", " ", rest, tail, after[..n], after[n..]);
    }
    TokensHaveGlyphs(symbol);
    assert ')' !in token;
    SpaceRunSpec(after);
    DecorateStep(ItemTag + line[2..] + tail, token, spaces, after[n..]);
  }

  /** Where the rendered HTML holds no marker, the result is the style block and that HTML. */
  lemma RenderVerbatim(render: string -> string, text: string)
    requires NoMarker(render(PreprocessSignifiers(text)))
    ensures RenderMarkdownWithSignifiers(render, text) == StyleBlock + render(PreprocessSignifiers(text))
  {
    DecorateVerbatim(render(PreprocessSignifiers(text)));
  }

  /**
   A signifier bullet rendered as `<li>` and the bullet's text, with markup
   around it that cannot start a marker, decorates to that markup around
   the list item with the class and glyph of the symbol's token.
   */
  lemma DecoratedItem(symbol: char, blanks: string, rest: string, before: string, after: string)
    requires IsSignifierSplit([symbol] + blanks + rest, symbol, blanks, rest)
    requires '\n' !in rest && '<' !in rest
    requires Guarded(before) && Guarded(after)
    requires rest + after == [] || !IsSpace((rest + after)[0])
    ensures var line := RewriteLine([symbol] + blanks + rest);
      |line| >= 2
      && DecorateSignifiers(before + (ItemTag + line[2..] + after))
         == before + (Replacement(SignifierMap[symbol]) + (rest + after))
  {
    RewrittenBullet(symbol, blanks, rest);
    var line := RewriteLine([symbol] + blanks + rest);
    var tail := rest + after;
    DecorateGuardedPrefix(before, ItemTag + line[2..] + after);
    MarkerHandshake(symbol, blanks, rest, after);
    assert SpaceRun(tail) == 0;
    assert tail[0..] == tail;
    PlainGuarded(rest);
    GuardedAppend(rest, after);
    GuardedVerbatim(tail);
  }

  /**
   A text of one signifier line, end to end. Where the renderer wraps the
   bullet's text in `<li>` with markup around it that cannot start a marker
   (as `<ul>\n` and `</li>\n</ul>\n` cannot) and keeps the rest of the
   line as it is, the result is the style block, that markup, and the list
   item with the class and glyph of the symbol's token.
   */
  lemma RenderSignifierItem(render: string -> string, symbol: char, blanks: string, rest: string,
                            before: string, after: string)
    requires IsSignifierSplit([symbol] + blanks + rest, symbol, blanks, rest)
    requires '\n' !in rest && '<' !in rest
    requires Guarded(before) && Guarded(after)
    requires rest + after == [] || !IsSpace((rest + after)[0])
    requires var pre := PreprocessSignifiers([symbol] + blanks + rest);
      |pre| >= 2 && render(pre) == before + (ItemTag + pre[2..] + after)
    ensures RenderMarkdownWithSignifiers(render, [symbol] + blanks + rest)
      == StyleBlock + (before + (Replacement(SignifierMap[symbol]) + (rest + after)))
  {
    var text := [symbol] + blanks + rest;
    assert PreprocessSignifiers(text) == RewriteLine(text) by {
      RewrittenBullet(symbol, blanks, rest);
      PreprocessOneLine(text);
    }
    DecoratedItem(symbol, blanks, rest, before, after);
  }

  /** The list markup of a one-item list cannot start a marker. */
  lemma ListMarkupGuarded()
    ensures Guarded("<ul>\n") && Guarded("</li>\n</ul>\n")
    ensures !IsSpace('<')
  {
    assert NotItemTagAt("<ul>\n", 0);
    assert NotItemTagAt("</li>\n</ul>\n", 0) && NotItemTagAt("</li>\n</ul>\n", 6);
  }

  /**
   A two-item list end to end: where the renderer turns the preprocessed
   text into a bullet list with one `<li>` per line, both items come out
   with the class and glyph of their tokens and the rest is kept.
   */
  lemma RenderShoppingList(render: string -> string, text: string)
    requires text == "* Buy milk\nx Pay rent\n"
    requires render("- @sig(priority) Buy milk\n- @sig(done) Pay rent\n")
      == "<ul>\n" + "<li>@sig(priority) Buy milk</li>\n" + "<li>@sig(done) Pay rent</li>\n" + "</ul>\n"
    ensures RenderMarkdownWithSignifiers(render, text)
      == StyleBlock + ("<ul>\n" + (Replacement("priority") + ("Buy milk</li>\n"
           + (Replacement("done") + ("Pay rent</li>\n" + "</ul>\n")))))
    ensures GlyphFor("priority") == "\U{2605}" && GlyphFor("done") == "\U{2714}"
  {
    PreprocessShoppingList(text);
    var first := "<li>@sig(priority) Buy milk</li>\n";
    var second := "<li>@sig(done) Pay rent</li>\n";
    FirstItemLiteral(first);
    SecondItemLiteral(second);
    ShoppingItem("priority", "Buy milk</li>\n", first);
    ShoppingItem("done", "Pay rent</li>\n", second);
    RegroupList("<ul>\n", Opener + "priority" + ")" + " ", "Buy milk</li>\n",
                Opener + "done" + ")" + " ", "Pay rent</li>\n", "</ul>\n");
    ShoppingDecorated();
    ShoppingGlyphs();
  }

  lemma ShoppingItem(token: string, text: string, line: string)
    requires line == "<li>@sig(" + token + ") " + text
    ensures line == Opener + token + ")" + " " + text
  {
    assert ") " == ")" + " ";
  }

  lemma FirstItemLiteral(line: string)
    requires line == "<li>@sig(priority) Buy milk</li>\n"
    ensures line == "<li>@sig(" + "priority" + ") " + "Buy milk</li>\n"
  {
  }

  lemma SecondItemLiteral(line: string)
    requires line == "<li>@sig(done) Pay rent</li>\n"
    ensures line == "<li>@sig(" + "done" + ") " + "Pay rent</li>\n"
  {
  }

  lemma ShoppingDecorated()
    ensures DecorateSignifiers("<ul>\n" + (Opener + "priority" + ")" + " " + ("Buy milk</li>\n"
        + (Opener + "done" + ")" + " " + ("Pay rent</li>\n" + "</ul>\n")))))
      == "<ul>\n" + (Replacement("priority") + ("Buy milk</li>\n"
        + (Replacement("done") + ("Pay rent</li>\n" + "</ul>\n"))))
  {
    ShoppingMarkupGuarded();
    GuardedAppend("Pay rent</li>\n", "</ul>\n");
    DecorateTwoMarkers("<ul>\n", "priority", "Buy milk</li>\n", "done", "Pay rent</li>\n" + "</ul>\n");
  }

  lemma ShoppingMarkupGuarded()
    ensures Guarded("<ul>\n") && Guarded("Buy milk</li>\n")
    ensures Guarded("Pay rent</li>\n") && Guarded("</ul>\n")
  {
    assert NotItemTagAt("<ul>\n", 0);
    assert NotItemTagAt("Buy milk</li>\n", 8);
    assert NotItemTagAt("Pay rent</li>\n", 8);
    assert NotItemTagAt("</ul>\n", 0);
  }

  lemma ShoppingGlyphs()
    ensures GlyphFor("priority") == "\U{2605}" && GlyphFor("done") == "\U{2714}"
  {
  }

  lemma RegroupList(a: string, m1: string, x1: string, m2: string, x2: string, e: string)
    ensures a + (m1 + x1) + (m2 + x2) + e == a + (m1 + (x1 + (m2 + (x2 + e))))
  {
  }

  lemma RegroupItem(a: string, b: string, t: string, c: string, d: string, r: string, tl: string, p: string, q: string)
    requires r + tl == p + q
    ensures a + (b + t + c + d + r) + tl == (a + b) + t + c + (d + p) + q
  {
    calc {
      a + (b + t + c + d + r) + tl;
      (a + b) + t + c + d + (r + tl);
      (a + b) + t + c + d + (p + q);
      (a + b) + t + c + (d + p) + q;
    }
  }
}
