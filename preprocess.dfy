/**
 The line preprocessor `_preprocess_signifiers`: the substitution of
 `^(\*|x|>|<|o|-|!)[\t ]+(.*)$` (with `re.MULTILINE`) by
 `- @sig(<token>) <rest>`.

 With `re.MULTILINE` a match can start only at the start of a line, `[\t ]`
 and `.` never cross a '\n', `.*` runs to the end of the line and `$` then
 always holds; so the substitution rewrites whole lines independently, and
 the model splits the text at each '\n'.
 */
module Preprocessor {
  import opened Wrappers
  import opened Text
  import opened Lexicon

  /** The class `[\t ]`. */
  predicate IsBlank(c: char)
  {
    c == ' ' || c == '\t'
  }

  /** Length of the run of spaces and tabs at the start of s; `[\t ]+` takes it whole. */
  function BlankRun(s: string): (k: nat)
    ensures k <= |s|
    ensures forall i | 0 <= i < k :: IsBlank(s[i])
    ensures k < |s| ==> !IsBlank(s[k])
  {
    if s != [] && IsBlank(s[0]) then 1 + BlankRun(s[1..]) else 0
  }

  /** A maximal run of blanks is what BlankRun measures. */
  lemma {:induction false} BlankRunGreedy(blanks: string, rest: string)
    requires forall i | 0 <= i < |blanks| :: IsBlank(blanks[i])
    requires rest == [] || !IsBlank(rest[0])
    ensures BlankRun(blanks + rest) == |blanks|
  {
    if blanks != [] {
      assert (blanks + rest)[1..] == blanks[1..] + rest;
      BlankRunGreedy(blanks[1..], rest);
    } else {
      assert blanks + rest == rest;
    }
  }

  /** Groups 1 and 2 of a match: the symbol and the rest of the line. */
  datatype SignifierMatch = SignifierMatch(symbol: char, rest: string)

  /**
   line is a symbol of the pattern, then a non-empty run of spaces and tabs
   taken greedily, then rest.
   */
  predicate IsSignifierSplit(line: string, symbol: char, blanks: string, rest: string)
  {
    && line == [symbol] + blanks + rest
    && symbol in PatternSymbols
    && |blanks| > 0
    && (forall i | 0 <= i < |blanks| :: IsBlank(blanks[i]))
    && (rest == [] || !IsBlank(rest[0]))
  }

  /** The pattern applied to one line: groups 1 and 2, or no match. */
  function MatchSignifier(line: string): (m: Option<SignifierMatch>)
    requires '\n' !in line
    ensures m.Some? ==> && |line| >= 2 && m.value.symbol == line[0]
                        && |m.value.rest| <= |line| - 2
                        && m.value.rest == line[|line| - |m.value.rest|..]
                        && (m.value.rest == [] || !IsBlank(m.value.rest[0]))
  {
    if |line| >= 2 && line[0] in PatternSymbols && IsBlank(line[1]) then
      var k := BlankRun(line[1..]);
      Some(SignifierMatch(line[0], line[1 + k..]))
    else
      None
  }

  /**
   The regular expression's meaning, one direction: a match splits the
   line as IsSignifierSplit says, with the captured symbol and rest.
   */
  lemma MatchSignifierSound(line: string)
    requires '\n' !in line && MatchSignifier(line).Some?
    ensures var m := MatchSignifier(line).value;
      && |m.rest| < |line|
      && IsSignifierSplit(line, m.symbol, line[1..|line| - |m.rest|], m.rest)
  {
    var k := BlankRun(line[1..]);
    var blanks := line[1..1 + k];
    assert forall i | 0 <= i < k :: blanks[i] == line[1..][i];
    assert line == [line[0]] + blanks + line[1 + k..];
  }

  /**
   The other direction: wherever the line splits as IsSignifierSplit says,
   the pattern matches and captures exactly that symbol and rest, so the
   split is unique.
   */
  lemma MatchSignifierComplete(line: string, symbol: char, blanks: string, rest: string)
    requires '\n' !in line && IsSignifierSplit(line, symbol, blanks, rest)
    ensures MatchSignifier(line) == Some(SignifierMatch(symbol, rest))
  {
    assert line[0] == symbol && line[1] == blanks[0];
    assert line[1..] == blanks + rest;
    BlankRunGreedy(blanks, rest);
    assert line[1 + |blanks|..] == rest;
  }

  /** The Markdown bullet the rewritten line starts with. */
  const Bullet: string := "- "

  /** A rewritten line is the bullet, then the marker, the token, `)`, a space and rest. */
  lemma RewriteParts(token: string, rest: string)
    ensures "- @sig(" + token + ") " + rest == Bullet + (MarkerOpen + token + ")" + " " + rest)
  {
    assert "- @sig(" == Bullet + MarkerOpen;
    assert ") " == ")" + " ";
  }

  /** `replace_line` applied where the pattern matches; other lines stay. */
  function RewriteLine(line: string): (r: string)
    requires '\n' !in line
    ensures '\n' !in r
  {
    match MatchSignifier(line)
    case None => line
    case Some(m) =>
      var token := TokenFor(m.symbol);
      assert '\n' !in token by { TokensHaveGlyphs(m.symbol); }
      "- @sig(" + token + ") " + m.rest
  }

  /** `_preprocess_signifiers`: every line of text through RewriteLine. */
  function PreprocessSignifiers(text: string): (r: string)
    ensures NewlineCount(r) == NewlineCount(text)
    decreases |text|
  {
    var k := LineLength(text);
    if k == |text| then
      assert text[..k] == text;
      NoNewlineCount(text);
      NoNewlineCount(RewriteLine(text));
      RewriteLine(text)
    else
      NewlineCountSplit(text, k);
      NoNewlineCount(RewriteLine(text[..k]));
      NewlineCountAppend(RewriteLine(text[..k]), "\n");
      NewlineCountAppend(RewriteLine(text[..k]) + "\n", PreprocessSignifiers(text[k + 1..]));
      RewriteLine(text[..k]) + "\n" + PreprocessSignifiers(text[k + 1..])
  }

  /** RewriteLine applied to each of a sequence of lines. */
  function RewriteLines(ls: seq<string>): (rs: seq<string>)
    requires forall i | 0 <= i < |ls| :: '\n' !in ls[i]
    ensures |rs| == |ls|
  {
    seq(|ls|, i requires 0 <= i < |ls| => RewriteLine(ls[i]))
  }

  /**
   A signifier line: a recognised symbol, one or more spaces or tabs, then
   rest (which, the run being greedy, does not start with a space or tab)
   becomes exactly `- @sig(` + SIGNIFIER_MAP[symbol] + `) ` + rest.
   */
  lemma RewriteSignifierLine(symbol: char, blanks: string, rest: string)
    requires IsSignifierSplit([symbol] + blanks + rest, symbol, blanks, rest)
    requires '\n' !in rest
    ensures '\n' !in [symbol] + blanks + rest
    ensures symbol in SignifierMap
    ensures RewriteLine([symbol] + blanks + rest) == "- @sig(" + SignifierMap[symbol] + ") " + rest
    ensures TokenFor(symbol) == SignifierMap[symbol]
  {
    assert '\n' !in blanks by {
      forall i | 0 <= i < |blanks| ensures blanks[i] != '\n' {
        assert IsBlank(blanks[i]);
      }
    }
    assert '\n' !in [symbol];
    NoNewlineAppend([symbol], blanks);
    NoNewlineAppend([symbol] + blanks, rest);
    MatchSignifierComplete([symbol] + blanks + rest, symbol, blanks, rest);
  }

  /**
   The same line read as a Markdown bullet: `- `, then the marker with the
   token, a ')' and a space, then rest.
   */
  lemma RewrittenBullet(symbol: char, blanks: string, rest: string)
    requires IsSignifierSplit([symbol] + blanks + rest, symbol, blanks, rest)
    requires '\n' !in rest
    ensures '\n' !in [symbol] + blanks + rest
    ensures var line := RewriteLine([symbol] + blanks + rest);
      && |line| >= 2 && line[..2] == Bullet
      && line[2..] == MarkerOpen + SignifierMap[symbol] + ")" + " " + rest
  {
    RewriteSignifierLine(symbol, blanks, rest);
    RewriteParts(SignifierMap[symbol], rest);
  }

  /**
   A line comes back unchanged exactly when it is not a signifier line: it
   is empty, its first character is not one of `* x > < o - !` (which
   covers every indented line), or that symbol is not followed by a space
   or a tab (`*bold*`, `*x rest`, a bare `*`).
   */
  lemma RewriteLineUnchanged(line: string)
    requires '\n' !in line
    ensures RewriteLine(line) == line
      <==> !(|line| >= 2 && line[0] in PatternSymbols && IsBlank(line[1]))
  {
    if |line| >= 2 && line[0] in PatternSymbols && IsBlank(line[1]) {
      var k := BlankRun(line[1..]);
      var r := RewriteLine(line);
      assert r == "- @sig(" + TokenFor(line[0]) + ") " + line[1 + k..];
      if k >= 2 {
        assert IsBlank(line[2]);
        assert r[2] == '@';
      } else {
        assert |r| == 9 + |TokenFor(line[0])| + |line| - 2;
      }
    }
  }

  /** A rewritten line starts with `- `, the marker of a Markdown bullet. */
  lemma RewrittenLineShape(line: string)
    requires '\n' !in line && RewriteLine(line) != line
    ensures |RewriteLine(line)| >= 2 && RewriteLine(line)[0] == '-' && RewriteLine(line)[1] == ' '
  {
    var m := MatchSignifier(line).value;
    var prefix := "- @sig(" + TokenFor(m.symbol);
    assert prefix[0] == '-' && prefix[1] == ' ';
    assert RewriteLine(line) == prefix + ") " + m.rest;
  }

  /** The first line of the output is the first line of the input rewritten. */
  lemma PreprocessFirstLine(text: string, k: nat)
    requires k == LineLength(text) < |text|
    ensures PreprocessSignifiers(text) == RewriteLine(text[..k]) + "\n" + PreprocessSignifiers(text[k + 1..])
  {
  }

  /**
   Preprocessing is line-local: it adds and removes no line break, and line
   i of the result is line i of the input through RewriteLine.
   */
  lemma {:induction false} PreprocessLineLocal(text: string)
    ensures |Lines(PreprocessSignifiers(text))| == |Lines(text)|
    ensures forall i | 0 <= i < |Lines(text)| ::
      Lines(PreprocessSignifiers(text))[i] == RewriteLine(Lines(text)[i])
    decreases |text|
  {
    var k := LineLength(text);
    if k == |text| {
      LinesOfLine(text);
      LinesOfLine(RewriteLine(text));
    } else {
      var line, rest := text[..k], text[k + 1..];
      PreprocessLineLocal(rest);
      var outs, ins := Lines(PreprocessSignifiers(rest)), Lines(rest);
      assert Lines(PreprocessSignifiers(text)) == [RewriteLine(line)] + outs by {
        PreprocessFirstLine(text, k);
        LinesCons(RewriteLine(line), PreprocessSignifiers(rest));
      }
      assert Lines(text) == [line] + ins by {
        LinesSplit(text, k);
      }
      assert outs == RewriteLines(ins);
      RewriteLinesCons(line, ins);
      assert Lines(PreprocessSignifiers(text)) == RewriteLines(Lines(text));
    }
  }

  /** Rewriting each line commutes with putting one more line in front. */
  lemma RewriteLinesCons(line: string, ins: seq<string>)
    requires '\n' !in line && forall i | 0 <= i < |ins| :: '\n' !in ins[i]
    ensures RewriteLines([line] + ins) == [RewriteLine(line)] + RewriteLines(ins)
  {
    var lines := [line] + ins;
    forall i | 0 <= i < |lines|
      ensures RewriteLines(lines)[i] == ([RewriteLine(line)] + RewriteLines(ins))[i]
    {
      if i > 0 {
        assert lines[i] == ins[i - 1];
      }
    }
  }

  /**
   The same substitution stated as `"\n".join(map(RewriteLine, text.split("\n")))`.
   */
  lemma PreprocessIsLineMap(text: string)
    ensures PreprocessSignifiers(text) == Unlines(RewriteLines(Lines(text)))
  {
    PreprocessLineLocal(text);
    UnlinesLines(PreprocessSignifiers(text));
    assert Lines(PreprocessSignifiers(text)) == RewriteLines(Lines(text));
  }

  /** A text without line breaks is one line. */
  lemma PreprocessOneLine(line: string)
    requires '\n' !in line
    ensures PreprocessSignifiers(line) == RewriteLine(line)
  {
  }

  /** Preprocessing a line, a line break and more text. */
  lemma PreprocessCons(line: string, rest: string)
    requires '\n' !in line
    ensures PreprocessSignifiers(line + "\n" + rest) == RewriteLine(line) + "\n" + PreprocessSignifiers(rest)
  {
    var text := line + "\n" + rest;
    assert text[|line|] == '\n' && text[..|line|] == line && text[|line| + 1..] == rest;
    PreprocessFirstLine(text, |line|);
  }

  /** A text of one signifier line is that line rewritten. */
  lemma PreprocessSignifierText(symbol: char, blanks: string, rest: string)
    requires IsSignifierSplit([symbol] + blanks + rest, symbol, blanks, rest)
    requires '\n' !in rest
    ensures PreprocessSignifiers([symbol] + blanks + rest) == "- @sig(" + TokenFor(symbol) + ") " + rest
  {
    RewriteSignifierLine(symbol, blanks, rest);
    PreprocessOneLine([symbol] + blanks + rest);
  }

  /**
   Two signifier lines, each ended by a line break, become two marked
   bullets, each ended by a line break.
   */
  lemma PreprocessTwoItems(s1: char, b1: string, r1: string, s2: char, b2: string, r2: string)
    requires IsSignifierSplit([s1] + b1 + r1, s1, b1, r1) && '\n' !in r1
    requires IsSignifierSplit([s2] + b2 + r2, s2, b2, r2) && '\n' !in r2
    ensures PreprocessSignifiers(([s1] + b1 + r1) + "\n" + (([s2] + b2 + r2) + "\n" + ""))
      == ("- @sig(" + SignifierMap[s1] + ") " + r1) + "\n" + (("- @sig(" + SignifierMap[s2] + ") " + r2) + "\n" + "")
  {
    RewriteSignifierLine(s1, b1, r1);
    RewriteSignifierLine(s2, b2, r2);
    PreprocessCons([s2] + b2 + r2, "");
    PreprocessCons([s1] + b1 + r1, ([s2] + b2 + r2) + "\n" + "");
    PreprocessOneLine("");
  }

  /** The shopping-list example: a priority item and a done item. */
  lemma PreprocessShoppingList(text: string)
    requires text == "* Buy milk\nx Pay rent\n"
    ensures PreprocessSignifiers(text) == "- @sig(priority) Buy milk\n- @sig(done) Pay rent\n"
  {
    ShoppingListInput(text);
    ShoppingListSplits();
    PreprocessTwoItems('*', " ", "Buy milk", 'x', " ", "Pay rent");
    TokenNames();
    ShoppingListOutput();
  }

  lemma ShoppingListInput(text: string)
    requires text == "* Buy milk\nx Pay rent\n"
    ensures text == (['*'] + " " + "Buy milk") + "\n" + ((['x'] + " " + "Pay rent") + "\n" + "")
  {
  }

  lemma ShoppingListSplits()
    ensures IsSignifierSplit(['*'] + " " + "Buy milk", '*', " ", "Buy milk")
    ensures IsSignifierSplit(['x'] + " " + "Pay rent", 'x', " ", "Pay rent")
    ensures '\n' !in "Buy milk" && '\n' !in "Pay rent"
  {
  }

  lemma ShoppingListOutput()
    ensures ("- @sig(" + "priority" + ") " + "Buy milk") + "\n" + (("- @sig(" + "done" + ") " + "Pay rent") + "\n" + "")
      == "- @sig(priority) Buy milk\n- @sig(done) Pay rent\n"
  {
    ShoppingLine1();
    ShoppingLine2();
  }

  lemma ShoppingLine1()
    ensures "- @sig(" + "priority" + ") " + "Buy milk" == "- @sig(priority) Buy milk"
  {
  }

  lemma ShoppingLine2()
    ensures ("- @sig(" + "done" + ") " + "Pay rent") + "\n" + "" == "- @sig(done) Pay rent\n"
  {
  }

  /**
   Preprocessing is not idempotent: a rewritten line starts with `- `, which
   the pattern recognises again, so a second pass changes every line the
   first pass changed.
   */
  lemma PreprocessNotIdempotent(line: string)
    requires '\n' !in line && PreprocessSignifiers(line) != line
    ensures PreprocessSignifiers(PreprocessSignifiers(line)) != PreprocessSignifiers(line)
  {
    PreprocessOneLine(line);
    var once := RewriteLine(line);
    RewrittenLineShape(line);
    RewriteLineUnchanged(once);
    PreprocessOneLine(once);
  }

  /** Emphasis at the start of a line is not a signifier: no space after `*`. */
  lemma PreprocessEmphasis(text: string)
    requires text == "*bold* text"
    ensures PreprocessSignifiers(text) == text
  {
    PreprocessOneLine(text);
    RewriteLineUnchanged(text);
  }
}
