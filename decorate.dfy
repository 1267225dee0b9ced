/**
 The HTML decorator `_decorate_signifiers`: `re.sub` of
 `<li>@sig\(([^)]+)\)\s*` over the rendered HTML, each match replaced by a
 list item carrying the token's CSS class and glyph.

 `re.sub` scans left to right: where the pattern matches it writes the
 replacement and resumes after the match, elsewhere it copies one
 character and moves on. The pattern can never match the empty string.
 */
module Decorator {
  import opened Wrappers
  import opened Lexicon

  /**
   Python's `\s` in a `str` pattern: the characters `str.isspace()` accepts
   (tab, line feed, vertical tab, form feed, carriage return, the four
   information separators, space, and the Unicode white space characters).
   */
  predicate IsSpace(c: char)
    ensures IsSpace(c) ==> c != '<' && c != ')'
  {
    || c == ' '
    || '\t' <= c <= '\r'
    || '\U{1C}' <= c <= '\U{1F}'
    || c == '\U{85}' || c == '\U{A0}' || c == '\U{1680}'
    || '\U{2000}' <= c <= '\U{200A}'
    || c == '\U{2028}' || c == '\U{2029}' || c == '\U{202F}' || c == '\U{205F}'
    || c == '\U{3000}'
  }

  /** The literal head of the pattern, `<li>@sig\(`. */
  const Opener: string := "<li>@sig("

  /** The list-item tag the renderer writes for a bullet. */
  const ItemTag: string := "<li>"

  /** The opener is that tag, then the preprocessor's marker. */
  lemma OpenerIsItemMarker()
    ensures Opener == ItemTag + MarkerOpen
  {
  }

  predicate StartsOpener(s: string)
  {
    |s| >= |Opener| && s[..|Opener|] == Opener
  }

  /** Position of the first ')' in s, or |s|: how far `[^)]+` can reach. */
  function CloseParen(s: string): (k: nat)
    ensures k <= |s|
  {
    if s == [] || s[0] == ')' then 0 else 1 + CloseParen(s[1..])
  }

  lemma {:induction false} CloseParenSpec(s: string)
    ensures forall i | 0 <= i < CloseParen(s) :: s[i] != ')'
    ensures CloseParen(s) < |s| ==> s[CloseParen(s)] == ')'
  {
    if s != [] && s[0] != ')' {
      CloseParenSpec(s[1..]);
    }
  }

  /** Length of the white space at the start of s; `\s*` takes it whole. */
  function SpaceRun(s: string): (k: nat)
    ensures k <= |s|
  {
    if s != [] && IsSpace(s[0]) then 1 + SpaceRun(s[1..]) else 0
  }

  lemma {:induction false} SpaceRunSpec(s: string)
    ensures forall i | 0 <= i < SpaceRun(s) :: IsSpace(s[i])
    ensures SpaceRun(s) < |s| ==> !IsSpace(s[SpaceRun(s)])
  {
    if s != [] && IsSpace(s[0]) {
      SpaceRunSpec(s[1..]);
    }
  }

  /** A match at the start of the input: group 1 and the length consumed. */
  datatype Marker = Marker(token: string, length: nat)

  /** The pattern tried at the start of s. */
  function MatchMarker(s: string): (m: Option<Marker>)
    ensures m.Some? ==> StartsOpener(s) && |Opener| + 2 <= m.value.length <= |s|
  {
    if StartsOpener(s) then
      var body := s[|Opener|..];
      var k := CloseParen(body);
      if 0 < k < |body| then
        var n := |Opener| + k + 1;
        Some(Marker(body[..k], n + SpaceRun(s[n..])))
      else
        None
    else
      None
  }

  /**
   s is `<li>@sig(`, a non-empty token without ')', the ')', white space
   taken greedily, then tail.
   */
  predicate IsMarkerSplit(s: string, token: string, spaces: string, tail: string)
  {
    && s == Opener + token + ")" + spaces + tail
    && |token| > 0
    && (forall i | 0 <= i < |token| :: token[i] != ')')
    && (forall i | 0 <= i < |spaces| :: IsSpace(spaces[i]))
    && (tail == [] || !IsSpace(tail[0]))
  }

  /** The four literal pieces of `repl`'s f-string around the token and the glyph. */
  const ItemOpen: string := "<li class=\"bj-li\">"
  const SignOpen: string := "<span class=\"bj-sign bj-"
  const SignClose: string := "\">"
  const SignEnd: string := "</span> "

  /** `repl`: the list item with the token's class and glyph, and one space. */
  function Replacement(token: string): (r: string)
    ensures |ItemOpen| <= |r| && r[..|ItemOpen|] == ItemOpen
    ensures !StartsOpener(r)
  {
    var tail := SignOpen + token + SignClose + GlyphFor(token) + SignEnd;
    assert ItemOpen + SignOpen + token + SignClose + GlyphFor(token) + SignEnd == ItemOpen + tail;
    assert (ItemOpen + tail)[..|ItemOpen|] == ItemOpen;
    assert (ItemOpen + tail)[3] == ' ' && Opener[3] == '>';
    ItemOpen + SignOpen + token + SignClose + GlyphFor(token) + SignEnd
  }

  /** `_decorate_signifiers`: the left-to-right substitution. */
  function DecorateSignifiers(html: string): string
    decreases |html|
  {
    if html == [] then []
    else
      match MatchMarker(html)
      case Some(m) => Replacement(m.token) + DecorateSignifiers(html[m.length..])
      case None => [html[0]] + DecorateSignifiers(html[1..])
  }

  /** No match of the pattern starts anywhere in html. */
  predicate NoMarker(html: string)
  {
    forall i | 0 <= i < |html| :: MatchMarker(html[i..]).None?
  }

  lemma {:induction false} CloseParenOf(token: string, rest: string)
    requires forall i | 0 <= i < |token| :: token[i] != ')'
    ensures CloseParen(token + ")" + rest) == |token|
  {
    if token != [] {
      assert (token + ")" + rest)[1..] == token[1..] + ")" + rest;
      CloseParenOf(token[1..], rest);
    }
  }

  lemma {:induction false} SpaceRunGreedy(spaces: string, tail: string)
    requires forall i | 0 <= i < |spaces| :: IsSpace(spaces[i])
    requires tail == [] || !IsSpace(tail[0])
    ensures SpaceRun(spaces + tail) == |spaces|
  {
    if spaces != [] {
      assert (spaces + tail)[1..] == spaces[1..] + tail;
      SpaceRunGreedy(spaces[1..], tail);
    } else {
      assert spaces + tail == tail;
    }
  }

  /**
   The regular expression's meaning, one direction: a match splits s as
   IsMarkerSplit says, its token is everything up to the first ')', and the
   white space after the ')' is consumed whole.
   */
  lemma MatchMarkerSound(s: string)
    requires MatchMarker(s).Some?
    ensures |Opener| + |MatchMarker(s).value.token| + 1 <= MatchMarker(s).value.length
    ensures IsMarkerSplit(s, MatchMarker(s).value.token,
      s[|Opener| + |MatchMarker(s).value.token| + 1..MatchMarker(s).value.length],
      s[MatchMarker(s).value.length..])
  {
    var m := MatchMarker(s).value;
    var body := s[|Opener|..];
    var k := CloseParen(body);
    var b := |Opener| + k;
    var spaces, tail := s[b + 1..m.length], s[m.length..];
    CloseParenSpec(body);
    SpaceRunSpec(s[b + 1..]);
    assert m.token == s[|Opener|..b];
    assert forall i | 0 <= i < |spaces| :: spaces[i] == s[b + 1..][i];
    assert tail != [] ==> tail[0] == s[b + 1..][m.length - b - 1];
    assert [s[b]] == ")";
    CutFive(s, |Opener|, b, m.length);
  }

  lemma CutFive(s: string, a: nat, b: nat, c: nat)
    requires a <= b < c <= |s|
    ensures s == s[..a] + s[a..b] + [s[b]] + s[b + 1..c] + s[c..]
  {
    assert s == s[..a] + s[a..b] + s[b..c] + s[c..];
    assert s[b..c] == [s[b]] + s[b + 1..c];
  }

  /**
   The other direction: wherever s splits as IsMarkerSplit says, the pattern
   matches with exactly that token and consumes all but the tail.
   */
  lemma MatchMarkerComplete(s: string, token: string, spaces: string, tail: string)
    requires IsMarkerSplit(s, token, spaces, tail)
    ensures MatchMarker(s) == Some(Marker(token, |s| - |tail|))
  {
    var n := |Opener| + |token| + 1;
    assert StartsOpener(s) && s[|Opener|..] == token + ")" + (spaces + tail) by {
      assert s == Opener + (token + ")" + (spaces + tail));
    }
    assert CloseParen(s[|Opener|..]) == |token| by {
      CloseParenOf(token, spaces + tail);
    }
    assert s[|Opener|..][..|token|] == token;
    assert SpaceRun(s[n..]) == |spaces| by {
      assert s[n..] == spaces + tail;
      SpaceRunGreedy(spaces, tail);
    }
  }

  /** A match needs a ')' after the opener. */
  lemma MatchNeedsParen(s: string)
    requires MatchMarker(s).Some?
    ensures ')' in s
  {
    var body := s[|Opener|..];
    var k := CloseParen(body);
    CloseParenSpec(body);
    assert s[|Opener| + k] == body[k];
  }

  /** One substitution: the match is replaced and the scan resumes after it. */
  lemma DecorateStep(s: string, token: string, spaces: string, tail: string)
    requires IsMarkerSplit(s, token, spaces, tail)
    ensures DecorateSignifiers(s) == Replacement(token) + DecorateSignifiers(tail)
  {
    MatchMarkerComplete(s, token, spaces, tail);
    assert s[|s| - |tail|..] == tail;
  }

  /** Text with no ')' holds no match and so comes through unchanged. */
  lemma {:induction false} DecorateNoParen(html: string)
    requires ')' !in html
    ensures DecorateSignifiers(html) == html
    decreases |html|
  {
    if html != [] {
      var tail := html[1..];
      assert MatchMarker(html).None? by {
        if MatchMarker(html).Some? {
          MatchNeedsParen(html);
        }
      }
      assert ')' !in tail by {
        assert forall c | c in tail :: c in html;
      }
      DecorateNoParen(tail);
      assert html == [html[0]] + tail;
    }
  }

  /**
   The first character of the output is the '<' of a replacement, or the
   input's first character copied as is.
   */
  lemma DecorateHead(html: string)
    requires html != []
    ensures |DecorateSignifiers(html)| > 0
    ensures || DecorateSignifiers(html)[0] == '<'
            || (&& MatchMarker(html).None?
                && DecorateSignifiers(html) == [html[0]] + DecorateSignifiers(html[1..]))
  {
    if MatchMarker(html).Some? {
      assert Replacement(MatchMarker(html).value.token)[0] == ItemOpen[0];
    }
  }

  /**
   Text that starts with a '<'-free w is copied up to the end of w: no match
   can start on a character other than '<'.
   */
  lemma {:induction false} DecorateCopies(html: string, w: string)
    requires '<' !in w
    requires |w| <= |html| && html[..|w|] == w
    ensures DecorateSignifiers(html) == w + DecorateSignifiers(html[|w|..])
    decreases |w|
  {
    if w != [] {
      assert html[0] == w[0] && w[0] != Opener[0];
      assert html[1..][..|w| - 1] == w[1..];
      DecorateCopies(html[1..], w[1..]);
      assert html[1..][|w| - 1..] == html[|w|..];
    }
  }

  /**
   Conversely, an output that starts with a '<'-free w came from an input
   that starts with w: every replacement starts with '<'.
   */
  lemma {:induction false} DecorateShowsPrefix(html: string, w: string)
    requires '<' !in w
    requires |w| <= |DecorateSignifiers(html)| && DecorateSignifiers(html)[..|w|] == w
    ensures |w| <= |html| && html[..|w|] == w
    decreases |w|
  {
    if w != [] {
      var out := DecorateSignifiers(html);
      assert html != [] by {
        assert DecorateSignifiers([]) == [];
      }
      var rest := DecorateSignifiers(html[1..]);
      assert out == [html[0]] + rest by {
        DecorateHead(html);
        assert out[0] == w[0] != '<';
      }
      assert rest[..|w| - 1] == w[1..] by {
        assert rest == out[1..];
        assert out[1..][..|w| - 1] == out[..|w|][1..];
      }
      DecorateShowsPrefix(html[1..], w[1..]);
    }
  }

  /** Matches at the positions after the first are the matches of html[1..]. */
  lemma NoMarkerTail(html: string)
    requires html != []
    ensures NoMarker(html) <==> MatchMarker(html).None? && NoMarker(html[1..])
  {
    assert html[0..] == html;
    assert forall i | 1 <= i < |html| :: html[i..] == html[1..][i - 1..];
  }

  /** Where a match starts, the output differs: `<li ` replaces `<li>`. */
  lemma DecorateChangesMatch(html: string)
    requires MatchMarker(html).Some?
    ensures DecorateSignifiers(html) != html
  {
    var r := Replacement(MatchMarker(html).value.token);
    assert DecorateSignifiers(html)[3] == r[3] == ItemOpen[3] == ' ';
    assert html[3] == Opener[3] == '>';
  }

  /** Where no match starts, the scan copies one character and moves on. */
  lemma DecorateCopyStep(html: string)
    requires html != [] && MatchMarker(html).None?
    ensures DecorateSignifiers(html) == [html[0]] + DecorateSignifiers(html[1..])
  {
  }

  /** Text without a match comes through unchanged. */
  lemma {:induction false} DecorateNoMarker(html: string)
    requires NoMarker(html)
    ensures DecorateSignifiers(html) == html
    decreases |html|
  {
    if html != [] {
      NoMarkerTail(html);
      DecorateNoMarker(html[1..]);
      DecorateCopyStep(html);
      assert html == [html[0]] + html[1..];
    }
  }

  /** Text that comes through unchanged holds no match. */
  lemma {:induction false} DecorateFixedNoMarker(html: string)
    requires DecorateSignifiers(html) == html
    ensures NoMarker(html)
    decreases |html|
  {
    if html != [] {
      if MatchMarker(html).Some? {
        DecorateChangesMatch(html);
      } else {
        DecorateCopyStep(html);
        assert DecorateSignifiers(html[1..]) == html[1..];
        DecorateFixedNoMarker(html[1..]);
        NoMarkerTail(html);
      }
    }
  }

  /**
   The output equals the input exactly when the pattern matches nowhere in
   it.
   */
  lemma DecorateVerbatim(html: string)
    ensures DecorateSignifiers(html) == html <==> NoMarker(html)
  {
    if NoMarker(html) {
      DecorateNoMarker(html);
    }
    if DecorateSignifiers(html) == html {
      DecorateFixedNoMarker(html);
    }
  }

  /** Text without the opener comes through unchanged. */
  lemma NoOpenerVerbatim(html: string)
    requires forall i | 0 <= i < |html| :: !StartsOpener(html[i..])
    ensures DecorateSignifiers(html) == html
  {
    DecorateVerbatim(html);
  }

  /** The three characters after position i of q are not the `li>` of `<li>`. */
  predicate NotItemTagAt(q: string, i: nat)
    requires i + 3 < |q|
  {
    q[i + 1] != 'l' || q[i + 2] != 'i' || q[i + 3] != '>'
  }

  /**
   Every '<' of q is followed, within q, by something other than `li>`: no
   match can start inside q, whatever follows it.
   */
  predicate Guarded(q: string)
  {
    forall i | 0 <= i < |q| && q[i] == '<' :: i + 3 < |q| && NotItemTagAt(q, i)
  }

  lemma GuardedAppend(a: string, b: string)
    requires Guarded(a) && Guarded(b)
    ensures Guarded(a + b)
  {
    forall i | 0 <= i < |a + b| && (a + b)[i] == '<'
      ensures i + 3 < |a + b| && NotItemTagAt(a + b, i)
    {
      if i < |a| {
        assert a[i] == '<' && NotItemTagAt(a, i);
      } else {
        assert b[i - |a|] == '<' && NotItemTagAt(b, i - |a|);
      }
    }
  }

  /** Text without '<' is guarded. */
  lemma PlainGuarded(q: string)
    requires '<' !in q
    ensures Guarded(q)
  {
  }

  /** The replacement for a '<'-free token cannot start a match anywhere. */
  lemma ReplacementGuarded(token: string)
    requires '<' !in token
    ensures Guarded(Replacement(token))
  {
    assert Guarded(ItemOpen);
    assert Guarded(SignOpen);
    assert Guarded(SignEnd);
    assert '<' !in GlyphFor(token);
    GuardedAppend(ItemOpen, SignOpen);
    GuardedAppend(ItemOpen + SignOpen, token);
    GuardedAppend(ItemOpen + SignOpen + token, SignClose);
    GuardedAppend(ItemOpen + SignOpen + token + SignClose, GlyphFor(token));
    GuardedAppend(ItemOpen + SignOpen + token + SignClose + GlyphFor(token), SignEnd);
  }

  /** A guarded prefix adds no match in front of match-free text. */
  lemma GuardedNoMarker(q: string, rest: string)
    requires Guarded(q) && NoMarker(rest)
    ensures NoMarker(q + rest)
  {
    var out := q + rest;
    forall i | 0 <= i < |out| ensures MatchMarker(out[i..]).None? {
      if i < |q| {
        if q[i] == '<' {
          assert NotItemTagAt(q, i);
          assert out[i..][1] == q[i + 1] && out[i..][2] == q[i + 2] && out[i..][3] == q[i + 3];
          assert Opener[1] == 'l' && Opener[2] == 'i' && Opener[3] == '>';
        } else {
          assert out[i..][0] == q[i];
        }
      } else {
        assert out[i..] == rest[i - |q|..];
      }
    }
  }

  /**
   Guarded text in front is copied as it is and the rest is decorated on
   its own: decorating changes nothing but the matches.
   */
  lemma {:induction false} DecorateGuardedPrefix(q: string, rest: string)
    requires Guarded(q)
    ensures DecorateSignifiers(q + rest) == q + DecorateSignifiers(rest)
    decreases |q|
  {
    if q != [] {
      var html := q + rest;
      assert MatchMarker(html).None? by {
        if q[0] == '<' {
          assert NotItemTagAt(q, 0);
          assert html[1] == q[1] && html[2] == q[2] && html[3] == q[3];
          assert Opener[1] == 'l' && Opener[2] == 'i' && Opener[3] == '>';
        } else {
          assert html[0] != Opener[0];
        }
      }
      assert Guarded(q[1..]) by {
        forall i | 0 <= i < |q| - 1 && q[1..][i] == '<'
          ensures i + 3 < |q| - 1 && NotItemTagAt(q[1..], i)
        {
          assert q[i + 1] == '<' && NotItemTagAt(q, i + 1);
        }
      }
      assert html[1..] == q[1..] + rest;
      DecorateGuardedPrefix(q[1..], rest);
      DecorateCopyStep(html);
      assert q == [q[0]] + q[1..];
    } else {
      assert q + rest == rest;
    }
  }

  /** Guarded text comes through unchanged. */
  lemma GuardedVerbatim(q: string)
    requires Guarded(q)
    ensures DecorateSignifiers(q) == q
  {
    DecorateGuardedPrefix(q, []);
    assert q + [] == q;
  }

  /**
   Two markers in a row, each followed by one space and by text that
   cannot start a marker, all behind guarded markup: both are replaced and
   everything else is kept.
   */
  lemma DecorateTwoMarkers(front: string, t1: string, x1: string, t2: string, x2: string)
    requires Guarded(front) && Guarded(x1) && Guarded(x2)
    requires t1 != [] && ')' !in t1 && t2 != [] && ')' !in t2
    requires x1 != [] && !IsSpace(x1[0]) && x2 != [] && !IsSpace(x2[0])
    ensures DecorateSignifiers(front + (Opener + t1 + ")" + " " + (x1 + (Opener + t2 + ")" + " " + x2))))
      == front + (Replacement(t1) + (x1 + (Replacement(t2) + x2)))
  {
    var m2 := Opener + t2 + ")" + " " + x2;
    var m1 := Opener + t1 + ")" + " " + (x1 + m2);
    DecorateGuardedPrefix(front, m1);
    DecorateStep(m1, t1, " ", x1 + m2);
    DecorateGuardedPrefix(x1, m2);
    DecorateStep(m2, t2, " ", x2);
    GuardedVerbatim(x2);
  }

  /**
   Every place the pattern could match in html has a token without '<', as
   for the class words the preprocessor writes.
   */
  predicate PlainTokens(html: string)
  {
    forall i | 0 <= i < |html| :: MatchMarker(html[i..]).Some? ==> '<' !in MatchMarker(html[i..]).value.token
  }

  lemma PlainTokensSuffix(html: string, k: nat)
    requires PlainTokens(html) && k <= |html|
    ensures PlainTokens(html[k..])
  {
    assert forall i | 0 <= i < |html| - k :: html[k..][i..] == html[k + i..];
  }

  /**
   After an opener the pattern fails when ')' comes at once or not at all;
   decorating keeps either case.
   */
  lemma UnmatchedBodyQuiet(body: string)
    requires CloseParen(body) == 0 || CloseParen(body) == |body|
    ensures var out := DecorateSignifiers(body);
      CloseParen(out) == 0 || CloseParen(out) == |out|
  {
    CloseParenSpec(body);
    if body == [] {
    } else if CloseParen(body) == 0 {
      DecorateCopies(body, ")");
    } else {
      DecorateNoParen(body);
    }
  }

  /**
   An output that starts with a '<'-free w came from an input that starts
   with w, and the rest was decorated on its own.
   */
  lemma CopiedPrefix(html: string, w: string)
    requires '<' !in w
    requires |w| <= |DecorateSignifiers(html)| && DecorateSignifiers(html)[..|w|] == w
    ensures |w| <= |html| && html[..|w|] == w
    ensures DecorateSignifiers(html) == w + DecorateSignifiers(html[|w|..])
  {
    DecorateShowsPrefix(html, w);
    DecorateCopies(html, w);
  }

  /**
   An output whose first character c was copied and which starts with o,
   where o has no '<' after its first character, came from an input that
   starts with o, and the rest was decorated on its own.
   */
  lemma HeadCopied(c: char, html: string, o: string)
    requires o != [] && '<' !in o[1..]
    requires |o| <= 1 + |DecorateSignifiers(html)| && ([c] + DecorateSignifiers(html))[..|o|] == o
    ensures c == o[0] && |o| - 1 <= |html| && html[..|o| - 1] == o[1..]
    ensures DecorateSignifiers(html) == o[1..] + DecorateSignifiers(html[|o| - 1..])
  {
    ConsPrefix(c, DecorateSignifiers(html), o);
    CopiedPrefix(html, o[1..]);
  }

  /** [c] + rest starts with a non-empty o exactly when c is o[0] and rest starts with o[1..]. */
  lemma ConsPrefix(c: char, rest: string, o: string)
    requires o != []
    ensures (|o| <= 1 + |rest| && ([c] + rest)[..|o|] == o)
      <==> (c == o[0] && |o| - 1 <= |rest| && rest[..|o| - 1] == o[1..])
  {
    if |o| <= 1 + |rest| {
      assert ([c] + rest)[..|o|] == [c] + rest[..|o| - 1];
      assert o == [o[0]] + o[1..];
    }
  }

  /**
   An output that starts with the opener although its first character was
   copied came from an input that starts with the opener, whose body was
   decorated on its own.
   */
  lemma OpenerCopied(html: string)
    requires html != [] && StartsOpener([html[0]] + DecorateSignifiers(html[1..]))
    ensures StartsOpener(html)
    ensures ([html[0]] + DecorateSignifiers(html[1..]))[|Opener|..] == DecorateSignifiers(html[|Opener|..])
  {
    var x := DecorateSignifiers(html[1..]);
    assert '<' !in Opener[1..];
    HeadCopied(html[0], html[1..], Opener);
    assert StartsOpener(html) by {
      ConsPrefix(html[0], html[1..], Opener);
      assert html == [html[0]] + html[1..];
    }
    assert html[1..][|Opener| - 1..] == html[|Opener|..];
    assert ([html[0]] + x)[|Opener|..] == x[|Opener| - 1..];
  }

  /**
   Where the input's first character was not replaced, the output does not
   start a match either: an unmatched `<li>@sig(` is followed by ')' at once
   or by no ')' at all, and both stay so in the output.
   */
  lemma FirstCopyQuiet(html: string)
    requires html != [] && MatchMarker(html).None?
    ensures MatchMarker([html[0]] + DecorateSignifiers(html[1..])).None?
  {
    if StartsOpener([html[0]] + DecorateSignifiers(html[1..])) {
      OpenerCopied(html);
      UnmatchedBodyQuiet(html[|Opener|..]);
    }
  }

  /**
   With plain tokens the output holds no match: each replacement is guarded
   and every copied character keeps the input's verdict.
   */
  lemma {:induction false} DecorateQuiet(html: string)
    requires PlainTokens(html)
    ensures NoMarker(DecorateSignifiers(html))
    decreases |html|
  {
    if html != [] {
      match MatchMarker(html)
      case Some(m) =>
        assert html[0..] == html;
        PlainTokensSuffix(html, m.length);
        DecorateQuiet(html[m.length..]);
        ReplacementGuarded(m.token);
        GuardedNoMarker(Replacement(m.token), DecorateSignifiers(html[m.length..]));
      case None =>
        PlainTokensSuffix(html, 1);
        DecorateQuiet(html[1..]);
        FirstCopyQuiet(html);
        var out := DecorateSignifiers(html);
        assert forall i | 1 <= i < |out| :: out[i..] == out[1..][i - 1..];
    }
  }

  /** Hence decorating is idempotent on HTML whose tokens hold no '<'. */
  lemma DecorateIdempotent(html: string)
    requires PlainTokens(html)
    ensures DecorateSignifiers(DecorateSignifiers(html)) == DecorateSignifiers(html)
  {
    DecorateQuiet(html);
    DecorateVerbatim(DecorateSignifiers(html));
  }

  /** One pass over a nested opener: the outer match takes the inner opener into its token. */
  lemma NestedOpenerPass(u: string, html: string)
    requires u != [] && ')' !in u
    requires html == Opener + Opener + u + ")" + ")"
    ensures DecorateSignifiers(html) == Replacement(Opener + u) + ")"
  {
    var token := Opener + u;
    var close := ")";
    assert ')' !in token;
    assert html == Opener + token + close + [] + close;
    DecorateStep(html, token, [], close);
    DecorateCopies(close, close);
  }

  /**
   Without that condition it is not: `[^)]+` runs over a nested
   `<li>@sig(`, which the replacement then writes into its class attribute,
   where a second pass finds it followed by a ')' of the input.
   */
  lemma DecorateNotIdempotent(u: string, html: string)
    requires u != [] && ')' !in u
    requires html == Opener + Opener + u + ")" + ")"
    ensures DecorateSignifiers(DecorateSignifiers(html)) != DecorateSignifiers(html)
  {
    NestedOpenerPass(u, html);
    NestedReplacementMarked(u);
    DecorateVerbatim(DecorateSignifiers(html));
  }

  /** The replacement for a token holding an opener, then a ')', holds a match. */
  lemma NestedReplacementMarked(u: string)
    requires u != [] && ')' !in u
    ensures !NoMarker(Replacement(Opener + u) + ")")
  {
    var token := Opener + u;
    var close := ")";
    var inner := u + SignClose + GlyphFor(token) + SignEnd;
    var nested := Opener + inner + close;
    assert Replacement(token) + close == (ItemOpen + SignOpen) + nested;
    assert ')' !in inner by {
      assert |GlyphFor(token)| == 1;
    }
    OpenerTokenMatches(inner, nested);
    MarkerInside(ItemOpen + SignOpen, nested);
  }

  /** The opener, a non-empty token without ')', and a ')' make a match. */
  lemma OpenerTokenMatches(token: string, s: string)
    requires token != [] && ')' !in token
    requires s == Opener + token + ")"
    ensures MatchMarker(s).Some?
  {
    assert s == Opener + token + ")" + [] + [];
    MatchMarkerComplete(s, token, [], []);
  }

  /** A match anywhere in the second part is a match of the whole. */
  lemma MarkerInside(front: string, back: string)
    requires MatchMarker(back).Some?
    ensures !NoMarker(front + back)
  {
    assert (front + back)[|front|..] == back;
  }
}
