/**
 Line structure of a Python `str` as seen by a `re.MULTILINE` pattern:
 `^` holds at the start of the string and right after every '\n', and
 nothing else (not even '\r') ends a line.
 */
module Text {

  /** Number of '\n' characters in s. */
  function NewlineCount(s: string): nat
  {
    if s == [] then 0 else (if s[0] == '\n' then 1 else 0) + NewlineCount(s[1..])
  }

  /** Length of the first line of s: the position of its first '\n', or |s|. */
  function LineLength(s: string): (k: nat)
    ensures k <= |s|
    ensures '\n' !in s[..k]
    ensures k < |s| ==> s[k] == '\n'
  {
    if s == [] || s[0] == '\n' then 0
    else
      var k' := LineLength(s[1..]);
      assert s[..k' + 1] == [s[0]] + s[1..][..k'];
      k' + 1
  }

  /** The lines of s, as `s.split("\n")` gives them: none of them holds a '\n'. */
  function Lines(s: string): (ls: seq<string>)
    ensures |ls| >= 1
    ensures forall i | 0 <= i < |ls| :: '\n' !in ls[i]
    decreases |s|
  {
    var k := LineLength(s);
    if k == |s| then [s] else [s[..k]] + Lines(s[k + 1..])
  }

  /** Lines(s) unfolded once at the first '\n'. */
  lemma LinesSplit(s: string, k: nat)
    requires k == LineLength(s) < |s|
    ensures Lines(s) == [s[..k]] + Lines(s[k + 1..])
  {
  }

  /** n newlines give n + 1 lines. */
  lemma {:induction false} LinesCount(s: string)
    ensures |Lines(s)| == NewlineCount(s) + 1
    decreases |s|
  {
    var k := LineLength(s);
    if k == |s| {
      NoNewlineCount(s);
    } else {
      NewlineCountSplit(s, k);
      LinesCount(s[k + 1..]);
    }
  }

  /** `"\n".join(ls)`. */
  function Unlines(ls: seq<string>): string
  {
    if |ls| == 0 then ""
    else if |ls| == 1 then ls[0]
    else ls[0] + "\n" + Unlines(ls[1..])
  }

  lemma {:induction false} NoNewlineCount(s: string)
    requires '\n' !in s
    ensures NewlineCount(s) == 0
  {
    if s != [] {
      assert s[0] in s;
      assert forall c | c in s[1..] :: c in s;
      NoNewlineCount(s[1..]);
    }
  }

  lemma {:induction false} NewlineCountAppend(a: string, b: string)
    ensures NewlineCount(a + b) == NewlineCount(a) + NewlineCount(b)
  {
    if a != [] {
      assert (a + b)[1..] == a[1..] + b;
      NewlineCountAppend(a[1..], b);
    } else {
      assert a + b == b;
    }
  }

  /** Cutting s at a '\n' at position k leaves one newline fewer around it. */
  lemma NewlineCountSplit(s: string, k: nat)
    requires k < |s| && s[k] == '\n' && '\n' !in s[..k]
    ensures NewlineCount(s) == 1 + NewlineCount(s[k + 1..])
  {
    assert s == s[..k] + ([s[k]] + s[k + 1..]);
    NewlineCountAppend(s[..k], [s[k]] + s[k + 1..]);
    NoNewlineCount(s[..k]);
  }

  lemma NoNewlineAppend(a: string, b: string)
    requires '\n' !in a && '\n' !in b
    ensures '\n' !in a + b
  {
  }

  /** A string without '\n' is a single line. */
  lemma LinesOfLine(s: string)
    requires '\n' !in s
    ensures Lines(s) == [s]
  {
  }

  /** The first line of `a + "\n" + b` is a; the others are the lines of b. */
  lemma LinesCons(a: string, b: string)
    requires '\n' !in a
    ensures Lines(a + "\n" + b) == [a] + Lines(b)
  {
    var s := a + "\n" + b;
    var k := LineLength(s);
    assert s[|a|] == '\n';
    assert s[..|a|] == a;
    assert k == |a|;
    assert s[k + 1..] == b;
  }

  /** Unlines unfolded once: a first line, a '\n', and the join of the others. */
  lemma UnlinesCons(line: string, tail: seq<string>)
    requires |tail| >= 1
    ensures Unlines([line] + tail) == line + "\n" + Unlines(tail)
  {
    assert ([line] + tail)[1..] == tail;
  }

  /** Joining the lines of s gives s back. */
  lemma {:induction false} UnlinesLines(s: string)
    ensures Unlines(Lines(s)) == s
    decreases |s|
  {
    var k := LineLength(s);
    if k < |s| {
      var line, rest := s[..k], s[k + 1..];
      LinesSplit(s, k);
      UnlinesLines(rest);
      UnlinesCons(line, Lines(rest));
      assert s == line + "\n" + rest;
    }
  }

  /** Splitting a join of '\n'-free lines gives those lines back. */
  lemma {:induction false} LinesUnlines(ls: seq<string>)
    requires |ls| >= 1
    requires forall i | 0 <= i < |ls| :: '\n' !in ls[i]
    ensures Lines(Unlines(ls)) == ls
  {
    if |ls| == 1 {
      LinesOfLine(ls[0]);
    } else {
      LinesUnlines(ls[1..]);
      LinesCons(ls[0], Unlines(ls[1..]));
      assert ls == [ls[0]] + ls[1..];
    }
  }
}
