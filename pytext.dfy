/**
 * The Python string primitives the converter relies on: the whitespace class
 * shared by `\s` and `str.strip()`, `str.splitlines()`, `str.join` and
 * repetition `s * n`.
 */
module PyText {

  /** Python's Unicode whitespace (`str.isspace`): what `\s` matches in a `str`
      pattern and what `str.strip()` removes. It holds neither brace, so
      `\s*` always stops at the `{` of a group. */
  predicate IsSpace(c: char)
    ensures IsSpace(c) ==> c != '{' && c != '}'
  {
    || ('\t' <= c <= '\r')
    || ('\U{1C}' <= c <= '\U{1F}')
    || c == ' ' || c == '\U{85}' || c == '\U{A0}' || c == '\U{1680}'
    || ('\U{2000}' <= c <= '\U{200A}')
    || c == '\U{2028}' || c == '\U{2029}' || c == '\U{202F}' || c == '\U{205F}'
    || c == '\U{3000}'
  }

  /** The line boundaries recognised by `str.splitlines()` (`\r\n` is one
      boundary made of two of these). Every one of them is whitespace. */
  predicate IsLineBreak(c: char)
    ensures IsLineBreak(c) ==> IsSpace(c)
  {
    || ('\n' <= c <= '\r')
    || ('\U{1C}' <= c <= '\U{1E}')
    || c == '\U{85}' || c == '\U{2028}' || c == '\U{2029}'
  }

  predicate AllSpace(s: string)
  {
    forall i :: 0 <= i < |s| ==> IsSpace(s[i])
  }

  predicate NoLineBreak(s: string)
  {
    forall i :: 0 <= i < |s| ==> !IsLineBreak(s[i])
  }

  lemma NoLineBreakConcat(a: string, b: string)
    ensures NoLineBreak(a + b) <==> NoLineBreak(a) && NoLineBreak(b)
  {
    if NoLineBreak(a) && NoLineBreak(b) {
      forall i | 0 <= i < |a + b| ensures !IsLineBreak((a + b)[i]) {
        if i >= |a| { assert (a + b)[i] == b[i - |a|]; }
      }
    }
    if NoLineBreak(a + b) {
      forall i | 0 <= i < |a| ensures !IsLineBreak(a[i]) {
        assert (a + b)[i] == a[i];
      }
      forall i | 0 <= i < |b| ensures !IsLineBreak(b[i]) {
        assert (a + b)[|a| + i] == b[i];
      }
    }
  }

  lemma AllSpaceConcat(a: string, b: string)
    requires AllSpace(a) && AllSpace(b)
    ensures AllSpace(a + b)
  {
    forall i | 0 <= i < |a + b| ensures IsSpace((a + b)[i]) {
      if i >= |a| { assert (a + b)[i] == b[i - |a|]; }
    }
  }

  // ---------------------------------------------------------------------
  // str.lstrip(), str.rstrip(), str.strip() (no argument)

  /** `s.lstrip()`: the suffix of `s` left after its leading whitespace. */
  function LStrip(s: string): (r: string)
    ensures |r| <= |s| && r == s[|s| - |r|..]
    ensures AllSpace(s[..|s| - |r|])
    ensures r == [] || !IsSpace(r[0])
  {
    if s != [] && IsSpace(s[0]) then
      var t := s[1..];
      var r := LStrip(t);
      var k := |t| - |r|;
      assert |s| - |r| == k + 1;
      assert s[k + 1..] == t[k..];
      assert s[..k + 1] == [s[0]] + t[..k];
      AllSpaceConcat([s[0]], t[..k]);
      r
    else s
  }

  /** `s.rstrip()`: the prefix of `s` left before its trailing whitespace. */
  function RStrip(s: string): (r: string)
    ensures |r| <= |s| && r == s[..|r|]
    ensures AllSpace(s[|r|..])
    ensures r == [] || !IsSpace(r[|r| - 1])
  {
    if s != [] && IsSpace(s[|s| - 1]) then
      var u := s[..|s| - 1];
      var r := RStrip(u);
      assert s[..|r|] == u[..|r|];
      assert s[|r|..] == u[|r|..] + [s[|s| - 1]] by {
        assert s == u + [s[|s| - 1]];
      }
      AllSpaceConcat(u[|r|..], [s[|s| - 1]]);
      r
    else s
  }

  /** `s.strip()`: the middle of `s` between its leading and trailing
      whitespace. */
  function Strip(s: string): (r: string)
    ensures |r| <= |s|
    ensures r == [] || (!IsSpace(r[0]) && !IsSpace(r[|r| - 1]))
  {
    RStrip(LStrip(s))
  }

  /** Leading whitespace is invisible to `lstrip`. */
  lemma {:induction false} LStripSkips(w: string, u: string)
    requires AllSpace(w)
    ensures LStrip(w + u) == LStrip(u)
  {
    if w == [] {
      assert w + u == u;
    } else {
      assert (w + u)[0] == w[0];
      assert (w + u)[1..] == w[1..] + u;
      LStripSkips(w[1..], u);
    }
  }

  /** Trailing whitespace is invisible to `rstrip`. */
  lemma {:induction false} RStripSkips(u: string, w: string)
    requires AllSpace(w)
    ensures RStrip(u + w) == RStrip(u)
  {
    if w == [] {
      assert u + w == u;
    } else {
      var w' := w[..|w| - 1];
      assert (u + w)[|u + w| - 1] == w[|w| - 1];
      assert (u + w)[..|u + w| - 1] == u + w';
      RStripSkips(u, w');
    }
  }

  /** `strip` is determined by its contract: whatever whitespace surrounds a
      text that neither starts nor ends with whitespace, `strip` returns that
      text. */
  lemma StripUnique(w1: string, t: string, w2: string)
    requires AllSpace(w1) && AllSpace(w2)
    requires t == [] || (!IsSpace(t[0]) && !IsSpace(t[|t| - 1]))
    ensures Strip(w1 + t + w2) == t
  {
    if t == [] {
      assert w1 + t + w2 == w1 + w2 + [];
      AllSpaceConcat(w1, w2);
      LStripSkips(w1 + w2, []);
    } else {
      assert w1 + t + w2 == w1 + (t + w2);
      LStripSkips(w1, t + w2);
      assert LStrip(t + w2) == t + w2;
      RStripSkips(t, w2);
    }
  }

  /** Stripping never introduces a line boundary. */
  lemma StripNoLineBreak(s: string)
    requires NoLineBreak(s)
    ensures NoLineBreak(Strip(s))
  {
    var l := LStrip(s);
    var i := |s| - |l|;
    forall k | 0 <= k < |l| ensures !IsLineBreak(l[k]) {
      assert l[k] == s[i + k];
    }
    var r := RStrip(l);
    forall k | 0 <= k < |r| ensures !IsLineBreak(r[k]) {
      assert r[k] == l[k];
    }
  }

  // ---------------------------------------------------------------------
  // str.splitlines() (keepends=False)

  /** Index of the first line boundary in `s`, or `|s|` when there is none. */
  function LineEnd(s: string): (k: nat)
    ensures k <= |s|
    ensures NoLineBreak(s[..k])
    ensures k < |s| ==> IsLineBreak(s[k])
  {
    if s == [] || IsLineBreak(s[0]) then 0
    else
      var k := 1 + LineEnd(s[1..]);
      assert s[..k] == [s[0]] + s[1..][..k - 1];
      k
  }

  /** Length of the boundary that starts `s`: `\r\n` is one boundary of two
      characters, every other boundary is one character. */
  function BreakLength(s: string): (n: nat)
    requires s != [] && IsLineBreak(s[0])
    ensures 1 <= n <= |s|
  {
    if s[0] == '\r' && |s| > 1 && s[1] == '\n' then 2 else 1
  }

  /** `s.splitlines()`: the lines of `s` without their boundaries; a final
      boundary does not open an empty last line, and `""` has no lines. */
  function SplitLines(s: string): (lines: seq<string>)
    ensures forall i :: 0 <= i < |lines| ==> NoLineBreak(lines[i])
    ensures s != [] <==> lines != []
    decreases |s|
  {
    if s == [] then []
    else
      var k := LineEnd(s);
      if k == |s| then [s]
      else [s[..k]] + SplitLines(s[k + BreakLength(s[k..])..])
  }

  // ---------------------------------------------------------------------
  // sep.join(xs)

  /** `sep.join(xs)`: the items of `xs` with `sep` between neighbours. */
  function Join(sep: string, xs: seq<string>): (r: string)
    ensures xs == [] ==> r == []
    ensures |xs| == 1 ==> r == xs[0]
  {
    if xs == [] then []
    else if |xs| == 1 then xs[0]
    else xs[0] + sep + Join(sep, xs[1..])
  }

  /** Joining non-empty items gives `""` exactly when there are none. */
  lemma JoinEmpty(sep: string, xs: seq<string>)
    requires forall i :: 0 <= i < |xs| ==> xs[i] != []
    ensures Join(sep, xs) == [] <==> xs == []
  {
    if |xs| > 1 {
      assert |Join(sep, xs)| >= |xs[0]| > 0;
    }
  }

  /** The joined text ends with the last item. */
  lemma {:induction false} JoinEndsWithLast(sep: string, xs: seq<string>)
    requires xs != []
    ensures var r := Join(sep, xs); var last := xs[|xs| - 1];
            |last| <= |r| && r[|r| - |last|..] == last
  {
    if |xs| > 1 {
      var tail := xs[1..];
      JoinEndsWithLast(sep, tail);
      assert tail[|tail| - 1] == xs[|xs| - 1];
      var r := Join(sep, xs);
      var t := Join(sep, tail);
      assert r == (xs[0] + sep) + t;
      assert r[|r| - |t|..] == t;
    }
  }

  /** A line without boundaries runs to the end of the text. */
  lemma {:induction false} LineEndOfLine(x: string)
    requires NoLineBreak(x)
    ensures LineEnd(x) == |x|
  {
    if x != [] {
      assert !IsLineBreak(x[0]);
      LineEndOfLine(x[1..]);
    }
  }

  /** A line without boundaries, followed by a boundary, ends at the
      boundary. */
  lemma {:induction false} LineEndBeforeBreak(x: string, rest: string)
    requires NoLineBreak(x) && rest != [] && IsLineBreak(rest[0])
    ensures LineEnd(x + rest) == |x|
  {
    if x == [] {
      assert x + rest == rest;
    } else {
      assert (x + rest)[0] == x[0] && !IsLineBreak(x[0]);
      assert (x + rest)[1..] == x[1..] + rest;
      LineEndBeforeBreak(x[1..], rest);
    }
  }

  /** A non-empty text without boundaries is one line. */
  lemma SplitLinesOne(x: string)
    requires x != [] && NoLineBreak(x)
    ensures SplitLines(x) == [x]
  {
    LineEndOfLine(x);
  }

  /** A line, a one-character boundary and more text: the line is the first
      line, and the rest is split on its own. A `\r` counts alone only when
      no `\n` follows it. With `rest == []` this is a text that ends in a
      boundary: no empty last line. */
  lemma SplitLinesBreak(x: string, c: char, rest: string)
    requires NoLineBreak(x) && IsLineBreak(c)
    requires c != '\r' || rest == [] || rest[0] != '\n'
    ensures SplitLines(x + [c] + rest) == [x] + SplitLines(rest)
  {
    var b := [c] + rest;
    assert x + [c] + rest == x + b;
    assert BreakLength(b) == 1;
    SplitLinesAtBreak(x, b);
  }

  /** A line, `\r\n` and more text: the two characters are one boundary. */
  lemma SplitLinesCrLf(x: string, rest: string)
    requires NoLineBreak(x)
    ensures SplitLines(x + "\r\n" + rest) == [x] + SplitLines(rest)
  {
    var b := "\r\n" + rest;
    assert x + "\r\n" + rest == x + b;
    assert BreakLength(b) == 2;
    SplitLinesAtBreak(x, b);
  }

  /** A line followed by a boundary: the line, then the lines after the
      boundary. */
  lemma SplitLinesAtBreak(x: string, b: string)
    requires NoLineBreak(x) && b != [] && IsLineBreak(b[0])
    ensures SplitLines(x + b) == [x] + SplitLines(b[BreakLength(b)..])
  {
    var s := x + b;
    var k := |x|;
    assert LineEnd(s) == k by {
      LineEndBeforeBreak(x, b);
    }
    assert s[..k] == x && s[k..] == b;
    assert s[k + BreakLength(b)..] == b[BreakLength(b)..];
  }

  /** `splitlines` undoes `"\n".join` for lines without boundaries whose last
      line is non-empty (a trailing empty line is the one thing `splitlines`
      drops). */
  lemma {:induction false} SplitLinesOfJoin(xs: seq<string>)
    requires forall i :: 0 <= i < |xs| ==> NoLineBreak(xs[i])
    requires xs == [] || xs[|xs| - 1] != []
    ensures SplitLines(Join("\n", xs)) == xs
  {
    if |xs| == 1 {
      LineEndOfLine(xs[0]);
    } else if |xs| > 1 {
      var tail := xs[1..];
      var t := Join("\n", tail);
      assert SplitLines(t) == tail by {
        assert tail[|tail| - 1] == xs[|xs| - 1];
        SplitLinesOfJoin(tail);
      }
      assert t != [] by {
        JoinEndsWithLast("\n", tail);
        assert tail[|tail| - 1] == xs[|xs| - 1];
      }
      assert SplitLines(Join("\n", xs)) == [xs[0]] + SplitLines(t) by {
        assert Join("\n", xs) == xs[0] + ['\n'] + t;
        SplitLinesBreak(xs[0], '\n', t);
      }
      assert xs == [xs[0]] + tail;
    }
  }

  /** `splitlines` undoes `"\n".join` followed by a final `\n`, the form
      in which every line ends in a newline: here empty lines, the last one
      included, are all kept. */
  lemma {:induction false} SplitLinesOfTerminated(xs: seq<string>)
    requires xs != []
    requires forall i :: 0 <= i < |xs| ==> NoLineBreak(xs[i])
    ensures SplitLines(Join("\n", xs) + "\n") == xs
  {
    if |xs| == 1 {
      assert Join("\n", xs) + "\n" == xs[0] + ['\n'] + [];
      SplitLinesBreak(xs[0], '\n', []);
    } else {
      var tail := xs[1..];
      var j := Join("\n", tail);
      var t := j + "\n";
      assert SplitLines(t) == tail by {
        SplitLinesOfTerminated(tail);
      }
      assert Join("\n", xs) == xs[0] + "\n" + j;
      assert SplitLines(Join("\n", xs) + "\n") == [xs[0]] + SplitLines(t) by {
        assert xs[0] + "\n" + j + "\n" == xs[0] + ['\n'] + t;
        SplitLinesBreak(xs[0], '\n', t);
      }
      assert xs == [xs[0]] + tail;
    }
  }

  // ---------------------------------------------------------------------
  // s * n

  /** `s * n`: `n` copies of `s` side by side. */
  function Repeat(s: string, n: nat): (r: string)
    ensures |r| == |s| * n
    ensures Blank(s) ==> Blank(r)
  {
    if n == 0 then []
    else
      var r := s + Repeat(s, n - 1);
      assert Blank(s) ==> Blank(r) by {
        if Blank(s) {
          forall i | |s| <= i < |r| ensures r[i] == ' ' {
            assert r[i] == Repeat(s, n - 1)[i - |s|];
          }
        }
      }
      r
  }

  /** Only the space character ` `. */
  predicate Blank(s: string)
  {
    forall i :: 0 <= i < |s| ==> s[i] == ' '
  }

  /** Blanks are whitespace and hold no line boundary. */
  lemma BlankIsSpace(s: string)
    requires Blank(s)
    ensures AllSpace(s) && NoLineBreak(s)
  {
  }

  /** Text made only of characters of a text without boundaries has none
      either. */
  lemma NoLineBreakWithin(a: string, b: string)
    requires NoLineBreak(b)
    requires forall c :: c in a ==> c in b
    ensures NoLineBreak(a)
  {
    forall i | 0 <= i < |a| ensures !IsLineBreak(a[i]) {
      assert a[i] in b;
    }
  }
}
