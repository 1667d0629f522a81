/**
 * `parse_toc`: split the `.toc` text into lines, keep the lines the entry
 * pattern matches, render each as one output line, and join the output lines
 * with `\n`. `Outline` is the list of output lines as a function of the input
 * lines; `ParseToc` is the loop that builds it.
 */
module TocParse {
  import opened Wrappers
  import opened PyText
  import opened EntryMatch
  import opened Numbering
  import opened Format

  /** What one input line contributes: its rendering when it matches,
      nothing otherwise. */
  function EntryLines(line: string): (out: seq<string>)
    ensures |out| <= 1
    ensures out != [] <==> MatchEntry(line).Some?
  {
    match MatchEntry(line)
    case Some(e) => [FormatLine(e)]
    case None => []
  }

  /** `[y for x in xs for y in f(x)]`. */
  function FlatMap(f: string -> seq<string>, xs: seq<string>): seq<string>
  {
    if xs == [] then []
    else FlatMap(f, xs[..|xs| - 1]) + f(xs[|xs| - 1])
  }

  /** The output lines for the input lines, in input order. */
  function Outline(lines: seq<string>): (out: seq<string>)
    ensures |out| <= |lines|
  {
    FlatMapAtMostOnes(EntryLines, lines);
    FlatMap(EntryLines, lines)
  }

  /** The text `parse_toc` returns. */
  function TocText(content: string): string
  {
    Join("\n", Outline(SplitLines(content)))
  }

  /** The loop of `parse_toc`, one input line per iteration. */
  method ParseToc(content: string) returns (text: string)
    ensures text == TocText(content)
  {
    var lines := SplitLines(content);
    var linesOut: seq<string> := [];
    for i := 0 to |lines|
      invariant linesOut == Outline(lines[..i])
    {
      OutlineStep(lines, i);
      var match_ := MatchEntry(lines[i]);
      if match_.None? {
        continue;
      }
      var line := RenderEntry(match_.value);
      assert EntryLines(lines[i]) == [line];
      linesOut := linesOut + [line];
    }
    assert lines[..|lines|] == lines;
    text := Join("\n", linesOut);
  }

  /** The body of the loop once a line has matched: the number search, the
      substitution and strip, the title, the indent and the output line. */
  method RenderEntry(e: Entry) returns (line: string)
    ensures line == FormatLine(e)
  {
    var entryType := e.kind;
    var rawTitle := e.rawTitle;
    var page := e.page;
    var numMatch := FindNumber(rawTitle);
    var titleText := Strip(RemoveNumberlines(rawTitle));
    var title;
    if numMatch.Some? {
      title := numMatch.value + " " + titleText;
    } else {
      title := titleText;
    }
    var indent := Indent(entryType);
    line := indent + title + Separator + page;
  }

  // ---------------------------------------------------------------------
  // FlatMap, for any per-item function

  lemma {:induction false} FlatMapAppend(f: string -> seq<string>, a: seq<string>, b: seq<string>)
    ensures FlatMap(f, a + b) == FlatMap(f, a) + FlatMap(f, b)
    decreases |b|
  {
    if b == [] {
      assert a + b == a;
    } else {
      var b' := b[..|b| - 1];
      var y := b[|b| - 1];
      assert FlatMap(f, a + b) == FlatMap(f, a + b') + f(y) by {
        assert (a + b)[..|a + b| - 1] == a + b';
        assert (a + b)[|a + b| - 1] == y;
      }
      assert FlatMap(f, b) == FlatMap(f, b') + f(y);
      FlatMapAppend(f, a, b');
    }
  }

  lemma {:induction false} FlatMapEmpty(f: string -> seq<string>, xs: seq<string>)
    ensures FlatMap(f, xs) == [] <==> forall i :: 0 <= i < |xs| ==> f(xs[i]) == []
  {
    if xs != [] {
      var init := xs[..|xs| - 1];
      FlatMapEmpty(f, init);
      assert forall i :: 0 <= i < |init| ==> init[i] == xs[i];
    }
  }

  lemma {:induction false} FlatMapOnes(f: string -> seq<string>, xs: seq<string>)
    requires forall i :: 0 <= i < |xs| ==> |f(xs[i])| == 1
    ensures |FlatMap(f, xs)| == |xs|
    ensures forall i :: 0 <= i < |xs| ==> FlatMap(f, xs)[i] == f(xs[i])[0]
  {
    if xs != [] {
      var init := xs[..|xs| - 1];
      assert forall i :: 0 <= i < |init| ==> init[i] == xs[i];
      FlatMapOnes(f, init);
    }
  }

  lemma {:induction false} FlatMapAtMostOnes(f: string -> seq<string>, xs: seq<string>)
    requires forall x :: |f(x)| <= 1
    ensures |FlatMap(f, xs)| <= |xs|
  {
    if xs != [] {
      FlatMapAtMostOnes(f, xs[..|xs| - 1]);
    }
  }

  lemma {:induction false} FlatMapAll(f: string -> seq<string>, xs: seq<string>, p: string -> bool)
    requires forall i :: 0 <= i < |xs| ==> forall y :: y in f(xs[i]) ==> p(y)
    ensures forall y :: y in FlatMap(f, xs) ==> p(y)
  {
    if xs != [] {
      var init := xs[..|xs| - 1];
      var last := f(xs[|xs| - 1]);
      forall i | 0 <= i < |init| ensures forall y :: y in f(init[i]) ==> p(y) {
        assert init[i] == xs[i];
      }
      FlatMapAll(f, init, p);
      assert FlatMap(f, xs) == FlatMap(f, init) + last;
      forall y | y in FlatMap(f, xs) ensures p(y) {
        if y !in FlatMap(f, init) {
          assert y in last;
        }
      }
    }
  }

  // ---------------------------------------------------------------------
  // The output lines

  /** The output of a concatenation of inputs is the concatenation of their
      outputs: lines are handled one at a time, in order. */
  lemma OutlineAppend(a: seq<string>, b: seq<string>)
    ensures Outline(a + b) == Outline(a) + Outline(b)
  {
    FlatMapAppend(EntryLines, a, b);
  }

  /** One more input line adds its own output at the end. */
  lemma OutlineStep(lines: seq<string>, i: nat)
    requires i < |lines|
    ensures Outline(lines[..i + 1]) == Outline(lines[..i]) + EntryLines(lines[i])
  {
    assert lines[..i + 1][..i] == lines[..i];
    assert lines[..i + 1][i] == lines[i];
  }

  /** A single line's output. */
  lemma OutlineOne(line: string)
    ensures Outline([line]) == EntryLines(line)
  {
    assert [line][..0] == [] && [line][0] == line;
    assert FlatMap(EntryLines, [line]) == FlatMap(EntryLines, []) + EntryLines(line);
  }

  /** A line the pattern does not match leaves no trace in the output. */
  lemma OutlineSkipsUnmatched(a: seq<string>, line: string, b: seq<string>)
    requires MatchEntry(line).None?
    ensures Outline(a + [line] + b) == Outline(a + b)
  {
    OutlineAppend(a + [line], b);
    OutlineAppend(a, [line]);
    OutlineOne(line);
    OutlineAppend(a, b);
  }

  /** When every line matches, there is one output line per input line, the
      rendering of that line's entry. */
  lemma OutlineAllMatch(lines: seq<string>)
    requires forall i :: 0 <= i < |lines| ==> MatchEntry(lines[i]).Some?
    ensures |Outline(lines)| == |lines|
    ensures forall i :: 0 <= i < |lines| ==>
              Outline(lines)[i] == FormatLine(MatchEntry(lines[i]).value)
  {
    FlatMapOnes(EntryLines, lines);
  }

  /** The output is empty exactly when no line matches. */
  lemma OutlineEmpty(lines: seq<string>)
    ensures Outline(lines) == [] <==> forall i :: 0 <= i < |lines| ==> MatchEntry(lines[i]).None?
  {
    FlatMapEmpty(EntryLines, lines);
  }

  /** A matched line's rendering is one non-empty line. */
  lemma EntryLineIsOneLine(line: string)
    requires NoLineBreak(line) && MatchEntry(line).Some?
    ensures FormatLine(MatchEntry(line).value) != []
    ensures NoLineBreak(FormatLine(MatchEntry(line).value))
  {
    var e := MatchEntry(line).value;
    MatchedPartsOfLine(line);
    NoLineBreakWithin(e.rawTitle, line);
    NoLineBreakWithin(e.page, line);
    FormatLineIsOneLine(e);
  }

  /** A non-empty text without line boundaries. */
  predicate OneLine(s: string)
  {
    s != [] && NoLineBreak(s)
  }

  /** Output lines are non-empty and hold no line boundary when the input
      lines hold none. */
  lemma OutlineLinesAreLines(lines: seq<string>)
    requires forall i :: 0 <= i < |lines| ==> NoLineBreak(lines[i])
    ensures forall y :: y in Outline(lines) ==> OneLine(y)
  {
    forall i | 0 <= i < |lines| ensures forall y :: y in EntryLines(lines[i]) ==> OneLine(y) {
      if MatchEntry(lines[i]).Some? {
        EntryLineIsOneLine(lines[i]);
      }
    }
    FlatMapAll(EntryLines, lines, OneLine);
  }

  /** Joining one-line texts with `\n`: the result is empty exactly when
      there are none, and `splitlines` gives them back. */
  lemma JoinedLines(out: seq<string>)
    requires forall y :: y in out ==> OneLine(y)
    ensures Join("\n", out) == [] <==> out == []
    ensures SplitLines(Join("\n", out)) == out
  {
    assert forall i :: 0 <= i < |out| ==> out[i] in out;
    JoinEmpty("\n", out);
    SplitLinesOfJoin(out);
  }

  /** `parse_toc` returns `""` exactly when no line of its input matches the
      entry pattern. */
  lemma TocTextEmpty(content: string)
    ensures var lines := SplitLines(content);
            TocText(content) == [] <==> forall i :: 0 <= i < |lines| ==> MatchEntry(lines[i]).None?
  {
    TocTextEmptyIff(content);
    OutlineEmpty(SplitLines(content));
  }

  /** The returned text is empty exactly when there are no output lines. */
  lemma TocTextEmptyIff(content: string)
    ensures TocText(content) == [] <==> Outline(SplitLines(content)) == []
  {
    var lines := SplitLines(content);
    var out := Outline(lines);
    assert forall y :: y in out ==> OneLine(y) by { OutlineLinesAreLines(lines); }
    JoinedLines(out);
  }

  /** Splitting the returned text into lines gives back exactly the output
      lines: each output line is one line of the text. */
  lemma TocTextLines(content: string)
    ensures SplitLines(TocText(content)) == Outline(SplitLines(content))
  {
    var lines := SplitLines(content);
    var out := Outline(lines);
    assert forall y :: y in out ==> OneLine(y) by { OutlineLinesAreLines(lines); }
    JoinedLines(out);
  }

  /** A `.toc` file as LaTeX writes it, every line ended by `\n`: the result
      is the output for exactly those lines, joined with `\n`. */
  lemma TocTextOfTerminated(xs: seq<string>)
    requires xs != []
    requires forall y :: y in xs ==> NoLineBreak(y)
    ensures TocText(Join("\n", xs) + "\n") == Join("\n", Outline(xs))
  {
    var content := Join("\n", xs) + "\n";
    assert SplitLines(content) == xs by {
      assert forall i :: 0 <= i < |xs| ==> xs[i] in xs;
      SplitLinesOfTerminated(xs);
    }
    TocTextOfLines(content, xs);
  }

  /** The result for a text whose lines are `xs`. */
  lemma TocTextOfLines(content: string, xs: seq<string>)
    requires SplitLines(content) == xs
    ensures TocText(content) == Join("\n", Outline(xs))
  {
  }

  /** The returned text has no trailing newline: it is empty or ends with the
      last character of its last line, which is no line boundary. */
  lemma TocTextNoTrailingBreak(content: string)
    ensures var r := TocText(content);
            r == [] || !IsLineBreak(r[|r| - 1])
  {
    var lines := SplitLines(content);
    var out := Outline(lines);
    if out != [] {
      var last := out[|out| - 1];
      assert OneLine(last) by {
        OutlineLinesAreLines(lines);
        assert last in out;
      }
      var r := Join("\n", out);
      JoinEndsWithLast("\n", out);
      assert r[|r| - 1] == last[|last| - 1];
    }
  }
}
