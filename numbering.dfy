/**
 * The numbering step of `parse_toc`: `re.search` for
 * `\numberline\s*{([^}]*)}` in the raw title gives the number, `re.sub` of
 * the same pattern with `''` removes every occurrence, and the title is the
 * number, a space and the stripped remainder (or only the stripped remainder
 * when there is no number). Modelled on arbitrary strings; `parse_toc` itself
 * only ever feeds it titles without `}`, on which it is inert.
 */
module Numbering {
  import opened Wrappers
  import opened PyText
  import opened EntryMatch

  /** The command LaTeX writes before a section number. */
  const NumberlineCommand: string := "\\numberline"

  /** `\numberline`, whitespace, `{` and a number: the start of a numbered
      title. */
  function NumberOpening(w: string, num: string): string
  {
    NumberlineCommand + w + "{" + num
  }

  /** That opening holds no `}` of its own. */
  lemma NumberOpeningHasNoClose(w: string, num: string)
    requires AllSpace(w) && '}' !in num
    ensures '}' !in NumberOpening(w, num)
  {
    var open := NumberOpening(w, num);
    var n := |NumberlineCommand|;
    forall i | 0 <= i < |open| ensures open[i] != '}' {
      if i < n {
        assert open[i] == NumberlineCommand[i];
      } else if i < n + |w| {
        assert open[i] == w[i - n];
      } else if i > n + |w| {
        assert open[i] == num[i - n - 1 - |w|];
      }
    }
  }

  /** A numbered entry as LaTeX writes it,
      `\contentsline {section}{\numberline {1}Intro}{3}`: the marker, the type
      group, then `{\numberline {num}` and the rest of the line. */
  function NumberedLine(w1: string, kind: string, w2: string, w: string,
                        num: string, tail: string): string
  {
    Marker + GroupText(w1, kind, GroupText(w2, NumberOpening(w, num), tail))
  }

  /** Such a line is dropped: the title group stops at the `}` that closes the
      number, and what follows that `}` is neither whitespace nor `{`. */
  lemma NumberedEntrySkipped(w1: string, kind: string, w2: string, w: string,
                             num: string, tail: string)
    requires AllSpace(w1) && AllSpace(w2) && AllSpace(w)
    requires kind != [] && '}' !in kind && '}' !in num
    requires tail == [] || (tail[0] != '{' && !IsSpace(tail[0]))
    ensures MatchEntry(NumberedLine(w1, kind, w2, w, num, tail)).None?
  {
    var r1 := GroupText(w2, NumberOpening(w, num), tail);
    var r0 := GroupText(w1, kind, r1);
    LiteralThen(Marker, r0);
    BraceGroupComplete(w1, kind, r1);
    NumberOpeningHasNoClose(w, num);
    BraceGroupComplete(w2, NumberOpening(w, num), tail);
    assert LStrip(tail) == tail;
  }

  /** The pattern tried at the start of `s`: the number and the text after
      the closing `}`, or `None`. */
  function NumberlineAt(s: string): (m: Option<(string, string)>)
    ensures m.Some? ==> '}' !in m.value.0 && |m.value.1| < |s|
  {
    if StartsWith(s, NumberlineCommand) then BraceGroup(s[|NumberlineCommand|..]) else None
  }

  /** `re.search(...).group('num')`: the number of the leftmost occurrence. */
  function FindNumber(s: string): (r: Option<string>)
    ensures r.Some? ==> '}' !in r.value
  {
    var m := NumberlineAt(s);
    if m.Some? then Some(m.value.0)
    else if s == [] then None
    else FindNumber(s[1..])
  }

  /** `re.sub(..., '', s)`: scanning left to right, every occurrence is cut
      out and the scan resumes after it. */
  function RemoveNumberlines(s: string): (r: string)
    ensures |r| <= |s|
    decreases |s|
  {
    if s == [] then []
    else
      var m := NumberlineAt(s);
      if m.Some? then RemoveNumberlines(m.value.1)
      else [s[0]] + RemoveNumberlines(s[1..])
  }

  /** The title line 24 or 26 produces from the raw title. */
  function Title(rawTitle: string): string
  {
    var titleText := Strip(RemoveNumberlines(rawTitle));
    match FindNumber(rawTitle)
    case Some(num) => num + " " + titleText
    case None => titleText
  }

  /** No occurrence starts anywhere in `s`, exactly when the search finds
      none. */
  lemma {:induction false} FindNumberNone(s: string)
    ensures FindNumber(s).None? <==> forall i :: 0 <= i <= |s| ==> NumberlineAt(s[i..]).None?
    decreases |s|
  {
    assert s[0..] == s;
    if NumberlineAt(s).Some? {
      OccurrenceAtStart(s);
    } else if s != [] {
      assert FindNumber(s) == FindNumber(s[1..]) by { NoOccurrenceAtStart(s); }
      FindNumberNone(s[1..]);
      assert forall i :: 1 <= i <= |s| ==> s[i..] == s[1..][i - 1..];
    }
  }

  /** Without an occurrence the removal changes nothing. */
  lemma {:induction false} NoNumberKeepsText(s: string)
    requires FindNumber(s).None?
    ensures RemoveNumberlines(s) == s
    decreases |s|
  {
    if s != [] {
      NoNumberKeepsText(s[1..]);
      assert s == [s[0]] + s[1..];
    }
  }

  /** Case without a number: the title is the raw title, stripped. */
  lemma TitleWithoutNumber(rawTitle: string)
    requires FindNumber(rawTitle).None?
    ensures Title(rawTitle) == Strip(rawTitle)
  {
    NoNumberKeepsText(rawTitle);
  }

  /** No occurrence starts inside `pre` when `pre` is followed by `t`. */
  predicate NoOccurrenceIn(pre: string, t: string)
    decreases |pre|
  {
    pre == [] || (NumberlineAt(pre + t).None? && NoOccurrenceIn(pre[1..], t))
  }

  /** `NoOccurrenceIn` says what its name says: no occurrence starts at any
      position of `pre`. */
  lemma {:induction false} NoOccurrenceInIff(pre: string, t: string)
    ensures NoOccurrenceIn(pre, t)
            <==> forall j :: 0 <= j < |pre| ==> NumberlineAt(pre[j..] + t).None?
    decreases |pre|
  {
    if pre != [] {
      NoOccurrenceInIff(pre[1..], t);
      assert pre[0..] == pre;
      forall j | 0 < j < |pre| ensures pre[j..] == pre[1..][j - 1..] { }
    }
  }

  /** An occurrence at the very start is what the search finds and what the
      removal cuts first. */
  lemma OccurrenceAtStart(s: string)
    requires NumberlineAt(s).Some?
    ensures FindNumber(s) == Some(NumberlineAt(s).value.0)
    ensures RemoveNumberlines(s) == RemoveNumberlines(NumberlineAt(s).value.1)
  {
    assert s != [];
  }

  /** Without an occurrence at the start, the search moves on one character
      and the removal keeps that character. */
  lemma NoOccurrenceAtStart(s: string)
    requires s != [] && NumberlineAt(s).None?
    ensures FindNumber(s) == FindNumber(s[1..])
    ensures RemoveNumberlines(s) == [s[0]] + RemoveNumberlines(s[1..])
  {
  }

  /** Text in which no occurrence starts is passed over: the search goes on
      past it and the removal keeps it unchanged. */
  lemma SkipPrefix(pre: string, t: string)
    requires NoOccurrenceIn(pre, t)
    ensures FindNumber(pre + t) == FindNumber(t)
    ensures RemoveNumberlines(pre + t) == pre + RemoveNumberlines(t)
  {
    SkipPrefixFind(pre, t);
    SkipPrefixRemove(pre, t);
  }

  /** The search half of `SkipPrefix`. */
  lemma {:induction false} SkipPrefixFind(pre: string, t: string)
    requires NoOccurrenceIn(pre, t)
    ensures FindNumber(pre + t) == FindNumber(t)
    decreases |pre|
  {
    if pre == [] {
      assert pre + t == t;
    } else {
      var s := pre + t;
      assert FindNumber(s) == FindNumber(pre[1..] + t) by {
        assert s[1..] == pre[1..] + t;
        NoOccurrenceAtStart(s);
      }
      SkipPrefixFind(pre[1..], t);
    }
  }

  /** The removal half of `SkipPrefix`. */
  lemma {:induction false} SkipPrefixRemove(pre: string, t: string)
    requires NoOccurrenceIn(pre, t)
    ensures RemoveNumberlines(pre + t) == pre + RemoveNumberlines(t)
    decreases |pre|
  {
    if pre == [] {
      assert pre + t == t;
    } else {
      var s := pre + t;
      var u := pre[1..] + t;
      assert RemoveNumberlines(s) == [pre[0]] + RemoveNumberlines(u) by {
        assert s[0] == pre[0] && s[1..] == u;
        NoOccurrenceAtStart(s);
      }
      SkipPrefixRemove(pre[1..], t);
      assert [pre[0]] + (pre[1..] + RemoveNumberlines(t)) == pre + RemoveNumberlines(t) by {
        assert pre == [pre[0]] + pre[1..];
      }
    }
  }

  /** Case with a number: when the leftmost occurrence starts right after
      `pre`, the title is its number, a space, and the text around it with
      every occurrence removed, stripped. */
  lemma TitleWithNumber(pre: string, t: string)
    requires NoOccurrenceIn(pre, t) && NumberlineAt(t).Some?
    ensures var m := NumberlineAt(t).value;
            Title(pre + t) == m.0 + " " + Strip(pre + RemoveNumberlines(m.1))
  {
    SkipPrefix(pre, t);
    OccurrenceAtStart(t);
  }

  /** A raw title that opens with `\numberline {num}` followed by text free of
      further occurrences: the title is `num`, a space and the stripped
      text. */
  lemma LeadingNumberTitle(w: string, num: string, text: string)
    requires AllSpace(w) && '}' !in num && FindNumber(text).None?
    ensures Title(NumberOpening(w, num) + "}" + text) == num + " " + Strip(text)
  {
    var raw := NumberOpening(w, num) + "}" + text;
    NumberOpeningMatches(w, num, text);
    assert [] + raw == raw;
    TitleWithNumber([], raw);
    NoNumberKeepsText(text);
  }

  /** `\numberline {num}` is an occurrence, with number `num`. */
  lemma NumberOpeningMatches(w: string, num: string, text: string)
    requires AllSpace(w) && '}' !in num
    ensures NumberlineAt(NumberOpening(w, num) + "}" + text) == Some((num, text))
  {
    var s := NumberOpening(w, num) + "}" + text;
    var g := GroupText(w, num, text);
    assert s == NumberlineCommand + g by {
      assert NumberOpening(w, num) == NumberlineCommand + (w + "{" + num);
      assert g == (w + "{" + num) + "}" + text;
    }
    assert StartsWith(s, NumberlineCommand) && s[|NumberlineCommand|..] == g by {
      LiteralThen(NumberlineCommand, g);
    }
    assert BraceGroup(g) == Some((num, text)) by {
      BraceGroupComplete(w, num, text);
    }
  }

  /** A matched brace group contains its closing `}`. */
  lemma BraceGroupHasClose(s: string)
    requires BraceGroup(s).Some?
    ensures '}' in s
  {
    var g := BraceGroup(s).value;
    BraceGroupSound(s);
    var w := LeadingSpace(s);
    assert s == w + "{" + g.0 + "}" + g.1;
    assert s[|w| + 1 + |g.0|] == '}';
  }

  /** An occurrence needs a `}`. */
  lemma NumberlineNeedsClose(s: string)
    requires '}' !in s
    ensures NumberlineAt(s).None?
  {
    if NumberlineAt(s).Some? {
      BraceGroupHasClose(s[|NumberlineCommand|..]);
      assert false;
    }
  }

  /** Inside `parse_toc` the numbering step never fires: a raw title without
      `}` has no occurrence, and its title is the raw title stripped. */
  lemma {:induction false} NumberingInert(rawTitle: string)
    requires '}' !in rawTitle
    ensures FindNumber(rawTitle).None?
    ensures Title(rawTitle) == Strip(rawTitle)
    decreases |rawTitle|
  {
    NumberlineNeedsClose(rawTitle);
    if rawTitle != [] {
      assert forall c :: c in rawTitle[1..] ==> c in rawTitle;
      NumberingInert(rawTitle[1..]);
    }
    TitleWithoutNumber(rawTitle);
  }
}
