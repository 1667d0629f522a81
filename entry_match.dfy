/**
 * The entry pattern of `parse_toc`:
 *
 *   \contentsline \s* { type:[^}]+ } \s* { raw_title:[^}]* } \s* { page:[^}]* }
 *
 * applied with `re.match`, so it is anchored at the start of the line and
 * ignores whatever follows the third group. Every group is "everything up to
 * the first `}`": there is no brace balancing, and the match, when there is
 * one, is unique. The pattern is written out here as a scanner.
 */
module EntryMatch {
  import opened Wrappers
  import opened PyText

  /** The three groups of a matching line. */
  datatype Entry = Entry(kind: string, rawTitle: string, page: string)

  const Marker: string := "\\contentsline"

  /** Splits `s` at its first `}`: the longest prefix without `}` (what
      `[^}]*` takes) and the rest, which is empty or starts with `}`. */
  function SplitAtClose(s: string): (p: (string, string))
    ensures s == p.0 + p.1
    ensures '}' !in p.0
    ensures p.1 == [] || p.1[0] == '}'
  {
    if s == [] || s[0] == '}' then ([], s)
    else
      var p := SplitAtClose(s[1..]);
      assert s == [s[0]] + p.0 + p.1;
      ([s[0]] + p.0, p.1)
  }

  /** The sub-pattern `\s*{([^}]*)}` at the start of `s`: the group's text and
      what follows the closing `}`, or `None`. */
  function BraceGroup(s: string): (g: Option<(string, string)>)
    ensures g.Some? ==> '}' !in g.value.0 && |g.value.1| < |s|
  {
    var t := LStrip(s);
    if t != [] && t[0] == '{' then
      var p := SplitAtClose(t[1..]);
      if p.1 != [] then Some((p.0, p.1[1..])) else None
    else None
  }

  /** Whitespace, then `{`, `body`, `}`, then `rest`. */
  function GroupText(w: string, body: string, rest: string): string
  {
    w + "{" + body + "}" + rest
  }

  /** The whitespace that `\s*` consumes at the start of `s`. */
  function LeadingSpace(s: string): (w: string)
    ensures AllSpace(w) && s == w + LStrip(s)
  {
    s[..|s| - |LStrip(s)|]
  }

  /** What a matched group stood for: some whitespace, `{`, the group text,
      `}`, then the rest. */
  lemma BraceGroupSound(s: string)
    requires BraceGroup(s).Some?
    ensures s == GroupText(LeadingSpace(s), BraceGroup(s).value.0, BraceGroup(s).value.1)
  {
    var t := LStrip(s);
    var p := SplitAtClose(t[1..]);
    assert BraceGroup(s).value == (p.0, p.1[1..]);
    assert s == LeadingSpace(s) + t;
    OpenGroupShape(t);
    GroupTextOf(LeadingSpace(s), p.0, p.1[1..]);
  }

  lemma OpenGroupShape(t: string)
    requires t != [] && t[0] == '{' && SplitAtClose(t[1..]).1 != []
    ensures var p := SplitAtClose(t[1..]);
            t == "{" + (p.0 + ("}" + p.1[1..]))
  {
    var p := SplitAtClose(t[1..]);
    assert t == [t[0]] + t[1..];
    assert p.1 == [p.1[0]] + p.1[1..];
  }

  lemma GroupTextOf(w: string, body: string, rest: string)
    ensures GroupText(w, body, rest) == w + ("{" + (body + ("}" + rest)))
  {
  }

  /** Every text of that shape is matched, with exactly that group. */
  lemma BraceGroupComplete(w: string, body: string, rest: string)
    requires AllSpace(w) && '}' !in body
    ensures BraceGroup(GroupText(w, body, rest)) == Some((body, rest))
  {
    var s := GroupText(w, body, rest);
    var c := "}" + rest;
    var u := "{" + (body + c);
    assert s == w + u by { GroupTextOf(w, body, rest); }
    assert LStrip(s) == u by {
      LStripSkips(w, u);
      assert u[0] == '{';
    }
    assert SplitAtClose(u[1..]) == (body, c) by {
      assert u[1..] == body + c;
      SplitAtCloseOf(body, c);
    }
    assert c[1..] == rest;
  }

  /** `SplitAtClose` stops exactly at the first `}`. */
  lemma {:induction false} SplitAtCloseOf(body: string, rest: string)
    requires '}' !in body
    requires rest == [] || rest[0] == '}'
    ensures SplitAtClose(body + rest) == (body, rest)
  {
    if body == [] {
      assert body + rest == rest;
    } else {
      assert body[0] in body;
      assert (body + rest)[0] == body[0];
      assert (body + rest)[1..] == body[1..] + rest;
      assert forall c :: c in body[1..] ==> c in body;
      SplitAtCloseOf(body[1..], rest);
      assert [body[0]] + body[1..] == body;
    }
  }

  /** `s` starts with the literal `p`. */
  predicate StartsWith(s: string, p: string)
  {
    |p| <= |s| && (p == [] || (s[0] == p[0] && StartsWith(s[1..], p[1..])))
  }

  /** A literal prefix is recognised, and it is exactly the first `|p|`
      characters. */
  lemma {:induction false} StartsWithIff(s: string, p: string)
    ensures StartsWith(s, p) <==> |p| <= |s| && s[..|p|] == p
  {
    if p != [] && |p| <= |s| {
      StartsWithIff(s[1..], p[1..]);
      assert s[..|p|] == [s[0]] + s[1..][..|p| - 1];
      assert p == [p[0]] + p[1..];
    }
  }

  /** A literal followed by more text starts that text, and what follows it
      is the rest. */
  lemma LiteralThen(p: string, r: string)
    ensures StartsWith(p + r, p) && (p + r)[|p|..] == r
  {
    StartsWithIff(p + r, p);
    assert (p + r)[..|p|] == p;
  }

  /** `re.match` of the entry pattern on one line: the marker at column 0,
      then the three groups. */
  function MatchEntry(line: string): (m: Option<Entry>)
    ensures m.Some? ==> m.value.kind != []
    ensures m.Some? ==> '}' !in m.value.kind && '}' !in m.value.rawTitle && '}' !in m.value.page
  {
    if StartsWith(line, Marker) then MatchGroups(line[|Marker|..]) else None
  }

  /** The three groups `\s*{([^}]+)}\s*{([^}]*)}\s*{([^}]*)}` at the start of
      `s`. */
  function MatchGroups(s: string): (m: Option<Entry>)
  {
    match BraceGroup(s)
    case None => None
    case Some((kind, r1)) =>
      if kind == [] then None  // the type group is `[^}]+`
      else
        match BraceGroup(r1)
        case None => None
        case Some((rawTitle, r2)) =>
          match BraceGroup(r2)
          case None => None
          case Some((page, _)) => Some(Entry(kind, rawTitle, page))
  }

  /** A line of the matched shape: the marker at column 0, three groups each
      preceded by optional whitespace, then anything. */
  function EntryLine(w1: string, kind: string, w2: string, rawTitle: string,
                     w3: string, page: string, rest: string): string
  {
    Marker + GroupText(w1, kind, GroupText(w2, rawTitle, GroupText(w3, page, rest)))
  }

  /** Every line of the matched shape matches, with exactly its three groups. */
  lemma MatchEntryComplete(w1: string, kind: string, w2: string, rawTitle: string,
                           w3: string, page: string, rest: string)
    requires AllSpace(w1) && AllSpace(w2) && AllSpace(w3)
    requires kind != [] && '}' !in kind && '}' !in rawTitle && '}' !in page
    ensures MatchEntry(EntryLine(w1, kind, w2, rawTitle, w3, page, rest))
            == Some(Entry(kind, rawTitle, page))
  {
    var r2 := GroupText(w3, page, rest);
    var r1 := GroupText(w2, rawTitle, r2);
    var r0 := GroupText(w1, kind, r1);
    assert MatchEntry(Marker + r0) == MatchGroups(r0) by { LiteralThen(Marker, r0); }
    assert BraceGroup(r0) == Some((kind, r1)) by { BraceGroupComplete(w1, kind, r1); }
    assert BraceGroup(r1) == Some((rawTitle, r2)) by { BraceGroupComplete(w2, rawTitle, r2); }
    assert BraceGroup(r2) == Some((page, rest)) by { BraceGroupComplete(w3, page, rest); }
  }

  /** Every line that matches has that shape. */
  lemma MatchEntrySound(line: string)
    requires MatchEntry(line).Some?
    ensures var e := MatchEntry(line).value;
            exists w1, w2, w3, rest ::
              AllSpace(w1) && AllSpace(w2) && AllSpace(w3)
              && line == EntryLine(w1, e.kind, w2, e.rawTitle, w3, e.page, rest)
  {
    var r0 := line[|Marker|..];
    assert line == Marker + r0 by {
      StartsWithIff(line, Marker);
      assert line == line[..|Marker|] + r0;
    }
    var e := MatchGroups(r0).value;
    var g0 := BraceGroup(r0).value;
    var g1 := BraceGroup(g0.1).value;
    var g2 := BraceGroup(g1.1).value;
    assert e == Entry(g0.0, g1.0, g2.0);
    assert r0 == GroupText(LeadingSpace(r0), g0.0, g0.1) by { BraceGroupSound(r0); }
    assert g0.1 == GroupText(LeadingSpace(g0.1), g1.0, g1.1) by { BraceGroupSound(g0.1); }
    assert g1.1 == GroupText(LeadingSpace(g1.1), g2.0, g2.1) by { BraceGroupSound(g1.1); }
    assert line == EntryLine(LeadingSpace(r0), e.kind, LeadingSpace(g0.1), e.rawTitle,
                             LeadingSpace(g1.1), e.page, g2.1);
  }

  /** Every character of a matched group comes from the line. */
  lemma MatchedPartsOfLine(line: string)
    requires MatchEntry(line).Some?
    ensures var e := MatchEntry(line).value;
            && (forall c :: c in e.kind ==> c in line)
            && (forall c :: c in e.rawTitle ==> c in line)
            && (forall c :: c in e.page ==> c in line)
  {
    var e := MatchEntry(line).value;
    var w1, w2, w3, rest :| AllSpace(w1) && AllSpace(w2) && AllSpace(w3)
      && line == EntryLine(w1, e.kind, w2, e.rawTitle, w3, e.page, rest)
    by {
      MatchEntrySound(line);
    }
    EntryLineParts(w1, e.kind, w2, e.rawTitle, w3, e.page, rest);
  }

  lemma EntryLineParts(w1: string, kind: string, w2: string, rawTitle: string,
                       w3: string, page: string, rest: string)
    ensures var line := EntryLine(w1, kind, w2, rawTitle, w3, page, rest);
            && (forall c :: c in kind ==> c in line)
            && (forall c :: c in rawTitle ==> c in line)
            && (forall c :: c in page ==> c in line)
  {
    var r2 := GroupText(w3, page, rest);
    var r1 := GroupText(w2, rawTitle, r2);
    var r0 := GroupText(w1, kind, r1);
    GroupTextParts(w3, page, rest);
    GroupTextParts(w2, rawTitle, r2);
    GroupTextParts(w1, kind, r1);
    assert EntryLine(w1, kind, w2, rawTitle, w3, page, rest) == Marker + r0;
  }

  lemma GroupTextParts(w: string, body: string, rest: string)
    ensures forall c :: c in body ==> c in GroupText(w, body, rest)
    ensures forall c :: c in rest ==> c in GroupText(w, body, rest)
  {
  }

  /** Text after the third group's `}` is ignored. */
  lemma MatchIgnoresTail(line: string, extra: string)
    requires MatchEntry(line).Some?
    ensures MatchEntry(line + extra) == MatchEntry(line)
  {
    var e := MatchEntry(line).value;
    var w1, w2, w3, rest :| AllSpace(w1) && AllSpace(w2) && AllSpace(w3)
      && line == EntryLine(w1, e.kind, w2, e.rawTitle, w3, e.page, rest)
    by {
      MatchEntrySound(line);
    }
    EntryLineExtend(w1, e.kind, w2, e.rawTitle, w3, e.page, rest, extra);
    MatchEntryComplete(w1, e.kind, w2, e.rawTitle, w3, e.page, rest + extra);
  }

  lemma GroupTextExtend(w: string, body: string, rest: string, extra: string)
    ensures GroupText(w, body, rest) + extra == GroupText(w, body, rest + extra)
  {
  }

  lemma EntryLineExtend(w1: string, kind: string, w2: string, rawTitle: string,
                        w3: string, page: string, rest: string, extra: string)
    ensures EntryLine(w1, kind, w2, rawTitle, w3, page, rest) + extra
            == EntryLine(w1, kind, w2, rawTitle, w3, page, rest + extra)
  {
    var r2 := GroupText(w3, page, rest);
    var r1 := GroupText(w2, rawTitle, r2);
    var r0 := GroupText(w1, kind, r1);
    assert r2 + extra == GroupText(w3, page, rest + extra) by { GroupTextExtend(w3, page, rest, extra); }
    assert r1 + extra == GroupText(w2, rawTitle, r2 + extra) by { GroupTextExtend(w2, rawTitle, r2, extra); }
    assert r0 + extra == GroupText(w1, kind, r1 + extra) by { GroupTextExtend(w1, kind, r1, extra); }
    assert Marker + r0 + extra == Marker + (r0 + extra);
  }

  /** The marker must stand at column 0: a line that starts with whitespace
      never matches. */
  lemma IndentedLineSkipped(w: string, line: string)
    requires w != [] && AllSpace(w)
    ensures MatchEntry(w + line).None?
  {
    assert !StartsWith(w + line, Marker) by {
      assert (w + line)[0] == w[0];
      assert Marker[0] == '\\';
    }
  }

  /** The type group needs at least one character: `\contentsline{}...`
      never matches. */
  lemma EmptyKindSkipped(w: string, rest: string)
    requires AllSpace(w)
    ensures MatchEntry(Marker + w + "{" + "}" + rest).None?
  {
    var r0 := GroupText(w, [], rest);
    assert Marker + w + "{" + "}" + rest == Marker + r0;
    LiteralThen(Marker, r0);
    BraceGroupComplete(w, [], rest);
  }
}
