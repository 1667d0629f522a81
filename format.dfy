/**
 * How `parse_toc` renders one matched entry: four spaces per level of the
 * entry type (`section` 0, `subsection` 1, `subsubsection` 2, anything else
 * 0), the title, the separator ` ..... ` and the page text as matched.
 */
module Format {
  import opened PyText
  import opened EntryMatch
  import opened Numbering

  /** The level of each known entry type. */
  const IndentMap: map<string, nat> := map["section" := 0, "subsection" := 1, "subsubsection" := 2]

  /** One level of indentation. */
  const IndentUnit: string := "    "

  /** What separates the title from the page. */
  const Separator: string := " ..... "

  /** `indent_map.get(entry_type, 0)`. */
  function Depth(kind: string): (d: nat)
    ensures d == 1 <==> kind == "subsection"
    ensures d == 2 <==> kind == "subsubsection"
    ensures d == 0 <==> kind != "subsection" && kind != "subsubsection"
  {
    if kind in IndentMap then IndentMap[kind] else 0
  }

  /** `'    ' * depth`: four blanks per level. */
  function Indent(kind: string): (r: string)
    ensures |r| == 4 * Depth(kind) && Blank(r)
  {
    Repeat(IndentUnit, Depth(kind))
  }

  /** The output line for one entry. */
  function FormatLine(e: Entry): (line: string)
  {
    Indent(e.kind) + Title(e.rawTitle) + Separator + e.page
  }

  /** A deeper entry type is indented further, and the indentation never
      exceeds two levels. */
  lemma IndentOrder(kind: string)
    ensures |Indent("section")| < |Indent("subsection")| < |Indent("subsubsection")|
    ensures |Indent(kind)| <= |Indent("subsubsection")| == 8
  {
  }

  /** The titles `parse_toc` sees hold no `}`, so the line is the indent, the
      raw title stripped, the separator and the page. */
  lemma FormatInParse(e: Entry)
    requires '}' !in e.rawTitle
    ensures FormatLine(e) == Indent(e.kind) + Strip(e.rawTitle) + Separator + e.page
  {
    NumberingInert(e.rawTitle);
  }

  /** The level can be read back from the line: its leading whitespace is the
      indent, plus the separator's blank when the title is empty, so it has
      `4 * depth` or `4 * depth + 1` characters. */
  lemma {:induction false} DepthRecoverable(e: Entry)
    requires '}' !in e.rawTitle
    ensures |LeadingSpace(FormatLine(e))| / 4 == Depth(e.kind)
  {
    var ind := Indent(e.kind);
    var t := Strip(e.rawTitle);
    assert FormatLine(e) == ind + t + Separator + e.page by { FormatInParse(e); }
    LeadingSpaceOfLine(ind, Depth(e.kind), t, e.page);
  }

  /** The same, for any indent of `d` levels and any title that does not
      start with whitespace. */
  lemma LeadingSpaceOfLine(ind: string, d: nat, t: string, page: string)
    requires Blank(ind) && |ind| == 4 * d
    requires t == [] || !IsSpace(t[0])
    ensures |LeadingSpace(ind + t + Separator + page)| / 4 == d
  {
    BlankIsSpace(ind);
    if t != [] {
      var u := t + Separator + page;
      assert ind + t + Separator + page == ind + u;
      LeadingSpaceOf(ind, u);
      QuarterOf(d, 0);
    } else {
      var w := ind + [Separator[0]];
      var u := Separator[1..] + page;
      assert ind + t + Separator + page == w + u by {
        assert Separator == [Separator[0]] + Separator[1..];
      }
      assert AllSpace(w) by {
        assert Separator[0] == ' ';
        AllSpaceConcat(ind, [Separator[0]]);
      }
      assert u[0] == '.';
      LeadingSpaceOf(w, u);
      QuarterOf(d, 1);
    }
  }

  /** The leading whitespace of blanks followed by a non-blank. */
  lemma LeadingSpaceOf(w: string, u: string)
    requires AllSpace(w) && u != [] && !IsSpace(u[0])
    ensures |LeadingSpace(w + u)| == |w|
  {
    LStripSkips(w, u);
  }

  lemma QuarterOf(d: nat, r: nat)
    requires r < 4
    ensures (4 * d + r) / 4 == d
  {
  }

  /** The separator holds no line boundary. */
  lemma SeparatorNoLineBreak()
    ensures NoLineBreak(Separator) && |Separator| == 7
  {
    forall i | 0 <= i < |Separator| ensures !IsLineBreak(Separator[i]) {
      assert Separator[i] == ' ' || Separator[i] == '.';
    }
  }

  /** A line of the output is never empty, and holds no line boundary when
      the matched texts hold none. */
  lemma FormatLineIsOneLine(e: Entry)
    requires '}' !in e.rawTitle
    requires NoLineBreak(e.rawTitle) && NoLineBreak(e.page)
    ensures FormatLine(e) != []
    ensures NoLineBreak(FormatLine(e))
  {
    FormatInParse(e);
    var ind := Indent(e.kind);
    var t := Strip(e.rawTitle);
    BlankIsSpace(ind);
    StripNoLineBreak(e.rawTitle);
    SeparatorNoLineBreak();
    NoLineBreakConcat(ind, t);
    NoLineBreakConcat(ind + t, Separator);
    NoLineBreakConcat(ind + t + Separator, e.page);
  }
}
