# ToC2TXT `parse_toc` in Dafny

This project models `parse_toc`, the converter from the text of a LaTeX `.toc`
file to a plain-text outline, and proves properties of the model. It covers
the whole function:

- The input is split into lines as `str.splitlines()` does.
- Each line is tried against the fixed entry pattern
  `\contentsline\s*{type}\s*{raw_title}\s*{page}`, anchored at column 0.
- A line that does not match is skipped.
- A line that matches becomes one output line: four spaces per level of its
  entry type, the title, ` ..... ` and the page.
- The title is the raw title, with a `\numberline{…}` number pulled to the
  front when one is present, stripped of surrounding whitespace.
- The output lines are joined with `\n`.

Modules, one file each:

- `Wrappers` (`wrappers.dfy`): `Option`, the result of a match that may fail.
- `PyText` (`pytext.dfy`): the Python string primitives the function relies
  on. These are Unicode whitespace (`\s` and `str.strip()` share one set),
  `str.strip`, `str.splitlines`, `str.join` and `s * n`.
- `EntryMatch` (`entry_match.dfy`): the line pattern at line 9, written out
  as a scanner. Every group runs to the first `}`, so a match, when there is
  one, is unique.
- `Numbering` (`numbering.dfy`): the `\numberline` search and substitution
  of lines 20-26, modelled on arbitrary strings.
- `Format` (`format.dfy`): the level map, the indent and the output line
  (lines 10, 28, 29).
- `TocParse` (`toc_parse.dfy`): the loop and the join (lines 11-30).
  - `ParseToc` is the loop, as a method that appends to `linesOut`; the
    steps after a match are the method `RenderEntry`.
  - It is proved equal to `TocText`, the function the other lemmas are
    about.

Three behaviours of the code shape the model:

- Arguments are not brace-balanced. Each group of the line pattern is `[^}]*`
  or `[^}]+`, so it ends at the first `}`. A title such as
  `Overview of {Special} Cases` therefore makes the whole line fail to match.
- There is no configuration. There is no option to drop the number or the
  page, and the indent is always four spaces per level.
- A numbered entry, `\contentsline {section}{\numberline {1}Intro}{3}`, does
  not match at all: the title group stops at the `}` that closes the number.
  The entry is dropped. So the numbering step never fires inside
  `parse_toc` (`Numbering.NumberedEntrySkipped`, `Numbering.NumberingInert`).
  The step's own behaviour on arbitrary titles is still stated and proved
  (`Numbering.TitleWithNumber`, `Numbering.LeadingNumberTitle`).

## Model

| member | source | states |
|---|---|---|
| PyText.IsSpace | ToC2TXT.py:9 | Python's `str.isspace` set, which `\s` and `strip()` share; it holds neither brace, so `\s*` stops at the `{` of a group |
| PyText.IsLineBreak | ToC2TXT.py:12 | the boundaries `splitlines` cuts at; every one of them is also whitespace, so `strip` removes a stray one |
| PyText.LStrip | ToC2TXT.py:22 | the result is a suffix of the input; everything cut off is whitespace; the result is empty or does not start with whitespace |
| PyText.RStrip | ToC2TXT.py:22 | the result is a prefix of the input; everything cut off is whitespace; the result is empty or does not end with whitespace |
| PyText.Strip | ToC2TXT.py:22 | the result is no longer than the input and neither starts nor ends with whitespace |
| PyText.StripUnique | ToC2TXT.py:22 | `strip` of whitespace + `t` + whitespace is `t`, for any `t` that neither starts nor ends with whitespace (so `strip` is fixed by its contract) |
| PyText.SplitLines | ToC2TXT.py:12 | no resulting line holds a line boundary; the result is empty exactly when the text is empty (the four lemmas below fix the result on every input) |
| PyText.SplitLinesOne | ToC2TXT.py:12 | a non-empty text without boundaries is one line |
| PyText.SplitLinesAtBreak | ToC2TXT.py:12 | a line without boundaries followed by a boundary gives that line, then the lines after the whole boundary (two characters for `\r\n`, one otherwise) |
| PyText.SplitLinesBreak | ToC2TXT.py:12 | a line, any one-character boundary (`\r` only when no `\n` follows it) and a rest give that line followed by the lines of the rest; a final boundary opens no empty last line |
| PyText.SplitLinesCrLf | ToC2TXT.py:12 | `\r\n` is one boundary: a line, `\r\n` and a rest give that line followed by the lines of the rest |
| PyText.SplitLinesOfJoin | ToC2TXT.py:30 | `splitlines` gives back the lines joined with `\n`, when no line holds a boundary and the last line is non-empty |
| PyText.SplitLinesOfTerminated | ToC2TXT.py:12 | `splitlines` gives back lines each ended by `\n`, empty ones included |
| PyText.Join | ToC2TXT.py:30 | no items give `""` and one item gives itself; `JoinEmpty`, `JoinEndsWithLast` and `SplitLinesOfJoin` state the rest |
| PyText.JoinEmpty | ToC2TXT.py:30 | joining non-empty items gives `""` exactly when there are no items |
| PyText.JoinEndsWithLast | ToC2TXT.py:30 | the joined text ends with the last item |
| PyText.Repeat | ToC2TXT.py:28 | `s * n` has length `\|s\| * n` and holds only blanks when `s` does |
| EntryMatch.SplitAtClose | ToC2TXT.py:9 | the input splits into a prefix without `}` and a rest that is empty or starts with `}` |
| EntryMatch.SplitAtCloseOf | ToC2TXT.py:9 | on `body + rest` with no `}` in `body` and `rest` empty or starting with `}`, the split is exactly `(body, rest)` |
| EntryMatch.BraceGroup | ToC2TXT.py:9 | a matched `\s*{[^}]*}` group holds no `}` and leaves a shorter rest |
| EntryMatch.LeadingSpace | ToC2TXT.py:9 | what `\s*` consumes is whitespace, and the text is that whitespace followed by the text with its leading whitespace stripped |
| EntryMatch.BraceGroupSound | ToC2TXT.py:9 | a text whose group matches is leading whitespace, `{`, the group, `}`, the rest |
| EntryMatch.BraceGroupComplete | ToC2TXT.py:9 | whitespace, `{`, a body without `}`, `}`, anything: the group matches, with exactly that body and rest |
| EntryMatch.StartsWithIff | ToC2TXT.py:9 | the literal-prefix test holds exactly when the first `\|p\|` characters are `p` |
| EntryMatch.MatchEntry | ToC2TXT.py:13 | on a match the type is non-empty, and none of type, raw title and page holds `}` |
| EntryMatch.MatchGroups | ToC2TXT.py:9 | the three groups after the marker; no contract of its own: `MatchEntrySound` and `MatchEntryComplete` fix it through `MatchEntry` |
| EntryMatch.MatchEntryComplete | ToC2TXT.py:9 | every line made of `\contentsline`, whitespace, `{type}`, whitespace, `{title}`, whitespace, `{page}`, anything (type non-empty, no `}` in the groups) matches, with exactly those groups |
| EntryMatch.MatchEntrySound | ToC2TXT.py:9 | every matching line has that shape, with the groups returned |
| EntryMatch.MatchedPartsOfLine | ToC2TXT.py:16-18 | every character of the three groups comes from the line |
| EntryMatch.MatchIgnoresTail | ToC2TXT.py:13 | appending text to a matching line does not change the match (text after the third `}` is ignored) |
| EntryMatch.IndentedLineSkipped | ToC2TXT.py:13-15 | a line starting with whitespace does not match |
| EntryMatch.EmptyKindSkipped | ToC2TXT.py:9 | `\contentsline` followed by an empty type group `{}` does not match |
| Numbering.NumberOpeningHasNoClose | ToC2TXT.py:20 | `\numberline`, whitespace, `{` and a number without `}` hold no `}` |
| Numbering.NumberedEntrySkipped | ToC2TXT.py:9 | a numbered entry `\contentsline{type}{\numberline{num}title}…` does not match when the title text after the number's `}` starts with neither `{` nor whitespace |
| Numbering.NumberlineAt | ToC2TXT.py:20 | a match at the start gives a number without `}` and a shorter rest |
| Numbering.FindNumber | ToC2TXT.py:20 | the number found holds no `}`; `FindNumberNone` gives when there is none, `SkipPrefix` and `OccurrenceAtStart` that it is the leftmost occurrence's |
| Numbering.RemoveNumberlines | ToC2TXT.py:22 | the substitution never lengthens the text |
| Numbering.FindNumberNone | ToC2TXT.py:20 | the search finds nothing exactly when no occurrence starts at any position |
| Numbering.NoNumberKeepsText | ToC2TXT.py:22 | without an occurrence the substitution returns the text unchanged |
| Numbering.Title | ToC2TXT.py:20-26 | no contract of its own: `TitleWithoutNumber`, `TitleWithNumber`, `LeadingNumberTitle` and `NumberingInert` state it |
| Numbering.TitleWithoutNumber | ToC2TXT.py:20-26 | without an occurrence the title is the raw title stripped |
| Numbering.NoOccurrenceInIff | ToC2TXT.py:20 | the recursive "no occurrence starts inside `pre`" predicate holds exactly when no occurrence starts at any position of `pre` |
| Numbering.SkipPrefix | ToC2TXT.py:20-22 | a prefix in which no occurrence starts is passed over by the search and kept verbatim by the substitution |
| Numbering.TitleWithNumber | ToC2TXT.py:20-24 | when the leftmost occurrence follows `pre`, the title is its number, a space, and `pre` + the substituted rest, stripped |
| Numbering.NumberOpeningMatches | ToC2TXT.py:20 | `\numberline`, whitespace, `{num}` is an occurrence with number `num` |
| Numbering.LeadingNumberTitle | ToC2TXT.py:20-24 | `\numberline {num}text` (no further occurrence in `text`) gives the title `num + " " + strip(text)` |
| Numbering.BraceGroupHasClose | ToC2TXT.py:20 | a matched group implies a `}` in the text |
| Numbering.NumberlineNeedsClose | ToC2TXT.py:20 | a text without `}` has no occurrence at its start |
| Numbering.NumberingInert | ToC2TXT.py:20-26 | on a raw title without `}` (every title line 9 captures) the search finds nothing and the title is the raw title stripped |
| Format.Depth | ToC2TXT.py:10 | level 1 exactly for `subsection`, 2 exactly for `subsubsection`, 0 for every other type |
| Format.Indent | ToC2TXT.py:28 | the indent is `4 * depth` characters, all blanks |
| Format.FormatLine | ToC2TXT.py:29 | no contract of its own: `FormatInParse`, `DepthRecoverable` and `FormatLineIsOneLine` state it |
| Format.IndentOrder | ToC2TXT.py:10 | `section` < `subsection` < `subsubsection` in indent width; no indent exceeds 8 |
| Format.FormatInParse | ToC2TXT.py:29 | for a raw title without `}` the line is indent + stripped raw title + ` ..... ` + page |
| Format.DepthRecoverable | ToC2TXT.py:28-29 | the leading whitespace of an output line, divided by 4, is the entry's level |
| Format.FormatLineIsOneLine | ToC2TXT.py:29 | an output line is non-empty and holds no line boundary when the title and page hold none |
| TocParse.EntryLines | ToC2TXT.py:13-15 | a line contributes at most one output line, and contributes one exactly when it matches |
| TocParse.Outline | ToC2TXT.py:11-29 | there are never more output lines than input lines; `OutlineAppend`, `OutlineSkipsUnmatched`, `OutlineAllMatch` and `OutlineEmpty` state the rest |
| TocParse.TocText | ToC2TXT.py:12-30 | no contract of its own: `TocTextEmpty`, `TocTextLines`, `TocTextOfTerminated` and `TocTextNoTrailingBreak` state it |
| TocParse.ParseToc | ToC2TXT.py:5-30 | the loop returns `TocText(content)`, the output lines for `splitlines(content)` joined with `\n` (loop invariant: `linesOut` is the output for the lines seen so far) |
| TocParse.RenderEntry | ToC2TXT.py:16-29 | the loop body for a matched line (number search, substitution, strip, title, indent) builds exactly that entry's output line `FormatLine(e)` |
| TocParse.OutlineAppend | ToC2TXT.py:12 | the output for a concatenation of inputs is the concatenation of their outputs |
| TocParse.OutlineOne | ToC2TXT.py:12-29 | the output for one line is what that line contributes |
| TocParse.OutlineSkipsUnmatched | ToC2TXT.py:14-15 | removing a line that does not match leaves the output unchanged |
| TocParse.OutlineAllMatch | ToC2TXT.py:12-29 | when every line matches, there is one output line per input line, in order, each the rendering of that line's entry |
| TocParse.OutlineEmpty | ToC2TXT.py:11-15 | the output is empty exactly when no line matches |
| TocParse.EntryLineIsOneLine | ToC2TXT.py:29 | the rendering of a matching line is non-empty and holds no line boundary |
| TocParse.OutlineLinesAreLines | ToC2TXT.py:29 | every output line is non-empty and holds no line boundary |
| TocParse.JoinedLines | ToC2TXT.py:30 | joining one-line texts with `\n` gives `""` exactly when there are none, and `splitlines` gives them back |
| TocParse.TocTextEmpty | ToC2TXT.py:30 | `parse_toc` returns `""` exactly when no input line matches |
| TocParse.TocTextEmptyIff | ToC2TXT.py:30 | the result is `""` exactly when there are no output lines |
| TocParse.TocTextLines | ToC2TXT.py:30 | `splitlines` of the result is exactly the list of output lines |
| TocParse.TocTextOfTerminated | ToC2TXT.py:12-30 | for a text whose every line ends in `\n`, the result is the output for exactly those lines, joined with `\n` |
| TocParse.TocTextNoTrailingBreak | ToC2TXT.py:30 | the result is empty or ends with a character that is not a line boundary (no trailing newline) |

## Left out

- `main()` (ToC2TXT.py:33-56) is not modelled. It is the Streamlit page:
  upload widget, UTF-8 decoding and its error message, text area, download
  button and warning. That is UI and I/O over a library that is not part of
  this model.
- Python's `re` engine is not modelled in general. The two fixed patterns of
  lines 9 and 20/22 are written out as scanners.
  - The entry pattern is anchored (`match`).
  - The number pattern uses the leftmost match (`search`) and left-to-right,
    non-overlapping removal (`sub`).
  - Because every group is `[^}]`, backtracking cannot produce another
    match, so the scanners agree with the engine.
- Whitespace is the full set Python's `str.isspace()` accepts. That set is
  what both `\s` in a `str` pattern and `str.strip()` use.
- The line boundaries are all those `str.splitlines()` recognises:
  - `\n`, `\r`, `\r\n`, `\v`, `\f`;
  - `\x1c`, `\x1d`, `\x1e`, `\x85`, `\u2028`, `\u2029`.
- Python strings may hold lone surrogate code points. Dafny's `char` is a
  Unicode scalar value, so such strings are outside the model.
- TocParse.OutlineAllMatch states the one-output-line-per-entry
  correspondence only for inputs whose every line matches. Inputs with
  unmatched lines reduce to that case through `TocParse.OutlineSkipsUnmatched`
  and `TocParse.OutlineAppend`. No lemma counts matching lines directly.
- Numbering.TitleWithNumber describes the title through the leftmost
  occurrence and `RemoveNumberlines` of the text after it. It does not show
  that the substituted text is free of occurrences. It need not be: removing
  one occurrence can bring two fragments together into a new one, which
  Python's single-pass `re.sub` also leaves in place.
