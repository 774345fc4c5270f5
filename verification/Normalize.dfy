/** Tidying whitespace without flattening the document (`app/rag/chunking.py`, `normalize`). */
module Normalizing {
  import opened Text

  const NUL := '\0'

  predicate IsInlineSpace(c: char) {
    IsSpace(c) && c != '\n'
  }

  function DropNul(s: string): string {
    if s == "" then "" else if s[0] == NUL then DropNul(s[1..]) else [s[0]] + DropNul(s[1..])
  }

  function TabsIn(s: string): (tabs: string)
    ensures forall i :: 0 <= i < |tabs| ==> tabs[i] == '\t'
  {
    if s == "" then "" else if s[0] == '\t' then "\t" + TabsIn(s[1..]) else TabsIn(s[1..])
  }

  /** Each run of spaces within a line: just its tabs if it has any, otherwise one space. */
  function Collapse(s: string): string
    decreases |s|
  {
    if s == "" then ""
    else if IsInlineSpace(s[0]) then
      var n := LeadCount(s, IsInlineSpace);
      var tabs := TabsIn(s[..n]);
      (if tabs != "" then tabs else " ") + Collapse(s[n..])
    else [s[0]] + Collapse(s[1..])
  }

  function Indent(line: string): string {
    line[..LeadCount(line, IsSpace)]
  }

  /** One line: its indentation as it is, its inner runs collapsed, its trailing whitespace gone. */
  function NormalLine(line: string): string {
    var body := Collapse(RStrip(LStrip(line)));
    if body != "" then Indent(line) + body else ""
  }

  function NormalLines(lines: seq<string>): seq<string> {
    seq(|lines|, i requires 0 <= i < |lines| => NormalLine(lines[i]))
  }

  /** A run of three newlines or more becomes two. */
  function CapBlankRuns(s: string): string
    decreases |s|
  {
    if s == "" then ""
    else if s[0] == '\n' then
      var n := LeadCount(s, IsNewline);
      (if n >= 3 then "\n\n" else s[..n]) + CapBlankRuns(s[n..])
    else [s[0]] + CapBlankRuns(s[1..])
  }

  function Normalize(text: string): string {
    StripNewlines(CapBlankRuns(Join(NormalLines(Split(DropNul(text))))))
  }

  method NormalizeLine(line: string) returns (out: string)
    ensures out == NormalLine(line)
  {
    var stripped := LStrip(line);
    var indent := line[..|line| - |stripped|];
    var body := Collapse(RStrip(stripped));
    out := if body != "" then indent + body else "";
  }

  /** `normalize`. */
  method NormalizeText(text: string) returns (out: string)
    ensures out == Normalize(text)
  {
    var raw := Split(DropNul(text));
    var lines := [];
    for i := 0 to |raw|
      invariant lines == NormalLines(raw)[..i]
    {
      var line := NormalizeLine(raw[i]);
      lines := lines + [line];
    }
    assert NormalLines(raw)[..|raw|] == NormalLines(raw);
    out := StripNewlines(CapBlankRuns(Join(lines)));
  }

  // ---- What is kept ---------------------------------------------------------------------

  function Filter(s: string, keep: char -> bool): string {
    if s == "" then "" else if keep(s[0]) then [s[0]] + Filter(s[1..], keep) else Filter(s[1..], keep)
  }

  predicate IsContent(c: char) {
    !IsSpace(c) && c != NUL
  }

  /** What a row's columns are read from: its text and the tabs between. */
  predicate IsColumn(c: char) {
    !IsSpace(c) || c == '\t'
  }

  lemma {:induction false} FilterJoin(a: string, b: string, keep: char -> bool)
    ensures Filter(a + b, keep) == Filter(a, keep) + Filter(b, keep)
    decreases |a|
  {
    if a == "" {
      assert a + b == b;
    } else {
      assert (a + b)[1..] == a[1..] + b;
      FilterJoin(a[1..], b, keep);
    }
  }

  lemma {:induction false} FilterNone(s: string, keep: char -> bool)
    requires forall i :: 0 <= i < |s| ==> !keep(s[i])
    ensures Filter(s, keep) == ""
    decreases |s|
  {
    if s != "" {
      FilterNone(s[1..], keep);
    }
  }

  /** Two texts agree when their first parts and the rest of them do. */
  lemma FilterBoth(a: string, b: string, a': string, b': string, keep: char -> bool)
    requires Filter(a, keep) == Filter(a', keep) && Filter(b, keep) == Filter(b', keep)
    ensures Filter(a + b, keep) == Filter(a' + b', keep)
  {
    FilterJoin(a, b, keep);
    FilterJoin(a', b', keep);
  }

  lemma BlankHasNone(s: string)
    requires Blank(s)
    ensures Filter(s, IsContent) == ""
  {
    FilterNone(s, IsContent);
  }

  lemma {:induction false} DropNulKeeps(s: string)
    ensures Filter(DropNul(s), IsContent) == Filter(s, IsContent)
    decreases |s|
  {
    if s != "" {
      DropNulKeeps(s[1..]);
      if s[0] != NUL {
        FilterBoth([s[0]], DropNul(s[1..]), [s[0]], s[1..], IsContent);
        assert [s[0]] + s[1..] == s;
      }
    }
  }

  /** A run collapses to what its columns are read from. */
  lemma {:induction false} TabsAreColumns(run: string)
    requires forall i :: 0 <= i < |run| ==> IsInlineSpace(run[i])
    ensures Filter(run, IsColumn) == TabsIn(run)
    decreases |run|
  {
    if run != "" {
      TabsAreColumns(run[1..]);
    }
  }

  lemma {:induction false} OfTabs(tabs: string)
    requires forall i :: 0 <= i < |tabs| ==> tabs[i] == '\t'
    ensures Filter(tabs, IsColumn) == tabs
    decreases |tabs|
  {
    if tabs != "" {
      OfTabs(tabs[1..]);
    }
  }

  lemma RunKeeps(run: string)
    requires forall i :: 0 <= i < |run| ==> IsInlineSpace(run[i])
    ensures var tabs := TabsIn(run);
            var short := if tabs != "" then tabs else " ";
            Filter(short, IsColumn) == Filter(run, IsColumn) && Filter(short, IsContent) == Filter(run, IsContent)
  {
    TabsAreColumns(run);
    OfTabs(TabsIn(run));
    FilterNone(" ", IsColumn);
    FilterNone(run, IsContent);
    FilterNone(TabsIn(run), IsContent);
    FilterNone(" ", IsContent);
  }

  /** What `Collapse` makes of the first run or character, and how long that is. */
  lemma CollapseStep(s: string) returns (n: nat, first: string)
    requires s != ""
    ensures 0 < n <= |s| && Collapse(s) == first + Collapse(s[n..]) && s == s[..n] + s[n..]
    ensures Filter(first, IsColumn) == Filter(s[..n], IsColumn) && Filter(first, IsContent) == Filter(s[..n], IsContent)
  {
    if IsInlineSpace(s[0]) {
      n := LeadCount(s, IsInlineSpace);
      var run := s[..n];
      first := if TabsIn(run) != "" then TabsIn(run) else " ";
      assert n > 0;
      assert forall i :: 0 <= i < |run| ==> IsInlineSpace(run[i]);
      RunKeeps(run);
    } else {
      n := 1;
      first := s[..1];
    }
  }

  /** Collapsing keeps the columns, tab for tab, as well as the content. */
  lemma {:induction false} CollapseKeeps(s: string)
    ensures Filter(Collapse(s), IsContent) == Filter(s, IsContent)
    ensures Filter(Collapse(s), IsColumn) == Filter(s, IsColumn)
    decreases |s|
  {
    if s != "" {
      var n, first := CollapseStep(s);
      CollapseKeeps(s[n..]);
      FilterBoth(first, Collapse(s[n..]), s[..n], s[n..], IsContent);
      FilterBoth(first, Collapse(s[n..]), s[..n], s[n..], IsColumn);
    }
  }

  /** Blank ends do not matter to the content. */
  lemma AroundKeeps(before: string, s: string, after: string)
    requires Blank(before) && Blank(after)
    ensures Filter(before + s + after, IsContent) == Filter(s, IsContent)
  {
    FilterJoin(before + s, after, IsContent);
    FilterJoin(before, s, IsContent);
    BlankHasNone(before);
    BlankHasNone(after);
  }

  lemma TrimmedLine(line: string)
    ensures var body := RStrip(LStrip(line));
            exists after :: Blank(after) && line == Indent(line) + body + after
    ensures Blank(Indent(line))
  {
    var body := RStrip(LStrip(line));
    var after := LStrip(line)[|body|..];
    assert line == Indent(line) + LStrip(line);
    assert LStrip(line) == body + after;
    assert line == Indent(line) + body + after;
  }

  lemma NormalLineKeeps(line: string)
    ensures Filter(NormalLine(line), IsContent) == Filter(line, IsContent)
  {
    var body := RStrip(LStrip(line));
    TrimmedLine(line);
    var after :| Blank(after) && line == Indent(line) + body + after;
    AroundKeeps(Indent(line), body, after);
    CollapseKeeps(body);
    AroundKeeps(Indent(line), Collapse(body), "");
    assert Indent(line) + Collapse(body) + "" == Indent(line) + Collapse(body);
  }

  lemma {:induction false} CollapseEnds(s: string)
    requires s != "" && !IsSpace(s[|s| - 1])
    ensures Collapse(s) != "" && !IsSpace(Collapse(s)[|Collapse(s)| - 1])
    decreases |s|
  {
    var n := if IsInlineSpace(s[0]) then LeadCount(s, IsInlineSpace) else 1;
    if s[n..] != "" {
      assert s[n..][|s[n..]| - 1] == s[|s| - 1];
      CollapseEnds(s[n..]);
    }
  }

  /**
    A line with anything on it keeps its indentation verbatim and its columns tab for tab, and
    ends without whitespace; a blank line becomes empty.
   */
  lemma NormalLineKeepsLayout(line: string)
    ensures Blank(line) ==> NormalLine(line) == ""
    ensures !Blank(line) ==>
      var r, inner := NormalLine(line), RStrip(LStrip(line));
      && Indent(line) <= r
      && Filter(r[|Indent(line)|..], IsColumn) == Filter(inner, IsColumn)
      && r != "" && !IsSpace(r[|r| - 1])
  {
    var inner := RStrip(LStrip(line));
    TrimmedLine(line);
    CollapseKeeps(inner);
    if inner == "" {
      var after :| Blank(after) && line == Indent(line) + inner + after;
      assert line == Indent(line) + after;
    } else {
      CollapseEnds(inner);
      assert inner[0] == LStrip(line)[0] == line[|Indent(line)|];
      assert NormalLine(line)[|Indent(line)|..] == Collapse(inner);
    }
  }

  lemma {:induction false} JoinKeeps(lines: seq<string>)
    ensures Filter(Join(NormalLines(lines)), IsContent) == Filter(Join(lines), IsContent)
    decreases |lines|
  {
    if lines != [] {
      NormalLineKeeps(lines[0]);
      if |lines| > 1 {
        JoinKeeps(lines[1..]);
        assert NormalLines(lines)[1..] == NormalLines(lines[1..]);
        FilterBoth(NormalLine(lines[0]), "\n", lines[0], "\n", IsContent);
        FilterBoth(NormalLine(lines[0]) + "\n", Join(NormalLines(lines[1..])), lines[0] + "\n", Join(lines[1..]), IsContent);
      }
    }
  }

  /** What `CapBlankRuns` makes of the first run of newlines or character, and how long that is. */
  lemma CapStep(s: string) returns (n: nat, first: string)
    requires s != ""
    ensures 0 < n <= |s| && CapBlankRuns(s) == first + CapBlankRuns(s[n..]) && s == s[..n] + s[n..]
    ensures Filter(first, IsContent) == Filter(s[..n], IsContent)
  {
    if s[0] == '\n' {
      n := LeadCount(s, IsNewline);
      first := if n >= 3 then "\n\n" else s[..n];
      BlankHasNone(first);
      BlankHasNone(s[..n]);
    } else {
      n := 1;
      first := s[..1];
    }
  }

  lemma {:induction false} CapKeeps(s: string)
    ensures Filter(CapBlankRuns(s), IsContent) == Filter(s, IsContent)
    decreases |s|
  {
    if s != "" {
      var n, first := CapStep(s);
      CapKeeps(s[n..]);
      FilterBoth(first, CapBlankRuns(s[n..]), s[..n], s[n..], IsContent);
    }
  }

  lemma StripKeeps(s: string)
    ensures Filter(StripNewlines(s), IsContent) == Filter(s, IsContent)
  {
    var k := LeadCount(s, IsNewline);
    var r := StripNewlines(s);
    assert s == s[..k] + r + s[k..][|r|..];
    AroundKeeps(s[..k], r, s[k..][|r|..]);
  }

  /** Normalizing keeps every character that is neither whitespace nor NUL, in order, and adds none. */
  lemma NormalizeKeepsContent(text: string)
    ensures Filter(Normalize(text), IsContent) == Filter(text, IsContent)
  {
    var lines := Split(DropNul(text));
    DropNulKeeps(text);
    JoinOfSplit(DropNul(text));
    JoinKeeps(lines);
    CapKeeps(Join(NormalLines(lines)));
    StripKeeps(CapBlankRuns(Join(NormalLines(lines))));
  }

  // ---- Blank runs -------------------------------------------------------------------------

  ghost predicate AtMostOneBlankLine(s: string) {
    forall i :: 0 <= i && i + 2 < |s| ==> !(s[i] == '\n' && s[i + 1] == '\n' && s[i + 2] == '\n')
  }

  lemma {:induction false} CapCaps(s: string)
    ensures AtMostOneBlankLine(CapBlankRuns(s))
    ensures s != "" && s[0] != '\n' ==> CapBlankRuns(s)[0] == s[0]
    ensures s == "" ==> CapBlankRuns(s) == ""
    decreases |s|
  {
    if s != "" {
      var n := if s[0] == '\n' then LeadCount(s, IsNewline) else 1;
      CapCaps(s[n..]);
      var rest := CapBlankRuns(s[n..]);
      var first := if s[0] == '\n' && n >= 3 then "\n\n" else s[..n];
      assert CapBlankRuns(s) == first + rest;
      forall i | 0 <= i && i + 2 < |first + rest|
        ensures !((first + rest)[i] == '\n' && (first + rest)[i + 1] == '\n' && (first + rest)[i + 2] == '\n')
      {
        if i >= |first| {
          assert !(rest[i - |first|] == '\n' && rest[i - |first| + 1] == '\n' && rest[i - |first| + 2] == '\n');
        } else if s[0] == '\n' {
          assert (first + rest)[|first|] == s[n] != '\n';
        }
      }
    }
  }

  /** A normalized text neither starts nor ends with a newline and has no two blank lines together. */
  lemma NormalizedHasNoBlankRuns(text: string)
    ensures var r := Normalize(text);
            AtMostOneBlankLine(r) && (r != "" ==> r[0] != '\n' && r[|r| - 1] != '\n')
  {
    var capped := CapBlankRuns(Join(NormalLines(Split(DropNul(text)))));
    CapCaps(Join(NormalLines(Split(DropNul(text)))));
    var k := LeadCount(capped, IsNewline);
    var r := Normalize(text);
    forall i | 0 <= i && i + 2 < |r|
      ensures !(r[i] == '\n' && r[i + 1] == '\n' && r[i + 2] == '\n')
    {
      assert !(capped[k + i] == '\n' && capped[k + i + 1] == '\n' && capped[k + i + 2] == '\n');
    }
  }
}
