/** A stretch of a document: prose, or a structured block and the lines that frame it. */
module Segments {
  import opened Text
  import opened Wrappers

  datatype Kind = Prose | Code | Table | Math

  datatype Segment = Segment(
    kind: Kind, text: string, start: nat, open: Option<string>, close: Option<string>, header: Option<string>)

  /** Which part of how many, counted from 1. */
  datatype Part = Part(index: nat, count: nat)

  /** A chunk and the part of its locator the chunker adds. */
  datatype Chunk = Chunk(start: nat, text: string, structure: Option<Kind>, part: Option<Part>)

  predicate NoNewline(s: string) {
    forall i :: 0 <= i < |s| ==> s[i] != '\n'
  }

  /** `p` is the first lines of `text`, without the newline that ends them. */
  predicate LeadsLines(text: string, p: string) {
    p != "" && p <= text && (|p| < |text| ==> text[|p|] == '\n')
  }

  /** `p` is the last line of `text`, and not the first one. */
  predicate EndsLines(text: string, p: string) {
    |p| < |text| && text[|text| - |p| - 1] == '\n' && text[|text| - |p|..] == p && NoNewline(p)
  }

  /** `s` is two lines, broken at `n`. */
  ghost predicate BreaksAt(s: string, n: nat) {
    n < |s| && s[n] == '\n' && NoNewline(s[..n]) && NoNewline(s[n + 1..])
  }

  /** One line, or two with the newline between them. */
  ghost predicate OneOrTwoLines(header: string) {
    NoNewline(header) || exists n :: BreaksAt(header, n)
  }

  /**
    What a block says about its own lines is so: `text`, the block without its surrounding
    newlines, begins with its opening line or header and ends with its closing line.
   */
  ghost predicate Framed(seg: Segment, text: string) {
    && text <= seg.text
    && (seg.kind.Code? || seg.kind.Math? ==> seg.open.Some?)
    && (seg.open.Some? ==> NoNewline(seg.open.value) && LeadsLines(text, seg.open.value))
    && (seg.close.Some? ==> seg.open.Some? && EndsLines(text, seg.close.value))
    && (seg.kind.Table? ==> seg.header.Some? && OneOrTwoLines(seg.header.value) && LeadsLines(text, seg.header.value))
  }

  /** A block is framed, and a table's header begins with its text. */
  ghost predicate FrameOk(seg: Segment, text: string) {
    Framed(seg, text) && (seg.kind.Table? ==> seg.header.value[0] != '\n')
  }

  ghost predicate BlockOk(seg: Segment) {
    seg.kind.Prose? || FrameOk(seg, StripNewlines(seg.text))
  }

  ghost predicate AllOk(segments: seq<Segment>) {
    forall k :: 0 <= k < |segments| ==> BlockOk(segments[k])
  }
}

/** What segmentation yields: stretches of prose, code, tables and mathematics (`app/rag/structure.py`). */
module Structure {
  import opened Text
  import opened Wrappers
  import opened Segments

  /** A block's kind, its last line, and whether it is closed there. */
  datatype Block = Block(kind: Kind, end: nat, closed: bool)

  /** What a line opens: the kind of block, what closes it, and whether this very line does. */
  datatype Opening = Opening(kind: Kind, marker: string, closedHere: bool)

  /** How lines are read. Everything below holds for any reading; `PythonRules` is the source's. */
  datatype LineRules = LineRules(
    opening: string -> Option<Opening>, closes: (Opening, string) -> bool,
    isRow: string -> bool, isSeparator: string -> bool)

  // ---- The source's line patterns -------------------------------------------------------

  const ENVIRONMENTS := ["equation", "align", "gather", "multline", "eqnarray"]

  predicate IsTableRow(line: string) {
    StartsWith(LStrip(line), "|")
  }

  predicate IsTableSeparator(line: string) {
    var t := LStrip(line);
    && StartsWith(t, "|")
    && |t| > 1
    && forall i :: 1 <= i < |t| ==> IsSpace(t[i]) || t[i] == '|' || t[i] == ':' || t[i] == '-'
  }

  /** The environment, starred or not, that a line begins. */
  function Environment(line: string, names: seq<string>): Option<string> {
    if names == [] then None
    else if StartsWith(LStrip(line), "\\begin{" + names[0] + "}") then Some(names[0])
    else if StartsWith(LStrip(line), "\\begin{" + names[0] + "*}") then Some(names[0] + "*")
    else Environment(line, names[1..])
  }

  function MathOpening(line: string): Option<Opening> {
    var stripped := RStrip(LStrip(line));
    if StartsWith(stripped, "$$") then Some(Opening(Math, "$$", Contains(stripped[2..], "$$")))
    else if StartsWith(stripped, "\\[") then Some(Opening(Math, "\\]", Contains(stripped[2..], "\\]")))
    else
      match Environment(line, ENVIRONMENTS)
      case None => None
      case Some(name) =>
        var closer := "\\end{" + name + "}";
        Some(Opening(Math, closer, Contains(line, closer)))
  }

  /** A code fence if the line opens one, otherwise display math. */
  function OpeningOf(line: string): Option<Opening> {
    if StartsWith(LStrip(line), "```") then Some(Opening(Code, "```", false))
    else if StartsWith(LStrip(line), "~~~") then Some(Opening(Code, "~~~", false))
    else MathOpening(line)
  }

  predicate ClosesBlock(opening: Opening, line: string) {
    if opening.kind.Code? then StartsWith(LStrip(line), opening.marker) else Contains(line, opening.marker)
  }

  function PythonRules(): LineRules {
    LineRules(OpeningOf, ClosesBlock, IsTableRow, IsTableSeparator)
  }

  predicate OnlyNewlines(line: string) {
    forall i :: 0 <= i < |line| ==> line[i] == '\n'
  }

  /** A line of nothing but newlines opens no block, closes none, and is no table row; only code and math are opened. */
  ghost predicate BlankIsProse(r: LineRules) {
    && (forall line :: r.opening(line).Some? ==> r.opening(line).value.kind in {Code, Math})
    && (forall line :: OnlyNewlines(line) ==> r.opening(line).None? && !r.isRow(line))
    && forall line, other :: OnlyNewlines(other) && r.opening(line).Some? ==> !r.closes(r.opening(line).value, other)
  }

  lemma {:induction false} NewlinesStripAway(line: string)
    requires OnlyNewlines(line)
    ensures LStrip(line) == ""
  {
    forall i | 0 <= i < |line|
      ensures IsSpace(line[i])
    {
      assert line[i] == '\n';
    }
  }

  lemma {:induction false} EnvironmentNeedsText(line: string, names: seq<string>)
    requires OnlyNewlines(line)
    ensures Environment(line, names) == None
    decreases |names|
  {
    NewlinesStripAway(line);
    if names != [] {
      EnvironmentNeedsText(line, names[1..]);
    }
  }

  lemma OnlyNewlinesOpenNothing(line: string)
    requires OnlyNewlines(line)
    ensures OpeningOf(line) == None && !IsTableRow(line)
  {
    NewlinesStripAway(line);
    EnvironmentNeedsText(line, ENVIRONMENTS);
    assert RStrip(LStrip(line)) == "";
  }

  /** Every marker begins with a character that is not a newline. */
  lemma MarkersAreText(line: string)
    requires OpeningOf(line).Some?
    ensures OpeningOf(line).value.marker != "" && OpeningOf(line).value.marker[0] != '\n'
  {
  }

  lemma OnlyNewlinesCloseNothing(opening: Opening, line: string)
    requires OnlyNewlines(line) && opening.marker != "" && opening.marker[0] != '\n'
    ensures !ClosesBlock(opening, line)
  {
    NewlinesStripAway(line);
    forall i
      ensures !OccursAt(line, opening.marker, i, 0, |line|)
    {
      OccurrenceBegins(line, opening.marker, i, 0, |line|);
    }
  }

  lemma OccurrenceBegins(s: string, p: string, i: int, lo: int, hi: int)
    requires p != ""
    ensures OccursAt(s, p, i, lo, hi) ==> s[i] == p[0]
  {
    if OccursAt(s, p, i, lo, hi) {
      assert s[i..i + |p|][0] == s[i];
    }
  }

  lemma PythonRulesOk()
    ensures BlankIsProse(PythonRules())
  {
    var r := PythonRules();
    forall line | OnlyNewlines(line)
      ensures r.opening(line).None? && !r.isRow(line)
    {
      OnlyNewlinesOpenNothing(line);
    }
    forall line, other | OnlyNewlines(other) && r.opening(line).Some?
      ensures !r.closes(r.opening(line).value, other)
    {
      MarkersAreText(line);
      OnlyNewlinesCloseNothing(r.opening(line).value, other);
    }
  }

  // ---- `_block_end` ---------------------------------------------------------------------

  /** The first line from `j` on that closes the block, or the number of lines. */
  function FirstClosing(r: LineRules, opening: Opening, lines: seq<string>, j: nat): (n: nat)
    requires j <= |lines|
    ensures j <= n <= |lines|
    decreases |lines| - j
  {
    if j == |lines| || r.closes(opening, lines[j]) then j else FirstClosing(r, opening, lines, j + 1)
  }

  /** How far the block opened at line `i` reaches, and whether a line closes it. */
  function BlockEnd(r: LineRules, lines: seq<string>, i: nat): (b: Block)
    requires i < |lines| && r.opening(lines[i]).Some?
    ensures i <= b.end < |lines|
  {
    var opening := r.opening(lines[i]).value;
    if opening.closedHere then Block(opening.kind, i, true)
    else
      var j := FirstClosing(r, opening, lines, i + 1);
      if j < |lines| then Block(opening.kind, j, true) else Block(opening.kind, |lines| - 1, false)
  }

  lemma {:induction false} FirstClosingIsFirst(r: LineRules, opening: Opening, lines: seq<string>, j: nat)
    requires j <= |lines|
    ensures var n := FirstClosing(r, opening, lines, j);
            && (n < |lines| ==> r.closes(opening, lines[n]))
            && forall k :: j <= k < n ==> !r.closes(opening, lines[k])
    decreases |lines| - j
  {
    if j < |lines| && !r.closes(opening, lines[j]) {
      FirstClosingIsFirst(r, opening, lines, j + 1);
    }
  }

  // ---- `segment`, as a function of the lines --------------------------------------------

  predicate StartsTable(r: LineRules, lines: seq<string>, i: nat)
    requires i < |lines|
  {
    r.isRow(lines[i]) && i + 1 < |lines| && r.isRow(lines[i + 1])
  }

  predicate StartsBlock(r: LineRules, lines: seq<string>, i: nat)
    requires i < |lines|
  {
    r.opening(lines[i]).Some? || StartsTable(r, lines, i)
  }

  /** The first line from `j` on that is not a table row. */
  function TableEnd(r: LineRules, lines: seq<string>, j: nat): (n: nat)
    requires j <= |lines|
    ensures j <= n <= |lines|
    decreases |lines| - j
  {
    if j < |lines| && r.isRow(lines[j]) then TableEnd(r, lines, j + 1) else j
  }

  /** The first line from `j` on that starts a block. */
  function ProseEnd(r: LineRules, lines: seq<string>, j: nat): (n: nat)
    requires j <= |lines|
    ensures j <= n <= |lines|
    decreases |lines| - j
  {
    if j < |lines| && !StartsBlock(r, lines, j) then ProseEnd(r, lines, j + 1) else j
  }

  /** The line after the block that starts at `i`. */
  function AfterBlock(r: LineRules, lines: seq<string>, i: nat): (n: nat)
    requires i < |lines| && StartsBlock(r, lines, i)
    ensures i < n <= |lines|
  {
    if r.opening(lines[i]).Some? then BlockEnd(r, lines, i).end + 1 else TableEnd(r, lines, i)
  }

  /** A line without the newline that ends it. */
  function Chomp(line: string): string {
    TrimEnd(line, IsNewline)
  }

  function BlockSegment(r: LineRules, lines: seq<string>, i: nat, offset: nat): Segment
    requires i < |lines| && StartsBlock(r, lines, i)
  {
    var body := Concat(lines[i..AfterBlock(r, lines, i)]);
    if r.opening(lines[i]).Some? then
      var b := BlockEnd(r, lines, i);
      Segment(b.kind, body, offset, Some(Chomp(lines[i])),
              if b.closed && b.end > i then Some(Chomp(lines[b.end])) else None, None)
    else
      Segment(Table, body, offset, None, None,
              Some(if r.isSeparator(lines[i + 1]) then Chomp(lines[i]) + "\n" + Chomp(lines[i + 1]) else Chomp(lines[i])))
  }

  function ProseSegment(text: string, start: nat): Segment {
    Segment(Prose, text, start, None, None, None)
  }

  /** Where the segment that starts at line `i` ends. */
  function SegmentEnd(r: LineRules, lines: seq<string>, i: nat): (n: nat)
    requires i < |lines|
    ensures i < n <= |lines|
  {
    if StartsBlock(r, lines, i) then AfterBlock(r, lines, i) else ProseEnd(r, lines, i + 1)
  }

  function SegmentAt(r: LineRules, lines: seq<string>, i: nat, offset: nat): Segment
    requires i < |lines|
  {
    if StartsBlock(r, lines, i) then BlockSegment(r, lines, i, offset)
    else ProseSegment(Concat(lines[i..ProseEnd(r, lines, i + 1)]), offset)
  }

  /** The segments of `lines[i..]`, the first of which starts at `offset`. */
  function SegmentsFrom(r: LineRules, lines: seq<string>, i: nat, offset: nat): seq<Segment>
    requires i <= |lines|
    decreases |lines| - i
  {
    if i == |lines| then []
    else
      var n := SegmentEnd(r, lines, i);
      [SegmentAt(r, lines, i, offset)] + SegmentsFrom(r, lines, n, offset + |Concat(lines[i..n])|)
  }

  /** `flush_prose`. */
  function Flushed(prose: seq<string>, proseStart: nat, out: seq<Segment>): seq<Segment> {
    if prose == [] then out else out + [ProseSegment(Concat(prose), proseStart)]
  }

  /** The segments still to come at line `i`, the first of them begun with the gathered `prose`. */
  ghost function Rest(r: LineRules, lines: seq<string>, i: nat, offset: nat, prose: seq<string>, proseStart: nat)
    : seq<Segment>
    requires i <= |lines|
  {
    if prose == [] then SegmentsFrom(r, lines, i, offset)
    else
      var n := ProseEnd(r, lines, i);
      [ProseSegment(Concat(prose + lines[i..n]), proseStart)]
        + SegmentsFrom(r, lines, n, offset + |Concat(lines[i..n])|)
  }

  /** `out` and what is still to come are `all` segments of the text. */
  ghost predicate Leaves(
    r: LineRules, lines: seq<string>, i: nat, offset: nat, prose: seq<string>, proseStart: nat, out: seq<Segment>,
    all: seq<Segment>)
  {
    i <= |lines| && out + Rest(r, lines, i, offset, prose, proseStart) == all
  }

  lemma FlushLeaves(
    r: LineRules, lines: seq<string>, i: nat, offset: nat, prose: seq<string>, proseStart: nat, out: seq<Segment>,
    all: seq<Segment>)
    requires Leaves(r, lines, i, offset, prose, proseStart, out, all) && (i < |lines| ==> StartsBlock(r, lines, i))
    ensures Leaves(r, lines, i, offset, [], proseStart, Flushed(prose, proseStart, out), all)
  {
    if prose != [] {
      assert ProseEnd(r, lines, i) == i;
      assert prose + lines[i..i] == prose && lines[i..i] == [];
    }
  }

  lemma LeavesAtStart(r: LineRules, lines: seq<string>)
    ensures Leaves(r, lines, 0, 0, [], 0, [], SegmentsFrom(r, lines, 0, 0))
  {
  }

  lemma LeavesAtEnd(
    r: LineRules, lines: seq<string>, offset: nat, prose: seq<string>, proseStart: nat, out: seq<Segment>,
    all: seq<Segment>)
    requires Leaves(r, lines, |lines|, offset, prose, proseStart, out, all)
    ensures Flushed(prose, proseStart, out) == all
  {
    FlushLeaves(r, lines, |lines|, offset, prose, proseStart, out, all);
  }

  lemma BlockLeaves(
    r: LineRules, lines: seq<string>, i: nat, offset: nat, prose: seq<string>, proseStart: nat, out: seq<Segment>,
    block: Segment, n: nat, flushed: seq<Segment>, all: seq<Segment>)
    requires Leaves(r, lines, i, offset, prose, proseStart, out, all) && i < |lines| && StartsBlock(r, lines, i)
    requires block == BlockSegment(r, lines, i, offset) && n == AfterBlock(r, lines, i)
    requires flushed == Flushed(prose, proseStart, out)
    ensures i < n <= |lines| && Leaves(r, lines, n, offset + |block.text|, [], proseStart, flushed + [block], all)
  {
    FlushLeaves(r, lines, i, offset, prose, proseStart, out, all);
  }

  lemma ConcatSlice(lines: seq<string>, i: nat, n: nat)
    requires i < n <= |lines|
    ensures lines[i..n] == [lines[i]] + lines[i + 1..n]
    ensures Concat(lines[i..n]) == lines[i] + Concat(lines[i + 1..n])
  {
    assert lines[i..n] == [lines[i]] + lines[i + 1..n];
    assert lines[i..n][1..] == lines[i + 1..n];
  }

  lemma ProseBegins(r: LineRules, lines: seq<string>, i: nat, offset: nat, proseStart: nat)
    requires i < |lines| && !StartsBlock(r, lines, i)
    ensures Rest(r, lines, i, offset, [], proseStart)
         == Rest(r, lines, i + 1, offset + |lines[i]|, [lines[i]], offset)
  {
    ConcatSlice(lines, i, ProseEnd(r, lines, i + 1));
  }

  lemma ProseGrows(r: LineRules, lines: seq<string>, i: nat, offset: nat, prose: seq<string>, proseStart: nat)
    requires i < |lines| && !StartsBlock(r, lines, i) && prose != []
    ensures Rest(r, lines, i, offset, prose, proseStart)
         == Rest(r, lines, i + 1, offset + |lines[i]|, prose + [lines[i]], proseStart)
  {
    var n := ProseEnd(r, lines, i + 1);
    ConcatSlice(lines, i, n);
    assert prose + ([lines[i]] + lines[i + 1..n]) == prose + [lines[i]] + lines[i + 1..n];
  }

  lemma ProseLeaves(
    r: LineRules, lines: seq<string>, i: nat, offset: nat, prose: seq<string>, proseStart: nat, out: seq<Segment>,
    all: seq<Segment>)
    requires Leaves(r, lines, i, offset, prose, proseStart, out, all) && i < |lines| && !StartsBlock(r, lines, i)
    ensures Leaves(r, lines, i + 1, offset + |lines[i]|, prose + [lines[i]],
                   if prose == [] then offset else proseStart, out, all)
  {
    if prose == [] {
      ProseBegins(r, lines, i, offset, proseStart);
      assert prose + [lines[i]] == [lines[i]];
    } else {
      ProseGrows(r, lines, i, offset, prose, proseStart);
    }
  }

  /** `segment`. */
  method SegmentText(r: LineRules, text: string) returns (out: seq<Segment>)
    ensures out == SegmentsFrom(r, Lines(text), 0, 0)
  {
    LeavesAtStart(r, Lines(text));
    out := SegmentLines(r, Lines(text), SegmentsFrom(r, Lines(text), 0, 0));
  }

  /** The scan over the lines: `all` are the segments it is to leave. */
  method SegmentLines(r: LineRules, lines: seq<string>, ghost all: seq<Segment>) returns (out: seq<Segment>)
    requires Leaves(r, lines, 0, 0, [], 0, [], all)
    ensures out == all
  {
    out := [];
    var prose: seq<string> := [];
    var proseStart: nat, offset: nat, i: nat := 0, 0, 0;
    while i < |lines|
      invariant i <= |lines| && Leaves(r, lines, i, offset, prose, proseStart, out, all)
      decreases |lines| - i
    {
      if StartsBlock(r, lines, i) {
        var segment, n := MakeBlock(r, lines, i, offset);
        var flushed := Flushed(prose, proseStart, out);
        BlockLeaves(r, lines, i, offset, prose, proseStart, out, segment, n, flushed, all);
        out, prose := flushed + [segment], [];
        offset := offset + |segment.text|;
        i := n;
        continue;
      }
      ProseLeaves(r, lines, i, offset, prose, proseStart, out, all);
      if prose == [] {
        proseStart := offset;
      }
      prose := prose + [lines[i]];
      offset := offset + |lines[i]|;
      i := i + 1;
    }
    LeavesAtEnd(r, lines, offset, prose, proseStart, out, all);
    out := Flushed(prose, proseStart, out);
  }

  /** One block: code or math where its opening says so, otherwise a table read row by row. */
  method MakeBlock(r: LineRules, lines: seq<string>, i: nat, offset: nat) returns (segment: Segment, n: nat)
    requires i < |lines| && StartsBlock(r, lines, i)
    ensures segment == BlockSegment(r, lines, i, offset) && n == AfterBlock(r, lines, i)
  {
    if r.opening(lines[i]).Some? {
      var block := BlockEnd(r, lines, i);
      n := block.end + 1;
      var closer := if block.closed && block.end > i then Some(Chomp(lines[block.end])) else None;
      return Segment(block.kind, Concat(lines[i..n]), offset, Some(Chomp(lines[i])), closer, None), n;
    }
    var j := i;
    while j < |lines| && r.isRow(lines[j])
      invariant i <= j <= |lines|
      invariant TableEnd(r, lines, i) == TableEnd(r, lines, j)
    {
      j := j + 1;
    }
    var header := Chomp(lines[i]);
    if r.isSeparator(lines[i + 1]) {
      header := header + "\n" + Chomp(lines[i + 1]);
    }
    return Segment(Table, Concat(lines[i..j]), offset, None, None, Some(header)), j;
  }

  // ---- What segmentation guarantees -----------------------------------------------------

  function Texts(segments: seq<Segment>): seq<string> {
    seq(|segments|, i requires 0 <= i < |segments| => segments[i].text)
  }

  /** Each segment starts where the ones before it end, from `offset` on. */
  ghost predicate Contiguous(segments: seq<Segment>, offset: nat)
    decreases |segments|
  {
    segments == [] || (segments[0].start == offset && Contiguous(segments[1..], offset + |segments[0].text|))
  }

  lemma SegmentTextOf(r: LineRules, lines: seq<string>, i: nat, offset: nat)
    requires i < |lines|
    ensures SegmentAt(r, lines, i, offset).text == Concat(lines[i..SegmentEnd(r, lines, i)])
    ensures SegmentAt(r, lines, i, offset).start == offset
  {
  }

  lemma ConcatFrom(lines: seq<string>, i: nat, n: nat)
    requires i <= n <= |lines|
    ensures Concat(lines[i..]) == Concat(lines[i..n]) + Concat(lines[n..])
  {
    assert lines[i..] == lines[i..n] + lines[n..];
    ConcatJoin(lines[i..n], lines[n..]);
  }

  lemma {:induction false} SegmentsCover(r: LineRules, lines: seq<string>, i: nat, offset: nat)
    requires i <= |lines|
    ensures Concat(Texts(SegmentsFrom(r, lines, i, offset))) == Concat(lines[i..])
    ensures Contiguous(SegmentsFrom(r, lines, i, offset), offset)
    decreases |lines| - i
  {
    if i < |lines| {
      var n := SegmentEnd(r, lines, i);
      var later := offset + |Concat(lines[i..n])|;
      SegmentsCover(r, lines, n, later);
      ConcatFrom(lines, i, n);
      SegmentTextOf(r, lines, i, offset);
      CoverCons(SegmentAt(r, lines, i, offset), SegmentsFrom(r, lines, n, later), offset);
    }
  }

  lemma CoverCons(first: Segment, rest: seq<Segment>, offset: nat)
    requires first.start == offset && Contiguous(rest, offset + |first.text|)
    ensures Concat(Texts([first] + rest)) == first.text + Concat(Texts(rest))
    ensures Contiguous([first] + rest, offset)
  {
    assert ([first] + rest)[1..] == rest;
    assert Texts([first] + rest)[1..] == Texts(rest);
  }

  /** The segments concatenate back to the text, each at its own offset. */
  lemma SegmentsRestoreText(r: LineRules, text: string)
    ensures Concat(Texts(SegmentsFrom(r, Lines(text), 0, 0))) == text
    ensures Contiguous(SegmentsFrom(r, Lines(text), 0, 0), 0)
  {
    SegmentsCover(r, Lines(text), 0, 0);
    assert Lines(text)[0..] == Lines(text);
  }

  lemma {:induction false} RowsUpTo(r: LineRules, lines: seq<string>, j: nat)
    requires j <= |lines|
    ensures var n := TableEnd(r, lines, j); (n < |lines| ==> !r.isRow(lines[n])) && forall k :: j <= k < n ==> r.isRow(lines[k])
    decreases |lines| - j
  {
    if j < |lines| && r.isRow(lines[j]) {
      RowsUpTo(r, lines, j + 1);
    }
  }

  /**
    A table begins where two rows follow each other and nothing else is opened, and takes all the
    rows there are; its header is its first line, with the separator if that is its second.
   */
  lemma TableTakesRows(r: LineRules, lines: seq<string>, i: nat, offset: nat)
    requires i < |lines| && r.opening(lines[i]).None?
    ensures StartsBlock(r, lines, i) <==> i + 1 < |lines| && r.isRow(lines[i]) && r.isRow(lines[i + 1])
    ensures StartsBlock(r, lines, i) ==>
      var n, seg := AfterBlock(r, lines, i), BlockSegment(r, lines, i, offset);
      && i + 2 <= n <= |lines| && (forall k :: i <= k < n ==> r.isRow(lines[k])) && (n < |lines| ==> !r.isRow(lines[n]))
      && seg.kind.Table? && seg.text == Concat(lines[i..n]) && seg.open.None? && seg.close.None?
      && seg.header == Some(Chomp(lines[i]) + if r.isSeparator(lines[i + 1]) then "\n" + Chomp(lines[i + 1]) else "")
  {
    RowsUpTo(r, lines, i);
    if StartsBlock(r, lines, i) {
      var first, second := Chomp(lines[i]), Chomp(lines[i + 1]);
      assert first + "" == first && first + "\n" + second == first + ("\n" + second);
    }
  }

  /**
    An opened block is of the kind its first line opens, holds its lines up to the one that ends
    it, and is told by its first line and by its last if that one closes it.
   */
  lemma BlockTakesLines(r: LineRules, lines: seq<string>, i: nat, offset: nat)
    requires i < |lines| && r.opening(lines[i]).Some?
    ensures StartsBlock(r, lines, i)
    ensures var b, seg := BlockEnd(r, lines, i), BlockSegment(r, lines, i, offset);
            && seg.kind == r.opening(lines[i]).value.kind && seg.start == offset
            && seg.text == Concat(lines[i..b.end + 1]) && SegmentEnd(r, lines, i) == b.end + 1
            && seg.open == Some(Chomp(lines[i])) && seg.header.None?
            && seg.close == if b.closed && b.end > i then Some(Chomp(lines[b.end])) else None
  {
  }

  /**
    An opened block ends at the first line that closes it, whatever else
    the lines in between might open, or at the end of the text when none does.
   */
  lemma BlockClosesFirst(r: LineRules, lines: seq<string>, i: nat)
    requires i < |lines| && r.opening(lines[i]).Some?
    ensures var b, opening := BlockEnd(r, lines, i), r.opening(lines[i]).value;
            && (b.closed <==> opening.closedHere || exists k :: i < k < |lines| && r.closes(opening, lines[k]))
            && (!b.closed ==> b.end == |lines| - 1)
            && (b.closed && !opening.closedHere ==> i < b.end && r.closes(opening, lines[b.end]))
            && (forall k :: i < k < b.end ==> !r.closes(opening, lines[k]))
  {
    FirstClosingIsFirst(r, r.opening(lines[i]).value, lines, i + 1);
  }
}

/** Blocks carry their own frame: what the chunker later repeats is really in the text. */
module SegmentFrames {
  import opened Text
  import opened Wrappers
  import opened Segments
  import opened Structure

  lemma ChompLine(line: string)
    requires IsLine(line) && !OnlyNewlines(line)
    ensures Chomp(line) != "" && NoNewline(Chomp(line))
    ensures line == Chomp(line) || line == Chomp(line) + "\n"
    ensures line[|line| - 1] == '\n' ==> line == Chomp(line) + "\n"
  {
    var c := Chomp(line);
    if |c| < |line| {
      assert line[|c|] == '\n';
      assert |c| == |line| - 1;
      assert line == c + [line[|c|]];
    }
  }

  /** Stripping a text's surrounding newlines keeps its first lines. */
  lemma StripKeeps(body: string, p: string)
    requires LeadsLines(body, p) && p[0] != '\n' && p[|p| - 1] != '\n'
    ensures LeadsLines(StripNewlines(body), p) && StripNewlines(body) <= body
  {
    assert body[0] == p[0];
    assert LeadCount(body, IsNewline) == 0;
    assert body[0..] == body;
    var t := StripNewlines(body);
    assert body[|p| - 1] == p[|p| - 1];
    assert |p| <= |t|;
  }

  /** Stripping takes only the newline after the last line. */
  lemma StripEnds(body: string, x: string, c: string)
    requires x != "" && x[0] != '\n' && x[|x| - 1] == '\n' && c != "" && NoNewline(c)
    requires body == x + c || body == x + c + "\n"
    ensures EndsLines(StripNewlines(body), c)
  {
    assert body[0] == x[0];
    assert LeadCount(body, IsNewline) == 0;
    assert body[0..] == body;
    var t := StripNewlines(body);
    assert body[|x| + |c| - 1] == c[|c| - 1];
    assert |t| == |x| + |c|;
    assert t == x + c;
  }

  /** The text of two or more lines begins with the first of them. */
  lemma FirstLineLeads(lines: seq<string>, i: nat, n: nat)
    requires i < n <= |lines| && IsLine(lines[i]) && !OnlyNewlines(lines[i])
    requires i + 1 < n ==> lines[i][|lines[i]| - 1] == '\n'
    ensures LeadsLines(Concat(lines[i..n]), Chomp(lines[i]))
    ensures NoNewline(Chomp(lines[i]))
  {
    ChompLine(lines[i]);
    ConcatSlice(lines, i, n);
    if i + 1 == n {
      assert lines[i + 1..n] == [];
    }
  }

  lemma OpenFrames(lines: seq<string>, i: nat, n: nat, body: string, text: string)
    requires i < n <= |lines| && IsLine(lines[i]) && !OnlyNewlines(lines[i])
    requires i + 1 < n ==> lines[i][|lines[i]| - 1] == '\n'
    requires body == Concat(lines[i..n]) && text == StripNewlines(body)
    ensures NoNewline(Chomp(lines[i])) && LeadsLines(text, Chomp(lines[i])) && text <= body
  {
    FirstLineLeads(lines, i, n);
    StripKeeps(Concat(lines[i..n]), Chomp(lines[i]));
  }

  lemma CloseFrames(lines: seq<string>, i: nat, n: nat, body: string, text: string)
    requires i + 1 < n <= |lines|
    requires IsLine(lines[i]) && !OnlyNewlines(lines[i]) && IsLine(lines[n - 1]) && !OnlyNewlines(lines[n - 1])
    requires forall k :: i <= k < n - 1 ==> lines[k] != "" && lines[k][|lines[k]| - 1] == '\n'
    requires body == Concat(lines[i..n]) && text == StripNewlines(body)
    ensures EndsLines(text, Chomp(lines[n - 1]))
  {
    ChompLine(lines[i]);
    ChompLine(lines[n - 1]);
    LastOfMany(lines, i, n);
    ConcatSlice(lines, i, n - 1);
    assert lines[i][0] == Chomp(lines[i])[0];
    StripEnds(Concat(lines[i..n]), Concat(lines[i..n - 1]), Chomp(lines[n - 1]));
  }

  lemma {:induction false} EndsInNewline(lines: seq<string>, i: nat, n: nat)
    requires i < n <= |lines| && forall k :: i <= k < n ==> lines[k] != "" && lines[k][|lines[k]| - 1] == '\n'
    ensures Concat(lines[i..n]) != "" && Concat(lines[i..n])[|Concat(lines[i..n])| - 1] == '\n'
    decreases n - i
  {
    ConcatSlice(lines, i, n);
    if i + 1 < n {
      EndsInNewline(lines, i + 1, n);
    } else {
      assert lines[i + 1..n] == [];
    }
  }

  lemma LastOfMany(lines: seq<string>, i: nat, n: nat)
    requires i + 1 < n <= |lines|
    requires forall k :: i <= k < n - 1 ==> lines[k] != "" && lines[k][|lines[k]| - 1] == '\n'
    ensures Concat(lines[i..n]) == Concat(lines[i..n - 1]) + lines[n - 1]
    ensures Concat(lines[i..n - 1]) != "" && Concat(lines[i..n - 1])[|Concat(lines[i..n - 1])| - 1] == '\n'
  {
    assert lines[i..n] == lines[i..n - 1] + [lines[n - 1]];
    ConcatJoin(lines[i..n - 1], [lines[n - 1]]);
    ConcatOne(lines[n - 1]);
    EndsInNewline(lines, i, n - 1);
  }

  lemma TwoRowsFrame(lines: seq<string>, i: nat, n: nat, text: string)
    requires i + 1 < n <= |lines|
    requires IsLine(lines[i]) && !OnlyNewlines(lines[i]) && lines[i][|lines[i]| - 1] == '\n'
    requires IsLine(lines[i + 1]) && !OnlyNewlines(lines[i + 1])
    requires i + 2 < n ==> lines[i + 1][|lines[i + 1]| - 1] == '\n'
    requires text == StripNewlines(Concat(lines[i..n]))
    ensures var header := Chomp(lines[i]) + "\n" + Chomp(lines[i + 1]);
            OneOrTwoLines(header) && LeadsLines(text, header)
  {
    ChompLine(lines[i]);
    ChompLine(lines[i + 1]);
    FirstLineLeads(lines, i + 1, n);
    ConcatSlice(lines, i, n);
    TwoLinesLead(Chomp(lines[i]), Chomp(lines[i + 1]), Concat(lines[i + 1..n]), text);
  }

  lemma TwoLinesLead(a: string, b: string, rest: string, text: string)
    requires a != "" && NoNewline(a) && NoNewline(b) && LeadsLines(rest, b)
    requires text == StripNewlines(a + "\n" + rest)
    ensures OneOrTwoLines(a + "\n" + b) && LeadsLines(text, a + "\n" + b)
  {
    var header := a + "\n" + b;
    assert header[|a|] == '\n' && header[..|a|] == a && header[|a| + 1..] == b;
    assert BreaksAt(header, |a|);
    assert rest == b + rest[|b|..];
    assert a + "\n" + rest == header + rest[|b|..];
    StripKeeps(a + "\n" + rest, header);
  }

  /** Every block `segment` finds is framed by its own lines. */
  lemma BlocksAreFramed(r: LineRules, text: string, i: nat, offset: nat)
    requires BlankIsProse(r) && i < |Lines(text)| && StartsBlock(r, Lines(text), i)
    ensures var seg := BlockSegment(r, Lines(text), i, offset); Framed(seg, StripNewlines(seg.text))
  {
    LinesAreLines(text);
    if r.opening(Lines(text)[i]).Some? {
      OpenedIsFramed(r, Lines(text), i, offset);
    } else {
      TableIsFramed(r, Lines(text), i, offset);
    }
  }

  ghost predicate AreLines(lines: seq<string>) {
    && (forall i :: 0 <= i < |lines| ==> IsLine(lines[i]))
    && forall i :: 0 <= i < |lines| - 1 ==> lines[i][|lines[i]| - 1] == '\n'
  }

  lemma OpenedIsFramed(r: LineRules, lines: seq<string>, i: nat, offset: nat)
    requires BlankIsProse(r) && AreLines(lines) && i < |lines| && r.opening(lines[i]).Some?
    ensures var seg := BlockSegment(r, lines, i, offset); Framed(seg, StripNewlines(seg.text))
  {
    var b := BlockEnd(r, lines, i);
    var closed := b.closed && b.end > i;
    if closed {
      ClosingIsText(r, lines, i);
    }
    OpeningFrames(BlockSegment(r, lines, i, offset), lines, i, b.end, closed);
  }

  lemma ClosingIsText(r: LineRules, lines: seq<string>, i: nat)
    requires BlankIsProse(r) && i < |lines| && r.opening(lines[i]).Some?
    requires BlockEnd(r, lines, i).closed && BlockEnd(r, lines, i).end > i
    ensures !OnlyNewlines(lines[BlockEnd(r, lines, i).end])
  {
    BlockClosesFirst(r, lines, i);
  }

  lemma OpeningFrames(seg: Segment, lines: seq<string>, i: nat, end: nat, closed: bool)
    requires seg.kind in {Code, Math} && AreLines(lines) && i <= end < |lines| && !OnlyNewlines(lines[i])
    requires closed ==> i < end && !OnlyNewlines(lines[end])
    requires seg.text == Concat(lines[i..end + 1]) && seg.open == Some(Chomp(lines[i]))
    requires seg.close == (if closed then Some(Chomp(lines[end])) else None)
    ensures Framed(seg, StripNewlines(seg.text))
  {
    OpenFrames(lines, i, end + 1, seg.text, StripNewlines(seg.text));
    if closed {
      ClosedFrames(lines, i, end, seg.text, StripNewlines(seg.text));
    }
  }

  lemma ClosedFrames(lines: seq<string>, i: nat, end: nat, body: string, text: string)
    requires AreLines(lines) && i < end < |lines| && !OnlyNewlines(lines[i]) && !OnlyNewlines(lines[end])
    requires body == Concat(lines[i..end + 1]) && text == StripNewlines(body)
    ensures EndsLines(text, Chomp(lines[end]))
  {
    CloseFrames(lines, i, end + 1, body, text);
  }

  lemma TableIsFramed(r: LineRules, lines: seq<string>, i: nat, offset: nat)
    requires BlankIsProse(r) && AreLines(lines) && i < |lines| && r.opening(lines[i]).None? && StartsTable(r, lines, i)
    ensures var seg := BlockSegment(r, lines, i, offset); Framed(seg, StripNewlines(seg.text))
  {
    var n := TableEnd(r, lines, i);
    TableIsLong(r, lines, i);
    var body := Concat(lines[i..n]);
    OpenFrames(lines, i, n, body, StripNewlines(body));
    TwoRowsFrame(lines, i, n, StripNewlines(body));
  }

  lemma TableIsLong(r: LineRules, lines: seq<string>, i: nat)
    requires i < |lines| && StartsTable(r, lines, i)
    ensures TableEnd(r, lines, i) >= i + 2
  {
  }

  lemma StrippedStart(s: string)
    ensures StripNewlines(s) != "" ==> StripNewlines(s)[0] != '\n'
  {
    var t := TrimStart(s, IsNewline);
    if StripNewlines(s) != "" {
      assert StripNewlines(s)[0] == t[0] == s[LeadCount(s, IsNewline)];
    }
  }

  lemma SegmentIsOk(r: LineRules, text: string, i: nat, offset: nat)
    requires BlankIsProse(r) && i < |Lines(text)|
    ensures BlockOk(SegmentAt(r, Lines(text), i, offset))
  {
    if StartsBlock(r, Lines(text), i) {
      BlocksAreFramed(r, text, i, offset);
      StrippedStart(BlockSegment(r, Lines(text), i, offset).text);
    }
  }

  lemma OkCons(first: Segment, rest: seq<Segment>, all: seq<Segment>)
    requires BlockOk(first) && AllOk(rest) && all == [first] + rest
    ensures AllOk(all)
  {
  }

  ghost predicate StartsOk(r: LineRules, lines: seq<string>) {
    forall i: nat, offset: nat :: i < |lines| ==> BlockOk(SegmentAt(r, lines, i, offset))
  }

  lemma {:induction false} SegmentsAreOk(r: LineRules, lines: seq<string>, i: nat, offset: nat)
    requires StartsOk(r, lines) && i <= |lines|
    ensures AllOk(SegmentsFrom(r, lines, i, offset))
    decreases |lines| - i
  {
    if i < |lines| {
      var n := SegmentEnd(r, lines, i);
      var later := offset + |Concat(lines[i..n])|;
      SegmentsAreOk(r, lines, n, later);
      OkCons(SegmentAt(r, lines, i, offset), SegmentsFrom(r, lines, n, later), SegmentsFrom(r, lines, i, offset));
    }
  }

  /** Every segment of a text is prose or a framed block. */
  lemma TextSegmentsAreOk(r: LineRules, text: string)
    requires BlankIsProse(r)
    ensures AllOk(SegmentsFrom(r, Lines(text), 0, 0))
  {
    forall i: nat, offset: nat | i < |Lines(text)|
      ensures BlockOk(SegmentAt(r, Lines(text), i, offset))
    {
      SegmentIsOk(r, text, i, offset);
    }
    SegmentsAreOk(r, Lines(text), 0, 0);
  }
}
