/** What a block longer than a chunk repeats in each of its parts (`app/rag/chunking.py`, `_frame`). */
module BlockFrame {
  import opened Text
  import opened Wrappers
  import opened Segments

  /** A block taken apart: what stands around its lines in each part, and the lines themselves. */
  datatype Frame = Frame(head: string, tail: string, body: seq<string>)

  function CountNewlines(s: string): nat {
    if s == "" then 0 else (if s[0] == '\n' then 1 else 0) + CountNewlines(s[1..])
  }

  /** Python's `lines[k:]`. */
  function DropLines(lines: seq<string>, k: nat): seq<string> {
    if k <= |lines| then lines[k..] else []
  }

  /** `_frame`. */
  function FrameOf(seg: Segment, text: string): Frame {
    var lines := Split(text);
    if seg.kind.Table? && seg.header.Some? && seg.header.value != "" then
      Frame(seg.header.value + "\n", "", DropLines(lines, CountNewlines(seg.header.value) + 1))
    else if (seg.kind.Code? || seg.kind.Math?) && seg.open.Some? && |lines| >= 2 then
      if seg.close.Some? then
        Frame(seg.open.value + "\n", "\n" + seg.close.value, lines[1..|lines| - 1])
      else
        Frame(seg.open.value + "\n", "", lines[1..])
    else
      Frame("", "", lines)
  }

  // ---- Where the lines of a text are ----------------------------------------------------

  /** Where line `k` starts, when one newline ends each line before it. */
  function LineStart(lines: seq<string>, k: nat): nat
    requires k <= |lines|
  {
    if k == 0 then 0 else LineStart(lines, k - 1) + |lines[k - 1]| + 1
  }

  lemma {:induction false} LineStartCons(first: string, rest: seq<string>, k: nat)
    requires k <= |rest|
    ensures LineStart([first] + rest, k + 1) == |first| + 1 + LineStart(rest, k)
    decreases k
  {
    if k > 0 {
      LineStartCons(first, rest, k - 1);
    }
  }

  /** `line` stands in the text at `lo`, up to a newline or, as the last one, the end of the text. */
  ghost predicate LineStands(text: string, lo: nat, line: string, last: bool) {
    && NoNewline(line) && Stands(text, lo, line)
    && if last then lo + |line| == |text| else lo + |line| < |text| && text[lo + |line|] == '\n'
  }

  lemma HeadLineAt(text: string)
    ensures LineStands(text, 0, Split(text)[0], |Split(text)| == 1)
  {
    var n := LeadCount(text, NotNewline);
    assert text[0..n] == text[..n];
    if n == |text| {
      assert text[..n] == text;
    }
  }

  /** Line `k` stands in the text where `LineStart` says. */
  lemma {:induction false} LineAt(text: string, k: nat)
    requires k < |Split(text)|
    ensures LineStands(text, LineStart(Split(text), k), Split(text)[k], k + 1 == |Split(text)|)
    decreases |text|
  {
    if k == 0 {
      HeadLineAt(text);
    } else {
      var n := LeadCount(text, NotNewline);
      var rest := text[n + 1..];
      LineAt(rest, k - 1);
      TailLineAt(text, k, n, Split(rest));
    }
  }

  lemma TailLineAt(text: string, k: nat, n: nat, after: seq<string>)
    requires n < |text| && 0 < k <= |after|
    requires LineStands(text[n + 1..], LineStart(after, k - 1), after[k - 1], k == |after|)
    ensures var lines := [text[..n]] + after; LineStands(text, LineStart(lines, k), lines[k], k + 1 == |lines|)
  {
    var lines, at := [text[..n]] + after, LineStart(after, k - 1);
    LineStartCons(text[..n], after, k - 1);
    StandsLater(text, n + 1, at, after[k - 1], k == |after|);
    assert LineStart(lines, k) == n + 1 + at && lines[k] == after[k - 1] && |lines| == |after| + 1;
  }

  lemma StandsLater(text: string, n: nat, lo: nat, s: string, last: bool)
    requires n <= |text| && LineStands(text[n..], lo, s, last)
    ensures LineStands(text, n + lo, s, last)
  {
    assert text[n..][lo..lo + |s|] == text[n + lo..n + lo + |s|];
  }

  ghost predicate Unbroken(text: string, lo: int, hi: int) {
    forall i :: lo <= i < hi && 0 <= i < |text| ==> text[i] != '\n'
  }

  lemma StandsUnbroken(text: string, lo: int, s: string)
    requires Stands(text, lo, s) && NoNewline(s)
    ensures Unbroken(text, lo, lo + |s|)
  {
    forall i | lo <= i < lo + |s|
      ensures text[i] != '\n'
    {
      assert s[i - lo] == text[lo + (i - lo)];
    }
  }

  lemma SameStretch(text: string, lo: int, a: string, b: string)
    requires Stands(text, lo, a) && Stands(text, lo, b) && |a| == |b|
    ensures a == b
  {
  }

  /** Two whole lines that start at the same place are the same line. */
  lemma SameLine(text: string, lo: nat, a: string, b: string)
    requires Stands(text, lo, a) && NoNewline(a) && (lo + |a| < |text| ==> text[lo + |a|] == '\n')
    requires Stands(text, lo, b) && NoNewline(b) && (lo + |b| < |text| ==> text[lo + |b|] == '\n')
    ensures a == b
  {
    StandsUnbroken(text, lo, a);
    StandsUnbroken(text, lo, b);
    SameStretch(text, lo, a, b);
  }

  /** Two whole lines that end at the same place are the same line. */
  lemma SameEnding(text: string, hi: nat, a: string, b: string)
    requires |a| < hi && Stands(text, hi - |a|, a) && NoNewline(a) && text[hi - |a| - 1] == '\n'
    requires |b| < hi && Stands(text, hi - |b|, b) && NoNewline(b) && text[hi - |b| - 1] == '\n'
    ensures a == b
  {
    StandsUnbroken(text, hi - |a|, a);
    StandsUnbroken(text, hi - |b|, b);
    SameStretch(text, hi - |a|, a, b);
  }

  // ---- The frame stands around the body -------------------------------------------------

  /** What leads the text and holds no newline is its first line. */
  lemma FirstLine(text: string, open: string)
    requires NoNewline(open) && LeadsLines(text, open)
    ensures Split(text)[0] == open && LineStart(Split(text), 1) == |open| + 1
    ensures |Split(text)| >= 2 ==> |open| < |text|
  {
    LineAt(text, 0);
    assert text[0..|open|] == open;
    SameLine(text, 0, Split(text)[0], open);
  }

  lemma SecondLine(text: string, a: string, b: string)
    requires a != "" && NoNewline(a) && NoNewline(b) && LeadsLines(text, a + "\n" + b)
    ensures |Split(text)| >= 2 && LineStart(Split(text), 2) == |a| + 1 + |b| + 1
    ensures |Split(text)| > 2 <==> |a| + 1 + |b| < |text|
  {
    LeadsFirst(text, a, b);
    FirstLine(text, a);
    LineAt(text, 0);
    LineAt(text, 1);
    SameLine(text, |a| + 1, Split(text)[1], b);
  }

  lemma LeadsFirst(text: string, a: string, b: string)
    requires LeadsLines(text, a + "\n" + b) && a != ""
    ensures LeadsLines(text, a) && |a| < |text|
    ensures Stands(text, |a| + 1, b) && (|a| + 1 + |b| < |text| ==> text[|a| + 1 + |b|] == '\n')
  {
    var header := a + "\n" + b;
    assert header[|a|] == '\n' == text[|a|];
    assert a <= header;
    assert text[..|header|] == header;
    assert header[|a| + 1..] == b;
    assert text[|a| + 1..|header|] == text[..|header|][|a| + 1..];
  }

  /** A text's closing line is its last. */
  lemma ClosingLine(text: string, close: string)
    requires EndsLines(text, close) && |Split(text)| >= 2
    ensures LineStart(Split(text), |Split(text)| - 1) == |text| - |close|
  {
    var last := |Split(text)| - 1;
    LineAt(text, last);
    LineAt(text, last - 1);
    LastLineStart(text, Split(text), last, close);
  }

  lemma LastLineStart(text: string, lines: seq<string>, last: nat, close: string)
    requires EndsLines(text, close) && 0 < last < |lines|
    requires LineStands(text, LineStart(lines, last), lines[last], true)
    requires LineStands(text, LineStart(lines, last - 1), lines[last - 1], false)
    ensures LineStart(lines, last) == |text| - |close|
  {
    EndStands(text, close);
    SameEnding(text, |text|, lines[last], close);
  }

  lemma EndStands(text: string, close: string)
    requires EndsLines(text, close)
    ensures Stands(text, |text| - |close|, close)
  {
    assert text[|text| - |close|..|text|] == text[|text| - |close|..];
  }

  lemma {:induction false} LineStartGrows(lines: seq<string>, j: nat, k: nat)
    requires j <= k <= |lines|
    ensures LineStart(lines, k) >= LineStart(lines, j) + (k - j)
    decreases k
  {
    if j < k {
      LineStartGrows(lines, j, k - 1);
    }
  }

  lemma TextLength(text: string)
    ensures LineStart(Split(text), |Split(text)|) == |text| + 1
  {
    LineAt(text, |Split(text)| - 1);
  }

  /** The frame stands at the two ends of the text, and its body is lines `k` to `m` between them. */
  ghost predicate FitsLines(text: string, f: Frame, k: nat, m: nat) {
    && k < m <= |Split(text)|
    && f.body == Split(text)[k..m]
    && |f.head| == LineStart(Split(text), k) && Stands(text, 0, f.head)
    && |text| - |f.tail| == LineStart(Split(text), m) - 1 && Stands(text, |text| - |f.tail|, f.tail)
  }

  /** Line `j` of a body stands where the ones before it leave off, up to a newline or the end of the body. */
  ghost predicate BodyLine(text: string, lo: nat, hi: nat, body: seq<string>, j: nat)
    requires j < |body|
  {
    var at := lo + LineStart(body, j);
    && Stands(text, at, body[j])
    && if j + 1 == |body| then at + |body[j]| == hi else at + |body[j]| < |text| && text[at + |body[j]|] == '\n'
  }

  ghost predicate BodyStands(text: string, lo: nat, hi: nat, body: seq<string>) {
    forall j :: 0 <= j < |body| ==> BodyLine(text, lo, hi, body, j)
  }

  /** The frame stands at the two ends of the text, and the lines of its body fill what lies between. */
  ghost predicate Fits(text: string, f: Frame) {
    && f.body != [] && |f.head| + |f.tail| <= |text|
    && Stands(text, 0, f.head) && Stands(text, |text| - |f.tail|, f.tail)
    && BodyStands(text, |f.head|, |text| - |f.tail|, f.body)
  }

  lemma {:induction false} LineStartShift(lines: seq<string>, k: nat, m: nat, j: nat)
    requires k + j <= m <= |lines|
    ensures LineStart(lines, k) + LineStart(lines[k..m], j) == LineStart(lines, k + j)
    decreases j
  {
    if j > 0 {
      LineStartShift(lines, k, m, j - 1);
      assert lines[k..m][j - 1] == lines[k + (j - 1)];
    }
  }

  lemma BodyLineOf(text: string, lines: seq<string>, k: nat, m: nat, j: nat)
    requires k + j < m <= |lines|
    requires LineStands(text, LineStart(lines, k + j), lines[k + j], k + j + 1 == |lines|)
    ensures LineStart(lines, m) >= 1 && BodyLine(text, LineStart(lines, k), LineStart(lines, m) - 1, lines[k..m], j)
  {
    LineStartShift(lines, k, m, j);
    LineStartGrows(lines, k + j, m);
  }

  lemma SplitBodyLine(text: string, k: nat, m: nat, j: nat)
    requires k + j < m <= |Split(text)|
    ensures LineStart(Split(text), m) >= 1
    ensures BodyLine(text, LineStart(Split(text), k), LineStart(Split(text), m) - 1, Split(text)[k..m], j)
  {
    LineAt(text, k + j);
    BodyLineOf(text, Split(text), k, m, j);
  }

  lemma LinesFit(text: string, f: Frame, k: nat, m: nat)
    requires FitsLines(text, f, k, m)
    ensures Fits(text, f)
  {
    LineStartGrows(Split(text), k, m);
    var lo, hi := |f.head|, |text| - |f.tail|;
    forall j | 0 <= j < |f.body|
      ensures BodyLine(text, lo, hi, f.body, j)
    {
      SplitBodyLine(text, k, m, j);
    }
  }

  lemma WholeFits(text: string)
    ensures FitsLines(text, Frame("", "", Split(text)), 0, |Split(text)|)
  {
    TextLength(text);
    assert Split(text)[0..|Split(text)|] == Split(text);
    assert text[0..0] == "" && text[|text|..|text|] == "";
  }

  lemma HeadStands(text: string, open: string)
    requires LeadsLines(text, open) && |open| < |text|
    ensures Stands(text, 0, open + "\n")
  {
    assert text[0..|open| + 1] == open + [text[|open|]];
  }

  lemma TailStands(text: string, close: string)
    requires EndsLines(text, close)
    ensures Stands(text, |text| - |close| - 1, "\n" + close)
  {
    var at := |text| - |close| - 1;
    assert text[at..|text|] == [text[at]] + text[at + 1..];
  }

  lemma OpenFits(text: string, open: string)
    requires NoNewline(open) && LeadsLines(text, open) && |Split(text)| >= 2
    ensures FitsLines(text, Frame(open + "\n", "", Split(text)[1..]), 1, |Split(text)|)
  {
    FirstLine(text, open);
    HeadStands(text, open);
    TextLength(text);
    assert text[|text|..|text|] == "";
    assert Split(text)[1..] == Split(text)[1..|Split(text)|];
  }

  lemma OpenCloseFits(text: string, open: string, close: string)
    requires NoNewline(open) && LeadsLines(text, open) && |Split(text)| > 2 && EndsLines(text, close)
    ensures FitsLines(text, Frame(open + "\n", "\n" + close, Split(text)[1..|Split(text)| - 1]), 1, |Split(text)| - 1)
  {
    FirstLine(text, open);
    HeadStands(text, open);
    ClosingLine(text, close);
    TailStands(text, close);
  }

  lemma OpenCloseAlone(text: string, open: string, close: string)
    requires NoNewline(open) && LeadsLines(text, open) && |Split(text)| == 2 && EndsLines(text, close)
    ensures |text| < |open| + |close| + 2
  {
    FirstLine(text, open);
    ClosingLine(text, close);
  }

  lemma {:induction false} CountZero(s: string)
    requires NoNewline(s)
    ensures CountNewlines(s) == 0
    decreases |s|
  {
    if s != "" {
      CountZero(s[1..]);
    }
  }

  lemma {:induction false} CountOne(s: string, n: nat)
    requires BreaksAt(s, n)
    ensures CountNewlines(s) == 1
    decreases |s|
  {
    if n == 0 {
      CountZero(s[1..]);
    } else {
      assert s[1..][..n - 1] == s[..n][1..];
      assert s[1..][n..] == s[n + 1..];
      assert s[..n][0] == s[0];
      CountOne(s[1..], n - 1);
    }
  }

  /** A header takes as many lines as `_frame` drops for it. */
  lemma HeaderLines(text: string, header: string)
    requires LeadsLines(text, header) && OneOrTwoLines(header) && header[0] != '\n'
    ensures var k := CountNewlines(header) + 1;
            && k <= |Split(text)| && LineStart(Split(text), k) == |header| + 1
            && (k < |Split(text)| <==> |header| < |text|)
  {
    if NoNewline(header) {
      CountZero(header);
      FirstLine(text, header);
      LineAt(text, 0);
    } else {
      var n: nat :| BreaksAt(header, n);
      CountOne(header, n);
      BrokenAt(header, n);
      SecondLine(text, header[..n], header[n + 1..]);
    }
  }

  lemma HeaderFits(text: string, header: string, k: nat)
    requires LeadsLines(text, header) && k < |Split(text)| && LineStart(Split(text), k) == |header| + 1 && |header| < |text|
    ensures FitsLines(text, Frame(header + "\n", "", Split(text)[k..]), k, |Split(text)|)
  {
    HeadStands(text, header);
    TextLength(text);
    assert text[|text|..|text|] == "";
    assert Split(text)[k..] == Split(text)[k..|Split(text)|];
  }

  /** The frame around the block leaves the block's own lines between, or else it is longer than the block. */
  ghost predicate FitsOrOverflows(text: string, f: Frame) {
    if f.body == [] then |f.head| + |f.tail| > |text| else Fits(text, f)
  }

  lemma TableFits(seg: Segment, text: string)
    requires Framed(seg, text) && seg.kind.Table? && seg.header.value[0] != '\n'
    ensures FitsOrOverflows(text, FrameOf(seg, text))
  {
    var header := seg.header.value;
    var k := CountNewlines(header) + 1;
    HeaderLines(text, header);
    if k < |Split(text)| {
      HeaderFits(text, header, k);
      LinesFit(text, FrameOf(seg, text), k, |Split(text)|);
    }
  }

  lemma OpenedFits(seg: Segment, text: string)
    requires Framed(seg, text) && (seg.kind.Code? || seg.kind.Math?) && |Split(text)| >= 2
    ensures FitsOrOverflows(text, FrameOf(seg, text))
  {
    var n := |Split(text)|;
    if seg.close.None? {
      OpenFits(text, seg.open.value);
      LinesFit(text, FrameOf(seg, text), 1, n);
    } else if n > 2 {
      OpenCloseFits(text, seg.open.value, seg.close.value);
      LinesFit(text, FrameOf(seg, text), 1, n - 1);
    } else {
      OpenCloseAlone(text, seg.open.value, seg.close.value);
    }
  }

  lemma UnframedFits(text: string)
    ensures Fits(text, Frame("", "", Split(text)))
  {
    WholeFits(text);
    LinesFit(text, Frame("", "", Split(text)), 0, |Split(text)|);
  }

  lemma FrameFits(seg: Segment, text: string)
    requires Framed(seg, text) && (seg.kind.Table? ==> seg.header.value[0] != '\n')
    ensures FitsOrOverflows(text, FrameOf(seg, text))
  {
    if seg.kind.Table? {
      TableFits(seg, text);
    } else if (seg.kind.Code? || seg.kind.Math?) && |Split(text)| >= 2 {
      OpenedFits(seg, text);
    } else {
      UnframedFits(text);
    }
  }
}
