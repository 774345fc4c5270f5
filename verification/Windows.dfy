/** Overlapping prose windows, snapped to boundaries (`app/rag/chunking.py`). */
module Windows {
  import opened Text

  /** A stretch of the text, `[start, end)`. */
  datatype Window = Window(start: nat, end: nat)

  const BOUNDARIES := ["\n\n", "\n", " "]

  // ---- `_cut` and `_next_start` ---------------------------------------------------------

  /** The end of the first boundary, in preference order, that is found past `floor`; else `end`. */
  function CutAt(text: string, start: nat, end: nat, floor: nat, boundaries: seq<string>): nat {
    if boundaries == [] then end
    else
      var found := RFind(text, boundaries[0], start, end);
      if found > floor then found + |boundaries[0]|
      else CutAt(text, start, end, floor, boundaries[1..])
  }

  function Cut(text: string, start: nat, end: nat): nat
    requires start <= end
  {
    CutAt(text, start, end, start + (end - start) / 2, BOUNDARIES)
  }

  function Max(a: int, b: int): int {
    if a < b then b else a
  }

  function NextStart(text: string, start: nat, end: nat, overlap: nat): nat {
    var plain := Max(end - overlap, start + 1);
    var lineStart := RFind(text, "\n", Max(start + 1, plain - overlap), plain);
    if lineStart >= 0 then lineStart + 1 else plain
  }

  lemma {:induction false} CutAtBounds(text: string, start: nat, end: nat, floor: nat, boundaries: seq<string>)
    requires start <= floor <= end && forall b :: b in boundaries ==> |b| >= 1
    ensures CutAt(text, start, end, floor, boundaries) <= end
    ensures CutAt(text, start, end, floor, boundaries) == end || CutAt(text, start, end, floor, boundaries) >= floor + 2
    decreases |boundaries|
  {
    if boundaries != [] {
      assert boundaries[0] in boundaries;
      RFindIsLast(text, boundaries[0], start, end);
      CutAtBounds(text, start, end, floor, boundaries[1..]);
    }
  }

  /** A cut keeps more than half of the window. */
  lemma CutBounds(text: string, start: nat, end: nat)
    requires start < end
    ensures start < Cut(text, start, end) <= end
    ensures Cut(text, start, end) == end || Cut(text, start, end) - start >= (end - start) / 2 + 2
  {
    CutAtBounds(text, start, end, start + (end - start) / 2, BOUNDARIES);
  }

  /**
    The next window starts strictly later and leaves no gap; pulling back to a line start
    costs less than one extra overlap and lands just behind a newline.
   */
  lemma NextStartBounds(text: string, start: nat, end: nat, overlap: nat)
    requires start < end <= |text|
    ensures start < NextStart(text, start, end, overlap) <= Max(end - overlap, start + 1) <= end
    ensures var plain, next := Max(end - overlap, start + 1), NextStart(text, start, end, overlap);
            next == plain || (plain - next < overlap && text[next - 1] == '\n')
  {
    var plain := Max(end - overlap, start + 1);
    var lo := Max(start + 1, plain - overlap);
    RFindIsLast(text, "\n", lo, plain);
    var r := RFind(text, "\n", lo, plain);
    if r >= 0 {
      assert text[r..r + 1][0] == text[r];
    }
  }

  /** The last place `p` stands wholly within `text[lo..hi]`. */
  ghost predicate LastAt(text: string, p: string, lo: nat, hi: nat, i: int) {
    OccursAt(text, p, i, lo, hi) && forall j :: OccursAt(text, p, j, lo, hi) ==> j <= i
  }

  /** The last of these boundaries in the window lies past its middle. */
  ghost predicate FoundPast(text: string, p: string, start: nat, end: nat, i: int) {
    LastAt(text, p, start, end, i) && i > start + (end - start) / 2
  }

  lemma FoundByRFind(text: string, p: string, lo: nat, hi: nat)
    ensures forall i :: LastAt(text, p, lo, hi, i) <==> i == RFind(text, p, lo, hi) && i >= 0
  {
    RFindIsLast(text, p, lo, hi);
  }

  /**
    A window is cut behind its last blank line if that lies past the middle, otherwise behind its
    last line break that does, otherwise behind its last space that does, otherwise nowhere.
   */
  lemma CutFallsOnBoundary(text: string, start: nat, end: nat)
    requires start < end
    ensures forall i :: FoundPast(text, "\n\n", start, end, i) ==> Cut(text, start, end) == i + 2
    ensures (forall i :: !FoundPast(text, "\n\n", start, end, i)) ==>
      forall i :: FoundPast(text, "\n", start, end, i) ==> Cut(text, start, end) == i + 1
    ensures (forall i :: !FoundPast(text, "\n\n", start, end, i)) && (forall i :: !FoundPast(text, "\n", start, end, i)) ==>
      forall i :: FoundPast(text, " ", start, end, i) ==> Cut(text, start, end) == i + 1
    ensures (forall b, i :: b in BOUNDARIES ==> !FoundPast(text, b, start, end, i)) ==> Cut(text, start, end) == end
  {
    var floor := start + (end - start) / 2;
    CutAtThree(text, start, end, floor);
    FoundByRFind(text, "\n\n", start, end);
    FoundByRFind(text, "\n", start, end);
    FoundByRFind(text, " ", start, end);
    assert BOUNDARIES[0] in BOUNDARIES && BOUNDARIES[1] in BOUNDARIES && BOUNDARIES[2] in BOUNDARIES;
    forall p | p in BOUNDARIES && RFind(text, p, start, end) > floor
      ensures FoundPast(text, p, start, end, RFind(text, p, start, end))
    {
      FoundByRFind(text, p, start, end);
    }
  }

  lemma CutAtThree(text: string, start: nat, end: nat, floor: nat)
    ensures CutAt(text, start, end, floor, BOUNDARIES) ==
      if RFind(text, "\n\n", start, end) > floor then RFind(text, "\n\n", start, end) + 2
      else if RFind(text, "\n", start, end) > floor then RFind(text, "\n", start, end) + 1
      else if RFind(text, " ", start, end) > floor then RFind(text, " ", start, end) + 1
      else end
  {
    var one, two, three := BOUNDARIES[1..], BOUNDARIES[2..], BOUNDARIES[3..];
    assert one == ["\n", " "] && one[1..] == two == [" "] && two[1..] == three == [];
    assert CutAt(text, start, end, floor, three) == end;
    assert CutAt(text, start, end, floor, two) ==
      if RFind(text, " ", start, end) > floor then RFind(text, " ", start, end) + 1 else end;
    assert CutAt(text, start, end, floor, one) ==
      if RFind(text, "\n", start, end) > floor then RFind(text, "\n", start, end) + 1
      else CutAt(text, start, end, floor, two);
  }

  /** The next window starts behind the last line break in the overlap's reach, and where the overlap begins if there is none. */
  lemma NextStartsAtLine(text: string, start: nat, end: nat, overlap: nat)
    ensures var plain := Max(end - overlap, start + 1);
            var lo := Max(start + 1, plain - overlap);
            && (forall i :: LastAt(text, "\n", lo, plain, i) ==> NextStart(text, start, end, overlap) == i + 1)
            && ((forall i :: !LastAt(text, "\n", lo, plain, i)) ==> NextStart(text, start, end, overlap) == plain)
  {
    var plain := Max(end - overlap, start + 1);
    var lo := Max(start + 1, plain - overlap);
    FoundByRFind(text, "\n", lo, plain);
    var r := RFind(text, "\n", lo, plain);
    assert r >= 0 ==> LastAt(text, "\n", lo, plain, r);
  }

  // ---- The raw windows ------------------------------------------------------------------

  function WindowEnd(text: string, size: nat, start: nat): nat
    requires start < |text|
  {
    if start + size < |text| then Cut(text, start, start + size) else |text|
  }

  lemma WindowEndBounds(text: string, size: nat, start: nat)
    requires start < |text| && size >= 1
    ensures start < WindowEnd(text, size, start) <= |text|
    ensures WindowEnd(text, size, start) - start <= size
    ensures WindowEnd(text, size, start) == |text| || WindowEnd(text, size, start) - start > size / 2
  {
    if start + size < |text| {
      CutBounds(text, start, start + size);
    }
  }

  /** The windows from `start` on, before anything is trimmed or left out. */
  function RawFrom(text: string, size: nat, overlap: nat, start: nat): seq<Window>
    requires size >= 1
    decreases |text| - start
  {
    if start >= |text| then []
    else
      var end := WindowEnd(text, size, start);
      WindowEndBounds(text, size, start);
      if end >= |text| then [Window(start, end)]
      else
        NextStartBounds(text, start, end, overlap);
        [Window(start, end)] + RawFrom(text, size, overlap, NextStart(text, start, end, overlap))
  }

  /** What is left of a window once the boundary and trailing whitespace go. */
  function Trimmed(s: string): string {
    RStrip(StripNewlines(s))
  }

  /** The pieces emitted for a list of windows: those with anything but whitespace in them. */
  function Emitted(text: string, windows: seq<Window>): seq<Piece>
    requires forall w :: w in windows ==> w.start <= w.end <= |text|
  {
    if windows == [] then []
    else
      var init, w := windows[..|windows| - 1], windows[|windows| - 1];
      var piece := Trimmed(text[w.start..w.end]);
      if Blank(piece) then Emitted(text, init) else Emitted(text, init) + [Piece(w.start, piece)]
  }

  lemma {:induction false} RawInRange(text: string, size: nat, overlap: nat, start: nat)
    requires size >= 1
    ensures forall w :: w in RawFrom(text, size, overlap, start) ==> w.start < w.end <= |text| && w.end - w.start <= size
    decreases |text| - start
  {
    if start < |text| {
      var end := WindowEnd(text, size, start);
      WindowEndBounds(text, size, start);
      if end < |text| {
        NextStartBounds(text, start, end, overlap);
        RawInRange(text, size, overlap, NextStart(text, start, end, overlap));
      }
    }
  }

  ghost predicate InRange(text: string, windows: seq<Window>) {
    forall w :: w in windows ==> w.start < w.end <= |text|
  }

  lemma EmittedOneMore(text: string, done: seq<Window>, w: Window)
    requires InRange(text, done) && w.start < w.end <= |text|
    ensures InRange(text, done + [w])
    ensures Emitted(text, done + [w])
         == var piece := Trimmed(text[w.start..w.end]);
            if Blank(piece) then Emitted(text, done) else Emitted(text, done) + [Piece(w.start, piece)]
  {
    assert (done + [w])[..|done|] == done;
  }

  /** What the loop has made of the windows before `start`. */
  ghost predicate MadeBefore(text: string, size: nat, overlap: nat, start: nat, done: seq<Window>, out: seq<Piece>)
    requires size >= 1
  {
    && InRange(text, done)
    && out == Emitted(text, done)
    && done + RawFrom(text, size, overlap, start) == RawFrom(text, size, overlap, 0)
  }

  lemma MadeOneMore(text: string, size: nat, overlap: nat, start: nat, end: nat, done: seq<Window>, out: seq<Piece>)
    requires size >= 1 && start < |text| && MadeBefore(text, size, overlap, start, done, out)
    requires end == WindowEnd(text, size, start)
    ensures start < end <= |text| && start < NextStart(text, start, end, overlap)
    ensures var piece := Trimmed(text[start..end]);
            var more := if Blank(piece) then out else out + [Piece(start, piece)];
            MadeBefore(text, size, overlap, if end >= |text| then |text| else NextStart(text, start, end, overlap),
                       done + [Window(start, end)], more)
  {
    WindowEndBounds(text, size, start);
    NextStartBounds(text, start, end, overlap);
    EmittedOneMore(text, done, Window(start, end));
    RawOneMore(text, size, overlap, start, done);
  }

  lemma RawOneMore(text: string, size: nat, overlap: nat, start: nat, done: seq<Window>)
    requires size >= 1 && start < |text|
    ensures var end := WindowEnd(text, size, start);
            var next := if end >= |text| then |text| else NextStart(text, start, end, overlap);
            done + RawFrom(text, size, overlap, start)
              == done + [Window(start, end)] + RawFrom(text, size, overlap, next)
  {
    var end := WindowEnd(text, size, start);
    var rest := RawFrom(text, size, overlap, if end >= |text| then |text| else NextStart(text, start, end, overlap));
    assert RawFrom(text, size, overlap, start) == [Window(start, end)] + rest;
    assert done + ([Window(start, end)] + rest) == done + [Window(start, end)] + rest;
  }

  /** `_windows`. */
  method MakeWindows(text: string, size: nat, overlap: nat) returns (out: seq<Piece>)
    requires size >= 1
    ensures InRange(text, RawFrom(text, size, overlap, 0))
    ensures out == Emitted(text, RawFrom(text, size, overlap, 0))
  {
    RawInRange(text, size, overlap, 0);
    out := [];
    if text == "" {
      return;
    }
    var n := |text|;
    var start := 0;
    ghost var done: seq<Window> := [];
    while start < n
      invariant MadeBefore(text, size, overlap, start, done, out)
      decreases n - start
    {
      var end := if start + size < n then start + size else n;
      if end < n {
        end := Cut(text, start, end);
      }
      MadeOneMore(text, size, overlap, start, end, done, out);
      done := done + [Window(start, end)];
      var piece := Trimmed(text[start..end]);
      if !Blank(piece) {
        out := out + [Piece(start, piece)];
      }
      if end >= n {
        break;
      }
      start := NextStart(text, start, end, overlap);
    }
    assert done + [] == done;
  }

  /** A full window ends at its boundary, a shorter one with the text. */
  predicate EndsRight(text: string, size: nat, w: Window) {
    w.end == if w.start + size < |text| then Cut(text, w.start, w.start + size) else |text|
  }

  predicate GoesOn(text: string, overlap: nat, w: Window, next: Window) {
    w.end < |text| && next.start == NextStart(text, w.start, w.end, overlap)
  }

  /** Every window ends where it should, and each begins where the one before says. */
  ghost predicate Stepwise(text: string, size: nat, overlap: nat, w: seq<Window>) {
    && (forall k :: 0 <= k < |w| ==> EndsRight(text, size, w[k]))
    && (forall k :: 0 <= k < |w| - 1 ==> GoesOn(text, overlap, w[k], w[k + 1]))
  }

  lemma StepwiseCons(text: string, size: nat, overlap: nat, first: Window, rest: seq<Window>)
    requires Stepwise(text, size, overlap, rest) && EndsRight(text, size, first)
    requires rest != [] ==> GoesOn(text, overlap, first, rest[0])
    ensures Stepwise(text, size, overlap, [first] + rest)
  {
    var all := [first] + rest;
    forall k | 0 <= k < |all|
      ensures EndsRight(text, size, all[k])
    {
      assert k > 0 ==> all[k] == rest[k - 1];
    }
    forall k | 0 <= k < |all| - 1
      ensures GoesOn(text, overlap, all[k], all[k + 1])
    {
      assert all[k + 1] == rest[k];
      assert k > 0 ==> all[k] == rest[k - 1] && rest[k] == rest[k - 1 + 1];
    }
  }

  lemma {:induction false} RawSteps(text: string, size: nat, overlap: nat, start: nat)
    requires size >= 1
    ensures Stepwise(text, size, overlap, RawFrom(text, size, overlap, start))
    ensures RawFrom(text, size, overlap, start) != [] ==> RawFrom(text, size, overlap, start)[0].start == start
    decreases |text| - start
  {
    if start < |text| {
      var end := WindowEnd(text, size, start);
      WindowEndBounds(text, size, start);
      if end < |text| {
        NextStartBounds(text, start, end, overlap);
        var next := NextStart(text, start, end, overlap);
        RawSteps(text, size, overlap, next);
        StepwiseCons(text, size, overlap, Window(start, end), RawFrom(text, size, overlap, next));
      }
    }
  }

  /** Of `raw` the stretch `t` at `k` is left: only line breaks in front, only white space behind, and all between. */
  predicate LeftOf(raw: string, k: nat, t: string) {
    && k + |t| <= |raw| && raw[k..k + |t|] == t
    && (forall i :: 0 <= i < k ==> raw[i] == '\n') && (t != "" ==> t[0] != '\n' && !IsSpace(t[|t| - 1]))
    && forall i :: k + |t| <= i < |raw| ==> IsSpace(raw[i])
  }

  /** What is left of a window: no line break in front, no white space behind, and all between. */
  lemma TrimmedIs(raw: string)
    ensures LeftOf(raw, LeadCount(raw, IsNewline), Trimmed(raw))
  {
    var k := LeadCount(raw, IsNewline);
    var rest := raw[k..];
    var inner := TrimEnd(rest, IsNewline);
    assert StripNewlines(raw) == inner;
    TrimmedBehind(raw, k, rest, inner, TrimEnd(inner, IsSpace));
  }

  lemma TrimmedBehind(raw: string, k: nat, rest: string, inner: string, t: string)
    requires k <= |raw| && rest == raw[k..] && (forall i :: 0 <= i < k ==> raw[i] == '\n') && (k < |raw| ==> raw[k] != '\n')
    requires inner == TrimEnd(rest, IsNewline) && t == TrimEnd(inner, IsSpace)
    ensures LeftOf(raw, k, t)
  {
    TrimmedTwice(rest, inner, t);
    Behind(raw, k, rest, t);
  }

  /** What begins a rest of a text stands where the rest begins. */
  lemma Behind(raw: string, k: nat, rest: string, t: string)
    requires k <= |raw| && rest == raw[k..] && t <= rest && forall i :: |t| <= i < |rest| ==> IsSpace(rest[i])
    ensures raw[k..k + |t|] == t && (t != "" ==> t[0] == raw[k])
    ensures forall i :: k + |t| <= i < |raw| ==> IsSpace(raw[i])
  {
    forall i | k + |t| <= i < |raw|
      ensures IsSpace(raw[i])
    {
      assert raw[i] == rest[i - k];
    }
  }

  lemma TrimmedTwice(s: string, inner: string, t: string)
    requires inner <= s && t <= inner
    requires forall i :: |inner| <= i < |s| ==> s[i] == '\n'
    requires forall i :: |t| <= i < |inner| ==> IsSpace(inner[i])
    ensures t <= s && forall i :: |t| <= i < |s| ==> IsSpace(s[i])
  {
  }

  // ---- What the windows guarantee -------------------------------------------------------

  /** `next` starts strictly later than `w`, without a gap, and far enough back to repeat the overlap. */
  predicate Follows(w: Window, next: Window, size: nat, overlap: nat) {
    && w.start < next.start <= w.end
    && next.start <= Max(w.end - overlap, w.start + 1)
    && w.end - w.start > size / 2
  }

  /** The windows lead from `start` to the end of the text, each following the one before. */
  ghost predicate Chained(text: string, windows: seq<Window>, size: nat, overlap: nat, start: nat)
    decreases |windows|
  {
    if windows == [] then start >= |text|
    else
      && windows[0].start == start < windows[0].end <= |text|
      && if |windows| == 1 then windows[0].end == |text|
         else Follows(windows[0], windows[1], size, overlap) && Chained(text, windows[1..], size, overlap, windows[1].start)
  }

  lemma {:induction false} RawIsChained(text: string, size: nat, overlap: nat, start: nat)
    requires size >= 1
    ensures Chained(text, RawFrom(text, size, overlap, start), size, overlap, start)
    decreases |text| - start
  {
    if start < |text| {
      var end := WindowEnd(text, size, start);
      WindowEndBounds(text, size, start);
      if end < |text| {
        NextStartBounds(text, start, end, overlap);
        RawIsChained(text, size, overlap, NextStart(text, start, end, overlap));
        var rest := RawFrom(text, size, overlap, NextStart(text, start, end, overlap));
        assert ([Window(start, end)] + rest)[1..] == rest;
      }
    }
  }

  /** A span no longer than the overlap is taken in whole by some window of a chain. */
  lemma {:induction false} SpanInOneWindow(
    text: string, windows: seq<Window>, size: nat, overlap: nat, start: nat, a: nat, b: nat) returns (i: nat)
    requires Chained(text, windows, size, overlap, start) && 2 * overlap <= size
    requires start <= a < b <= |text| && b - a <= overlap
    ensures i < |windows| && windows[i].start <= a && b <= windows[i].end
    decreases |windows|
  {
    if b <= windows[0].end {
      i := 0;
    } else {
      i := SpanInOneWindow(text, windows[1..], size, overlap, windows[1].start, a, b);
      i := i + 1;
    }
  }

  lemma {:induction false} CharInOneWindow(
    text: string, windows: seq<Window>, size: nat, overlap: nat, start: nat, a: nat) returns (i: nat)
    requires Chained(text, windows, size, overlap, start) && start <= a < |text|
    ensures i < |windows| && windows[i].start <= a < windows[i].end
    decreases |windows|
  {
    if a < windows[0].end {
      i := 0;
    } else {
      i := CharInOneWindow(text, windows[1..], size, overlap, windows[1].start, a);
      i := i + 1;
    }
  }

  /** The piece stands in the text at `lo`, where only newlines separate `lo` from its window's start. */
  ghost predicate CutFrom(text: string, p: Piece, lo: nat) {
    && p.start <= lo
    && Matches(text, lo, p.text)
    && forall i :: p.start <= i < lo ==> text[i] == '\n'
  }

  /** The piece holds the whole of `text[a..b]`, at its place. */
  ghost predicate HoldsSpan(text: string, p: Piece, a: nat, b: nat) {
    exists lo: nat :: CutFrom(text, p, lo) && lo <= a && b <= lo + |p.text|
  }

  /** Stripping keeps the stretch between two characters that are not stripped. */
  lemma StripReaches(raw: string, x: nat, y: nat)
    requires x <= y < |raw| && !IsSpace(raw[x]) && !IsSpace(raw[y])
    ensures LeadCount(raw, IsNewline) <= x
    ensures LeadCount(raw, IsNewline) + |Trimmed(raw)| > y
    ensures !Blank(Trimmed(raw))
  {
    var k := LeadCount(raw, IsNewline);
    var inner := StripNewlines(raw);
    assert raw[k..][y - k] == raw[y];
    assert y - k < |inner|;
    assert inner[y - k] == raw[y];
    assert y - k < |RStrip(inner)|;
    assert RStrip(inner)[y - k] == inner[y - k];
  }

  lemma SpanReached(text: string, w: Window, raw: string, a: nat, b: nat)
    requires w.start <= a < b <= w.end <= |text| && raw == text[w.start..w.end]
    requires !IsSpace(text[a]) && !IsSpace(text[b - 1])
    ensures w.start + LeadCount(raw, IsNewline) <= a
    ensures b <= w.start + LeadCount(raw, IsNewline) + |Trimmed(raw)|
    ensures !Blank(Trimmed(raw))
  {
    assert raw[a - w.start] == text[a] && raw[b - 1 - w.start] == text[b - 1];
    StripReaches(raw, a - w.start, b - 1 - w.start);
  }

  /** Trimming a window keeps everything between two non-space characters. */
  lemma TrimKeepsSpan(text: string, w: Window, raw: string, a: nat, b: nat)
    requires w.start <= a < b <= w.end <= |text| && raw == text[w.start..w.end]
    requires !IsSpace(text[a]) && !IsSpace(text[b - 1])
    ensures HoldsSpan(text, Piece(w.start, Trimmed(raw)), a, b)
    ensures !Blank(Trimmed(raw))
  {
    SpanReached(text, w, raw, a, b);
    TrimmedIsCut(text, w, raw);
    assert CutFrom(text, Piece(w.start, Trimmed(raw)), w.start + LeadCount(raw, IsNewline));
  }

  lemma {:induction false} EmittedHolds(text: string, windows: seq<Window>, i: nat)
    requires InRange(text, windows) && i < |windows|
    requires !Blank(Trimmed(text[windows[i].start..windows[i].end]))
    ensures Piece(windows[i].start, Trimmed(text[windows[i].start..windows[i].end])) in Emitted(text, windows)
    decreases |windows|
  {
    if i < |windows| - 1 {
      EmittedHolds(text, windows[..|windows| - 1], i);
    }
  }

  /**
    With an overlap of at most half the size, any span of at most `overlap` characters that
    starts and ends in non-whitespace stands whole inside one emitted piece.
   */
  lemma SpanIsRetrievableWhole(text: string, size: nat, overlap: nat, a: nat, b: nat)
    requires size >= 1 && 2 * overlap <= size
    requires a < b <= |text| && b - a <= overlap
    requires !IsSpace(text[a]) && !IsSpace(text[b - 1])
    ensures InRange(text, RawFrom(text, size, overlap, 0))
    ensures exists p :: p in Emitted(text, RawFrom(text, size, overlap, 0)) && HoldsSpan(text, p, a, b)
  {
    RawInRange(text, size, overlap, 0);
    var windows := RawFrom(text, size, overlap, 0);
    RawIsChained(text, size, overlap, 0);
    var i := SpanInOneWindow(text, windows, size, overlap, 0, a, b);
    assert windows[i] in windows;
    TrimKeepsSpan(text, windows[i], text[windows[i].start..windows[i].end], a, b);
    EmittedHolds(text, windows, i);
  }

  /** Whatever the overlap, every non-whitespace character is in some emitted piece, at its place. */
  lemma EveryCharIsEmitted(text: string, size: nat, overlap: nat, a: nat)
    requires size >= 1 && a < |text| && !IsSpace(text[a])
    ensures InRange(text, RawFrom(text, size, overlap, 0))
    ensures exists p :: p in Emitted(text, RawFrom(text, size, overlap, 0)) && HoldsSpan(text, p, a, a + 1)
  {
    RawInRange(text, size, overlap, 0);
    var windows := RawFrom(text, size, overlap, 0);
    RawIsChained(text, size, overlap, 0);
    var i := CharInOneWindow(text, windows, size, overlap, 0, a);
    assert windows[i] in windows;
    TrimKeepsSpan(text, windows[i], text[windows[i].start..windows[i].end], a, a + 1);
    EmittedHolds(text, windows, i);
  }

  /** No piece is blank or longer than a window, and each is cut from its place in the text. */
  lemma {:induction false} PiecesAreCut(text: string, windows: seq<Window>, size: nat)
    requires InRange(text, windows) && forall w :: w in windows ==> w.end - w.start <= size
    ensures forall p :: p in Emitted(text, windows) ==>
      |p.text| <= size && !Blank(p.text) && exists lo :: CutFrom(text, p, lo)
    decreases |windows|
  {
    if windows != [] {
      var init, w := windows[..|windows| - 1], windows[|windows| - 1];
      PiecesAreCut(text, init, size);
      assert w in windows;
      var piece := Trimmed(text[w.start..w.end]);
      if !Blank(piece) {
        var x :| 0 <= x < |piece| && !IsSpace(piece[x]);
        TrimmedIsCut(text, w, text[w.start..w.end]);
      }
    }
  }

  lemma TrimmedMatches(raw: string)
    ensures Matches(raw, LeadCount(raw, IsNewline), Trimmed(raw))
  {
    var k := LeadCount(raw, IsNewline);
    assert StripNewlines(raw) <= raw[k..];
    assert Trimmed(raw) <= StripNewlines(raw);
  }

  lemma TrimmedIsCut(text: string, w: Window, raw: string)
    requires w.start < w.end <= |text| && raw == text[w.start..w.end]
    ensures CutFrom(text, Piece(w.start, Trimmed(raw)), w.start + LeadCount(raw, IsNewline))
    ensures |Trimmed(raw)| <= w.end - w.start
  {
    TrimmedMatches(raw);
    SliceMatches(text, w.start, w.end);
    MatchesWithin(text, w.start, raw, LeadCount(raw, IsNewline), Trimmed(raw));
    LeadIsNewlines(text, w, raw);
  }

  lemma LeadIsNewlines(text: string, w: Window, raw: string)
    requires w.start < w.end <= |text| && raw == text[w.start..w.end]
    ensures forall i :: w.start <= i < w.start + LeadCount(raw, IsNewline) ==> text[i] == '\n'
  {
    forall i | w.start <= i < w.start + LeadCount(raw, IsNewline)
      ensures text[i] == '\n'
    {
      assert raw[i - w.start] == text[i];
    }
  }
}
