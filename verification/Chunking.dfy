/** Runs of prose with the short blocks among it, and the long blocks between them (`app/rag/chunking.py`, `_runs`). */
module Folding {
  import opened Text
  import opened Wrappers
  import opened Segments

  predicate StandsAlone(seg: Segment, size: nat) {
    !seg.kind.Prose? && |StripNewlines(seg.text)| > size
  }

  function ProseOf(text: string, start: nat): Segment {
    Segment(Prose, text, start, None, None, None)
  }

  /** One segment more: a block on its own, or prose joined to the prose before it. */
  function FoldOne(out: seq<Segment>, seg: Segment, size: nat): seq<Segment> {
    if StandsAlone(seg, size) then out + [seg]
    else if out != [] && out[|out| - 1].kind.Prose? then
      var last := out[|out| - 1];
      out[..|out| - 1] + [ProseOf(last.text + seg.text, last.start)]
    else out + [ProseOf(seg.text, seg.start)]
  }

  function Folded(segments: seq<Segment>, size: nat): seq<Segment> {
    if segments == [] then []
    else FoldOne(Folded(segments[..|segments| - 1], size), segments[|segments| - 1], size)
  }

  /** `_runs`. */
  method Runs(segments: seq<Segment>, size: nat) returns (out: seq<Segment>)
    ensures out == Folded(segments, size)
  {
    out := [];
    for i := 0 to |segments|
      invariant out == Folded(segments[..i], size)
    {
      var seg := segments[i];
      assert segments[..i + 1][..i] == segments[..i];
      if !seg.kind.Prose? && |StripNewlines(seg.text)| > size {
        out := out + [seg];
      } else if out != [] && out[|out| - 1].kind.Prose? {
        var last := out[|out| - 1];
        out := out[..|out| - 1] + [ProseOf(last.text + seg.text, last.start)];
      } else {
        out := out + [ProseOf(seg.text, seg.start)];
      }
    }
    assert segments[..|segments|] == segments;
  }

  // ---- Folding loses nothing --------------------------------------------------------------

  /** The segments lie end to end over `text[lo..hi]`, each at its own offset. */
  ghost predicate Laid(text: string, segments: seq<Segment>, lo: nat, hi: nat) {
    && (segments == [] ==> lo == hi)
    && (segments != [] ==> segments[0].start == lo && segments[|segments| - 1].start + |segments[|segments| - 1].text| == hi)
    && (forall k :: 0 <= k < |segments| ==> Stands(text, segments[k].start, segments[k].text))
    && forall k :: 0 <= k < |segments| - 1 ==> segments[k + 1].start == segments[k].start + |segments[k].text|
  }

  lemma LaidInit(text: string, segments: seq<Segment>, lo: nat, hi: nat)
    requires Laid(text, segments, lo, hi) && segments != []
    ensures Laid(text, segments[..|segments| - 1], lo, segments[|segments| - 1].start)
  {
    var n := |segments|;
    if n > 1 {
      assert segments[n - 2 + 1].start == segments[n - 2].start + |segments[n - 2].text|;
    }
  }

  lemma LaidMore(text: string, segments: seq<Segment>, seg: Segment, lo: nat, hi: nat)
    requires Laid(text, segments, lo, seg.start) && Stands(text, seg.start, seg.text) && hi == seg.start + |seg.text|
    ensures Laid(text, segments + [seg], lo, hi)
  {
  }

  lemma StandsTogether(text: string, lo: nat, a: string, b: string)
    requires Stands(text, lo, a) && Stands(text, lo + |a|, b)
    ensures Stands(text, lo, a + b)
  {
    var mid, hi := lo + |a|, lo + |a| + |b|;
    assert text[lo..hi] == text[lo..mid] + text[mid..hi];
  }

  lemma FoldOneLaid(text: string, out: seq<Segment>, seg: Segment, size: nat, lo: nat, hi: nat)
    requires Laid(text, out, lo, seg.start) && Stands(text, seg.start, seg.text) && hi == seg.start + |seg.text|
    ensures Laid(text, FoldOne(out, seg, size), lo, hi)
  {
    if StandsAlone(seg, size) {
      LaidMore(text, out, seg, lo, hi);
    } else if out != [] && out[|out| - 1].kind.Prose? {
      var last := out[|out| - 1];
      LaidInit(text, out, lo, seg.start);
      StandsTogether(text, last.start, last.text, seg.text);
      LaidMore(text, out[..|out| - 1], ProseOf(last.text + seg.text, last.start), lo, hi);
    } else {
      LaidMore(text, out, ProseOf(seg.text, seg.start), lo, hi);
    }
  }

  /** Folding keeps the segments end to end over the same text. */
  lemma {:induction false} FoldingKeepsText(text: string, segments: seq<Segment>, size: nat, lo: nat, hi: nat)
    requires Laid(text, segments, lo, hi)
    ensures Laid(text, Folded(segments, size), lo, hi)
    decreases |segments|
  {
    if segments != [] {
      var init, seg := segments[..|segments| - 1], segments[|segments| - 1];
      LaidInit(text, segments, lo, hi);
      FoldingKeepsText(text, init, size, lo, seg.start);
      assert Stands(text, seg.start, seg.text);
      FoldOneLaid(text, Folded(init, size), seg, size, lo, hi);
    }
  }

  /** The segments that stand alone, in order. */
  function Alone(segments: seq<Segment>, size: nat): seq<Segment> {
    if segments == [] then []
    else
      var before, seg := Alone(segments[..|segments| - 1], size), segments[|segments| - 1];
      if StandsAlone(seg, size) then before + [seg] else before
  }

  lemma AloneMore(segments: seq<Segment>, seg: Segment, size: nat)
    ensures Alone(segments + [seg], size) == if StandsAlone(seg, size) then Alone(segments, size) + [seg] else Alone(segments, size)
  {
    assert (segments + [seg])[..|segments|] == segments;
  }

  /** Folding keeps exactly the long blocks, unchanged and in order. */
  lemma {:induction false} FoldingKeepsLongBlocks(segments: seq<Segment>, size: nat)
    ensures Alone(Folded(segments, size), size) == Alone(segments, size)
    decreases |segments|
  {
    if segments != [] {
      var init, seg := segments[..|segments| - 1], segments[|segments| - 1];
      FoldingKeepsLongBlocks(init, size);
      FoldOneKeepsAlone(Folded(init, size), seg, size);
    }
  }

  lemma FoldOneKeepsAlone(out: seq<Segment>, seg: Segment, size: nat)
    ensures Alone(FoldOne(out, seg, size), size)
         == if StandsAlone(seg, size) then Alone(out, size) + [seg] else Alone(out, size)
  {
    if StandsAlone(seg, size) {
      AloneMore(out, seg, size);
    } else if out != [] && out[|out| - 1].kind.Prose? {
      var init, last := out[..|out| - 1], out[|out| - 1];
      assert out == init + [last];
      AloneMore(init, last, size);
      AloneMore(init, ProseOf(last.text + seg.text, last.start), size);
    } else {
      AloneMore(out, ProseOf(seg.text, seg.start), size);
    }
  }

  ghost predicate IsFolded(out: seq<Segment>, segments: seq<Segment>, size: nat) {
    && (forall k :: 0 <= k < |out| ==> out[k].kind.Prose? || (StandsAlone(out[k], size) && out[k] in segments))
    && forall k :: 0 <= k < |out| - 1 ==> !(out[k].kind.Prose? && out[k + 1].kind.Prose?)
  }

  /** Only long blocks stand alone, each as it was found, and no two proses meet. */
  lemma {:induction false} FoldingLeavesLongBlocks(segments: seq<Segment>, size: nat)
    ensures IsFolded(Folded(segments, size), segments, size)
    decreases |segments|
  {
    if segments != [] {
      var init, seg := segments[..|segments| - 1], segments[|segments| - 1];
      FoldingLeavesLongBlocks(init, size);
      assert segments == init + [seg];
      FoldOneFolds(Folded(init, size), init, seg, size);
    }
  }

  lemma FoldOneFolds(out: seq<Segment>, segments: seq<Segment>, seg: Segment, size: nat)
    requires IsFolded(out, segments, size)
    ensures IsFolded(FoldOne(out, seg, size), segments + [seg], size)
  {
  }

  lemma {:induction false} AloneMembers(segments: seq<Segment>, size: nat, seg: Segment)
    ensures seg in Alone(segments, size) <==> seg in segments && StandsAlone(seg, size)
    decreases |segments|
  {
    if segments != [] {
      AloneMembers(segments[..|segments| - 1], size, seg);
      assert segments == segments[..|segments| - 1] + [segments[|segments| - 1]];
    }
  }

  /** A block is found again after folding exactly when, the newlines around it aside, it is longer than a chunk. */
  lemma StandsAloneExactlyWhen(segments: seq<Segment>, size: nat, seg: Segment)
    requires !seg.kind.Prose?
    ensures seg in Folded(segments, size) <==> seg in segments && |StripNewlines(seg.text)| > size
  {
    FoldingLeavesLongBlocks(segments, size);
    FoldingKeepsLongBlocks(segments, size);
    AloneMembers(segments, size, seg);
    AloneMembers(Folded(segments, size), size, seg);
  }

  lemma {:induction false} PositionInOne(text: string, segments: seq<Segment>, lo: nat, hi: nat, k: nat) returns (i: nat)
    requires Laid(text, segments, lo, hi) && lo <= k < hi
    ensures i < |segments| && segments[i].start <= k < segments[i].start + |segments[i].text|
    decreases |segments|
  {
    var n := |segments| - 1;
    if k >= segments[n].start {
      i := n;
    } else {
      LaidInit(text, segments, lo, hi);
      i := PositionInOne(text, segments[..n], lo, segments[n].start, k);
    }
  }
}

/** A chunk holds what its locator says, and prose windows hold every character of their text. */
module ProseCoverage {
  import opened Text
  import opened Wrappers
  import opened Segments
  import W = Windows

  function ProseChunks(start: nat, pieces: seq<Piece>): seq<Chunk> {
    seq(|pieces|, k requires 0 <= k < |pieces| => Chunk(start + pieces[k].start, pieces[k].text, None, None))
  }

  /** The chunks of a stretch of prose: its windows, placed in the whole text. */
  ghost predicate ProseChunksOf(seg: Segment, size: nat, overlap: nat, chunks: seq<Chunk>)
    requires size >= 1
  {
    var windows := W.RawFrom(seg.text, size, overlap, 0);
    W.InRange(seg.text, windows) && chunks == ProseChunks(seg.start, W.Emitted(seg.text, windows))
  }

  /**
    The whole chunk stands in the text at `lo`, over position `k`: at its locator, or behind it
    with only newlines between.
   */
  ghost predicate HeldAt(norm: string, c: Chunk, k: nat, lo: nat) {
    && Stands(norm, lo, c.text) && lo <= k < lo + |c.text|
    && c.start <= lo && forall p :: c.start <= p < lo ==> norm[p] == '\n'
  }

  /** Position `k` of the text is in this undivided chunk. */
  ghost predicate HoldsWhole(norm: string, c: Chunk, k: nat) {
    c.part.None? && exists lo: nat :: HeldAt(norm, c, k, lo)
  }

  // ---- Prose ------------------------------------------------------------------------------

  lemma WithinStands(norm: string, start: nat, outer: string, lo: nat, s: string)
    requires Stands(norm, start, outer) && Matches(outer, lo, s)
    ensures Stands(norm, start + lo, s)
  {
    var there := norm[start..start + |outer|];
    forall i | 0 <= i < |s|
      ensures norm[start + lo..start + lo + |s|][i] == s[i]
    {
      assert there[lo + i] == norm[start + (lo + i)];
    }
  }

  lemma PieceHolds(norm: string, seg: Segment, p: Piece, c: Chunk, lo: nat, k: nat)
    requires Stands(norm, seg.start, seg.text) && W.CutFrom(seg.text, p, lo)
    requires seg.start + lo <= k < seg.start + lo + |p.text|
    requires c == Chunk(seg.start + p.start, p.text, None, None)
    ensures HoldsWhole(norm, c, k)
  {
    WithinStands(norm, seg.start, seg.text, lo, p.text);
    forall q | c.start <= q < seg.start + lo
      ensures norm[q] == '\n'
    {
      assert norm[seg.start..seg.start + |seg.text|][q - seg.start] == seg.text[q - seg.start];
    }
    assert HeldAt(norm, c, k, seg.start + lo);
  }

  /** The emitted piece that holds a character, and where it is cut from. */
  lemma PieceOf(text: string, size: nat, overlap: nat, a: nat) returns (pieces: seq<Piece>, x: nat, lo: nat)
    requires size >= 1 && a < |text| && !IsSpace(text[a])
    ensures W.InRange(text, W.RawFrom(text, size, overlap, 0))
    ensures pieces == W.Emitted(text, W.RawFrom(text, size, overlap, 0)) && x < |pieces|
    ensures W.CutFrom(text, pieces[x], lo) && lo <= a < lo + |pieces[x].text|
  {
    W.EveryCharIsEmitted(text, size, overlap, a);
    pieces := W.Emitted(text, W.RawFrom(text, size, overlap, 0));
    x, lo := Holder(text, pieces, a);
  }

  lemma Holder(text: string, pieces: seq<Piece>, a: nat) returns (x: nat, lo: nat)
    requires exists p :: p in pieces && W.HoldsSpan(text, p, a, a + 1)
    ensures x < |pieces| && W.CutFrom(text, pieces[x], lo) && lo <= a < lo + |pieces[x].text|
  {
    var p :| p in pieces && W.HoldsSpan(text, p, a, a + 1);
    lo :| W.CutFrom(text, p, lo) && lo <= a && a + 1 <= lo + |p.text|;
    x :| 0 <= x < |pieces| && pieces[x] == p;
  }

  lemma ProseHolds(norm: string, seg: Segment, size: nat, overlap: nat, chunks: seq<Chunk>, k: nat, a: nat) returns (x: nat)
    requires size >= 1 && ProseChunksOf(seg, size, overlap, chunks)
    requires Stands(norm, seg.start, seg.text) && k == seg.start + a && a < |seg.text| && !IsSpace(seg.text[a])
    ensures x < |chunks| && HoldsWhole(norm, chunks[x], k)
  {
    var pieces, at, lo := PieceOf(seg.text, size, overlap, a);
    x := at;
    EmittedHolds(norm, seg, chunks, pieces, x, lo, k);
  }

  lemma EmittedHolds(norm: string, seg: Segment, chunks: seq<Chunk>, pieces: seq<Piece>, x: nat, lo: nat, k: nat)
    requires chunks == ProseChunks(seg.start, pieces) && x < |pieces|
    requires Stands(norm, seg.start, seg.text) && W.CutFrom(seg.text, pieces[x], lo)
    requires seg.start + lo <= k < seg.start + lo + |pieces[x].text|
    ensures x < |chunks| && HoldsWhole(norm, chunks[x], k)
  {
    var c := Chunk(seg.start + pieces[x].start, pieces[x].text, None, None);
    PieceHolds(norm, seg, pieces[x], c, lo, k);
    assert chunks[x] == c;
  }

  lemma ProseBounded(seg: Segment, size: nat, overlap: nat, chunks: seq<Chunk>, x: nat)
    requires size >= 1 && ProseChunksOf(seg, size, overlap, chunks) && x < |chunks|
    ensures |chunks[x].text| <= size && !Blank(chunks[x].text) && chunks[x].structure.None?
  {
    var windows := W.RawFrom(seg.text, size, overlap, 0);
    W.RawInRange(seg.text, size, overlap, 0);
    W.PiecesAreCut(seg.text, windows, size);
    assert W.Emitted(seg.text, windows)[x] in W.Emitted(seg.text, windows);
  }

  lemma SameChar(norm: string, lo: nat, s: string, k: nat)
    requires Stands(norm, lo, s) && lo <= k < lo + |s|
    ensures norm[k] == s[k - lo] && IsSpace(norm[k]) == IsSpace(s[k - lo])
  {
    assert norm[lo..lo + |s|][k - lo] == s[k - lo];
  }
}

/** From text to chunks (`app/rag/chunking.py`, `chunk_units`). */
module Chunking {
  import opened Text
  import opened Wrappers
  import opened Segments
  import opened Folding
  import opened BlockParts
  import S = Structure
  import F = SegmentFrames
  import opened ProseCoverage
  import W = Windows
  import N = Normalizing

  const BLOCK_CAP_FACTOR := 4

  // ---- What segmentation hands on -------------------------------------------------------

  lemma {:induction false} SegmentsAreLaid(text: string, segments: seq<Segment>, lo: nat)
    requires S.Contiguous(segments, lo) && Stands(text, lo, Concat(S.Texts(segments)))
    ensures Laid(text, segments, lo, lo + |Concat(S.Texts(segments))|)
    decreases |segments|
  {
    if segments != [] {
      var first, rest := segments[0], segments[1..];
      assert S.Texts(segments)[1..] == S.Texts(rest);
      var all := first.text + Concat(S.Texts(rest));
      StandsApart(text, lo, first.text, Concat(S.Texts(rest)));
      SegmentsAreLaid(text, rest, lo + |first.text|);
      LaidCons(text, first, rest, lo, lo + |all|);
      assert [first] + rest == segments;
    }
  }

  lemma StandsApart(text: string, lo: nat, a: string, b: string)
    requires Stands(text, lo, a + b)
    ensures Stands(text, lo, a) && Stands(text, lo + |a|, b)
  {
    var s := text[lo..lo + |a + b|];
    assert s[..|a|] == a && s[|a|..] == b;
  }

  lemma LaidCons(text: string, first: Segment, rest: seq<Segment>, lo: nat, hi: nat)
    requires first.start == lo && Stands(text, lo, first.text) && Laid(text, rest, lo + |first.text|, hi)
    ensures Laid(text, [first] + rest, lo, hi)
  {
  }

  /** What is chunked: the segments of the text, short blocks folded into prose. */
  function SegmentsOf(r: S.LineRules, norm: string, size: nat): seq<Segment> {
    Folded(S.SegmentsFrom(r, Lines(norm), 0, 0), size)
  }

  /** The segments of a text, folded, lie end to end over it and every block left is framed. */
  lemma FoldedSegments(r: S.LineRules, text: string, size: nat)
    requires S.BlankIsProse(r)
    ensures var out := SegmentsOf(r, text, size);
            && Laid(text, out, 0, |text|)
            && AllOk(out)
  {
    var segments := S.SegmentsFrom(r, Lines(text), 0, 0);
    S.SegmentsRestoreText(r, text);
    assert text[0..|text|] == text;
    SegmentsAreLaid(text, segments, 0);
    FoldingKeepsText(text, segments, size, 0, |text|);
    FoldingLeavesLongBlocks(segments, size);
    F.TextSegmentsAreOk(r, text);
  }

  // ---- Chunks -----------------------------------------------------------------------------

  /** The chunks of a block: itself, or those of a split. */
  ghost predicate BlockChunksOf(seg: Segment, text: string, cap: nat, chunks: seq<Chunk>) {
    if |text| <= cap then chunks == [Chunk(seg.start, text, Some(seg.kind), None)]
    else exists parts :: IsSplitOf(seg, text, cap, parts, chunks)
  }

  /** The chunks of one segment: windows of prose, or a block whole or in parts. */
  ghost predicate ChunksOf(seg: Segment, size: nat, overlap: nat, chunks: seq<Chunk>)
    requires size >= 1
  {
    if seg.kind.Prose? then ProseChunksOf(seg, size, overlap, chunks)
    else BlockChunksOf(seg, StripNewlines(seg.text), BLOCK_CAP_FACTOR * size, chunks)
  }

  /** A block of up to four chunk sizes, the newlines around it aside, is one chunk; a longer one has only numbered parts. */
  lemma BlockStaysWhole(seg: Segment, size: nat, overlap: nat, chunks: seq<Chunk>)
    requires size >= 1 && BlockOk(seg) && !seg.kind.Prose? && ChunksOf(seg, size, overlap, chunks)
    ensures |StripNewlines(seg.text)| <= 4 * size ==> chunks == [Chunk(seg.start, StripNewlines(seg.text), Some(seg.kind), None)]
    ensures |StripNewlines(seg.text)| > 4 * size ==> forall c :: c in chunks ==> c.part.Some?
  {
    var text, cap := StripNewlines(seg.text), BLOCK_CAP_FACTOR * size;
    if |text| > cap {
      var parts :| IsSplitOf(seg, text, cap, parts, chunks);
    }
  }

  function Flat(split: seq<seq<Chunk>>): seq<Chunk> {
    if split == [] then [] else Flat(split[..|split| - 1]) + split[|split| - 1]
  }

  /** `chunks` are the chunks of the normalized text `norm`, segment by segment. */
  ghost predicate IsChunking(
    r: S.LineRules, norm: string, size: nat, overlap: nat, split: seq<seq<Chunk>>, chunks: seq<Chunk>)
    requires size >= 1
  {
    var segments := SegmentsOf(r, norm, size);
    && |split| == |segments|
    && (forall k :: 0 <= k < |split| ==> ChunksOf(segments[k], size, overlap, split[k]))
    && chunks == Flat(split)
  }

  /** `chunks` are the chunks of the normalized text `norm`. */
  ghost predicate HasChunking(r: S.LineRules, norm: string, size: nat, overlap: nat, chunks: seq<Chunk>)
    requires size >= 1
  {
    exists split :: IsChunking(r, norm, size, overlap, split, chunks)
  }

  method ChunkSegment(seg: Segment, size: nat, overlap: nat) returns (chunks: seq<Chunk>)
    requires size >= 1 && BlockOk(seg)
    ensures ChunksOf(seg, size, overlap, chunks)
  {
    if seg.kind.Prose? {
      var pieces := W.MakeWindows(seg.text, size, overlap);
      chunks := ProseChunks(seg.start, pieces);
    } else {
      chunks := BlockPieces(seg, BLOCK_CAP_FACTOR * size);
    }
  }

  /** The chunks of one unit's text. */
  method ChunkText(r: S.LineRules, norm: string, size: nat, overlap: nat)
    returns (chunks: seq<Chunk>)
    requires size >= 1 && S.BlankIsProse(r)
    ensures HasChunking(r, norm, size, overlap, chunks)
  {
    var found := S.SegmentText(r, norm);
    var segments := Runs(found, size);
    FoldedSegments(r, norm, size);
    chunks := [];
    ghost var split: seq<seq<Chunk>> := [];
    for i := 0 to |segments|
      invariant |split| == i && chunks == Flat(split)
      invariant forall k :: 0 <= k < i ==> ChunksOf(segments[k], size, overlap, split[k])
    {
      var some := ChunkSegment(segments[i], size, overlap);
      assert (split + [some])[..i] == split;
      chunks := chunks + some;
      split := split + [some];
    }
    assert IsChunking(r, norm, size, overlap, split, chunks);
  }

  /** An extracted unit: its text, where it came from, and how it was extracted. */
  datatype Unit = Unit(text: string, locator: map<string, string>, via: string)

  /** A chunk with its unit's locator and extraction method. */
  datatype Located = Located(chunk: Chunk, locator: map<string, string>, via: string)

  function Place(unit: Unit, chunks: seq<Chunk>): seq<Located> {
    seq(|chunks|, k requires 0 <= k < |chunks| => Located(chunks[k], unit.locator, unit.via))
  }

  function PlaceAll(units: seq<Unit>, per: seq<seq<Chunk>>): seq<Located>
    requires |units| == |per|
  {
    if units == [] then []
    else PlaceAll(units[..|units| - 1], per[..|per| - 1]) + Place(units[|units| - 1], per[|per| - 1])
  }

  /** What the loop has made of some units: a chunking of each, under its own locator. */
  ghost predicate UnitsChunked(
    r: S.LineRules, units: seq<Unit>, size: nat, overlap: nat, out: seq<Located>, per: seq<seq<Chunk>>)
    requires size >= 1
  {
    && |per| == |units| && out == PlaceAll(units, per)
    && forall i :: 0 <= i < |units| ==> HasChunking(r, N.Normalize(units[i].text), size, overlap, per[i])
  }

  /** `out` are the chunks of all units, in order. */
  ghost predicate AreUnitChunks(r: S.LineRules, units: seq<Unit>, size: nat, overlap: nat, out: seq<Located>)
    requires size >= 1
  {
    exists per :: UnitsChunked(r, units, size, overlap, out, per)
  }

  lemma OneMoreUnit(
    r: S.LineRules, units: seq<Unit>, size: nat, overlap: nat, out: seq<Located>, per: seq<seq<Chunk>>,
    unit: Unit, chunks: seq<Chunk>)
    requires size >= 1 && UnitsChunked(r, units, size, overlap, out, per)
    requires HasChunking(r, N.Normalize(unit.text), size, overlap, chunks)
    ensures UnitsChunked(r, units + [unit], size, overlap, out + Place(unit, chunks), per + [chunks])
  {
    assert (units + [unit])[..|units|] == units && (per + [chunks])[..|per|] == per;
  }

  lemma TakeOneMore(units: seq<Unit>, i: nat)
    requires i < |units|
    ensures units[..i + 1] == units[..i] + [units[i]]
  {
  }

  /** `chunk_units`. */
  method ChunkUnits(r: S.LineRules, units: seq<Unit>, size: nat, overlap: nat)
    returns (out: seq<Located>)
    requires size >= 1 && S.BlankIsProse(r)
    ensures AreUnitChunks(r, units, size, overlap, out)
  {
    out := [];
    ghost var per: seq<seq<Chunk>> := [];
    for i := 0 to |units|
      invariant UnitsChunked(r, units[..i], size, overlap, out, per)
    {
      var norm := N.NormalizeText(units[i].text);
      var chunks := ChunkText(r, norm, size, overlap);
      OneMoreUnit(r, units[..i], size, overlap, out, per, units[i], chunks);
      TakeOneMore(units, i);
      out := out + Place(units[i], chunks);
      per := per + [chunks];
    }
    assert units[..|units|] == units;
  }
}
