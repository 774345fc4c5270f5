/** A block's chunks hold every character of it, whole or in parts. */
module BlockCoverage {
  import opened Text
  import opened Wrappers
  import opened Segments
  import opened BlockFrame
  import opened Cuts
  import opened BlockParts
  import opened ProseCoverage
  import opened Chunking

  // ---- What it is for a segment's chunk to hold a character ------------------------------

  /** The chunk is one of the parts the block is split into. */
  ghost predicate IsPartOf(seg: Segment, text: string, cap: nat, c: Chunk) {
    |text| > cap && exists parts, out :: IsSplitOf(seg, text, cap, parts, out) && c in out
  }

  /** Position `k` is among the part's own lines, which stand in the text where its locator says. */
  ghost predicate InBody(norm: string, f: Frame, c: Chunk, k: nat) {
    && WearsFrame(c, f.head, f.tail)
    && Stands(norm, c.start, Undressed(c, f.head, f.tail).text)
    && c.start <= k < c.start + |Undressed(c, f.head, f.tail).text|
  }

  /** Position `k` is in the block's own opening lines, which the part repeats in front. */
  ghost predicate InHead(norm: string, start: nat, f: Frame, c: Chunk, k: nat) {
    start <= k < start + |f.head| && Stands(norm, start, f.head) && WearsFrame(c, f.head, f.tail)
  }

  /** Position `k` is in the block's own closing line, which the part repeats at the end. */
  ghost predicate InTail(norm: string, end: nat, f: Frame, c: Chunk, k: nat) {
    |f.tail| <= end && end - |f.tail| <= k < end && Stands(norm, end - |f.tail|, f.tail) && WearsFrame(c, f.head, f.tail)
  }

  /** Position `k` is among the part's own lines, or in the head or tail of the block between `start` and `end`. */
  ghost predicate Within(norm: string, start: nat, end: nat, f: Frame, c: Chunk, k: nat) {
    InBody(norm, f, c, k) || InHead(norm, start, f, c, k) || InTail(norm, end, f, c, k)
  }

  /** The chunk is a part of this block and holds position `k`. */
  ghost predicate HoldsInPart(norm: string, seg: Segment, text: string, cap: nat, c: Chunk, k: nat) {
    && !seg.kind.Prose? && IsPartOf(seg, text, cap, c) && Stands(norm, seg.start, text)
    && Within(norm, seg.start, seg.start + |text|, UsedFrame(seg, text, cap), c, k)
  }

  /** The chunk, of this segment, holds position `k` of the text. */
  ghost predicate Holds(norm: string, seg: Segment, cap: nat, c: Chunk, k: nat) {
    && seg.start <= k < seg.start + |seg.text|
    && if c.part.None? then HoldsWhole(norm, c, k) else HoldsInPart(norm, seg, StripNewlines(seg.text), cap, c, k)
  }

  // ---- Blocks -----------------------------------------------------------------------------

  /** Stripping a block takes only newlines off its end. */
  lemma StripEndsOnly(s: string)
    requires StripNewlines(s) <= s
    ensures forall i :: |StripNewlines(s)| <= i < |s| ==> s[i] == '\n'
  {
    var n, t := LeadCount(s, IsNewline), StripNewlines(s);
    var rest := TrimStart(s, IsNewline);
    if rest != "" {
      assert rest[0] == s[n] && rest[0] != '\n';
      assert t != "" && t[0] == rest[0];
      assert n == 0 && rest == s;
    }
  }

  lemma {:induction false} PieceAt(
    text: string, base: nat, room: nat, bodies: seq<Piece>, lo: nat, hi: nat, q: nat) returns (x: nat)
    requires Tiles(text, base, room, bodies, lo, hi) && lo <= q < hi <= |text| && text[q] != '\n'
    ensures x < |bodies| && bodies[x].start <= base + q < bodies[x].start + |bodies[x].text|
    decreases |bodies|
  {
    var n := |bodies|;
    if base + q >= bodies[n - 1].start {
      x := n - 1;
    } else {
      assert Linked(text, base, bodies[n - 2], bodies[n - 1], room);
      var mid := bodies[n - 2].start + |bodies[n - 2].text| - base;
      StartTiles(text, base, room, bodies, lo, hi, n - 1, mid);
      x := PieceAt(text, base, room, bodies[..n - 1], lo, mid, q);
    }
  }

  lemma StandsInText(norm: string, start: nat, text: string, lo: nat, s: string)
    requires Stands(norm, start, text) && Stands(text, lo, s)
    ensures Stands(norm, start + lo, s)
  {
    SliceMatches(text, lo, lo + |s|);
    WithinStands(norm, start, text, lo, s);
  }

  lemma BodyHolds(norm: string, start: nat, text: string, f: Frame, c: Chunk, room: nat, k: nat)
    requires Stands(norm, start, text) && WearsFrame(c, f.head, f.tail)
    requires Placed(text, start, Undressed(c, f.head, f.tail), room)
    requires c.start <= k < c.start + |Undressed(c, f.head, f.tail).text|
    ensures InBody(norm, f, c, k)
  {
    StandsInText(norm, start, text, c.start - start, Undressed(c, f.head, f.tail).text);
  }

  lemma FrameHolds(norm: string, start: nat, text: string, f: Frame, c: Chunk, k: nat)
    requires Stands(norm, start, text) && WearsFrame(c, f.head, f.tail)
    requires Stands(text, 0, f.head) && Stands(text, |text| - |f.tail|, f.tail)
    requires start <= k < start + |f.head| || start + |text| - |f.tail| <= k < start + |text|
    ensures InHead(norm, start, f, c, k) || InTail(norm, start + |text|, f, c, k)
  {
    if k < start + |f.head| {
      StandsInText(norm, start, text, 0, f.head);
    } else {
      StandsInText(norm, start, text, |text| - |f.tail|, f.tail);
    }
  }

  /** The part whose own lines hold a character between the head and the tail. */
  lemma MiddleHolds(norm: string, start: nat, text: string, room: nat, f: Frame, chunks: seq<Chunk>, k: nat) returns (x: nat)
    requires Stands(norm, start, text) && |f.head| + |f.tail| <= |text|
    requires forall x :: 0 <= x < |chunks| ==> WearsFrame(chunks[x], f.head, f.tail)
    requires forall x :: 0 <= x < |chunks| ==> |f.head| + |f.tail| <= |chunks[x].text|
    requires Tiles(text, start, room, UndressedAll(chunks, f.head, f.tail), |f.head|, |text| - |f.tail|)
    requires start + |f.head| <= k < start + |text| - |f.tail| && text[k - start] != '\n'
    ensures x < |chunks| && InBody(norm, f, chunks[x], k)
  {
    var bodies := UndressedAll(chunks, f.head, f.tail);
    x := PieceAt(text, start, room, bodies, |f.head|, |text| - |f.tail|, k - start);
    assert Placed(text, start, bodies[x], room);
    assert bodies[x] == Undressed(chunks[x], f.head, f.tail);
    BodyHolds(norm, start, text, f, chunks[x], room, k);
  }

  /** Some part holds each character of a split block that is not a newline. */
  lemma SplitHolds(norm: string, seg: Segment, text: string, cap: nat, f: Frame, chunks: seq<Chunk>, k: nat) returns (x: nat)
    requires Stands(norm, seg.start, text) && SelfContained(seg, text, cap, chunks, f.head, f.tail)
    requires seg.start <= k < seg.start + |text| && text[k - seg.start] != '\n'
    ensures x < |chunks| && Within(norm, seg.start, seg.start + |text|, f, chunks[x], k)
  {
    if seg.start + |f.head| <= k < seg.start + |text| - |f.tail| {
      x := MiddleHolds(norm, seg.start, text, cap - |f.head| - |f.tail|, f, chunks, k);
    } else {
      x := 0;
      FrameHolds(norm, seg.start, text, f, chunks[0], k);
    }
  }

  lemma StrippedStands(norm: string, seg: Segment, text: string, k: nat)
    requires text == StripNewlines(seg.text) && text <= seg.text && Stands(norm, seg.start, seg.text)
    requires seg.start <= k < seg.start + |seg.text| && norm[k] != '\n'
    ensures Stands(norm, seg.start, text) && k < seg.start + |text|
  {
    StripEndsOnly(seg.text);
    SameChar(norm, seg.start, seg.text, k);
    assert Stands(seg.text, 0, text);
    StandsInText(norm, seg.start, seg.text, 0, text);
  }

  lemma PartsAreParts(seg: Segment, text: string, cap: nat, chunks: seq<Chunk>, x: nat)
    requires |text| > cap && x < |chunks| && BlockChunksOf(seg, text, cap, chunks)
    ensures IsPartOf(seg, text, cap, chunks[x]) && chunks[x].part.Some?
  {
    var parts :| IsSplitOf(seg, text, cap, parts, chunks);
    assert chunks[x] in chunks;
  }

  lemma PartsHold(norm: string, seg: Segment, text: string, cap: nat, chunks: seq<Chunk>, k: nat) returns (x: nat)
    requires FrameOk(seg, text) && |text| > cap >= 2 && BlockChunksOf(seg, text, cap, chunks)
    requires Stands(norm, seg.start, text) && seg.start <= k < seg.start + |text| && text[k - seg.start] != '\n'
    ensures x < |chunks| && Within(norm, seg.start, seg.start + |text|, UsedFrame(seg, text, cap), chunks[x], k)
  {
    var parts :| IsSplitOf(seg, text, cap, parts, chunks);
    PartsAreSelfContained(seg, text, cap, parts, chunks);
    x := SplitHolds(norm, seg, text, cap, UsedFrame(seg, text, cap), chunks, k);
  }

  /** A block over the cap is held in parts. */
  lemma LongBlockHolds(norm: string, seg: Segment, text: string, cap: nat, chunks: seq<Chunk>, k: nat) returns (x: nat)
    requires cap >= 2 && !seg.kind.Prose? && FrameOk(seg, text) && |text| > cap
    requires BlockChunksOf(seg, text, cap, chunks)
    requires Stands(norm, seg.start, text) && seg.start <= k < seg.start + |text| && norm[k] != '\n'
    ensures x < |chunks| && chunks[x].part.Some? && HoldsInPart(norm, seg, text, cap, chunks[x], k)
  {
    SameChar(norm, seg.start, text, k);
    x := PartsHold(norm, seg, text, cap, chunks, k);
    PartsAreParts(seg, text, cap, chunks, x);
  }

  lemma ShortBlockHolds(norm: string, seg: Segment, text: string, k: nat)
    requires Stands(norm, seg.start, text) && seg.start <= k < seg.start + |text|
    ensures HoldsWhole(norm, Chunk(seg.start, text, Some(seg.kind), None), k)
  {
    assert HeldAt(norm, Chunk(seg.start, text, Some(seg.kind), None), k, seg.start);
  }

  lemma BlockHolds(norm: string, seg: Segment, text: string, cap: nat, chunks: seq<Chunk>, k: nat) returns (x: nat)
    requires cap >= 2 && !seg.kind.Prose? && FrameOk(seg, text) && text == StripNewlines(seg.text)
    requires BlockChunksOf(seg, text, cap, chunks)
    requires Stands(norm, seg.start, seg.text) && seg.start <= k < seg.start + |seg.text| && !IsSpace(norm[k])
    ensures x < |chunks| && Holds(norm, seg, cap, chunks[x], k)
  {
    StrippedStands(norm, seg, text, k);
    if |text| <= cap {
      x := 0;
      ShortBlockHolds(norm, seg, text, k);
    } else {
      x := LongBlockHolds(norm, seg, text, cap, chunks, k);
    }
  }

  lemma BlockBounded(seg: Segment, text: string, cap: nat, chunks: seq<Chunk>, x: nat)
    requires cap >= 2 && FrameOk(seg, text) && BlockChunksOf(seg, text, cap, chunks) && x < |chunks|
    ensures |chunks[x].text| <= cap && chunks[x].structure.Some?
  {
    if |text| > cap {
      var parts :| IsSplitOf(seg, text, cap, parts, chunks);
      PartsAreSelfContained(seg, text, cap, parts, chunks);
      assert NumberedPart(chunks, x, seg.kind, cap);
    }
  }
}

/** Chunking loses nothing, and no chunk outgrows its bound. */
module ChunkCoverage {
  import opened Text
  import opened Wrappers
  import opened Segments
  import opened Folding
  import opened ProseCoverage
  import opened Chunking
  import opened B = BlockCoverage
  import N = Normalizing
  import S = Structure

  lemma {:induction false} InFlatAt(split: seq<seq<Chunk>>, i: nat, x: nat) returns (at: nat)
    requires i < |split| && x < |split[i]|
    ensures at < |Flat(split)| && Flat(split)[at] == split[i][x]
    decreases |split|
  {
    var n := |split| - 1;
    if i < n {
      at := InFlatAt(split[..n], i, x);
    } else {
      at := |Flat(split[..n])| + x;
    }
  }

  lemma SegmentHolds(norm: string, seg: Segment, size: nat, overlap: nat, chunks: seq<Chunk>, k: nat) returns (x: nat)
    requires size >= 1 && BlockOk(seg) && ChunksOf(seg, size, overlap, chunks) && Stands(norm, seg.start, seg.text)
    requires seg.start <= k < seg.start + |seg.text| && !IsSpace(norm[k])
    ensures x < |chunks| && Holds(norm, seg, BLOCK_CAP_FACTOR * size, chunks[x], k)
  {
    SameChar(norm, seg.start, seg.text, k);
    if seg.kind.Prose? {
      x := ProseHolds(norm, seg, size, overlap, chunks, k, k - seg.start);
    } else {
      x := B.BlockHolds(norm, seg, StripNewlines(seg.text), BLOCK_CAP_FACTOR * size, chunks, k);
    }
  }

  /** The chunk holds character `k` of the text, as a chunk of the one segment that character is in. */
  ghost predicate HoldsInText(r: S.LineRules, norm: string, size: nat, c: Chunk, k: nat) {
    exists seg :: seg in SegmentsOf(r, norm, size) && Holds(norm, seg, BLOCK_CAP_FACTOR * size, c, k)
  }

  /** Every character of the normalized text that is not whitespace is in some chunk, where its locator says. */
  lemma EveryCharIsChunked(r: S.LineRules, norm: string, size: nat, overlap: nat, chunks: seq<Chunk>, k: nat)
    requires size >= 1 && S.BlankIsProse(r) && HasChunking(r, norm, size, overlap, chunks)
    requires k < |norm| && !IsSpace(norm[k])
    ensures exists x :: 0 <= x < |chunks| && HoldsInText(r, norm, size, chunks[x], k)
  {
    var split :| IsChunking(r, norm, size, overlap, split, chunks);
    var segments := SegmentsOf(r, norm, size);
    FoldedSegments(r, norm, size);
    var i := PositionInOne(norm, segments, 0, |norm|, k);
    assert ChunksOf(segments[i], size, overlap, split[i]);
    var x := SegmentHolds(norm, segments[i], size, overlap, split[i], k);
    var at := InFlatAt(split, i, x);
    assert HoldsInText(r, norm, size, chunks[at], k);
  }

  /** A prose chunk is within a window, a block or a part of one within the cap, and none is blank prose. */
  ghost predicate Bounded(c: Chunk, size: nat) {
    if c.structure.None? then |c.text| <= size && !Blank(c.text) else |c.text| <= BLOCK_CAP_FACTOR * size
  }

  lemma SegmentBounded(seg: Segment, size: nat, overlap: nat, chunks: seq<Chunk>, c: Chunk)
    requires size >= 1 && BlockOk(seg) && ChunksOf(seg, size, overlap, chunks) && c in chunks
    ensures Bounded(c, size)
  {
    var x :| 0 <= x < |chunks| && chunks[x] == c;
    if seg.kind.Prose? {
      ProseBounded(seg, size, overlap, chunks, x);
    } else {
      B.BlockBounded(seg, StripNewlines(seg.text), BLOCK_CAP_FACTOR * size, chunks, x);
    }
  }

  lemma {:induction false} InFlat(split: seq<seq<Chunk>>, c: Chunk) returns (i: nat)
    requires c in Flat(split)
    ensures i < |split| && c in split[i]
    decreases |split|
  {
    if c in split[|split| - 1] {
      i := |split| - 1;
    } else {
      i := InFlat(split[..|split| - 1], c);
    }
  }

  lemma ChunksAreBounded(r: S.LineRules, norm: string, size: nat, overlap: nat, chunks: seq<Chunk>)
    requires size >= 1 && S.BlankIsProse(r) && HasChunking(r, norm, size, overlap, chunks)
    ensures forall c :: c in chunks ==> Bounded(c, size)
  {
    var split :| IsChunking(r, norm, size, overlap, split, chunks);
    var segments := SegmentsOf(r, norm, size);
    FoldedSegments(r, norm, size);
    forall c | c in chunks
      ensures Bounded(c, size)
    {
      var i := InFlat(split, c);
      assert BlockOk(segments[i]);
      SegmentBounded(segments[i], size, overlap, split[i], c);
    }
  }

  // ---- Many units -------------------------------------------------------------------------

  /** The chunk carries the unit's locator and method. */
  predicate IsFrom(unit: Unit, l: Located) {
    l.locator == unit.locator && l.via == unit.via
  }

  /** The chunk is the unit's and holds character `k` of its normalized text. */
  ghost predicate HoldsOf(r: S.LineRules, size: nat, unit: Unit, l: Located, k: nat) {
    IsFrom(unit, l) && HoldsInText(r, N.Normalize(unit.text), size, l.chunk, k)
  }

  ghost predicate LosesNothing(r: S.LineRules, size: nat, unit: Unit, out: seq<Located>) {
    var norm := N.Normalize(unit.text);
    forall k: nat :: k < |norm| && !IsSpace(norm[k]) ==> exists at :: 0 <= at < |out| && HoldsOf(r, size, unit, out[at], k)
  }

  lemma {:induction false} PlacedAt(units: seq<Unit>, per: seq<seq<Chunk>>, i: nat, x: nat) returns (at: nat)
    requires |per| == |units| && i < |units| && x < |per[i]|
    ensures at < |PlaceAll(units, per)|
    ensures PlaceAll(units, per)[at] == Located(per[i][x], units[i].locator, units[i].via)
    decreases |units|
  {
    var n := |units| - 1;
    if i < n {
      at := PlacedAt(units[..n], per[..n], i, x);
    } else {
      at := |PlaceAll(units[..n], per[..n])| + x;
    }
  }

  lemma {:induction false} PlacedFrom(units: seq<Unit>, per: seq<seq<Chunk>>, l: Located) returns (i: nat)
    requires |per| == |units| && l in PlaceAll(units, per)
    ensures i < |units| && l.chunk in per[i] && l.locator == units[i].locator && l.via == units[i].via
    decreases |units|
  {
    var n := |units| - 1;
    if l in Place(units[n], per[n]) {
      i := n;
    } else {
      i := PlacedFrom(units[..n], per[..n], l);
    }
  }

  /**
    Of many units nothing is lost and nothing mixed up: every character of each unit that is not
    whitespace is in a chunk carrying that unit's locator, and every chunk is a bounded one of
    some unit, under that unit's locator.
   */
  lemma UnitsAreKeptApart(r: S.LineRules, units: seq<Unit>, size: nat, overlap: nat, out: seq<Located>)
    requires size >= 1 && S.BlankIsProse(r) && AreUnitChunks(r, units, size, overlap, out)
    ensures forall unit :: unit in units ==> LosesNothing(r, size, unit, out)
    ensures forall l :: l in out ==> Bounded(l.chunk, size) && exists unit :: unit in units && IsFrom(unit, l)
  {
    var per :| UnitsChunked(r, units, size, overlap, out, per);
    forall unit, k: nat | unit in units && k < |N.Normalize(unit.text)| && !IsSpace(N.Normalize(unit.text)[k])
      ensures exists at :: 0 <= at < |out| && HoldsOf(r, size, unit, out[at], k)
    {
      var i :| 0 <= i < |units| && units[i] == unit;
      var norm := N.Normalize(unit.text);
      EveryCharIsChunked(r, norm, size, overlap, per[i], k);
      var x :| 0 <= x < |per[i]| && HoldsInText(r, norm, size, per[i][x], k);
      var at := PlacedAt(units, per, i, x);
      assert HoldsOf(r, size, unit, out[at], k);
    }
    forall l | l in out
      ensures Bounded(l.chunk, size) && exists unit :: unit in units && IsFrom(unit, l)
    {
      var i := PlacedFrom(units, per, l);
      assert units[i] in units && IsFrom(units[i], l);
      ChunksAreBounded(r, N.Normalize(units[i].text), size, overlap, per[i]);
    }
  }
}
