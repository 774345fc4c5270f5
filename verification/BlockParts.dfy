/** Cutting a block's lines into pieces that tile the block (`app/rag/chunking.py`, `_block_pieces`). */
module Cuts {
  import opened Text
  import opened Segments
  import opened BlockFrame

  function Min(a: nat, b: nat): nat {
    if a < b then a else b
  }

  /** The pieces of one line from `at` on: the whole line, or cuts of `room` characters each. */
  function CutLine(line: string, offset: nat, room: nat, at: nat): seq<Piece>
    requires room >= 1
    decreases |line| + 1 - at
  {
    if at > 0 && at >= |line| then []
    else [Piece(offset + at, line[at..Min(at + room, |line|)])] + CutLine(line, offset, room, at + room)
  }

  /** The pieces of the first `n` lines, of which the first starts at `start`. */
  function CutLines(lines: seq<string>, n: nat, start: nat, room: nat): seq<Piece>
    requires room >= 1 && n <= |lines|
  {
    if n == 0 then []
    else CutLines(lines, n - 1, start, room) + CutLine(lines[n - 1], start + LineStart(lines, n - 1), room, 0)
  }

  /** The loop over a line's cuts, and around it the loop over the lines. */
  method CutBody(body: seq<string>, start: nat, room: nat) returns (pieces: seq<Piece>)
    requires room >= 1
    ensures pieces == CutLines(body, |body|, start, room)
  {
    pieces := [];
    var offset := start;
    var j := 0;
    while j < |body|
      invariant j <= |body| && offset == start + LineStart(body, j)
      invariant pieces == CutLines(body, j, start, room)
    {
      var line := body[j];
      ghost var before := pieces;
      var at := 0;
      while at == 0 || at < |line|
        invariant pieces + CutLine(line, offset, room, at) == before + CutLine(line, offset, room, 0)
        decreases |line| + 1 - at
      {
        assert pieces + [Piece(offset + at, line[at..Min(at + room, |line|)])] + CutLine(line, offset, room, at + room)
            == pieces + CutLine(line, offset, room, at);
        pieces := pieces + [Piece(offset + at, line[at..Min(at + room, |line|)])];
        at := at + room;
      }
      assert pieces + [] == pieces;
      offset := offset + |line| + 1;
      j := j + 1;
    }
  }

  // ---- The pieces tile the text -----------------------------------------------------------

  /** The piece stands in the text at its offset from `base`. */
  ghost predicate Placed(text: string, base: nat, p: Piece, room: nat) {
    |p.text| <= room && Stands(text, p.start - base, p.text)
  }

  /** `q` follows `p`: at once when `p` was cut at the room, otherwise after the newline that ends `p`. */
  ghost predicate Linked(text: string, base: nat, p: Piece, q: Piece, room: nat) {
    var end := p.start - base + |p.text|;
    || (|p.text| == room && q.start == base + end)
    || (0 <= end < |text| && text[end] == '\n' && q.start == base + end + 1)
  }

  /** The pieces run from `lo` to `hi` of the text, in order and without a gap beyond the newlines. */
  ghost predicate Tiles(text: string, base: nat, room: nat, pieces: seq<Piece>, lo: nat, hi: nat) {
    && pieces != []
    && pieces[0].start == base + lo
    && (forall k :: 0 <= k < |pieces| ==> Placed(text, base, pieces[k], room))
    && (forall k :: 0 <= k < |pieces| - 1 ==> Linked(text, base, pieces[k], pieces[k + 1], room))
    && pieces[|pieces| - 1].start + |pieces[|pieces| - 1].text| == base + hi
  }

  lemma TilesJoin(text: string, base: nat, room: nat, a: seq<Piece>, b: seq<Piece>, lo: nat, mid: nat, next: nat, hi: nat)
    requires Tiles(text, base, room, a, lo, mid) && Tiles(text, base, room, b, next, hi)
    requires Linked(text, base, a[|a| - 1], b[0], room)
    ensures Tiles(text, base, room, a + b, lo, hi)
  {
    var all := a + b;
    forall k | 0 <= k < |all| - 1
      ensures Linked(text, base, all[k], all[k + 1], room)
    {
      if k < |a| - 1 {
        assert Linked(text, base, a[k], a[k + 1], room);
      } else if k >= |a| {
        assert Linked(text, base, b[k - |a|], b[k - |a| + 1], room);
      }
    }
  }

  lemma CutStands(text: string, lo: nat, line: string, at: nat, end: nat)
    requires Stands(text, lo, line) && at <= end <= |line|
    ensures Stands(text, lo + at, line[at..end])
  {
    SliceOfSlice(text, lo, lo + |line|, at, end);
  }

  lemma SliceOfSlice(s: string, a: nat, b: nat, c: nat, d: nat)
    requires a <= b <= |s| && c <= d <= b - a
    ensures s[a..b][c..d] == s[a + c..a + d]
  {
    var x, y := s[a..b][c..d], s[a + c..a + d];
    assert |x| == |y|;
    forall i | 0 <= i < d - c
      ensures x[i] == y[i]
    {
      assert x[i] == s[a..b][c + i] == s[a + (c + i)];
    }
  }

  lemma OneTiles(text: string, base: nat, room: nat, lo: nat, s: string)
    requires Stands(text, lo, s) && |s| <= room
    ensures Tiles(text, base, room, [Piece(base + lo, s)], lo, lo + |s|)
  {
    assert Piece(base + lo, s).start - base == lo;
  }

  /** A cut of exactly `room` characters is followed by the rest of its line. */
  lemma CutContinues(text: string, base: nat, room: nat, s: string, rest: seq<Piece>, lo: nat, hi: nat)
    requires Stands(text, lo, s) && |s| == room && Tiles(text, base, room, rest, lo + room, hi)
    ensures Tiles(text, base, room, [Piece(base + lo, s)] + rest, lo, hi)
  {
    OneTiles(text, base, room, lo, s);
    TilesJoin(text, base, room, [Piece(base + lo, s)], rest, lo, lo + room, lo + room, hi);
  }

  /** The cuts of a line from `at` on tile it from there. */
  ghost predicate CutsTile(text: string, base: nat, line: string, lo: nat, room: nat, at: nat)
    requires room >= 1
  {
    Tiles(text, base, room, CutLine(line, base + lo, room, at), lo + at, lo + |line|)
  }

  lemma {:induction false} CutLineTiles(text: string, base: nat, line: string, lo: nat, room: nat, at: nat)
    requires room >= 1 && Stands(text, lo, line) && (at == 0 || at < |line|)
    ensures CutsTile(text, base, line, lo, room, at)
    decreases |line| - at
  {
    if at + room < |line| {
      CutLineTiles(text, base, line, lo, room, at + room);
      FirstCut(text, base, line, lo, room, at);
    } else {
      LastCut(text, base, line, lo, room, at);
    }
  }

  lemma FirstCut(text: string, base: nat, line: string, lo: nat, room: nat, at: nat)
    requires room >= 1 && Stands(text, lo, line) && at + room < |line| && CutsTile(text, base, line, lo, room, at + room)
    ensures CutsTile(text, base, line, lo, room, at)
  {
    var cut, rest := line[at..at + room], CutLine(line, base + lo, room, at + room);
    CutStands(text, lo, line, at, at + room);
    CutContinues(text, base, room, cut, rest, lo + at, lo + |line|);
    assert CutLine(line, base + lo, room, at) == [Piece(base + (lo + at), cut)] + rest;
  }

  lemma LastCut(text: string, base: nat, line: string, lo: nat, room: nat, at: nat)
    requires room >= 1 && Stands(text, lo, line) && (at == 0 || at < |line|) && at + room >= |line|
    ensures CutsTile(text, base, line, lo, room, at)
  {
    CutStands(text, lo, line, at, |line|);
    OneTiles(text, base, room, lo + at, line[at..|line|]);
    assert CutLine(line, base + lo, room, at) == [Piece(base + (lo + at), line[at..|line|])];
  }

  /** The pieces of the line after a newline continue the tiling. */
  lemma NextLineTiles(text: string, base: nat, room: nat, before: seq<Piece>, last: seq<Piece>, lo: nat, mid: nat, hi: nat)
    requires Tiles(text, base, room, before, lo, mid) && Tiles(text, base, room, last, mid + 1, hi)
    requires mid < |text| && text[mid] == '\n'
    ensures Tiles(text, base, room, before + last, lo, hi)
  {
    TilesJoin(text, base, room, before, last, lo, mid, mid + 1, hi);
  }

  /** The pieces of one more line, which stands after the newline that ends those before it. */
  lemma OneMoreLine(text: string, lo: nat, body: seq<string>, n: nat, base: nat, room: nat, at: nat)
    requires room >= 1 && 1 < n <= |body| && at == lo + LineStart(body, n - 1) && Stands(text, at, body[n - 1])
    requires 0 < at <= |text| && text[at - 1] == '\n'
    requires Tiles(text, base, room, CutLines(body, n - 1, base + lo, room), lo, at - 1)
    ensures Tiles(text, base, room, CutLines(body, n, base + lo, room), lo, at + |body[n - 1]|)
  {
    CutLineTiles(text, base, body[n - 1], at, room, 0);
    var last := CutLine(body[n - 1], base + at, room, 0);
    NextLineTiles(text, base, room, CutLines(body, n - 1, base + lo, room), last, lo, at - 1, at + |body[n - 1]|);
  }

  lemma OnlyLine(text: string, lo: nat, body: seq<string>, base: nat, room: nat)
    requires room >= 1 && body != [] && Stands(text, lo, body[0])
    ensures Tiles(text, base, room, CutLines(body, 1, base + lo, room), lo, lo + |body[0]|)
  {
    CutLineTiles(text, base, body[0], lo, room, 0);
    var last := CutLine(body[0], base + lo, room, 0);
    assert CutLines(body, 0, base + lo, room) + last == last;
  }

  /** The lines of a body are cut into pieces that tile it, up to the end of its `n`th line. */
  lemma {:induction false} CutLinesTile(text: string, lo: nat, hi: nat, body: seq<string>, n: nat, base: nat, room: nat)
    requires room >= 1 && 0 < n <= |body| && BodyStands(text, lo, hi, body)
    ensures Tiles(text, base, room, CutLines(body, n, base + lo, room), lo, lo + LineStart(body, n - 1) + |body[n - 1]|)
    decreases n
  {
    assert BodyLine(text, lo, hi, body, n - 1);
    if n == 1 {
      OnlyLine(text, lo, body, base, room);
    } else {
      CutLinesTile(text, lo, hi, body, n - 1, base, room);
      assert BodyLine(text, lo, hi, body, n - 2);
      OneMoreLine(text, lo, body, n, base, room, lo + LineStart(body, n - 1));
    }
  }
}

/** How a block becomes chunks: whole within the cap, in framed parts beyond it. */
module BlockParts {
  import opened Text
  import opened Wrappers
  import opened Segments
  import opened BlockFrame
  import opened Packing
  import opened Cuts

  function Room(f: Frame, cap: nat): int {
    cap - |f.head| - |f.tail|
  }

  /** The frame, or none when it would crowd out the content. */
  function UsedFrame(seg: Segment, text: string, cap: nat): Frame {
    var f := FrameOf(seg, text);
    if Room(f, cap) < cap / 2 then Frame("", "", Split(text)) else f
  }

  function PiecesOf(f: Frame, start: nat, cap: nat): seq<Piece>
    requires Room(f, cap) >= 1
  {
    CutLines(f.body, |f.body|, start + |f.head|, Room(f, cap))
  }

  /** What a packed part says of the block: where it starts and its lines. */
  function BodyOf(part: seq<Piece>): Piece
    requires part != []
  {
    Piece(part[0].start, JoinPieces(part))
  }

  function Bodies(parts: seq<seq<Piece>>): seq<Piece>
    requires forall k :: 0 <= k < |parts| ==> parts[k] != []
  {
    seq(|parts|, k requires 0 <= k < |parts| => BodyOf(parts[k]))
  }

  /** The parts as chunks, each with the frame around it. */
  function Dressed(bodies: seq<Piece>, f: Frame, kind: Kind): seq<Chunk> {
    seq(|bodies|, k requires 0 <= k < |bodies| =>
      Chunk(bodies[k].start, f.head + bodies[k].text + f.tail, Some(kind), Some(Part(k + 1, |bodies|))))
  }

  ghost predicate IsSplitOf(seg: Segment, text: string, cap: nat, parts: seq<seq<Piece>>, out: seq<Chunk>)
  {
    var f := UsedFrame(seg, text, cap);
    && Room(f, cap) >= 1
    && AreParts(parts, PiecesOf(f, seg.start, cap), Room(f, cap))
    && out == Dressed(Bodies(parts), f, seg.kind)
  }

  lemma UsedFits(seg: Segment, text: string, cap: nat)
    requires FrameOk(seg, text) && |text| > cap >= 2
    ensures Fits(text, UsedFrame(seg, text, cap)) && Room(UsedFrame(seg, text, cap), cap) >= cap / 2
  {
    FrameFits(seg, text);
    UnframedFits(text);
  }

  lemma FittedTile(text: string, f: Frame, base: nat, cap: nat)
    requires Fits(text, f) && Room(f, cap) >= 1
    ensures Tiles(text, base, Room(f, cap), PiecesOf(f, base, cap), |f.head|, |text| - |f.tail|)
  {
    CutLinesTile(text, |f.head|, |text| - |f.tail|, f.body, |f.body|, base, Room(f, cap));
    assert BodyLine(text, |f.head|, |text| - |f.tail|, f.body, |f.body| - 1);
  }

  /** The pieces of a block too long to keep whole tile what its frame leaves. */
  lemma PiecesTile(seg: Segment, text: string, cap: nat)
    requires FrameOk(seg, text) && |text| > cap >= 2
    ensures var f := UsedFrame(seg, text, cap);
            && |f.head| + |f.tail| <= |text| && Room(f, cap) >= 1
            && Tiles(text, seg.start, Room(f, cap), PiecesOf(f, seg.start, cap), |f.head|, |text| - |f.tail|)
  {
    UsedFits(seg, text, cap);
    FittedTile(text, UsedFrame(seg, text, cap), seg.start, cap);
  }

  ghost predicate AreParts(parts: seq<seq<Piece>>, pieces: seq<Piece>, room: nat) {
    IsPacking(parts, pieces, room) && forall k :: 0 <= k < |parts| ==> parts[k] != []
  }

  /** Cut what the frame leaves and pack the pieces. */
  method PackBody(text: string, base: nat, f: Frame, cap: nat) returns (parts: seq<seq<Piece>>)
    requires Fits(text, f) && Room(f, cap) >= 1
    ensures AreParts(parts, PiecesOf(f, base, cap), Room(f, cap))
  {
    FittedTile(text, f, base, cap);
    var pieces := CutBody(f.body, base + |f.head|, Room(f, cap));
    assert pieces == PiecesOf(f, base, cap);
    assert forall k :: 0 <= k < |pieces| ==> Placed(text, base, pieces[k], Room(f, cap));
    parts := Pack(pieces, Room(f, cap));
    assert forall k :: 0 <= k < |parts| ==> FitsRoom(parts[k], Room(f, cap));
  }

  /** A block longer than the cap: choose the frame, cut the lines between, pack and dress the parts. */
  method SplitBlock(seg: Segment, text: string, cap: nat) returns (out: seq<Chunk>)
    requires FrameOk(seg, text) && |text| > cap >= 2
    ensures exists parts :: IsSplitOf(seg, text, cap, parts, out)
  {
    UsedFits(seg, text, cap);
    var f := FrameOf(seg, text);
    if Room(f, cap) < cap / 2 {
      f := Frame("", "", Split(text));
    }
    var parts := PackBody(text, seg.start, f, cap);
    out := Dressed(Bodies(parts), f, seg.kind);
    MakesSplit(seg, text, cap, f, parts, out);
  }

  lemma MakesSplit(seg: Segment, text: string, cap: nat, f: Frame, parts: seq<seq<Piece>>, out: seq<Chunk>)
    requires f == UsedFrame(seg, text, cap) && Room(f, cap) >= 1
    requires AreParts(parts, PiecesOf(f, seg.start, cap), Room(f, cap)) && out == Dressed(Bodies(parts), f, seg.kind)
    ensures IsSplitOf(seg, text, cap, parts, out)
  {
  }

  /** `_block_pieces`. */
  method BlockPieces(seg: Segment, cap: nat) returns (out: seq<Chunk>)
    requires cap >= 2 && FrameOk(seg, StripNewlines(seg.text))
    ensures var text := StripNewlines(seg.text);
            if |text| <= cap then out == [Chunk(seg.start, text, Some(seg.kind), None)]
            else exists parts :: IsSplitOf(seg, text, cap, parts, out)
  {
    var text := StripNewlines(seg.text);
    if |text| <= cap {
      return [Chunk(seg.start, text, Some(seg.kind), None)];
    }
    out := SplitBlock(seg, text, cap);
  }

  // ---- What the parts guarantee -----------------------------------------------------------

  /** Pieces on lines of their own stand in the text when newlines stand between them. */
  lemma JoinStands(text: string, lo: nat, a: string, b: string)
    requires Stands(text, lo, a) && lo + |a| < |text| && text[lo + |a|] == '\n' && Stands(text, lo + |a| + 1, b)
    ensures Stands(text, lo, a + "\n" + b)
  {
    var mid, hi := lo + |a|, lo + |a| + 1 + |b|;
    assert text[lo..hi] == text[lo..mid] + [text[mid]] + text[mid + 1..hi];
  }

  lemma SubTiles(text: string, base: nat, room: nat, pieces: seq<Piece>, lo: nat, hi: nat, i: nat, j: nat)
    requires Tiles(text, base, room, pieces, lo, hi) && i < j <= |pieces|
    ensures pieces[i].start >= base && pieces[j - 1].start >= base
    ensures Tiles(text, base, room, pieces[i..j], pieces[i].start - base, pieces[j - 1].start + |pieces[j - 1].text| - base)
  {
    var sub := pieces[i..j];
    assert Placed(text, base, pieces[i], room) && Placed(text, base, pieces[j - 1], room);
    forall k | 0 <= k < |sub| - 1
      ensures Linked(text, base, sub[k], sub[k + 1], room)
    {
      assert Linked(text, base, pieces[i + k], pieces[i + k + 1], room);
    }
  }

  /** A part within the room is one stretch of the text: only whole lines are joined. */
  lemma {:induction false} PartStands(text: string, base: nat, room: nat, part: seq<Piece>, lo: nat, hi: nat)
    requires Tiles(text, base, room, part, lo, hi) && |JoinPieces(part)| <= room
    ensures Stands(text, lo, JoinPieces(part)) && lo + |JoinPieces(part)| == hi
    ensures |part[|part| - 1].text| <= |JoinPieces(part)|
    decreases |part|
  {
    var n := |part|;
    var last := part[n - 1];
    assert Placed(text, base, last, room);
    if n > 1 {
      var init, mid := part[..n - 1], part[n - 2].start + |part[n - 2].text| - base;
      SubTiles(text, base, room, part, lo, hi, 0, n - 1);
      assert part[0..n - 1] == init;
      PartStands(text, base, room, init, lo, mid);
      assert Linked(text, base, init[|init| - 1], last, room);
      LineJoins(text, base, room, init[|init| - 1], last, lo, JoinPieces(init));
    }
  }

  /** A line that shares a part is not cut at the room, so a newline ends it. */
  lemma LineJoins(text: string, base: nat, room: nat, p: Piece, q: Piece, lo: nat, joined: string)
    requires Stands(text, lo, joined) && |p.text| <= |joined| < room && lo + |joined| == p.start - base + |p.text|
    requires Linked(text, base, p, q, room) && Placed(text, base, q, room)
    ensures Stands(text, lo, joined + "\n" + q.text) && q.start - base == lo + |joined| + 1
  {
    JoinStands(text, lo, joined, q.text);
  }

  lemma PackingInit(parts: seq<seq<Piece>>, pieces: seq<Piece>, room: nat) returns (n: nat)
    requires AreParts(parts, pieces, room) && |parts| > 1
    ensures 0 < n < |pieces| && parts[|parts| - 1] == pieces[n..]
    ensures AreParts(parts[..|parts| - 1], pieces[..n], room)
    ensures var before := parts[|parts| - 2]; before[|before| - 1] == pieces[n - 1]
  {
    var init := parts[..|parts| - 1];
    n := |Flatten(init)|;
    assert Flatten(init) == pieces[..n];
    assert init[|init| - 1] == parts[|parts| - 2];
  }

  lemma RestTiles(text: string, base: nat, room: nat, pieces: seq<Piece>, lo: nat, hi: nat, n: nat)
    requires Tiles(text, base, room, pieces, lo, hi) && n < |pieces|
    ensures pieces[n].start >= base && Tiles(text, base, room, pieces[n..], pieces[n].start - base, hi)
  {
    SubTiles(text, base, room, pieces, lo, hi, n, |pieces|);
    assert pieces[n..|pieces|] == pieces[n..];
  }

  lemma StartTiles(text: string, base: nat, room: nat, pieces: seq<Piece>, lo: nat, hi: nat, n: nat, mid: int)
    requires Tiles(text, base, room, pieces, lo, hi) && 0 < n < |pieces|
    requires mid == pieces[n - 1].start + |pieces[n - 1].text| - base
    ensures mid >= 0 && Tiles(text, base, room, pieces[..n], lo, mid)
  {
    SubTiles(text, base, room, pieces, lo, hi, 0, n);
    assert pieces[0..n] == pieces[..n];
  }

  /** A body that ends where piece `p` does leads on to whatever `p` leads on to. */
  lemma BodyLinks(text: string, base: nat, room: nat, p: Piece, q: Piece, body: Piece, next: Piece)
    requires Linked(text, base, p, q, room) && Placed(text, base, body, room)
    requires body.start + |body.text| == p.start + |p.text| && |p.text| <= |body.text| && next.start == q.start
    ensures Linked(text, base, body, next, room)
  {
  }

  /** A last part tiles on from the ones before it. */
  lemma LastBodyTiles(
    text: string, base: nat, room: nat, p: Piece, q: Piece, bodies: seq<Piece>, last: seq<Piece>,
    lo: nat, mid: nat, next: nat, hi: nat)
    requires Tiles(text, base, room, bodies, lo, mid) && |p.text| <= |bodies[|bodies| - 1].text|
    requires p.start + |p.text| == base + mid && q.start == base + next && Linked(text, base, p, q, room)
    requires Tiles(text, base, room, last, next, hi) && |last| == 1
    ensures Tiles(text, base, room, bodies + last, lo, hi)
  {
    assert Placed(text, base, bodies[|bodies| - 1], room);
    BodyLinks(text, base, room, p, q, bodies[|bodies| - 1], last[0]);
    TilesJoin(text, base, room, bodies, last, lo, mid, next, hi);
  }

  lemma OnePartTiles(text: string, base: nat, room: nat, part: seq<Piece>, lo: nat, hi: nat)
    requires Tiles(text, base, room, part, lo, hi) && |JoinPieces(part)| <= room
    ensures Tiles(text, base, room, [BodyOf(part)], lo, hi) && |part[|part| - 1].text| <= |JoinPieces(part)|
  {
    PartStands(text, base, room, part, lo, hi);
    OneTiles(text, base, room, lo, JoinPieces(part));
  }

  ghost predicate BodiesOk(
    text: string, base: nat, room: nat, bodies: seq<Piece>, pieces: seq<Piece>, lo: nat, hi: nat)
  {
    Tiles(text, base, room, bodies, lo, hi) && pieces != [] && |pieces[|pieces| - 1].text| <= |bodies[|bodies| - 1].text|
  }

  lemma AppendBody(
    text: string, base: nat, room: nat, pieces: seq<Piece>, bodies: seq<Piece>, n: nat, lo: nat, mid: nat, hi: nat)
    requires Tiles(text, base, room, pieces, lo, hi) && 0 < n < |pieces|
    requires base + mid == pieces[n - 1].start + |pieces[n - 1].text|
    requires BodiesOk(text, base, room, bodies, pieces[..n], lo, mid) && |JoinPieces(pieces[n..])| <= room
    ensures BodiesOk(text, base, room, bodies + [BodyOf(pieces[n..])], pieces, lo, hi)
  {
    var part, next := pieces[n..], pieces[n].start - base;
    RestTiles(text, base, room, pieces, lo, hi, n);
    OnePartTiles(text, base, room, part, next, hi);
    assert Linked(text, base, pieces[n - 1], pieces[n], room);
    LastBodyTiles(text, base, room, pieces[n - 1], pieces[n], bodies, [BodyOf(part)], lo, mid, next, hi);
  }

  lemma BodiesMore(parts: seq<seq<Piece>>)
    requires parts != [] && forall k :: 0 <= k < |parts| ==> parts[k] != []
    ensures Bodies(parts) == Bodies(parts[..|parts| - 1]) + [BodyOf(parts[|parts| - 1])]
  {
  }

  lemma OnlyBody(text: string, base: nat, room: nat, parts: seq<seq<Piece>>, pieces: seq<Piece>, lo: nat, hi: nat)
    requires AreParts(parts, pieces, room) && Tiles(text, base, room, pieces, lo, hi) && |parts| == 1
    ensures BodiesOk(text, base, room, Bodies(parts), pieces, lo, hi)
  {
    FirstPart(parts, pieces, room);
    SecondPart(parts, pieces, room);
    assert parts[0] == pieces;
    OnePartTiles(text, base, room, pieces, lo, hi);
    BodyOfOne(parts);
  }

  lemma BodyOfOne(parts: seq<seq<Piece>>)
    requires |parts| == 1 && parts[0] != []
    ensures Bodies(parts) == [BodyOf(parts[0])]
  {
  }

  /** The parts' bodies tile the block exactly as its pieces do. */
  lemma {:induction false} BodiesTile(
    text: string, base: nat, room: nat, parts: seq<seq<Piece>>, pieces: seq<Piece>, lo: nat, hi: nat)
    requires AreParts(parts, pieces, room) && Tiles(text, base, room, pieces, lo, hi)
    ensures BodiesOk(text, base, room, Bodies(parts), pieces, lo, hi)
    decreases |parts|
  {
    if |parts| == 1 {
      OnlyBody(text, base, room, parts, pieces, lo, hi);
    } else {
      var init := parts[..|parts| - 1];
      var n := PackingInit(parts, pieces, room);
      var mid := pieces[n - 1].start + |pieces[n - 1].text| - base;
      StartTiles(text, base, room, pieces, lo, hi, n, mid);
      BodiesTile(text, base, room, init, pieces[..n], lo, mid);
      assert FitsRoom(parts[|parts| - 1], room);
      AppendBody(text, base, room, pieces, Bodies(init), n, lo, mid, hi);
      BodiesMore(parts);
    }
  }

  /** A chunk without the frame around it. */
  function Undressed(c: Chunk, head: string, tail: string): Piece
    requires |head| + |tail| <= |c.text|
  {
    Piece(c.start, c.text[|head|..|c.text| - |tail|])
  }

  ghost predicate WearsFrame(c: Chunk, head: string, tail: string) {
    |head| + |tail| <= |c.text| && c.text == head + c.text[|head|..|c.text| - |tail|] + tail
  }

  function UndressedAll(out: seq<Chunk>, head: string, tail: string): seq<Piece>
    requires forall k :: 0 <= k < |out| ==> |head| + |tail| <= |out[k].text|
  {
    seq(|out|, k requires 0 <= k < |out| => Undressed(out[k], head, tail))
  }

  ghost predicate NumberedPart(out: seq<Chunk>, k: nat, kind: Kind, cap: nat)
    requires k < |out|
  {
    out[k].structure == Some(kind) && out[k].part == Some(Part(k + 1, |out|)) && |out[k].text| <= cap
  }

  /**
    Every part is numbered and within the cap, and repeats the block's own head and tail around
    lines that, over the parts, tile what lies between the head and the tail.
   */
  ghost predicate SelfContained(seg: Segment, text: string, cap: nat, out: seq<Chunk>, head: string, tail: string) {
    && out != []
    && Stands(text, 0, head) && Stands(text, |text| - |tail|, tail) && |head| + |tail| <= |text|
    && cap / 2 <= cap - |head| - |tail|
    && (forall k :: 0 <= k < |out| ==> NumberedPart(out, k, seg.kind, cap))
    && (forall k :: 0 <= k < |out| ==> WearsFrame(out[k], head, tail))
    && (forall k :: 0 <= k < |out| ==> |head| + |tail| <= |out[k].text|)
    && Tiles(text, seg.start, cap - |head| - |tail|, UndressedAll(out, head, tail), |head|, |text| - |tail|)
  }

  lemma DressedWears(bodies: seq<Piece>, f: Frame, kind: Kind, k: nat)
    requires k < |bodies|
    ensures var c := Dressed(bodies, f, kind)[k];
            WearsFrame(c, f.head, f.tail) && Undressed(c, f.head, f.tail) == bodies[k]
  {
    var c := Dressed(bodies, f, kind)[k];
    assert c.text[|f.head|..|c.text| - |f.tail|] == bodies[k].text;
  }

  lemma DressedParts(text: string, base: nat, cap: nat, bodies: seq<Piece>, f: Frame, kind: Kind, lo: nat, hi: nat)
    requires Room(f, cap) >= 1 && Tiles(text, base, Room(f, cap), bodies, lo, hi)
    ensures var out := Dressed(bodies, f, kind);
            && out != []
            && (forall k :: 0 <= k < |out| ==> NumberedPart(out, k, kind, cap))
            && (forall k :: 0 <= k < |out| ==> WearsFrame(out[k], f.head, f.tail))
            && (forall k :: 0 <= k < |out| ==> |f.head| + |f.tail| <= |out[k].text|)
            && UndressedAll(out, f.head, f.tail) == bodies
  {
    var out := Dressed(bodies, f, kind);
    forall k | 0 <= k < |out|
      ensures NumberedPart(out, k, kind, cap) && WearsFrame(out[k], f.head, f.tail)
      ensures |f.head| + |f.tail| <= |out[k].text| && Undressed(out[k], f.head, f.tail) == bodies[k]
    {
      DressedWears(bodies, f, kind, k);
      assert Placed(text, base, bodies[k], Room(f, cap));
    }
  }

  lemma FrameStands(seg: Segment, text: string, cap: nat)
    requires FrameOk(seg, text) && |text| > cap >= 2
    ensures var f := UsedFrame(seg, text, cap);
            && Stands(text, 0, f.head) && Stands(text, |text| - |f.tail|, f.tail) && cap / 2 <= Room(f, cap)
  {
    UsedFits(seg, text, cap);
  }

  /** Whatever splits a block over the cap gives parts that can each be read alone. */
  lemma PartsAreSelfContained(seg: Segment, text: string, cap: nat, parts: seq<seq<Piece>>, out: seq<Chunk>)
    requires FrameOk(seg, text) && |text| > cap >= 2 && IsSplitOf(seg, text, cap, parts, out)
    ensures var f := UsedFrame(seg, text, cap); SelfContained(seg, text, cap, out, f.head, f.tail)
  {
    var f := UsedFrame(seg, text, cap);
    PiecesTile(seg, text, cap);
    FrameStands(seg, text, cap);
    BodiesTile(text, seg.start, Room(f, cap), parts, PiecesOf(f, seg.start, cap), |f.head|, |text| - |f.tail|);
    DressedParts(text, seg.start, cap, Bodies(parts), f, seg.kind, |f.head|, |text| - |f.tail|);
  }

  // ---- Removing the frames and rejoining restores the block -----------------------------

  /** What a reader makes of the bodies: a gap of one character between two is a newline. */
  function Rejoined(bodies: seq<Piece>): string {
    if bodies == [] then ""
    else if |bodies| == 1 then bodies[0].text
    else
      var init, last := bodies[..|bodies| - 1], bodies[|bodies| - 1];
      var before := init[|init| - 1];
      Rejoined(init) + (if last.start == before.start + |before.text| then "" else "\n") + last.text
  }

  lemma DirectJoin(text: string, lo: nat, a: string, b: string)
    requires Stands(text, lo, a) && Stands(text, lo + |a|, b)
    ensures Stands(text, lo, a + "" + b)
  {
    assert text[lo..lo + |a| + |b|] == text[lo..lo + |a|] + text[lo + |a|..lo + |a| + |b|];
  }

  lemma {:induction false} TilesRejoin(text: string, base: nat, room: nat, bodies: seq<Piece>, lo: nat, hi: nat)
    requires Tiles(text, base, room, bodies, lo, hi)
    ensures Stands(text, lo, Rejoined(bodies)) && lo + |Rejoined(bodies)| == hi
    decreases |bodies|
  {
    var n := |bodies|;
    var last := bodies[n - 1];
    assert Placed(text, base, last, room);
    if n > 1 {
      var before := bodies[n - 2];
      var mid := before.start + |before.text| - base;
      StartTiles(text, base, room, bodies, lo, hi, n - 1, mid);
      TilesRejoin(text, base, room, bodies[..n - 1], lo, mid);
      assert Linked(text, base, before, last, room);
      RejoinMore(text, base, room, before, last, lo, Rejoined(bodies[..n - 1]));
    }
  }

  lemma RejoinMore(text: string, base: nat, room: nat, p: Piece, q: Piece, lo: nat, joined: string)
    requires Stands(text, lo, joined) && lo + |joined| == p.start - base + |p.text|
    requires Linked(text, base, p, q, room) && Placed(text, base, q, room)
    ensures var sep := if q.start == p.start + |p.text| then "" else "\n";
            Stands(text, lo, joined + sep + q.text) && lo + |joined + sep + q.text| == q.start - base + |q.text|
  {
    if q.start == p.start + |p.text| {
      DirectJoin(text, lo, joined, q.text);
    } else {
      JoinStands(text, lo, joined, q.text);
    }
  }

  /** Taking the repeated head and tail off and rejoining the parts gives the block back. */
  lemma PartsRestoreBlock(seg: Segment, text: string, cap: nat, out: seq<Chunk>, head: string, tail: string)
    requires SelfContained(seg, text, cap, out, head, tail)
    ensures text == head + Rejoined(UndressedAll(out, head, tail)) + tail
  {
    BodiesRestore(text, seg.start, cap - |head| - |tail|, UndressedAll(out, head, tail), head, tail);
  }

  lemma BodiesRestore(text: string, base: nat, room: nat, bodies: seq<Piece>, head: string, tail: string)
    requires Stands(text, 0, head) && Stands(text, |text| - |tail|, tail) && |head| + |tail| <= |text|
    requires Tiles(text, base, room, bodies, |head|, |text| - |tail|)
    ensures text == head + Rejoined(bodies) + tail
  {
    TilesRejoin(text, base, room, bodies, |head|, |text| - |tail|);
    ThreeStretches(text, head, Rejoined(bodies), tail);
  }

  lemma ThreeStretches(text: string, a: string, b: string, c: string)
    requires Stands(text, 0, a) && Stands(text, |a|, b) && Stands(text, |a| + |b|, c) && |a| + |b| + |c| == |text|
    ensures text == a + b + c
  {
    assert text == text[0..|a|] + text[|a|..|a| + |b|] + text[|a| + |b|..|text|];
  }

  // ---- The lines every part repeats -------------------------------------------------------

  /** What the block's own lines make a part begin and end with. */
  ghost predicate OwnLines(seg: Segment, head: string, tail: string) {
    if seg.kind.Table? then seg.header.Some? && head == seg.header.value + "\n" && tail == ""
    else if seg.close.Some? then seg.open.Some? && head == seg.open.value + "\n" && tail == "\n" + seg.close.value
    else seg.open.Some? && head == seg.open.value + "\n" && tail == ""
  }

  /**
    Each part of a table begins with the table's header, each part of a code or math block of more
    than one line with its opening line, and each ends with its closing line if it has one, as long
    as these leave half of the cap; otherwise none of them does.
   */
  lemma PartsRepeatOwnLines(
    seg: Segment, text: string, cap: nat, parts: seq<seq<Piece>>, out: seq<Chunk>, head: string, tail: string, k: nat)
    requires FrameOk(seg, text) && |text| > cap >= 2 && IsSplitOf(seg, text, cap, parts, out) && k < |out|
    requires !seg.kind.Prose? && OwnLines(seg, head, tail)
    requires if seg.kind.Table? then seg.header.value != "" else |Split(text)| >= 2
    ensures |head| + |tail| <= cap - cap / 2 ==>
      |head| + |tail| <= |out[k].text| && out[k].text[..|head|] == head && out[k].text[|out[k].text| - |tail|..] == tail
    ensures |head| + |tail| > cap - cap / 2 ==> exists piece :: piece in parts && out[k].text == JoinPieces(piece)
  {
    PartsAreSelfContained(seg, text, cap, parts, out);
    UsedIsOwn(seg, text, cap, head, tail);
    if |head| + |tail| <= cap - cap / 2 {
      assert WearsFrame(out[k], head, tail);
    } else {
      Undecorated(seg, text, cap, parts, out, k);
    }
  }

  lemma UsedIsOwn(seg: Segment, text: string, cap: nat, head: string, tail: string)
    requires !seg.kind.Prose? && OwnLines(seg, head, tail)
    requires if seg.kind.Table? then seg.header.value != "" else |Split(text)| >= 2
    ensures var f := UsedFrame(seg, text, cap);
            if |head| + |tail| <= cap - cap / 2 then f.head == head && f.tail == tail else f.head == "" && f.tail == ""
  {
  }

  lemma Undecorated(seg: Segment, text: string, cap: nat, parts: seq<seq<Piece>>, out: seq<Chunk>, k: nat)
    requires IsSplitOf(seg, text, cap, parts, out) && k < |out|
    requires UsedFrame(seg, text, cap).head == "" && UsedFrame(seg, text, cap).tail == ""
    ensures exists piece :: piece in parts && out[k].text == JoinPieces(piece)
  {
    var f, piece := UsedFrame(seg, text, cap), parts[k];
    assert out[k].text == f.head + JoinPieces(piece) + f.tail;
    assert piece in parts && "" + JoinPieces(piece) + "" == JoinPieces(piece);
  }
}
