/** Packing pieces into parts that stay within a room, in order (`app/rag/chunking.py`, `_block_pieces`). */
module Packing {
  import opened Text

  /** The text of a part: its pieces, a line break between any two. */
  function JoinPieces(part: seq<Piece>): string {
    if part == [] then ""
    else if |part| == 1 then part[0].text
    else JoinPieces(part[..|part| - 1]) + "\n" + part[|part| - 1].text
  }

  lemma JoinMore(part: seq<Piece>, p: Piece)
    requires part != []
    ensures JoinPieces(part + [p]) == JoinPieces(part) + "\n" + p.text
  {
    assert (part + [p])[..|part|] == part;
  }

  function Flatten(parts: seq<seq<Piece>>): seq<Piece> {
    if parts == [] then [] else Flatten(parts[..|parts| - 1]) + parts[|parts| - 1]
  }

  lemma FlattenMore(parts: seq<seq<Piece>>, part: seq<Piece>)
    ensures Flatten(parts + [part]) == Flatten(parts) + part
  {
    assert (parts + [part])[..|parts|] == parts;
  }

  ghost predicate FitsRoom(part: seq<Piece>, room: nat) {
    part != [] && |JoinPieces(part)| <= room
  }

  /** The next part starts with a piece that this one has no room for. */
  ghost predicate HasNoRoomFor(part: seq<Piece>, next: seq<Piece>, room: nat) {
    next != [] && |JoinPieces(part)| + 1 + |next[0].text| > room
  }

  /** The pieces in order, no part empty or beyond the room, none begun while the last one had room. */
  ghost predicate IsPacking(parts: seq<seq<Piece>>, pieces: seq<Piece>, room: nat) {
    && parts != [] && Flatten(parts) == pieces
    && (forall k :: 0 <= k < |parts| ==> FitsRoom(parts[k], room))
    && forall k :: 0 <= k < |parts| - 1 ==> HasNoRoomFor(parts[k], parts[k + 1], room)
  }

  lemma GrowLastPart(parts: seq<seq<Piece>>, pieces: seq<Piece>, room: nat, p: Piece)
    requires IsPacking(parts, pieces, room) && |JoinPieces(parts[|parts| - 1])| + 1 + |p.text| <= room
    ensures IsPacking(parts[..|parts| - 1] + [parts[|parts| - 1] + [p]], pieces + [p], room)
  {
    var init, last := parts[..|parts| - 1], parts[|parts| - 1];
    FlattenMore(init, last + [p]);
    JoinMore(last, p);
  }

  lemma StartNewPart(parts: seq<seq<Piece>>, pieces: seq<Piece>, room: nat, p: Piece)
    requires IsPacking(parts, pieces, room) && |p.text| <= room
    requires |JoinPieces(parts[|parts| - 1])| + 1 + |p.text| > room
    ensures IsPacking(parts + [[p]], pieces + [p], room)
  {
    FlattenMore(parts, [p]);
  }

  /** What the loop has packed after some pieces: nothing yet, or a packing of them. */
  ghost predicate Packed(parts: seq<seq<Piece>>, used: nat, pieces: seq<Piece>, room: nat) {
    && parts != []
    && if pieces == [] then parts == [[]] && used == 0
       else IsPacking(parts, pieces, room) && used == |JoinPieces(parts[|parts| - 1])|
  }

  lemma NewPartPacks(parts: seq<seq<Piece>>, used: nat, pieces: seq<Piece>, room: nat, p: Piece)
    requires Packed(parts, used, pieces, room) && |p.text| <= room
    requires parts[|parts| - 1] != [] && used + |p.text| + 1 > room
    ensures Packed(parts + [[p]], |p.text|, pieces + [p], room)
  {
    StartNewPart(parts, pieces, room, p);
  }

  lemma LastPartPacks(parts: seq<seq<Piece>>, used: nat, pieces: seq<Piece>, room: nat, p: Piece, last: seq<Piece>, cost: nat)
    requires Packed(parts, used, pieces, room) && |p.text| <= room && last == parts[|parts| - 1]
    requires cost == |p.text| + (if last != [] then 1 else 0)
    requires last != [] ==> used + cost <= room
    ensures Packed(parts[..|parts| - 1] + [last + [p]], used + cost, pieces + [p], room)
  {
    if pieces == [] {
      FlattenMore([], [p]);
      assert last + [p] == [p];
      assert parts[..|parts| - 1] == [];
    } else {
      assert FitsRoom(last, room);
      GrowLastPart(parts, pieces, room, p);
      JoinMore(last, p);
    }
  }

  /** The packing loop, greedy from the first piece on. */
  method Pack(pieces: seq<Piece>, room: nat) returns (parts: seq<seq<Piece>>)
    requires pieces != [] && forall k :: 0 <= k < |pieces| ==> |pieces[k].text| <= room
    ensures IsPacking(parts, pieces, room)
  {
    parts := [[]];
    var used: nat := 0;
    var i := 0;
    while i < |pieces|
      invariant i <= |pieces| && Packed(parts, used, pieces[..i], room)
    {
      var piece, last := pieces[i], parts[|parts| - 1];
      var cost := |piece.text| + (if last != [] then 1 else 0);
      assert pieces[..i + 1] == pieces[..i] + [piece];
      if last != [] && used + cost > room {
        NewPartPacks(parts, used, pieces[..i], room, piece);
        parts := parts + [[piece]];
        used := |piece.text|;
      } else {
        LastPartPacks(parts, used, pieces[..i], room, piece, last, cost);
        parts := parts[..|parts| - 1] + [last + [piece]];
        used := used + cost;
      }
      i := i + 1;
    }
    assert pieces[..|pieces|] == pieces;
  }

  // ---- There is only one packing ----------------------------------------------------------

  lemma {:induction false} JoinPrefix(part: seq<Piece>, k: nat)
    requires 0 < k < |part|
    ensures |JoinPieces(part)| >= |JoinPieces(part[..k])| + 1 + |part[k].text|
    decreases |part|
  {
    var init := part[..|part| - 1];
    assert part == init + [part[|part| - 1]];
    JoinMore(init, part[|part| - 1]);
    if k < |part| - 1 {
      JoinPrefix(init, k);
      assert init[..k] == part[..k];
    }
  }

  lemma {:induction false} FlattenSplit(parts: seq<seq<Piece>>)
    requires parts != []
    ensures Flatten(parts) == parts[0] + Flatten(parts[1..])
    decreases |parts|
  {
    if |parts| == 1 {
      assert parts[..0] == [] && parts[1..] == [];
    } else {
      var init, rest, last := parts[..|parts| - 1], parts[1..], parts[|parts| - 1];
      FlattenSplit(init);
      assert init[1..] == rest[..|rest| - 1] && rest[|rest| - 1] == last && init[0] == parts[0];
      assert Flatten(rest) == Flatten(init[1..]) + last;
      assert Flatten(parts) == (parts[0] + Flatten(init[1..])) + last;
    }
  }

  lemma LongerOverflows(pieces: seq<Piece>, k: nat, room: nat)
    requires 0 < k < |pieces| && |JoinPieces(pieces[..k])| + 1 + |pieces[k].text| > room
    ensures forall j :: k < j <= |pieces| ==> |JoinPieces(pieces[..j])| > room
  {
    forall j | k < j <= |pieces|
      ensures |JoinPieces(pieces[..j])| > room
    {
      JoinPrefix(pieces[..j], k);
      assert pieces[..j][..k] == pieces[..k];
    }
  }

  lemma FirstPart(parts: seq<seq<Piece>>, pieces: seq<Piece>, room: nat)
    requires IsPacking(parts, pieces, room)
    ensures 0 < |parts[0]| <= |pieces| && parts[0] == pieces[..|parts[0]|] && |JoinPieces(parts[0])| <= room
    ensures Flatten(parts[1..]) == pieces[|parts[0]|..]
  {
    FlattenSplit(parts);
    assert FitsRoom(parts[0], room);
  }

  lemma SecondPart(parts: seq<seq<Piece>>, pieces: seq<Piece>, room: nat)
    requires IsPacking(parts, pieces, room)
    ensures |parts| == 1 ==> |parts[0]| == |pieces|
    ensures |parts| > 1 ==> |parts[0]| < |pieces| && parts[1][0] == pieces[|parts[0]|]
    ensures |parts| > 1 ==> |JoinPieces(parts[0])| + 1 + |parts[1][0].text| > room
  {
    FirstPart(parts, pieces, room);
    if |parts| > 1 {
      FlattenSplit(parts[1..]);
      assert HasNoRoomFor(parts[0], parts[1], room);
      assert Flatten(parts[1..])[0] == parts[1][0];
    }
  }

  /** A greedy first part is not shorter than another packing's first part. */
  lemma FirstPartIsLongest(parts: seq<seq<Piece>>, others: seq<seq<Piece>>, pieces: seq<Piece>, room: nat)
    requires IsPacking(parts, pieces, room) && IsPacking(others, pieces, room)
    ensures |parts[0]| >= |others[0]|
  {
    FirstPart(parts, pieces, room);
    FirstPart(others, pieces, room);
    SecondPart(parts, pieces, room);
    if |parts| > 1 {
      LongerOverflows(pieces, |parts[0]|, room);
    }
  }

  lemma PackingRest(parts: seq<seq<Piece>>, pieces: seq<Piece>, room: nat)
    requires IsPacking(parts, pieces, room) && |parts| > 1
    ensures |parts[0]| <= |pieces| && IsPacking(parts[1..], pieces[|parts[0]|..], room)
  {
    FirstPart(parts, pieces, room);
  }

  /** Two packings of the same pieces begin with the same part, and both have more or neither has. */
  lemma SameFirstPart(parts: seq<seq<Piece>>, others: seq<seq<Piece>>, pieces: seq<Piece>, room: nat)
    requires IsPacking(parts, pieces, room) && IsPacking(others, pieces, room)
    ensures parts[0] == others[0] && (|parts| > 1 <==> |others| > 1)
  {
    FirstPartIsLongest(parts, others, pieces, room);
    FirstPartIsLongest(others, parts, pieces, room);
    FirstPart(parts, pieces, room);
    FirstPart(others, pieces, room);
    SecondPart(parts, pieces, room);
    SecondPart(others, pieces, room);
  }

  /** The greedy packing is determined by its pieces and its room. */
  lemma {:induction false} PackingIsUnique(
    parts: seq<seq<Piece>>, others: seq<seq<Piece>>, pieces: seq<Piece>, room: nat)
    requires IsPacking(parts, pieces, room) && IsPacking(others, pieces, room)
    ensures parts == others
    decreases |parts|
  {
    SameFirstPart(parts, others, pieces, room);
    if |parts| > 1 {
      PackingRest(parts, pieces, room);
      PackingRest(others, pieces, room);
      PackingIsUnique(parts[1..], others[1..], pieces[|parts[0]|..], room);
      assert parts == [parts[0]] + parts[1..] && others == [others[0]] + others[1..];
    }
  }
}
