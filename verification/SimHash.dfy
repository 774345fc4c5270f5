/** The similarity hash (`app/rag/simhash.py`). */
module SimHash {
  import D = Distinctness

  const BITS := 64
  const SHINGLE_WORDS := 4

  /** A run of words; joined by spaces it is still told apart from every other run, as no word has a space. */
  type Shingle = seq<string>

  /** The bits of a shingle's digest. */
  type Digest = (Shingle, nat) -> bool

  /** `_shingles`. */
  function Shingles(words: seq<string>): seq<Shingle> {
    if |words| < SHINGLE_WORDS then (if words == [] then [] else [words])
    else seq(|words| - SHINGLE_WORDS + 1, i requires 0 <= i < |words| - SHINGLE_WORDS + 1 => words[i..i + SHINGLE_WORDS])
  }

  function Vote(digest: Digest, s: Shingle, bit: nat): int {
    if digest(s, bit) then 1 else -1
  }

  function Weighted(digest: Digest, s: Shingle, bit: nat, weight: int): int {
    if digest(s, bit) then weight else -weight
  }

  /** One vote of every shingle, as often as it occurs. */
  function Column(digest: Digest, shingles: seq<Shingle>, bit: nat): int {
    if shingles == [] then 0 else Column(digest, shingles[..|shingles| - 1], bit) + Vote(digest, shingles[|shingles| - 1], bit)
  }

  function Hash(digest: Digest, shingles: seq<Shingle>): seq<bool> {
    seq(BITS, bit requires 0 <= bit < BITS => Column(digest, shingles, bit) > 0)
  }

  // ---- `simhash`: counts, then weighted columns -------------------------------------------

  /** The votes of the shingles that are in `kept`. */
  ghost function ColumnIn(digest: Digest, shingles: seq<Shingle>, kept: set<Shingle>, bit: nat): int {
    if shingles == [] then 0
    else
      var last := shingles[|shingles| - 1];
      ColumnIn(digest, shingles[..|shingles| - 1], kept, bit) + if last in kept then Vote(digest, last, bit) else 0
  }

  lemma {:induction false} ColumnOfAll(digest: Digest, shingles: seq<Shingle>, kept: set<Shingle>, bit: nat)
    requires forall s :: s in shingles ==> s in kept
    ensures ColumnIn(digest, shingles, kept, bit) == Column(digest, shingles, bit)
    decreases |shingles|
  {
    if shingles != [] {
      var init := shingles[..|shingles| - 1];
      assert forall s :: s in init ==> s in shingles;
      ColumnOfAll(digest, init, kept, bit);
    }
  }

  lemma {:induction false} ColumnOfNone(digest: Digest, shingles: seq<Shingle>, bit: nat)
    ensures ColumnIn(digest, shingles, {}, bit) == 0
    decreases |shingles|
  {
    if shingles != [] {
      ColumnOfNone(digest, shingles[..|shingles| - 1], bit);
    }
  }

  /** A shingle's votes are its count times its vote. */
  lemma {:induction false} ColumnWithout(digest: Digest, shingles: seq<Shingle>, kept: set<Shingle>, s: Shingle, bit: nat)
    requires s in kept
    ensures ColumnIn(digest, shingles, kept, bit)
         == ColumnIn(digest, shingles, kept - {s}, bit) + Weighted(digest, s, bit, multiset(shingles)[s])
    decreases |shingles|
  {
    if shingles != [] {
      var init := shingles[..|shingles| - 1];
      ColumnWithout(digest, init, kept, s, bit);
      assert shingles == init + [shingles[|shingles| - 1]];
    }
  }

  method Count(shingles: seq<Shingle>) returns (counts: map<Shingle, nat>)
    ensures forall s :: s in counts <==> s in shingles
    ensures forall s :: s in counts ==> counts[s] == multiset(shingles)[s]
    ensures counts == map[] ==> shingles == []
  {
    counts := map[];
    for i := 0 to |shingles|
      invariant forall s :: s in counts <==> s in shingles[..i]
      invariant forall s :: s in counts ==> counts[s] == multiset(shingles[..i])[s]
    {
      assert shingles[..i + 1] == shingles[..i] + [shingles[i]];
      counts := counts[shingles[i] := (if shingles[i] in counts then counts[shingles[i]] else 0) + 1];
    }
    assert shingles[..|shingles|] == shingles;
    if shingles != [] {
      assert shingles[0] in counts;
    }
  }

  /** One shingle's weighted votes added to every column. */
  method AddVotes(columns: array<int>, digest: Digest, s: Shingle, weight: int)
    requires columns.Length == BITS
    modifies columns
    ensures forall b :: 0 <= b < BITS ==> columns[b] == old(columns[b]) + Weighted(digest, s, b, weight)
  {
    for bit := 0 to BITS
      invariant forall b :: 0 <= b < bit ==> columns[b] == old(columns[b]) + Weighted(digest, s, b, weight)
      invariant forall b :: bit <= b < BITS ==> columns[b] == old(columns[b])
    {
      columns[bit] := columns[bit] + if digest(s, bit) then weight else -weight;
    }
  }

  /** The columns still to come for the shingles in `rest`. */
  ghost predicate Balanced(columns: seq<int>, digest: Digest, shingles: seq<Shingle>, rest: set<Shingle>) {
    && |columns| == BITS
    && forall b :: 0 <= b < BITS ==> columns[b] + ColumnIn(digest, shingles, rest, b) == Column(digest, shingles, b)
  }

  lemma BalancedBefore(columns: seq<int>, digest: Digest, shingles: seq<Shingle>, kept: set<Shingle>)
    requires |columns| == BITS && (forall b :: 0 <= b < BITS ==> columns[b] == 0) && forall s :: s in shingles ==> s in kept
    ensures Balanced(columns, digest, shingles, kept)
  {
    forall b | 0 <= b < BITS
      ensures columns[b] + ColumnIn(digest, shingles, kept, b) == Column(digest, shingles, b)
    {
      ColumnOfAll(digest, shingles, kept, b);
    }
  }

  lemma BalancedWithout(before: seq<int>, after: seq<int>, digest: Digest, shingles: seq<Shingle>, rest: set<Shingle>, s: Shingle)
    requires Balanced(before, digest, shingles, rest) && s in rest && |after| == BITS
    requires forall b :: 0 <= b < BITS ==> after[b] == before[b] + Weighted(digest, s, b, multiset(shingles)[s])
    ensures Balanced(after, digest, shingles, rest - {s})
  {
    forall b | 0 <= b < BITS
      ensures after[b] + ColumnIn(digest, shingles, rest - {s}, b) == Column(digest, shingles, b)
    {
      ColumnWithout(digest, shingles, rest, s, b);
    }
  }

  lemma BalancedAfter(columns: seq<int>, digest: Digest, shingles: seq<Shingle>)
    requires Balanced(columns, digest, shingles, {})
    ensures forall b :: 0 <= b < BITS ==> columns[b] == Column(digest, shingles, b)
  {
    forall b | 0 <= b < BITS
      ensures columns[b] == Column(digest, shingles, b)
    {
      ColumnOfNone(digest, shingles, b);
    }
  }

  /** The weighted votes of every counted shingle, in whatever order they come. */
  method FillColumns(columns: array<int>, digest: Digest, shingles: seq<Shingle>, counts: map<Shingle, nat>)
    requires columns.Length == BITS && forall b :: 0 <= b < BITS ==> columns[b] == 0
    requires forall s :: s in counts <==> s in shingles
    requires forall s :: s in counts ==> counts[s] == multiset(shingles)[s]
    modifies columns
    ensures forall b :: 0 <= b < BITS ==> columns[b] == Column(digest, shingles, b)
  {
    var rest := counts.Keys;
    BalancedBefore(columns[..], digest, shingles, rest);
    while rest != {}
      invariant rest <= counts.Keys && Balanced(columns[..], digest, shingles, rest)
      decreases |rest|
    {
      var s :| s in rest;
      ghost var before := columns[..];
      AddVotes(columns, digest, s, counts[s]);
      BalancedWithout(before, columns[..], digest, shingles, rest, s);
      rest := rest - {s};
    }
    BalancedAfter(columns[..], digest, shingles);
  }

  /** `simhash`, of the words of a text. */
  method Simhash(digest: Digest, words: seq<string>) returns (value: seq<bool>)
    ensures value == Hash(digest, Shingles(words))
  {
    var shingles := Shingles(words);
    var counts := Count(shingles);
    if counts == map[] {
      return seq(BITS, _ => false);
    }
    var columns := new int[BITS](_ => 0);
    FillColumns(columns, digest, shingles, counts);
    value := [];
    for bit := 0 to BITS
      invariant |value| == bit && forall b :: 0 <= b < bit ==> value[b] == (Column(digest, shingles, b) > 0)
    {
      value := value + [columns[bit] > 0];
    }
  }

  // ---- The hash depends only on which shingles there are, and how often -------------------

  lemma {:induction false} ColumnJoin(digest: Digest, a: seq<Shingle>, b: seq<Shingle>, bit: nat)
    ensures Column(digest, a + b, bit) == Column(digest, a, bit) + Column(digest, b, bit)
    decreases |b|
  {
    if b == [] {
      assert a + b == a;
    } else {
      assert (a + b)[..|a + b| - 1] == a + b[..|b| - 1];
      ColumnJoin(digest, a, b[..|b| - 1], bit);
    }
  }

  lemma {:induction false} ColumnOfMultiset(digest: Digest, a: seq<Shingle>, b: seq<Shingle>, bit: nat)
    requires multiset(a) == multiset(b)
    ensures Column(digest, a, bit) == Column(digest, b, bit)
    decreases |a|
  {
    if a == [] {
      assert |multiset(b)| == 0;
    } else {
      var init, last := a[..|a| - 1], a[|a| - 1];
      assert a == init + [last];
      assert last in multiset(b);
      var i :| 0 <= i < |b| && b[i] == last;
      ColumnRemoves(digest, b, i, bit);
      assert multiset(init) == multiset(a) - multiset{last};
      assert multiset(Without(b, i)) == multiset(b) - multiset{last};
      ColumnOfMultiset(digest, init, Without(b, i), bit);
    }
  }

  function Without(s: seq<Shingle>, i: nat): seq<Shingle>
    requires i < |s|
  {
    s[..i] + s[i + 1..]
  }

  lemma ColumnRemoves(digest: Digest, s: seq<Shingle>, i: nat, bit: nat)
    requires i < |s|
    ensures Column(digest, s, bit) == Column(digest, Without(s, i), bit) + Vote(digest, s[i], bit)
    ensures multiset(s) == multiset(Without(s, i)) + multiset{s[i]}
  {
    assert s == s[..i] + ([s[i]] + s[i + 1..]);
    ColumnJoin(digest, s[..i], [s[i]] + s[i + 1..], bit);
    ColumnJoin(digest, [s[i]], s[i + 1..], bit);
    ColumnJoin(digest, s[..i], s[i + 1..], bit);
    assert [s[i]][..0] == [];
  }

  lemma HashOfMultiset(digest: Digest, a: seq<Shingle>, b: seq<Shingle>)
    requires multiset(a) == multiset(b)
    ensures Hash(digest, a) == Hash(digest, b)
  {
    forall bit | 0 <= bit < BITS
      ensures Column(digest, a, bit) == Column(digest, b, bit)
    {
      ColumnOfMultiset(digest, a, b, bit);
    }
  }

  // ---- Replacing words ----------------------------------------------------------------------

  function Abs(x: int): nat {
    if x < 0 then -x else x
  }

  /** Where the first `n` shingles of two texts differ. */
  function Differ(a: seq<Shingle>, b: seq<Shingle>, n: nat): nat
    requires n <= |a| == |b|
  {
    if n == 0 then 0 else Differ(a, b, n - 1) + if a[n - 1] == b[n - 1] then 0 else 1
  }

  lemma {:induction false} ColumnMoves(digest: Digest, a: seq<Shingle>, b: seq<Shingle>, n: nat, bit: nat)
    requires n <= |a| == |b|
    ensures Abs(Column(digest, a[..n], bit) - Column(digest, b[..n], bit)) <= 2 * Differ(a, b, n)
    decreases n
  {
    if n > 0 {
      ColumnMoves(digest, a, b, n - 1, bit);
      assert a[..n][..n - 1] == a[..n - 1] && b[..n][..n - 1] == b[..n - 1];
    }
  }

  /** A shingle differs only if the replaced word is one of its words. */
  lemma ShingleTouched(words: seq<string>, k: nat, word: string, i: nat)
    requires k < |words| && |words| >= SHINGLE_WORDS && i <= |words| - SHINGLE_WORDS
    ensures Shingles(words[k := word])[i] != Shingles(words)[i] ==> i <= k < i + SHINGLE_WORDS
  {
    if !(i <= k < i + SHINGLE_WORDS) {
      assert words[k := word][i..i + SHINGLE_WORDS] == words[i..i + SHINGLE_WORDS];
    }
  }

  /** So at most four of them do, whatever the length of the text. */
  lemma {:induction false} FewDiffer(words: seq<string>, k: nat, word: string, n: nat)
    requires k < |words| && |words| >= SHINGLE_WORDS && n <= |Shingles(words)|
    ensures |Shingles(words[k := word])| == |Shingles(words)|
    ensures Differ(Shingles(words[k := word]), Shingles(words), n)
         <= if n <= k + 1 - SHINGLE_WORDS then 0 else if n > k then SHINGLE_WORDS else n - (k + 1 - SHINGLE_WORDS)
    decreases n
  {
    if n > 0 {
      FewDiffer(words, k, word, n - 1);
      ShingleTouched(words, k, word, n - 1);
    }
  }

  /** Replacing one word of a text, of any length, moves every column by at most twice the shingle length. */
  lemma OneWordMovesColumns(digest: Digest, words: seq<string>, k: nat, word: string, bit: nat)
    requires k < |words|
    ensures Abs(Column(digest, Shingles(words[k := word]), bit) - Column(digest, Shingles(words), bit)) <= 2 * SHINGLE_WORDS
  {
    var a, b := Shingles(words[k := word]), Shingles(words);
    if |words| >= SHINGLE_WORDS {
      FewDiffer(words, k, word, |b|);
      ColumnMoves(digest, a, b, |b|, bit);
      assert a[..|b|] == a && b[..|b|] == b;
    } else {
      assert Column(digest, [], bit) == 0;
      assert [words][..0] == [] && [words[k := word]][..0] == [];
      assert Column(digest, b, bit) == Vote(digest, words, bit);
      assert Column(digest, a, bit) == Vote(digest, words[k := word], bit);
    }
  }

  datatype Edit = Edit(at: nat, word: string)

  predicate EditsFit(words: seq<string>, edits: seq<Edit>) {
    forall i :: 0 <= i < |edits| ==> edits[i].at < |words|
  }

  /** The text after the words named are replaced, one after the other. */
  function Edited(words: seq<string>, edits: seq<Edit>): seq<string>
    requires EditsFit(words, edits)
    decreases |edits|
  {
    if edits == [] then words else Edited(words[edits[0].at := edits[0].word], edits[1..])
  }

  lemma Apart(x: int, y: int, z: int, near: nat, far: nat)
    requires Abs(x - y) <= near && Abs(y - z) <= far
    ensures Abs(x - z) <= near + far
  {
  }

  function ColumnOf(digest: Digest, words: seq<string>, bit: nat): int {
    Column(digest, Shingles(words), bit)
  }

  lemma OneMoreEdit(x: int, y: int, z: int, n: nat)
    requires Abs(x - y) <= 2 * SHINGLE_WORDS * n && Abs(y - z) <= 2 * SHINGLE_WORDS
    ensures Abs(x - z) <= 2 * SHINGLE_WORDS * (n + 1)
  {
    Apart(x, y, z, 2 * SHINGLE_WORDS * n, 2 * SHINGLE_WORDS);
  }

  lemma {:induction false} EditsMoveColumns(digest: Digest, words: seq<string>, edits: seq<Edit>, bit: nat)
    requires EditsFit(words, edits)
    ensures Abs(ColumnOf(digest, Edited(words, edits), bit) - ColumnOf(digest, words, bit)) <= 2 * SHINGLE_WORDS * |edits|
    decreases |edits|
  {
    if edits != [] {
      var once := words[edits[0].at := edits[0].word];
      EditsMoveColumns(digest, once, edits[1..], bit);
      OneWordMovesColumns(digest, words, edits[0].at, edits[0].word, bit);
      OneMoreEdit(ColumnOf(digest, Edited(once, edits[1..]), bit), ColumnOf(digest, once, bit), ColumnOf(digest, words, bit),
                  |edits[1..]|);
    }
  }

  // ---- Distance -----------------------------------------------------------------------------

  function Differing(left: seq<bool>, right: seq<bool>): set<nat>
    requires |left| == |right| == BITS
  {
    set b: nat | b < BITS && left[b] != right[b]
  }

  /** `distance`: the number of differing bits. */
  function Distance(left: seq<bool>, right: seq<bool>): nat
    requires |left| == |right| == BITS
  {
    |Differing(left, right)|
  }

  /** The columns no further from zero than `bound`. */
  function Close(digest: Digest, shingles: seq<Shingle>, bound: nat): set<nat> {
    set b: nat | b < BITS && Abs(Column(digest, shingles, b)) <= bound
  }

  /** After `k` replacements the distance is at most the number of columns within `8 k` of zero. */
  lemma EditsMoveHash(digest: Digest, words: seq<string>, edits: seq<Edit>)
    requires EditsFit(words, edits)
    ensures Distance(Hash(digest, Shingles(words)), Hash(digest, Shingles(Edited(words, edits))))
         <= |Close(digest, Shingles(words), 2 * SHINGLE_WORDS * |edits|)|
  {
    var before, after := Shingles(words), Shingles(Edited(words, edits));
    var differing := Differing(Hash(digest, before), Hash(digest, after));
    var close := Close(digest, before, 2 * SHINGLE_WORDS * |edits|);
    forall b | b in differing
      ensures b in close
    {
      EditsMoveColumns(digest, words, edits, b);
    }
    D.SubsetCardinality(differing, close);
  }

  lemma DistanceIsMetric(a: seq<bool>, b: seq<bool>, c: seq<bool>)
    requires |a| == |b| == |c| == BITS
    ensures Distance(a, b) == 0 <==> a == b
    ensures Distance(a, b) == Distance(b, a)
    ensures Distance(a, c) <= Distance(a, b) + Distance(b, c)
  {
    assert Differing(a, b) == Differing(b, a);
    assert a == b ==> Differing(a, b) == {};
    if Distance(a, b) == 0 {
      forall i | 0 <= i < BITS
        ensures a[i] == b[i]
      {
        assert i !in Differing(a, b);
      }
    }
    assert Differing(a, c) <= Differing(a, b) + Differing(b, c);
    D.SubsetCardinality(Differing(a, c), Differing(a, b) + Differing(b, c));
  }

  // ---- What is hashed ---------------------------------------------------------------------

  /** The shingles are the stretches of four consecutive words, one from each place; a shorter text is its own. */
  lemma ShinglesAre(words: seq<string>)
    ensures |words| >= SHINGLE_WORDS ==>
      && |Shingles(words)| == |words| - SHINGLE_WORDS + 1
      && forall i, k :: 0 <= i < |Shingles(words)| && 0 <= k < SHINGLE_WORDS ==>
           |Shingles(words)[i]| == SHINGLE_WORDS && Shingles(words)[i][k] == words[i + k]
    ensures 0 < |words| < SHINGLE_WORDS ==> Shingles(words) == [words]
    ensures words == [] ==> Shingles(words) == []
    ensures SHINGLE_WORDS == 4 && BITS == 64
  {
  }

  /** How many of the shingles have this bit in their digest. */
  function Ones(digest: Digest, shingles: seq<Shingle>, bit: nat): nat {
    if shingles == [] then 0
    else Ones(digest, shingles[..|shingles| - 1], bit) + if digest(shingles[|shingles| - 1], bit) then 1 else 0
  }

  lemma {:induction false} ColumnCounts(digest: Digest, shingles: seq<Shingle>, bit: nat)
    ensures Column(digest, shingles, bit) == 2 * Ones(digest, shingles, bit) - |shingles|
    decreases |shingles|
  {
    if shingles != [] {
      ColumnCounts(digest, shingles[..|shingles| - 1], bit);
    }
  }

  /** A bit of the hash is set exactly when more than half of the shingles, counted with repetition, have it. */
  lemma BitIsMajority(digest: Digest, words: seq<string>, bit: nat)
    requires bit < BITS
    ensures Hash(digest, Shingles(words))[bit] <==> 2 * Ones(digest, Shingles(words), bit) > |Shingles(words)|
  {
    ColumnCounts(digest, Shingles(words), bit);
  }

  /** The distance counts the places where two hashes differ. */
  lemma DistanceCounts(a: seq<bool>, b: seq<bool>)
    requires |a| == |b| == BITS
    ensures Distance(a, b) == |set i: nat | i < BITS && a[i] != b[i]|
  {
    assert Differing(a, b) == set i: nat | i < BITS && a[i] != b[i];
  }
}
