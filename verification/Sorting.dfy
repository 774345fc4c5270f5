/**
  Python's `sorted(key=...)` and `list.sort(key=...)`: a stable sort by a key that is computed
  once for each element. Keys are the tuples the planner sorts by, compared lexicographically.
 */
module Sorting {

  datatype Key = Key(major: int, middle: int, minor: int)

  /** Lexicographic order on keys, as Python orders tuples. */
  predicate Leq(a: Key, b: Key) {
    || a.major < b.major
    || (a.major == b.major && a.middle < b.middle)
    || (a.major == b.major && a.middle == b.middle && a.minor <= b.minor)
  }

  predicate Less(a: Key, b: Key) {
    Leq(a, b) && a != b
  }

  ghost predicate SortedBy<T>(s: seq<T>, key: T -> Key) {
    forall i, j :: 0 <= i < j < |s| ==> Leq(key(s[i]), key(s[j]))
  }

  /** In a sorted sequence the element with the smaller key stands first. */
  lemma SmallerStandsFirst<T>(s: seq<T>, key: T -> Key, i: nat, j: nat)
    requires SortedBy(s, key) && i < |s| && j < |s| && Less(key(s[i]), key(s[j]))
    ensures i < j
  {
  }

  /** The elements carrying key `k`, in the order they stand in `s`. */
  ghost function Select<T>(s: seq<T>, key: T -> Key, k: Key): seq<T> {
    if s == [] then []
    else (if key(s[0]) == k then [s[0]] else []) + Select(s[1..], key, k)
  }

  /** Places `x` in front of the first element whose key is not smaller. */
  function Insert<T>(x: T, s: seq<T>, key: T -> Key): (r: seq<T>)
    ensures multiset(r) == multiset{x} + multiset(s)
  {
    if s == [] || Leq(key(x), key(s[0])) then
      [x] + s
    else
      assert s == [s[0]] + s[1..];
      [s[0]] + Insert(x, s[1..], key)
  }

  function StableSort<T>(s: seq<T>, key: T -> Key): (r: seq<T>)
    ensures multiset(r) == multiset(s)
  {
    if s == [] then []
    else
      assert s == [s[0]] + s[1..];
      Insert(s[0], StableSort(s[1..], key), key)
  }

  lemma {:induction false} InsertSorted<T>(x: T, s: seq<T>, key: T -> Key)
    requires SortedBy(s, key)
    ensures SortedBy(Insert(x, s, key), key)
  {
    if s != [] && !Leq(key(x), key(s[0])) {
      InsertSorted(x, s[1..], key);
      var rest := Insert(x, s[1..], key);
      forall j | 0 <= j < |rest|
        ensures Leq(key(s[0]), key(rest[j]))
      {
        assert rest[j] in multiset(rest);
        assert rest[j] == x || rest[j] in s[1..];
      }
    }
  }

  lemma {:induction false} StableSortSorts<T>(s: seq<T>, key: T -> Key)
    ensures SortedBy(StableSort(s, key), key)
  {
    if s != [] {
      StableSortSorts(s[1..], key);
      InsertSorted(s[0], StableSort(s[1..], key), key);
    }
  }

  lemma {:induction false} InsertStable<T>(x: T, s: seq<T>, key: T -> Key, k: Key)
    ensures Select(Insert(x, s, key), key, k) == (if key(x) == k then [x] else []) + Select(s, key, k)
  {
    if s == [] || Leq(key(x), key(s[0])) {
      assert ([x] + s)[1..] == s;
    } else {
      InsertStable(x, s[1..], key, k);
      var rest := Insert(x, s[1..], key);
      assert ([s[0]] + rest)[1..] == rest;
    }
  }

  /** Elements with equal keys keep their relative order. */
  lemma {:induction false} StableSortIsStable<T>(s: seq<T>, key: T -> Key, k: Key)
    ensures Select(StableSort(s, key), key, k) == Select(s, key, k)
  {
    if s != [] {
      StableSortIsStable(s[1..], key, k);
      InsertStable(s[0], StableSort(s[1..], key), key, k);
    }
  }

  /** Sorting what is already in order moves nothing. */
  lemma {:induction false} SortedIsFixed<T>(s: seq<T>, key: T -> Key)
    requires SortedBy(s, key)
    ensures StableSort(s, key) == s
  {
    if s != [] {
      SortedIsFixed(s[1..], key);
      if |s| > 1 {
        assert Leq(key(s[0]), key(s[1]));
      }
      assert [s[0]] + s[1..] == s;
    }
  }

  lemma {:induction false} SelectEmptyOutside<T>(s: seq<T>, key: T -> Key, k: Key)
    ensures Select(s, key, k) == [] <==> forall i :: 0 <= i < |s| ==> key(s[i]) != k
    ensures Select(s, key, k) != [] ==> Select(s, key, k)[0] in s && key(Select(s, key, k)[0]) == k
  {
    if s != [] {
      SelectEmptyOutside(s[1..], key, k);
    }
  }

  /**
    A stable sort is unique: any sorted arrangement that keeps every class of equal keys in
    place is the one `StableSort` gives, whatever algorithm produced it.
   */
  lemma {:induction false} StableSortUnique<T>(s: seq<T>, r: seq<T>, key: T -> Key)
    requires SortedBy(r, key)
    requires forall k :: Select(r, key, k) == Select(s, key, k)
    ensures r == StableSort(s, key)
  {
    var t := StableSort(s, key);
    StableSortSorts(s, key);
    forall k
      ensures Select(r, key, k) == Select(t, key, k)
    {
      StableSortIsStable(s, key, k);
    }
    SameSelectionsSame(r, t, key);
  }

  lemma {:induction false} SameSelectionsSame<T>(r: seq<T>, t: seq<T>, key: T -> Key)
    requires SortedBy(r, key) && SortedBy(t, key)
    requires forall k :: Select(r, key, k) == Select(t, key, k)
    ensures r == t
    decreases |r|
  {
    if r == [] {
      var k := if t == [] then Key(0, 0, 0) else key(t[0]);
      assert Select(t, key, k) == Select(r, key, k) == [];
    } else {
      HeadsAgree(r, t, key);
      forall k
        ensures Select(r[1..], key, k) == Select(t[1..], key, k)
      {
        TailsAgree(r, t, key, k);
      }
      SameSelectionsSame(r[1..], t[1..], key);
      assert r == [r[0]] + r[1..];
      assert t == [t[0]] + t[1..];
    }
  }

  lemma {:induction false} TailsAgree<T>(r: seq<T>, t: seq<T>, key: T -> Key, k: Key)
    requires r != [] && t != [] && r[0] == t[0]
    requires Select(r, key, k) == Select(t, key, k)
    ensures Select(r[1..], key, k) == Select(t[1..], key, k)
  {
    var head := if key(r[0]) == k then [r[0]] else [];
    assert Select(r[1..], key, k) == Select(r, key, k)[|head|..];
    assert Select(t[1..], key, k) == Select(t, key, k)[|head|..];
  }

  lemma HeadsAgree<T>(r: seq<T>, t: seq<T>, key: T -> Key)
    requires r != [] && SortedBy(r, key) && SortedBy(t, key)
    requires forall k :: Select(r, key, k) == Select(t, key, k)
    ensures t != [] && r[0] == t[0]
  {
    var k := key(r[0]);
    assert Select(r, key, k)[0] == r[0];
    SelectEmptyOutside(t, key, k);
    var m := key(t[0]);
    assert Select(t, key, m)[0] == t[0];
    SelectEmptyOutside(r, key, m);
    assert Leq(k, m) && Leq(m, k);
  }

  ghost predicate Apart<T>(s: seq<T>, clash: (T, T) -> bool) {
    forall i, j :: 0 <= i < j < |s| ==> !clash(s[i], s[j])
  }

  /** What never clashes forwards can only clash backwards. */
  lemma NotApart<T>(s: seq<T>, clash: (T, T) -> bool, i: nat, j: nat)
    requires Apart(s, clash) && i < |s| && j < |s| && clash(s[i], s[j])
    ensures j <= i
  {
  }

  ghost predicate Symmetric<T(!new)>(clash: (T, T) -> bool) {
    forall a, b :: clash(a, b) <==> clash(b, a)
  }

  /** A one-way relation that only ever holds between elements with equal keys. */
  ghost predicate WithinKeys<T(!new)>(key: T -> Key, clash: (T, T) -> bool) {
    forall a, b :: clash(a, b) ==> key(a) == key(b)
  }

  lemma {:induction false} InsertKeepsApart<T(!new)>(x: T, s: seq<T>, key: T -> Key, clash: (T, T) -> bool)
    requires (Symmetric(clash) || WithinKeys(key, clash)) && Apart(s, clash)
    requires forall y :: y in s ==> !clash(x, y)
    ensures Apart(Insert(x, s, key), clash)
  {
    if s != [] && !Leq(key(x), key(s[0])) {
      InsertKeepsApart(x, s[1..], key, clash);
      var rest := Insert(x, s[1..], key);
      forall j | 0 <= j < |rest|
        ensures !clash(s[0], rest[j])
      {
        assert rest[j] in multiset(rest);
        assert rest[j] == x || rest[j] in s[1..];
      }
    }
  }

  /** Sorting keeps a symmetric relation from holding between two elements, and a one-way one within equal keys. */
  lemma {:induction false} SortKeepsApart<T(!new)>(s: seq<T>, key: T -> Key, clash: (T, T) -> bool)
    requires (Symmetric(clash) || WithinKeys(key, clash)) && Apart(s, clash)
    ensures Apart(StableSort(s, key), clash)
  {
    if s != [] {
      var rest := StableSort(s[1..], key);
      SortKeepsApart(s[1..], key, clash);
      forall y | y in rest
        ensures !clash(s[0], y)
      {
        assert y in multiset(rest);
        assert y in s[1..];
      }
      InsertKeepsApart(s[0], rest, key, clash);
    }
  }
}
