/** The string operations the chunker is built from, as Python defines them. */
module Text {

  /** A piece of text and where it starts; a prose piece says where its raw window starts. */
  datatype Piece = Piece(start: nat, text: string)

  /** Python's `str.isspace` for one character. */
  predicate IsSpace(c: char) {
    var n := c as int;
    || 0x09 <= n <= 0x0d || 0x1c <= n <= 0x20 || n == 0x85 || n == 0xa0 || n == 0x1680
    || 0x2000 <= n <= 0x200a || n == 0x2028 || n == 0x2029 || n == 0x202f || n == 0x205f || n == 0x3000
  }

  predicate IsNewline(c: char) {
    c == '\n'
  }

  predicate NotNewline(c: char) {
    c != '\n'
  }

  predicate Blank(s: string) {
    forall i :: 0 <= i < |s| ==> IsSpace(s[i])
  }

  /** `s` without the characters at its end that satisfy `drop`. */
  function TrimEnd(s: string, drop: char -> bool): (r: string)
    ensures r <= s
    ensures r != "" ==> !drop(r[|r| - 1])
    ensures forall i :: |r| <= i < |s| ==> drop(s[i])
  {
    if s != "" && drop(s[|s| - 1]) then TrimEnd(s[..|s| - 1], drop) else s
  }

  /** How many characters at the start of `s` satisfy `drop`. */
  function LeadCount(s: string, drop: char -> bool): (n: nat)
    ensures n <= |s|
    ensures n < |s| ==> !drop(s[n])
    ensures forall i :: 0 <= i < n ==> drop(s[i])
  {
    if s != "" && drop(s[0]) then 1 + LeadCount(s[1..], drop) else 0
  }

  function TrimStart(s: string, drop: char -> bool): string {
    s[LeadCount(s, drop)..]
  }

  /** `s.strip("\n")`. */
  function StripNewlines(s: string): string {
    TrimEnd(TrimStart(s, IsNewline), IsNewline)
  }

  /** `s.rstrip()`. */
  function RStrip(s: string): string {
    TrimEnd(s, IsSpace)
  }

  /** `s.lstrip()`. */
  function LStrip(s: string): string {
    TrimStart(s, IsSpace)
  }

  /** `s.startswith(p)`. */
  predicate StartsWith(s: string, p: string) {
    p <= s
  }

  /** `p in s`. */
  predicate Contains(s: string, p: string) {
    exists i :: 0 <= i <= |s| && OccursAt(s, p, i, 0, |s|)
  }

  /** `p` occurs in `s` at `i`, at or after `lo` and wholly before `hi`. */
  predicate OccursAt(s: string, p: string, i: int, lo: int, hi: int) {
    0 <= lo <= i && i + |p| <= hi && i + |p| <= |s| && s[i..i + |p|] == p
  }

  /** `s.rfind(p, lo, hi)` for `0 <= lo`: the last place `p` occurs within `s[lo:hi]`, or -1. */
  function RFind(s: string, p: string, lo: nat, hi: nat): int {
    RFindFrom(s, p, lo, hi, if hi <= |s| then hi else |s|)
  }

  function RFindFrom(s: string, p: string, lo: nat, hi: nat, at: nat): int {
    if OccursAt(s, p, at, lo, hi) then at
    else if at == 0 then -1
    else RFindFrom(s, p, lo, hi, at - 1)
  }

  lemma {:induction false} RFindFromIsLast(s: string, p: string, lo: nat, hi: nat, at: nat)
    ensures RFindFrom(s, p, lo, hi, at) == -1 || OccursAt(s, p, RFindFrom(s, p, lo, hi, at), lo, hi)
    ensures forall i :: OccursAt(s, p, i, lo, hi) && i <= at ==> i <= RFindFrom(s, p, lo, hi, at)
    decreases at
  {
    if !OccursAt(s, p, at, lo, hi) && at > 0 {
      RFindFromIsLast(s, p, lo, hi, at - 1);
    }
  }

  /** `RFind` gives an occurrence, and none is later; -1 means there is none. */
  lemma RFindIsLast(s: string, p: string, lo: nat, hi: nat)
    ensures RFind(s, p, lo, hi) == -1 || OccursAt(s, p, RFind(s, p, lo, hi), lo, hi)
    ensures forall i :: OccursAt(s, p, i, lo, hi) ==> i <= RFind(s, p, lo, hi)
  {
    RFindFromIsLast(s, p, lo, hi, if hi <= |s| then hi else |s|);
  }

  /** `s` stands in `text` at `lo`. */
  predicate Matches(text: string, lo: int, s: string) {
    && 0 <= lo && lo + |s| <= |text|
    && forall i :: 0 <= i < |s| ==> s[i] == text[lo + i]
  }

  /** The same, as a slice. */
  predicate Stands(text: string, lo: int, s: string) {
    0 <= lo && lo + |s| <= |text| && text[lo..lo + |s|] == s
  }

  lemma SliceMatches(text: string, a: nat, b: nat)
    requires a <= b <= |text|
    ensures Matches(text, a, text[a..b])
  {
  }

  lemma MatchesWithin(text: string, a: nat, outer: string, k: nat, inner: string)
    requires Matches(text, a, outer) && Matches(outer, k, inner)
    ensures Matches(text, a + k, inner)
  {
    forall i | 0 <= i < |inner|
      ensures inner[i] == text[a + k + i]
    {
      assert outer[k + i] == text[a + (k + i)];
    }
  }

  // ---- Concatenation, lines, split and join ---------------------------------------------

  function Concat(parts: seq<string>): string {
    if parts == [] then "" else parts[0] + Concat(parts[1..])
  }

  lemma {:induction false} ConcatJoin(a: seq<string>, b: seq<string>)
    ensures Concat(a + b) == Concat(a) + Concat(b)
    decreases |a|
  {
    if a == [] {
      assert a + b == b;
    } else {
      assert (a + b)[1..] == a[1..] + b;
      ConcatJoin(a[1..], b);
    }
  }

  lemma ConcatOne(s: string)
    ensures Concat([s]) == s
  {
    assert [s][1..] == [];
  }

  /** The lines of `s`, each with the newline that ends it. */
  function Lines(s: string): (lines: seq<string>)
    ensures Concat(lines) == s
    ensures forall i :: 0 <= i < |lines| ==> lines[i] != ""
    decreases |s|
  {
    if s == "" then []
    else
      var n := LeadCount(s, NotNewline);
      var k := if n < |s| then n + 1 else n;
      assert s == s[..k] + s[k..];
      [s[..k]] + Lines(s[k..])
  }

  /** A line holds a newline only as its last character. */
  predicate IsLine(line: string) {
    line != "" && forall i :: 0 <= i < |line| - 1 ==> line[i] != '\n'
  }

  lemma {:induction false} LinesAreLines(s: string)
    ensures forall i :: 0 <= i < |Lines(s)| ==> IsLine(Lines(s)[i])
    ensures forall i :: 0 <= i < |Lines(s)| - 1 ==> Lines(s)[i][|Lines(s)[i]| - 1] == '\n'
    decreases |s|
  {
    if s != "" {
      var n := LeadCount(s, NotNewline);
      var k := if n < |s| then n + 1 else n;
      LinesAreLines(s[k..]);
      if k == |s| {
        assert Lines(s[k..]) == [];
      }
    }
  }

  /** `s.split("\n")`. */
  function Split(s: string): (parts: seq<string>)
    ensures parts != []
    decreases |s|
  {
    var n := LeadCount(s, NotNewline);
    if n == |s| then [s] else [s[..n]] + Split(s[n + 1..])
  }

  /** `"\n".join(parts)`. */
  function Join(parts: seq<string>): string {
    if parts == [] then ""
    else if |parts| == 1 then parts[0]
    else parts[0] + "\n" + Join(parts[1..])
  }

  lemma JoinCons(first: string, rest: seq<string>)
    requires rest != []
    ensures Join([first] + rest) == first + "\n" + Join(rest)
  {
    assert ([first] + rest)[1..] == rest;
  }

  lemma {:induction false} JoinOfSplit(s: string)
    ensures Join(Split(s)) == s
    decreases |s|
  {
    var n := LeadCount(s, NotNewline);
    if n < |s| {
      JoinOfSplit(s[n + 1..]);
      JoinCons(s[..n], Split(s[n + 1..]));
      BrokenAt(s, n);
    }
  }

  lemma BrokenAt(s: string, n: nat)
    requires n < |s| && s[n] == '\n'
    ensures s == s[..n] + "\n" + s[n + 1..]
  {
  }

  lemma {:induction false} JoinSplitsAt(a: seq<string>, b: seq<string>)
    requires a != [] && b != []
    ensures Join(a + b) == Join(a) + "\n" + Join(b)
    decreases |a|
  {
    if |a| == 1 {
      assert (a + b)[1..] == b;
    } else {
      assert (a + b)[1..] == a[1..] + b;
      JoinSplitsAt(a[1..], b);
    }
  }
}
