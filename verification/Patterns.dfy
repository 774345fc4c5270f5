/** What the source's line patterns match (`app/rag/structure.py`), said of the characters of a line. */
module Patterns {
  import opened Text
  import opened Wrappers
  import opened Segments
  import opened Structure
  import Words

  /** `p` stands at `n` with nothing but spaces before it. */
  predicate TextAt(line: string, n: int, p: string) {
    Stands(line, n, p) && forall i :: 0 <= i < n ==> IsSpace(line[i])
  }

  /** The line begins with `p`, indentation aside. */
  ghost predicate BeginsWith(line: string, p: string) {
    exists n :: TextAt(line, n, p)
  }

  /** `p` stands somewhere in the line from `lo` on. */
  ghost predicate StandsFrom(line: string, lo: nat, p: string) {
    exists i :: lo <= i && Stands(line, i, p)
  }

  /** A marker begins and ends with text. */
  predicate IsMarker(p: string) {
    p != "" && !IsSpace(p[0]) && !IsSpace(p[|p| - 1])
  }

  lemma BeginsAt(line: string, p: string)
    requires p != "" && !IsSpace(p[0])
    ensures StartsWith(LStrip(line), p) <==> BeginsWith(line, p)
    ensures forall n :: TextAt(line, n, p) ==> n == LeadCount(line, IsSpace)
  {
    var m := LeadCount(line, IsSpace);
    forall n | TextAt(line, n, p)
      ensures n == m && p <= line[m..]
    {
      assert line[n] == line[n..n + |p|][0];
      Words.LeadIs(line, n, IsSpace);
    }
    if p <= line[m..] {
      assert line[m..m + |p|] == line[m..][..|p|];
      assert TextAt(line, m, p);
    }
  }

  lemma ContainsExactlyWhen(line: string, p: string)
    ensures Contains(line, p) <==> StandsFrom(line, 0, p)
  {
    if StandsFrom(line, 0, p) {
      var i :| 0 <= i && Stands(line, i, p);
      assert OccursAt(line, p, i, 0, |line|);
    }
    if i :| 0 <= i <= |line| && OccursAt(line, p, i, 0, |line|) {
      assert Stands(line, i, p);
    }
  }

  /** A line stripped on both sides is the stretch of it between its indentation and the spaces at its end. */
  lemma StrippedIs(line: string)
    ensures var m, s := LeadCount(line, IsSpace), RStrip(LStrip(line));
            && m + |s| <= |line| && s == line[m..m + |s|]
            && forall i :: m + |s| <= i < |line| ==> IsSpace(line[i])
  {
    var m := LeadCount(line, IsSpace);
    assert LStrip(line) == line[m..];
    Trimmed(line, m);
  }

  lemma Trimmed(line: string, m: nat)
    requires m <= |line|
    ensures var s := RStrip(line[m..]);
            && m + |s| <= |line| && s == line[m..m + |s|]
            && forall i :: m + |s| <= i < |line| ==> IsSpace(line[i])
  {
    var l := line[m..];
    var s := RStrip(l);
    assert s == l[..|s|];
    forall i | m + |s| <= i < |line|
      ensures IsSpace(line[i])
    {
      assert l[i - m] == line[i];
    }
  }

  /** A stretch of a line holds a marker exactly when the line does from there on, if only spaces follow the stretch. */
  lemma StretchKeepsMarkers(line: string, lo: nat, hi: nat, p: string)
    requires lo <= hi <= |line| && IsMarker(p) && forall i :: hi <= i < |line| ==> IsSpace(line[i])
    ensures Contains(line[lo..hi], p) <==> StandsFrom(line, lo, p)
  {
    var s := line[lo..hi];
    if StandsFrom(line, lo, p) {
      var i :| lo <= i && Stands(line, i, p);
      EndsWithin(line, hi, i, p);
      SliceOfSlice(line, lo, hi, i, i + |p|);
      assert OccursAt(s, p, i - lo, 0, |s|);
    }
    if i :| 0 <= i <= |s| && OccursAt(s, p, i, 0, |s|) {
      SliceOfSlice(line, lo, hi, lo + i, lo + i + |p|);
      assert Stands(line, lo + i, p);
    }
  }

  /** A marker cannot reach into the spaces at the end of a line. */
  lemma EndsWithin(line: string, hi: nat, i: nat, p: string)
    requires Stands(line, i, p) && IsMarker(p) && hi <= |line| && forall j :: hi <= j < |line| ==> IsSpace(line[j])
    ensures i + |p| <= hi
  {
    EndsInText(line, i, p);
  }

  lemma SliceOfSlice(line: string, lo: nat, hi: nat, a: nat, b: nat)
    requires lo <= a <= b <= hi <= |line|
    ensures line[lo..hi][a - lo..b - lo] == line[a..b]
  {
    var s, t := line[lo..hi][a - lo..b - lo], line[a..b];
    forall k | 0 <= k < b - a
      ensures s[k] == t[k]
    {
    }
  }

  /** Stripping a line on both sides loses no marker. */
  lemma StripKeepsMarkers(line: string, k: nat, p: string)
    requires IsMarker(p) && k <= |RStrip(LStrip(line))|
    ensures Contains(RStrip(LStrip(line))[k..], p) <==> StandsFrom(line, LeadCount(line, IsSpace) + k, p)
  {
    StrippedIs(line);
    StretchBehind(line, LeadCount(line, IsSpace), RStrip(LStrip(line)), k, p);
  }

  lemma StretchBehind(line: string, m: nat, s: string, k: nat, p: string)
    requires m + |s| <= |line| && s == line[m..m + |s|] && IsMarker(p) && k <= |s|
    requires forall i :: m + |s| <= i < |line| ==> IsSpace(line[i])
    ensures Contains(s[k..], p) <==> StandsFrom(line, m + k, p)
  {
    SliceOfSlice(line, m, m + |s|, m + k, m + |s|);
    StretchKeepsMarkers(line, m + k, m + |s|, p);
  }

  lemma StripKeepsStart(line: string, p: string)
    requires IsMarker(p)
    ensures StartsWith(RStrip(LStrip(line)), p) <==> BeginsWith(line, p)
  {
    BeginsAt(line, p);
    var s, l := RStrip(LStrip(line)), LStrip(line);
    if p <= l {
      assert l[|p| - 1] == p[|p| - 1];
      assert s == l[..|s|];
    }
  }

  lemma EndsInText(line: string, i: nat, p: string)
    requires Stands(line, i, p) && p != ""
    ensures line[i + |p| - 1] == p[|p| - 1]
  {
    assert line[i..i + |p|][|p| - 1] == line[i + |p| - 1];
  }

  // ---- Tables -------------------------------------------------------------------------------

  /** A pipe at `n`, and behind it only pipes, colons, dashes and spaces, and at least one. */
  predicate SeparatorFrom(line: string, n: int) {
    && TextAt(line, n, "|") && n + 1 < |line|
    && forall i :: n < i < |line| ==> IsSpace(line[i]) || line[i] == '|' || line[i] == ':' || line[i] == '-'
  }

  /** A table row begins with a pipe; a separator is one with only pipes, colons, dashes and spaces behind it, and at least one. */
  lemma TableLinesExactlyWhen(line: string)
    ensures IsTableRow(line) <==> BeginsWith(line, "|")
    ensures IsTableSeparator(line) <==> exists n :: SeparatorFrom(line, n)
  {
    BeginsAt(line, "|");
    var m, t := LeadCount(line, IsSpace), LStrip(line);
    assert |t| == |line| - m && forall i :: 0 <= i < |t| ==> t[i] == line[m + i];
    if IsTableSeparator(line) {
      assert TextAt(line, m, "|");
      forall i | m < i < |line|
        ensures IsSpace(line[i]) || line[i] == '|' || line[i] == ':' || line[i] == '-'
      {
        assert t[i - m] == line[i];
      }
      assert SeparatorFrom(line, m);
    }
  }

  // ---- Code ---------------------------------------------------------------------------------

  /**
    A line opens code exactly when it begins with a fence, which never closes on its own line,
    and the lines that close it are those that begin with the same fence.
   */
  lemma FenceExactlyWhen(line: string)
    ensures (OpeningOf(line).Some? && OpeningOf(line).value.kind.Code?) <==> BeginsWith(line, "```") || BeginsWith(line, "~~~")
    ensures OpeningOf(line).Some? && OpeningOf(line).value.kind.Code? ==>
      var fence := OpeningOf(line).value;
      && fence.marker in {"```", "~~~"} && BeginsWith(line, fence.marker) && !fence.closedHere
      && forall other :: ClosesBlock(fence, other) <==> BeginsWith(other, fence.marker)
  {
    BeginsAt(line, "```");
    BeginsAt(line, "~~~");
    if OpeningOf(line).Some? && OpeningOf(line).value.kind.Code? {
      var fence := OpeningOf(line).value;
      forall other
        ensures ClosesBlock(fence, other) <==> BeginsWith(other, fence.marker)
      {
        BeginsAt(other, fence.marker);
      }
    }
  }

  // ---- Display mathematics ------------------------------------------------------------------

  /** A line of display mathematics, opened by `opener` and closed by the next `closer` behind it, on the same line or a later one. */
  ghost predicate OpensDisplay(line: string, opener: string, closer: string) {
    exists m ::
      && OpeningOf(line) == Some(m) && m.kind.Math? && m.marker == closer
      && (m.closedHere <==> exists n :: TextAt(line, n, opener) && StandsFrom(line, n + |opener|, closer))
      && forall other :: ClosesBlock(m, other) <==> StandsFrom(other, 0, closer)
  }

  lemma ClosesWherever(m: Opening)
    requires m.kind.Math?
    ensures forall other :: ClosesBlock(m, other) <==> StandsFrom(other, 0, m.marker)
  {
    forall other
      ensures ClosesBlock(m, other) <==> StandsFrom(other, 0, m.marker)
    {
      ContainsExactlyWhen(other, m.marker);
    }
  }

  /** A line begins with one marker only, if neither begins with the other. */
  lemma OneBeginning(line: string, p: string, q: string)
    requires p != "" && !IsSpace(p[0]) && q != "" && !IsSpace(q[0])
    requires BeginsWith(line, p) && BeginsWith(line, q)
    ensures p <= q || q <= p
  {
    BeginsAt(line, p);
    BeginsAt(line, q);
  }

  /** Dollars open display mathematics that dollars close, and brackets that brackets close. */
  lemma DisplayOpens(line: string)
    ensures BeginsWith(line, "$$") ==> OpensDisplay(line, "$$", "$$")
    ensures BeginsWith(line, "\\[") ==> OpensDisplay(line, "\\[", "\\]")
  {
    if BeginsWith(line, "$$") {
      DollarsOpen(line);
    }
    if BeginsWith(line, "\\[") {
      BracketsOpen(line);
    }
  }

  lemma DollarsOpen(line: string)
    requires BeginsWith(line, "$$")
    ensures OpensDisplay(line, "$$", "$$")
  {
    NoFence(line, "$$");
    StripKeepsStart(line, "$$");
    Displayed(line, "$$", "$$", OpeningOf(line).value);
  }

  lemma BracketsOpen(line: string)
    requires BeginsWith(line, "\\[")
    ensures OpensDisplay(line, "\\[", "\\]")
  {
    NoFence(line, "\\[");
    StripKeepsStart(line, "\\[");
    StripKeepsStart(line, "$$");
    if BeginsWith(line, "$$") {
      OneBeginning(line, "$$", "\\[");
    }
    Displayed(line, "\\[", "\\]", OpeningOf(line).value);
  }

  lemma Displayed(line: string, opener: string, closer: string, m: Opening)
    requires IsMarker(opener) && IsMarker(closer) && |opener| == 2 && StartsWith(RStrip(LStrip(line)), opener)
    requires OpeningOf(line) == Some(m) && m == Opening(Math, closer, Contains(RStrip(LStrip(line))[2..], closer))
    ensures OpensDisplay(line, opener, closer)
  {
    StripKeepsStart(line, opener);
    StripKeepsMarkers(line, 2, closer);
    ClosesBehind(line, opener, closer);
    ClosesWherever(m);
  }

  lemma ClosesBehind(line: string, opener: string, closer: string)
    requires BeginsWith(line, opener) && opener != "" && !IsSpace(opener[0])
    ensures StandsFrom(line, LeadCount(line, IsSpace) + |opener|, closer) <==>
      exists n :: TextAt(line, n, opener) && StandsFrom(line, n + |opener|, closer)
  {
    BeginsAt(line, opener);
    var n :| TextAt(line, n, opener);
  }

  lemma NoFence(line: string, p: string)
    requires BeginsWith(line, p) && p != "" && (p[0] == '$' || p[0] == '\\')
    ensures OpeningOf(line) == MathOpening(line)
  {
    BeginsAt(line, p);
    var n :| TextAt(line, n, p);
    assert line[n..n + |p|][0] == line[n] == p[0];
    assert LStrip(line)[0] == p[0];
  }

  // ---- Environments -------------------------------------------------------------------------

  function Begin(name: string): string {
    "\\begin{" + name + "}"
  }

  /** One of the names, starred or not. */
  ghost predicate IsName(names: seq<string>, x: string) {
    exists i :: 0 <= i < |names| && (x == names[i] || x == names[i] + "*")
  }

  lemma {:induction false} EnvironmentFound(line: string, names: seq<string>)
    ensures match Environment(line, names)
            case Some(x) => IsName(names, x) && StartsWith(LStrip(line), Begin(x))
            case None => forall x :: IsName(names, x) ==> !StartsWith(LStrip(line), Begin(x))
    decreases |names|
  {
    if names != [] {
      EnvironmentFound(line, names[1..]);
      assert "\\begin{" + names[0] + "*}" == Begin(names[0] + "*");
      forall x
        ensures IsName(names, x) <==> x == names[0] || x == names[0] + "*" || IsName(names[1..], x)
      {
        NameOrLater(names, x);
      }
    }
  }

  lemma NameOrLater(names: seq<string>, x: string)
    requires names != []
    ensures IsName(names, x) <==> x == names[0] || x == names[0] + "*" || IsName(names[1..], x)
  {
    if IsName(names, x) {
      var i :| 0 <= i < |names| && (x == names[i] || x == names[i] + "*");
      assert i > 0 ==> names[1..][i - 1] == names[i];
    }
    if IsName(names[1..], x) {
      var i :| 0 <= i < |names[1..]| && (x == names[1..][i] || x == names[1..][i] + "*");
      assert names[i + 1] == names[1..][i];
    }
  }

  /** The brace ends the name. */
  lemma OneName(s: string, x: string, y: string)
    requires Begin(x) <= s && Begin(y) <= s && '}' !in x && '}' !in y
    ensures x == y
  {
    var n := |"\\begin{"|;
    assert forall i :: 0 <= i < |x| ==> s[n + i] == x[i];
    assert forall i :: 0 <= i < |y| ==> s[n + i] == y[i];
    assert s[n + |x|] == '}' && s[n + |y|] == '}';
  }

  lemma NamesHaveNoBrace(x: string)
    requires IsName(ENVIRONMENTS, x)
    ensures '}' !in x
  {
  }

  ghost predicate EndsWithItself(line: string, m: Opening, closer: string) {
    && m.kind.Math? && m.marker == closer && (m.closedHere <==> StandsFrom(line, 0, closer))
    && forall other :: ClosesBlock(m, other) <==> StandsFrom(other, 0, closer)
  }

  /** A line that begins an environment opens mathematics that the end of that very environment closes, starred or not. */
  lemma EnvironmentOpens(line: string, x: string)
    requires IsName(ENVIRONMENTS, x) && BeginsWith(line, Begin(x))
    ensures OpeningOf(line).Some? && EndsWithItself(line, OpeningOf(line).value, "\\end{" + x + "}")
  {
    EnvironmentIs(line, x);
    var m := OpeningOf(line).value;
    ContainsExactlyWhen(line, m.marker);
    ClosesWherever(m);
  }

  lemma EnvironmentIs(line: string, x: string)
    requires IsName(ENVIRONMENTS, x) && BeginsWith(line, Begin(x))
    ensures var closer := "\\end{" + x + "}"; OpeningOf(line) == Some(Opening(Math, closer, Contains(line, closer)))
  {
    NoFence(line, Begin(x));
    BeginsAt(line, Begin(x));
    BeginStarts(x, LStrip(line));
    NoDisplay(line);
    EnvironmentFound(line, ENVIRONMENTS);
    var y := Environment(line, ENVIRONMENTS).value;
    NamesHaveNoBrace(x);
    NamesHaveNoBrace(y);
    OneName(LStrip(line), x, y);
  }

  lemma BeginStarts(x: string, s: string)
    requires Begin(x) <= s
    ensures |s| > 1 && s[0] == '\\' && s[1] == 'b'
  {
    assert s[0] == Begin(x)[0] && s[1] == Begin(x)[1];
  }

  lemma NoDisplay(line: string)
    requires |LStrip(line)| > 1 && LStrip(line)[1] == 'b'
    ensures !StartsWith(RStrip(LStrip(line)), "$$") && !StartsWith(RStrip(LStrip(line)), "\\[")
  {
  }

  /** Nothing else opens a block: only fences, dollars, brackets and the beginnings of environments do. */
  lemma OpensExactlyWhen(line: string)
    ensures OpeningOf(line).Some? <==>
      || BeginsWith(line, "```") || BeginsWith(line, "~~~") || BeginsWith(line, "$$") || BeginsWith(line, "\\[")
      || exists x :: IsName(ENVIRONMENTS, x) && BeginsWith(line, Begin(x))
  {
    BeginsAt(line, "```");
    BeginsAt(line, "~~~");
    StripKeepsStart(line, "$$");
    StripKeepsStart(line, "\\[");
    EnvironmentFound(line, ENVIRONMENTS);
    forall x
      ensures StartsWith(LStrip(line), Begin(x)) <==> BeginsWith(line, Begin(x))
    {
      BeginsAt(line, Begin(x));
    }
  }
}
