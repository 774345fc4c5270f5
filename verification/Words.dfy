/** What tidying does to the words of a line and to the lines of a text (`app/rag/chunking.py`, `normalize`). */
module Words {
  import opened Text
  import opened Normalizing

  /** A stretch of separators and what follows it up to the next separator. */
  datatype Item = Item(gap: string, word: string)

  function WordLength(s: string, sep: char -> bool): (n: nat)
    ensures n <= |s|
    ensures n < |s| ==> sep(s[n])
    ensures forall i :: 0 <= i < n ==> !sep(s[i])
    ensures s != "" && !sep(s[0]) ==> n > 0
  {
    if s != "" && !sep(s[0]) then 1 + WordLength(s[1..], sep) else 0
  }

  /** The text taken apart: each word, a longest stretch without separators, behind the separators in front of it. */
  function Items(s: string, sep: char -> bool): seq<Item>
    decreases |s|
  {
    if s == "" then []
    else
      var g := LeadCount(s, sep);
      var w := WordLength(s[g..], sep);
      [Item(s[..g], s[g..][..w])] + Items(s[g..][w..], sep)
  }

  /** Where the first item ends, and that the rest is taken apart alike. */
  lemma TakeFirst(s: string, sep: char -> bool) returns (gap: string, word: string, rest: string)
    requires s != ""
    ensures s == gap + word + rest && |rest| < |s| && Items(s, sep) == [Item(gap, word)] + Items(rest, sep)
    ensures AllSeparators(gap, sep) && NoSeparators(word, sep)
    ensures (gap == "" <==> !sep(s[0])) && (rest != "" ==> sep(rest[0]) && word != "")
    ensures word == "" ==> s == gap
  {
    var g := LeadCount(s, sep);
    var w := WordLength(s[g..], sep);
    gap, word, rest := s[..g], s[g..][..w], s[g..][w..];
    assert s == gap + word + rest;
  }

  function Spelled(items: seq<Item>): string {
    if items == [] then "" else items[0].gap + items[0].word + Spelled(items[1..])
  }

  /** Taking apart loses nothing, so the items say all there is to say of a text. */
  lemma {:induction false} ItemsSpell(s: string, sep: char -> bool)
    ensures Spelled(Items(s, sep)) == s
    decreases |s|
  {
    if s != "" {
      var gap, word, rest := TakeFirst(s, sep);
      ItemsSpell(rest, sep);
      assert Items(s, sep)[1..] == Items(rest, sep);
    }
  }

  /** A gap is all separators, a word none; only the last word may be empty, and only the first gap. */
  ghost predicate WellTaken(items: seq<Item>, sep: char -> bool) {
    && (forall k :: 0 <= k < |items| ==> AllSeparators(items[k].gap, sep) && NoSeparators(items[k].word, sep))
    && (forall k :: 0 <= k < |items| - 1 ==> items[k].word != "")
    && (forall k :: 1 <= k < |items| ==> items[k].gap != "")
  }

  ghost predicate AllSeparators(s: string, sep: char -> bool) {
    forall i :: 0 <= i < |s| ==> sep(s[i])
  }

  ghost predicate NoSeparators(s: string, sep: char -> bool) {
    forall i :: 0 <= i < |s| ==> !sep(s[i])
  }

  lemma {:induction false} ItemsAreWellTaken(s: string, sep: char -> bool)
    ensures WellTaken(Items(s, sep), sep)
    ensures s != "" ==> Items(s, sep) != [] && (sep(s[0]) <==> Items(s, sep)[0].gap != "")
    decreases |s|
  {
    if s != "" {
      var gap, word, rest := TakeFirst(s, sep);
      ItemsAreWellTaken(rest, sep);
      WellTakenCons(Item(gap, word), Items(rest, sep), sep);
    }
  }

  lemma WellTakenCons(first: Item, rest: seq<Item>, sep: char -> bool)
    requires AllSeparators(first.gap, sep) && NoSeparators(first.word, sep) && WellTaken(rest, sep)
    requires rest != [] ==> first.word != "" && rest[0].gap != ""
    ensures WellTaken([first] + rest, sep)
  {
  }

  /** The first item, given where it ends. */
  lemma FirstItem(gap: string, word: string, rest: string, sep: char -> bool)
    requires AllSeparators(gap, sep) && NoSeparators(word, sep) && word != "" && (rest != "" ==> sep(rest[0]))
    ensures Items(gap + word + rest, sep) == [Item(gap, word)] + Items(rest, sep)
  {
    var s := gap + word + rest;
    Slices(gap, word, rest);
    LeadIs(s, |gap|, sep);
    WordIs(word + rest, |word|, sep);
  }

  lemma Slices(a: string, b: string, c: string)
    ensures var s := a + b + c; s[..|a|] == a && s[|a|..] == b + c && forall i :: 0 <= i < |a| ==> s[i] == a[i]
    ensures b != "" ==> (a + b + c)[|a|] == b[0]
    ensures (b + c)[..|b|] == b && (b + c)[|b|..] == c
  {
  }

  lemma LeadIs(s: string, n: nat, sep: char -> bool)
    requires n < |s| && !sep(s[n]) && forall i :: 0 <= i < n ==> sep(s[i])
    ensures LeadCount(s, sep) == n
  {
    var m := LeadCount(s, sep);
    assert n <= m || m < n;
  }

  lemma WordIs(s: string, n: nat, sep: char -> bool)
    requires n <= |s| && (n < |s| ==> sep(s[n])) && forall i :: 0 <= i < n ==> !sep(s[i])
    ensures WordLength(s, sep) == n
  {
    var m := WordLength(s, sep);
    assert n <= m || m < n;
  }

  // ---- Within a line ----------------------------------------------------------------------

  /** What becomes of a gap between words: one space if it had no tab, otherwise its tabs, as many as there were. */
  ghost predicate Tidied(gap: string, tidy: string) {
    if '\t' in gap then |tidy| == Tabs(gap) && forall i :: 0 <= i < |tidy| ==> tidy[i] == '\t'
    else tidy == " "
  }

  function Tabs(s: string): nat {
    if s == "" then 0 else (if s[0] == '\t' then 1 else 0) + Tabs(s[1..])
  }

  /** The same words in the same order, and each gap but an empty one at the front tidied. */
  ghost predicate SameWords(items: seq<Item>, tidy: seq<Item>) {
    && |items| == |tidy|
    && (forall k :: 0 <= k < |items| ==> items[k].word == tidy[k].word)
    && (forall k :: 0 <= k < |items| ==> if items[k].gap == "" then tidy[k].gap == "" else Tidied(items[k].gap, tidy[k].gap))
  }

  lemma {:induction false} TabsInAre(run: string)
    ensures |TabsIn(run)| == Tabs(run) && (Tabs(run) > 0 <==> '\t' in run)
    decreases |run|
  {
    if run != "" {
      TabsInAre(run[1..]);
    }
  }

  function Short(gap: string): string {
    if TabsIn(gap) != "" then TabsIn(gap) else " "
  }

  lemma ShortIsTidy(gap: string)
    ensures Tidied(gap, Short(gap)) && Short(gap) != "" && AllSeparators(Short(gap), IsInlineSpace)
  {
    TabsInAre(gap);
  }

  lemma {:induction false} CollapseWord(word: string, rest: string)
    requires NoSeparators(word, IsInlineSpace)
    ensures Collapse(word + rest) == word + Collapse(rest)
    decreases |word|
  {
    if word == "" {
      assert word + rest == rest;
    } else {
      assert (word + rest)[1..] == word[1..] + rest;
      CollapseWord(word[1..], rest);
      assert [word[0]] + word[1..] == word;
    }
  }

  lemma CollapseGap(gap: string, rest: string)
    requires gap != "" && AllSeparators(gap, IsInlineSpace) && rest != "" && !IsInlineSpace(rest[0])
    ensures Collapse(gap + rest) == Short(gap) + Collapse(rest)
  {
    var s := gap + rest;
    assert s[|gap|] == rest[0];
    LeadIs(s, |gap|, IsInlineSpace);
    assert s[..|gap|] == gap && s[|gap|..] == rest;
  }

  lemma SameWordsCons(gap: string, tidy: string, word: string, items: seq<Item>, more: seq<Item>)
    requires SameWords(items, more) && if gap == "" then tidy == "" else Tidied(gap, tidy)
    ensures SameWords([Item(gap, word)] + items, [Item(tidy, word)] + more)
  {
  }

  /** Collapsing one gap and the word behind it. */
  lemma CollapseFirst(gap: string, word: string, rest: string) returns (tidy: string)
    requires AllSeparators(gap, IsInlineSpace) && NoSeparators(word, IsInlineSpace) && word != ""
    ensures Collapse(gap + word + rest) == tidy + word + Collapse(rest) && AllSeparators(tidy, IsInlineSpace)
    ensures if gap == "" then tidy == "" else Tidied(gap, tidy) && tidy != ""
  {
    CollapseWord(word, rest);
    tidy := if gap == "" then "" else Short(gap);
    ShortIsTidy(gap);
    Regroup(gap, word, rest);
    Regroup(tidy, word, Collapse(rest));
    if gap != "" {
      assert (word + rest)[0] == word[0];
      CollapseGap(gap, word + rest);
    } else {
      assert gap + (word + rest) == word + rest && tidy + (word + Collapse(rest)) == word + Collapse(rest);
    }
  }

  /** Collapsing a text that does not end in a separator keeps its words and tidies its gaps. */
  lemma {:induction false} CollapseKeepsWords(s: string)
    requires s != "" ==> !IsInlineSpace(s[|s| - 1])
    ensures SameWords(Items(s, IsInlineSpace), Items(Collapse(s), IsInlineSpace))
    ensures s != "" ==> Collapse(s) != "" && (IsInlineSpace(Collapse(s)[0]) <==> IsInlineSpace(s[0]))
    decreases |s|
  {
    if s != "" {
      var gap, word, rest := TakeFirst(s, IsInlineSpace);
      WordIsThere(s, gap, word);
      if rest != "" {
        assert rest[|rest| - 1] == s[|s| - 1];
      }
      CollapseKeepsWords(rest);
      var tidy := CollapseFirst(gap, word, rest);
      FirstItem(tidy, word, Collapse(rest), IsInlineSpace);
      SameWordsCons(gap, tidy, word, Items(rest, IsInlineSpace), Items(Collapse(rest), IsInlineSpace));
    }
  }

  lemma WordIsThere(s: string, gap: string, word: string)
    requires s != "" && !IsInlineSpace(s[|s| - 1]) && AllSeparators(gap, IsInlineSpace) && (word == "" ==> s == gap)
    ensures word != ""
  {
  }

  /**
    A line with anything on it becomes its indentation, as it was, and the words of the line in
    order, each gap between two of them one space, or exactly its tabs if it had any.
   */
  lemma NormalLineKeepsWords(line: string)
    requires !Blank(line)
    ensures var r, inner := NormalLine(line), RStrip(LStrip(line));
            && Indent(line) <= r
            && SameWords(Items(inner, IsInlineSpace), Items(r[|Indent(line)|..], IsInlineSpace))
            && exists after :: Blank(after) && line == Indent(line) + inner + after
  {
    var inner := RStrip(LStrip(line));
    NormalLineKeepsLayout(line);
    TrimmedLine(line);
    InnerIsThere(line);
    CollapseKeepsWords(inner);
    assert NormalLine(line)[|Indent(line)|..] == Collapse(inner);
  }

  lemma InnerIsThere(line: string)
    requires !Blank(line)
    ensures RStrip(LStrip(line)) != "" && NormalLine(line) == Indent(line) + Collapse(RStrip(LStrip(line)))
  {
    var inner := RStrip(LStrip(line));
    if inner == "" {
      NothingLeft(line);
    }
    CollapseEnds(inner);
  }

  lemma NothingLeft(line: string)
    requires RStrip(LStrip(line)) == ""
    ensures Blank(line)
  {
    TrimmedLine(line);
    var after :| Blank(after) && line == Indent(line) + "" + after;
    assert line == Indent(line) + after;
  }

  // ---- Across lines -----------------------------------------------------------------------

  predicate NotNul(c: char) {
    c != NUL
  }

  lemma {:induction false} DropNulIs(s: string)
    ensures DropNul(s) == Filter(s, NotNul) && NUL !in DropNul(s)
    decreases |s|
  {
    if s != "" {
      DropNulIs(s[1..]);
    }
  }

  /** The same lines in the same order; of the line breaks between two of them at most two are left. */
  ghost predicate SameLines(items: seq<Item>, capped: seq<Item>) {
    && |items| == |capped|
    && (forall k :: 0 <= k < |items| ==> items[k].word == capped[k].word)
    && (forall k :: 0 <= k < |items| ==> capped[k].gap == Capped(items[k].gap))
  }

  function Capped(gap: string): string {
    if |gap| >= 3 then "\n\n" else gap
  }

  lemma SameLinesCons(gap: string, word: string, items: seq<Item>, more: seq<Item>)
    requires SameLines(items, more)
    ensures SameLines([Item(gap, word)] + items, [Item(Capped(gap), word)] + more)
  {
  }

  lemma {:induction false} CapWord(word: string, rest: string)
    requires NoSeparators(word, IsNewline)
    ensures CapBlankRuns(word + rest) == word + CapBlankRuns(rest)
    decreases |word|
  {
    if word == "" {
      assert word + rest == rest;
    } else {
      assert (word + rest)[1..] == word[1..] + rest;
      CapWord(word[1..], rest);
      assert [word[0]] + word[1..] == word;
    }
  }

  lemma CapGap(gap: string, rest: string)
    requires AllSeparators(gap, IsNewline) && (rest != "" ==> !IsNewline(rest[0]))
    ensures CapBlankRuns(gap + rest) == Capped(gap) + CapBlankRuns(rest)
  {
    var s := gap + rest;
    if gap == "" {
      assert s == rest;
    } else {
      assert s[0] == gap[0];
      if rest == "" {
        assert LeadCount(s, IsNewline) >= |s|;
      } else {
        assert s[|gap|] == rest[0];
        LeadIs(s, |gap|, IsNewline);
      }
      assert s[..|gap|] == gap && s[|gap|..] == rest;
    }
  }

  lemma {:induction false} CapKeepsLines(s: string)
    ensures SameLines(Items(s, IsNewline), Items(CapBlankRuns(s), IsNewline))
    decreases |s|
  {
    if s != "" {
      var gap, word, rest := TakeFirst(s, IsNewline);
      CapKeepsLines(rest);
      CappedItems(gap, word, rest);
      SameLinesCons(gap, word, Items(rest, IsNewline), Items(CapBlankRuns(rest), IsNewline));
    }
  }

  lemma CappedItems(gap: string, word: string, rest: string)
    requires AllSeparators(gap, IsNewline) && NoSeparators(word, IsNewline) && gap + word != ""
    requires rest != "" ==> IsNewline(rest[0]) && word != ""
    ensures Items(CapBlankRuns(gap + word + rest), IsNewline)
         == [Item(Capped(gap), word)] + Items(CapBlankRuns(rest), IsNewline)
  {
    CapBegins(rest);
    CapsFirst(gap, word, rest);
    assert Capped(gap) + word != "";
    FirstCapped(Capped(gap), word, CapBlankRuns(rest));
  }

  lemma CapBegins(s: string)
    ensures (s == "" <==> CapBlankRuns(s) == "") && (s != "" ==> CapBlankRuns(s)[0] == s[0])
  {
    if s != "" && s[0] == '\n' {
      assert LeadCount(s, IsNewline) > 0;
    }
  }

  lemma FirstCapped(gap: string, word: string, rest: string)
    requires AllSeparators(gap, IsNewline) && NoSeparators(word, IsNewline) && gap + word != ""
    requires rest != "" ==> IsNewline(rest[0]) && word != ""
    ensures Items(gap + word + rest, IsNewline) == [Item(gap, word)] + Items(rest, IsNewline)
  {
    if word == "" {
      assert gap + word + rest == gap;
      AllGap(gap, IsNewline);
    } else {
      FirstItem(gap, word, rest, IsNewline);
    }
  }

  lemma CapsFirst(gap: string, word: string, rest: string)
    requires AllSeparators(gap, IsNewline) && NoSeparators(word, IsNewline) && (rest != "" ==> word != "")
    ensures CapBlankRuns(gap + word + rest) == Capped(gap) + word + CapBlankRuns(rest)
  {
    CapWord(word, rest);
    TailBegins(word, rest);
    CapGap(gap, word + rest);
    Regroup(gap, word, rest);
    Regroup(Capped(gap), word, CapBlankRuns(rest));
  }

  lemma TailBegins(word: string, rest: string)
    requires NoSeparators(word, IsNewline) && (rest != "" ==> word != "")
    ensures word + rest != "" ==> !IsNewline((word + rest)[0])
  {
  }

  lemma Regroup(a: string, b: string, c: string)
    ensures a + b + c == a + (b + c)
  {
  }

  lemma AllGap(gap: string, sep: char -> bool)
    requires gap != "" && AllSeparators(gap, sep)
    ensures Items(gap, sep) == [Item(gap, "")]
  {
    assert LeadCount(gap, sep) >= |gap|;
    assert gap[|gap|..] == "" && gap[..|gap|] == gap;
  }

  // ---- Lines put together come apart again ------------------------------------------------

  ghost predicate NoBreaks(lines: seq<string>) {
    forall k :: 0 <= k < |lines| ==> NoSeparators(lines[k], IsNewline)
  }

  /** The lines of a text made of lines without breaks are those lines. */
  lemma {:induction false} SplitOfJoin(lines: seq<string>)
    requires lines != [] && NoBreaks(lines)
    ensures Split(Join(lines)) == lines
    decreases |lines|
  {
    if |lines| == 1 {
      SplitOne(lines[0]);
    } else {
      SplitOfJoin(lines[1..]);
      SplitFirst(lines[0], Join(lines[1..]));
      assert [lines[0]] + lines[1..] == lines;
    }
  }

  lemma SplitOne(line: string)
    requires NoSeparators(line, IsNewline)
    ensures Split(line) == [line]
  {
    assert LeadCount(line, NotNewline) >= |line|;
  }

  lemma SplitFirst(line: string, rest: string)
    requires NoSeparators(line, IsNewline)
    ensures Split(line + "\n" + rest) == [line] + Split(rest)
  {
    var s := line + "\n" + rest;
    assert s[|line|] == '\n';
    LeadIs(s, |line|, NotNewline);
    assert s[..|line|] == line && s[|line| + 1..] == rest;
  }

  lemma {:induction false} SplitHasNoBreaks(s: string)
    ensures NoBreaks(Split(s))
    decreases |s|
  {
    var n := LeadCount(s, NotNewline);
    if n < |s| {
      SplitHasNoBreaks(s[n + 1..]);
    }
  }

  lemma NormalLineHasNoBreak(line: string)
    requires NoSeparators(line, IsNewline)
    ensures NoSeparators(NormalLine(line), IsNewline)
  {
    var stripped := LStrip(line);
    var inner := RStrip(stripped);
    assert forall i :: 0 <= i < |inner| ==> inner[i] == stripped[i] == line[LeadCount(line, IsSpace) + i];
    CollapseHasNoBreak(inner);
  }

  lemma {:induction false} CollapseHasNoBreak(s: string)
    requires NoSeparators(s, IsNewline)
    ensures NoSeparators(Collapse(s), IsNewline)
    decreases |s|
  {
    if s != "" {
      var n := if IsInlineSpace(s[0]) then LeadCount(s, IsInlineSpace) else 1;
      CollapseHasNoBreak(s[n..]);
    }
  }

  /**
    The whole of tidying: NULs go, each line becomes its normal line, in order, and of three line
    breaks or more in a row two are left, with none at either end.
   */
  lemma NormalizeKeepsLines(text: string)
    ensures var lines := NormalLines(Split(Filter(text, NotNul)));
            var capped := CapBlankRuns(Join(lines));
            && Split(Join(lines)) == lines
            && SameLines(Items(Join(lines), IsNewline), Items(capped, IsNewline))
            && Normalize(text) == StripNewlines(capped)
  {
    DropNulIs(text);
    var raw := Split(DropNul(text));
    SplitHasNoBreaks(DropNul(text));
    var lines := NormalLines(raw);
    forall k | 0 <= k < |lines|
      ensures NoSeparators(lines[k], IsNewline)
    {
      NormalLineHasNoBreak(raw[k]);
    }
    SplitOfJoin(lines);
    CapKeepsLines(Join(lines));
  }
}
