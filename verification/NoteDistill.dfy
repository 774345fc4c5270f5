/** Merging study notes without losing the learner's own words (`app/learning/note_distill.py`). */
module NoteDistill {
  import opened Wrappers

  datatype Kind = Concept | Example | Callout | Learner

  /** A durable row an atom came from; the merge tells rows apart by kind and id. */
  datatype Evidence = Evidence(kind: string, id: string, detail: string)

  /** A stored atom. */
  datatype Atom = Atom(id: string, kind: Kind, kcIds: seq<string>, md: string, evidence: seq<Evidence>)

  /** An atom of the model's reply, once parsed: what it cites are labels, and its id may be missing. */
  datatype Drafted = Drafted(id: string, kind: Kind, kcIds: seq<string>, md: string, refs: seq<string>)

  /** What the reply parses to: nothing usable, no change, or any list of atoms. */
  datatype Reply = Unusable | NoChange | Drafts(atoms: seq<Drafted>)

  datatype Result = Rejected | Unchanged | Merged(atoms: seq<Atom>)

  predicate IsLearners(a: Atom) {
    a.kind.Learner? && a.id != ""
  }

  /** `_learner_atoms`: by id, the last of those that share one. */
  function LearnerAtoms(atoms: seq<Atom>): map<string, Atom> {
    if atoms == [] then map[]
    else
      var before, a := LearnerAtoms(atoms[..|atoms| - 1]), atoms[|atoms| - 1];
      if IsLearners(a) then before[a.id := a] else before
  }

  /** `prior_by_id`. */
  function ById(atoms: seq<Atom>): map<string, Atom> {
    if atoms == [] then map[]
    else
      var before, a := ById(atoms[..|atoms| - 1]), atoms[|atoms| - 1];
      if a.id != "" then before[a.id := a] else before
  }

  // ---- `_resolved_provenance` -------------------------------------------------------------

  function KeyOf(e: Evidence): (string, string) {
    (e.kind, e.id)
  }

  function Keys(evidence: seq<Evidence>): set<(string, string)> {
    set i | 0 <= i < |evidence| :: KeyOf(evidence[i])
  }

  /** The evidence with the first `n` citations resolved. */
  function Resolved(base: seq<Evidence>, cited: seq<string>, refs: map<string, Evidence>): seq<Evidence> {
    if cited == [] then base
    else
      var before, ref := Resolved(base, cited[..|cited| - 1], refs), cited[|cited| - 1];
      if ref in refs && KeyOf(refs[ref]) !in Keys(before) then before + [refs[ref]] else before
  }

  method ResolveProvenance(base: seq<Evidence>, cited: seq<string>, refs: map<string, Evidence>)
    returns (evidence: seq<Evidence>)
    ensures evidence == Resolved(base, cited, refs)
  {
    evidence := base;
    var seen := Keys(base);
    for i := 0 to |cited|
      invariant evidence == Resolved(base, cited[..i], refs) && seen == Keys(evidence)
    {
      assert cited[..i + 1][..i] == cited[..i];
      if cited[i] in refs {
        var source := refs[cited[i]];
        if KeyOf(source) !in seen {
          KeysMore(evidence, source);
          seen := seen + {KeyOf(source)};
          evidence := evidence + [source];
        }
      }
    }
    assert cited[..|cited|] == cited;
  }

  lemma KeysMore(evidence: seq<Evidence>, e: Evidence)
    ensures Keys(evidence + [e]) == Keys(evidence) + {KeyOf(e)}
  {
    var all := evidence + [e];
    assert all[|evidence|] == e;
    forall k | k in Keys(evidence)
      ensures k in Keys(all)
    {
      var i :| 0 <= i < |evidence| && KeyOf(evidence[i]) == k;
      assert all[i] == evidence[i];
    }
    forall k | k in Keys(all)
      ensures k in Keys(evidence) + {KeyOf(e)}
    {
      var i :| 0 <= i < |all| && KeyOf(all[i]) == k;
      assert i < |evidence| ==> all[i] == evidence[i];
    }
  }

  /** Every row added is one that was supplied, and none repeats a row already there. */
  ghost predicate GrowsBySupplied(before: seq<Evidence>, after: seq<Evidence>, refs: map<string, Evidence>) {
    && before <= after
    && forall i :: |before| <= i < |after| ==> after[i] in refs.Values && forall j :: 0 <= j < i ==> !SameRow(after[i], after[j])
  }

  /** Two references to one row. */
  predicate SameRow(a: Evidence, b: Evidence) {
    a.kind == b.kind && a.id == b.id
  }

  lemma {:induction false} EvidenceOnlyGrows(base: seq<Evidence>, cited: seq<string>, refs: map<string, Evidence>)
    ensures GrowsBySupplied(base, Resolved(base, cited, refs), refs)
    decreases |cited|
  {
    if cited != [] {
      var before, ref := Resolved(base, cited[..|cited| - 1], refs), cited[|cited| - 1];
      EvidenceOnlyGrows(base, cited[..|cited| - 1], refs);
      if ref in refs && KeyOf(refs[ref]) !in Keys(before) {
        GrowsOnce(base, before, refs[ref], refs);
      }
    }
  }

  lemma GrowsOnce(base: seq<Evidence>, before: seq<Evidence>, e: Evidence, refs: map<string, Evidence>)
    requires GrowsBySupplied(base, before, refs) && e in refs.Values && KeyOf(e) !in Keys(before)
    ensures GrowsBySupplied(base, before + [e], refs)
  {
    var after := before + [e];
    forall i | |base| <= i < |after|
      ensures after[i] in refs.Values && forall j :: 0 <= j < i ==> !SameRow(after[i], after[j])
    {
      forall j | 0 <= j < i
        ensures !SameRow(after[i], after[j])
      {
        assert after[j] == before[j];
        assert i < |before| ==> after[i] == before[i];
        assert KeyOf(before[j]) in Keys(before);
      }
    }
  }

  // ---- The atoms of the reply -------------------------------------------------------------

  /** `_validated_kc_ids`. */
  function Allowed(kcIds: seq<string>, allowed: set<string>): seq<string> {
    if kcIds == [] then []
    else if kcIds[0] in allowed then [kcIds[0]] + Allowed(kcIds[1..], allowed)
    else Allowed(kcIds[1..], allowed)
  }

  /** What one merge is given besides the notes and the reply. */
  datatype Context = Context(allowed: set<string>, refs: map<string, Evidence>, maxAtoms: nat, newId: nat -> string)

  /** `assign_atom_ids`, for the reply's atom at place `i`. */
  function IdFor(d: Drafted, i: nat, c: Context): string {
    if d.id == "" then c.newId(i) else d.id
  }

  function PriorEvidence(window: seq<Atom>, id: string): seq<Evidence> {
    if id in ById(window) then ById(window)[id].evidence else []
  }

  /** An atom of the reply with server-owned tags and lineage, and no invented attribution. */
  function Prepared(window: seq<Atom>, d: Drafted, i: nat, c: Context): Atom {
    var id := IdFor(d, i, c);
    var kind := if d.kind.Learner? && id !in LearnerAtoms(window) then Concept else d.kind;
    Atom(id, kind, Allowed(d.kcIds, c.allowed), d.md, Resolved(PriorEvidence(window, id), d.refs, c.refs))
  }

  function PreparedAll(window: seq<Atom>, drafts: seq<Drafted>, c: Context): seq<Atom> {
    seq(|drafts|, i requires 0 <= i < |drafts| => Prepared(window, drafts[i], i, c))
  }

  method PrepareAtoms(window: seq<Atom>, drafts: seq<Drafted>, c: Context) returns (atoms: seq<Atom>)
    ensures atoms == PreparedAll(window, drafts, c)
  {
    var priorById, priorLearner := ById(window), LearnerAtoms(window);
    atoms := [];
    for i := 0 to |drafts|
      invariant atoms == PreparedAll(window, drafts, c)[..i]
    {
      var d := drafts[i];
      var id := IdFor(d, i, c);
      var evidence := ResolveProvenance(if id in priorById then priorById[id].evidence else [], d.refs, c.refs);
      var kind := d.kind;
      if kind.Learner? && id !in priorLearner {
        kind := Concept;
      }
      atoms := atoms + [Atom(id, kind, Allowed(d.kcIds, c.allowed), d.md, evidence)];
    }
  }

  // ---- `_carry_learner_atoms` -------------------------------------------------------------

  /** The merge's atoms, the learner's own ones replaced by the stored copies. */
  function Carried(learners: map<string, Atom>, atoms: seq<Atom>): seq<Atom> {
    seq(|atoms|, i requires 0 <= i < |atoms| => if atoms[i].id in learners then learners[atoms[i].id] else atoms[i])
  }

  /** No learner atom is missing from the merge. */
  predicate AllPresent(learners: map<string, Atom>, atoms: seq<Atom>) {
    forall id :: id in learners ==> exists i :: 0 <= i < |atoms| && atoms[i].id == id
  }

  method CarryLearnerAtoms(prior: seq<Atom>, atoms: seq<Atom>) returns (carried: Option<seq<Atom>>)
    ensures carried == if AllPresent(LearnerAtoms(prior), atoms) then Some(Carried(LearnerAtoms(prior), atoms)) else None
  {
    var priorLearner := LearnerAtoms(prior);
    LearnersByOwnId(prior);
    var out: seq<Atom> := [];
    var seen: set<string> := {};
    for i := 0 to |atoms|
      invariant out == Carried(priorLearner, atoms)[..i]
      invariant forall id :: id in seen <==> id in priorLearner && exists j :: 0 <= j < i && atoms[j].id == id
    {
      if atoms[i].id in priorLearner {
        var original := priorLearner[atoms[i].id];
        seen := seen + {original.id};
        out := out + [original];
      } else {
        out := out + [atoms[i]];
      }
    }
    if priorLearner.Keys - seen != {} {
      var id :| id in priorLearner.Keys - seen;
      assert id in priorLearner && !exists j :: 0 <= j < |atoms| && atoms[j].id == id;
      return None;
    }
    forall id | id in priorLearner
      ensures exists i :: 0 <= i < |atoms| && atoms[i].id == id
    {
      assert id !in priorLearner.Keys - seen;
    }
    assert Carried(priorLearner, atoms)[..|atoms|] == Carried(priorLearner, atoms);
    return Some(out);
  }

  lemma {:induction false} LearnersByOwnId(atoms: seq<Atom>)
    ensures forall id :: id in LearnerAtoms(atoms) ==>
      var a := LearnerAtoms(atoms)[id]; a.id == id && a in atoms && IsLearners(a)
    ensures forall a :: a in atoms && IsLearners(a) ==> a.id in LearnerAtoms(atoms)
    decreases |atoms|
  {
    if atoms != [] {
      LearnersByOwnId(atoms[..|atoms| - 1]);
      assert atoms == atoms[..|atoms| - 1] + [atoms[|atoms| - 1]];
    }
  }

  // ---- `distill` --------------------------------------------------------------------------

  /** The atoms too old to be offered to the merge; a cap of zero caps nothing, as a slice from `-0` takes all. */
  function Settled(atoms: seq<Atom>, c: Context): seq<Atom> {
    if |atoms| > c.maxAtoms > 0 then atoms[..|atoms| - c.maxAtoms] else []
  }

  function Offered(atoms: seq<Atom>, c: Context): seq<Atom> {
    atoms[|Settled(atoms, c)|..]
  }

  function Distilled(atoms: seq<Atom>, reply: Reply, c: Context): Result {
    match reply
    case Unusable => Rejected
    case NoChange => Unchanged
    case Drafts(drafts) =>
      var window := Offered(atoms, c);
      var prepared := PreparedAll(window, drafts, c);
      if AllPresent(LearnerAtoms(window), prepared)
      then Merged(Settled(atoms, c) + Carried(LearnerAtoms(window), prepared)) else Rejected
  }

  /** `distill`, for whatever the model replies. */
  method Distill(atoms: seq<Atom>, reply: Reply, c: Context) returns (result: Result)
    ensures result == Distilled(atoms, reply, c)
  {
    match reply
    case Unusable => return Rejected;
    case NoChange => return Unchanged;
    case Drafts(drafts) =>
      var settled, window := Settled(atoms, c), Offered(atoms, c);
      var prepared := PrepareAtoms(window, drafts, c);
      var carried := CarryLearnerAtoms(window, prepared);
      if carried.None? {
        return Rejected;
      }
      return Merged(settled + carried.value);
  }

  // ---- What a merge cannot do -------------------------------------------------------------

  /** What the learner wrote. */
  function LearnerSet(atoms: seq<Atom>): set<Atom> {
    set a | a in atoms && a.kind.Learner?
  }

  lemma SettledAndOffered(atoms: seq<Atom>, c: Context)
    ensures atoms == Settled(atoms, c) + Offered(atoms, c)
    ensures LearnerSet(atoms) == LearnerSet(Settled(atoms, c)) + LearnerSet(Offered(atoms, c))
  {
  }

  /** The learner atoms of a merge's new part are exactly the stored ones of its window. */
  lemma CarriedLearners(window: seq<Atom>, drafts: seq<Drafted>, c: Context)
    requires AllPresent(LearnerAtoms(window), PreparedAll(window, drafts, c))
    ensures LearnerSet(Carried(LearnerAtoms(window), PreparedAll(window, drafts, c))) == LearnerAtoms(window).Values
  {
    var learners, prepared := LearnerAtoms(window), PreparedAll(window, drafts, c);
    var carried := Carried(learners, prepared);
    LearnersByOwnId(window);
    forall a | a in learners.Values
      ensures a in LearnerSet(carried)
    {
      var id :| id in learners && learners[id] == a;
      var i :| 0 <= i < |prepared| && prepared[i].id == id;
      assert carried[i] == a;
    }
    forall a | a in LearnerSet(carried)
      ensures a in learners.Values
    {
      var i :| 0 <= i < |carried| && carried[i] == a;
      assert prepared[i] == Prepared(window, drafts[i], i, c);
    }
  }

  /** The stored copy of this atom is what a merge would carry: it has an id, and is the last to have it. */
  predicate IsCarried(window: seq<Atom>, a: Atom) {
    IsLearners(a) && a.id in LearnerAtoms(window) && LearnerAtoms(window)[a.id] == a
  }

  /**
    An accepted merge leaves the learner's atoms (text, kind, tags and lineage) as they were exactly
    when each of those offered is the last with its id, or stands among the settled ones too.
   */
  lemma MergeKeepsLearnersExactlyWhen(atoms: seq<Atom>, reply: Reply, c: Context)
    requires Distilled(atoms, reply, c).Merged?
    ensures LearnerSet(Distilled(atoms, reply, c).atoms) == LearnerSet(atoms) <==>
      forall a :: a in LearnerSet(Offered(atoms, c)) ==> IsCarried(Offered(atoms, c), a) || a in LearnerSet(Settled(atoms, c))
  {
    var window, settled := Offered(atoms, c), Settled(atoms, c);
    SettledAndOffered(atoms, c);
    CarriedLearners(window, reply.atoms, c);
    LearnersByOwnId(window);
    var carried := Carried(LearnerAtoms(window), PreparedAll(window, reply.atoms, c));
    assert LearnerSet(settled + carried) == LearnerSet(settled) + LearnerSet(carried);
    forall a
      ensures a in LearnerAtoms(window).Values <==> a in LearnerSet(window) && IsCarried(window, a)
    {
    }
  }

  /** The learner's atoms have ids, and those that share one are equal. */
  ghost predicate LearnersConsistent(atoms: seq<Atom>) {
    && (forall a :: a in LearnerSet(atoms) ==> a.id != "")
    && forall a, b :: a in LearnerSet(atoms) && b in LearnerSet(atoms) && a.id == b.id ==> a == b
  }

  lemma ConsistentKeeps(atoms: seq<Atom>, reply: Reply, c: Context)
    requires LearnersConsistent(atoms) && Distilled(atoms, reply, c).Merged?
    ensures LearnerSet(Distilled(atoms, reply, c).atoms) == LearnerSet(atoms)
    ensures LearnersConsistent(Distilled(atoms, reply, c).atoms)
  {
    var window := Offered(atoms, c);
    SettledAndOffered(atoms, c);
    LearnersByOwnId(window);
    forall a | a in LearnerSet(window)
      ensures IsCarried(window, a)
    {
      assert a in LearnerSet(atoms);
      var b := LearnerAtoms(window)[a.id];
      assert b in LearnerSet(window) && b in LearnerSet(atoms);
    }
    MergeKeepsLearnersExactlyWhen(atoms, reply, c);
  }

  /** One merge after another; one that is rejected, or changes nothing, leaves the notes alone. */
  datatype Turn = Turn(reply: Reply, context: Context)

  function AfterTurns(atoms: seq<Atom>, turns: seq<Turn>): seq<Atom> {
    if turns == [] then atoms
    else
      var before, t := AfterTurns(atoms, turns[..|turns| - 1]), turns[|turns| - 1];
      var result := Distilled(before, t.reply, t.context);
      if result.Merged? then result.atoms else before
  }

  /** Whatever the model replies, however often, what the learner wrote stays just what it was. */
  lemma {:induction false} LearnersSurviveEveryMerge(atoms: seq<Atom>, turns: seq<Turn>)
    requires LearnersConsistent(atoms)
    ensures LearnerSet(AfterTurns(atoms, turns)) == LearnerSet(atoms)
    decreases |turns|
  {
    if turns != [] {
      var before, t := AfterTurns(atoms, turns[..|turns| - 1]), turns[|turns| - 1];
      LearnersSurviveEveryMerge(atoms, turns[..|turns| - 1]);
      if Distilled(before, t.reply, t.context).Merged? {
        ConsistentKeeps(before, t.reply, t.context);
      }
    }
  }

  /**
    The settled prefix is carried through verbatim, and every atom after it that is not the
    learner's own has the lineage its id already had, grown only by supplied references.
   */
  lemma MergeKeepsLineage(atoms: seq<Atom>, reply: Reply, c: Context)
    requires Distilled(atoms, reply, c).Merged?
    ensures var settled, out := Settled(atoms, c), Distilled(atoms, reply, c).atoms;
            && settled <= out
            && forall i :: |settled| <= i < |out| ==>
                 out[i].id in LearnerAtoms(Offered(atoms, c))
                 || GrowsBySupplied(PriorEvidence(Offered(atoms, c), out[i].id), out[i].evidence, c.refs)
  {
    var window, settled := Offered(atoms, c), Settled(atoms, c);
    var prepared := PreparedAll(window, reply.atoms, c);
    var carried := Carried(LearnerAtoms(window), prepared);
    var out := settled + carried;
    LearnersByOwnId(window);
    forall i | |settled| <= i < |out|
      ensures out[i].id in LearnerAtoms(window) || GrowsBySupplied(PriorEvidence(window, out[i].id), out[i].evidence, c.refs)
    {
      var k := i - |settled|;
      assert out[i] == carried[k];
      EvidenceOnlyGrows(PriorEvidence(window, prepared[k].id), reply.atoms[k].refs, c.refs);
    }
  }

  /** Of two learner atoms that share an id the dictionary keeps the last, and the merge restores that one. */
  lemma LastOfTwoIsRestored(one: Atom, two: Atom, d: Drafted, c: Context)
    requires c.maxAtoms >= 2 && IsLearners(one) && IsLearners(two) && one.id == two.id == d.id
    ensures Distilled([one, two], Drafts([d]), c) == Merged([two])
  {
    var atoms, id := [one, two], d.id;
    assert atoms[..1] == [one] && [one][..0] == [];
    assert Offered(atoms, c) == atoms && Settled(atoms, c) == [];
    assert LearnerAtoms([one]) == map[id := one];
    assert LearnerAtoms(atoms) == map[id := two];
    var prepared := PreparedAll(atoms, [d], c);
    assert prepared[0].id == id;
    assert Carried(LearnerAtoms(atoms), prepared) == [two];
  }

  /** So the other one is lost. */
  lemma SharedIdLosesOne(c: Context)
    requires c.maxAtoms >= 2
    ensures var one, two := Atom("a", Learner, [], "first", []), Atom("a", Learner, [], "second", []);
            var reply := Drafts([Drafted("a", Learner, [], "first", [])]);
            Distilled([one, two], reply, c).Merged? && one !in LearnerSet(Distilled([one, two], reply, c).atoms)
  {
    var one, two := Atom("a", Learner, [], "first", []), Atom("a", Learner, [], "second", []);
    LastOfTwoIsRestored(one, two, Drafted("a", Learner, [], "first", []), c);
    assert |one.md| != |two.md|;
  }

  // ---- What a merge holds -----------------------------------------------------------------

  /** Every citation that resolves is in the lineage. */
  lemma {:induction false} CitedIsKept(base: seq<Evidence>, cited: seq<string>, refs: map<string, Evidence>)
    ensures forall ref :: ref in cited && ref in refs ==> HasRow(Resolved(base, cited, refs), refs[ref])
    ensures base <= Resolved(base, cited, refs)
    decreases |cited|
  {
    if cited != [] {
      var init, ref := cited[..|cited| - 1], cited[|cited| - 1];
      CitedIsKept(base, init, refs);
      var before, after := Resolved(base, init, refs), Resolved(base, cited, refs);
      assert before <= after && cited == init + [ref];
      forall e | HasRow(before, e)
        ensures HasRow(after, e)
      {
        var j :| 0 <= j < |before| && SameRow(before[j], e);
        assert after[j] == before[j];
      }
      if ref in refs {
        ResolvedIsThere(before, after, refs[ref]);
      }
    }
  }

  lemma ResolvedIsThere(before: seq<Evidence>, after: seq<Evidence>, e: Evidence)
    requires after == if KeyOf(e) in Keys(before) then before else before + [e]
    ensures HasRow(after, e)
  {
    if KeyOf(e) in Keys(before) {
      var j :| 0 <= j < |before| && KeyOf(before[j]) == KeyOf(e);
      assert SameRow(after[j], e);
    } else {
      assert SameRow(after[|before|], e);
    }
  }

  lemma {:induction false} AllowedAre(kcIds: seq<string>, allowed: set<string>)
    ensures forall id :: id in Allowed(kcIds, allowed) <==> id in kcIds && id in allowed
    decreases |kcIds|
  {
    if kcIds != [] {
      AllowedAre(kcIds[1..], allowed);
      assert kcIds == [kcIds[0]] + kcIds[1..];
    }
  }

  /** An atom of the reply as it is stored: its words, only tags of the topic, and never claimed for the learner. */
  ghost predicate HasRow(evidence: seq<Evidence>, e: Evidence) {
    exists j :: 0 <= j < |evidence| && SameRow(evidence[j], e)
  }

  /** The last atom with this id. */
  predicate LastWith(atoms: seq<Atom>, n: int, id: string) {
    0 <= n < |atoms| && atoms[n].id == id && forall m :: n < m < |atoms| ==> atoms[m].id != id
  }

  /** The lineage an id already has is that of the last stored atom with it; a missing id has none. */
  lemma {:induction false} LineageIs(window: seq<Atom>, id: string)
    ensures forall n :: id != "" && LastWith(window, n, id) ==> PriorEvidence(window, id) == window[n].evidence
    ensures (id == "" || forall n :: 0 <= n < |window| ==> window[n].id != id) ==> PriorEvidence(window, id) == []
    decreases |window|
  {
    if window != [] {
      var init := window[..|window| - 1];
      LineageIs(init, id);
      forall n | id != "" && LastWith(window, n, id)
        ensures PriorEvidence(window, id) == window[n].evidence
      {
        if n < |init| {
          assert LastWith(init, n, id);
        }
      }
    }
  }

  /** What is stored of one atom of the reply that is not the learner's. */
  ghost predicate StoredFrom(window: seq<Atom>, d: Drafted, i: nat, c: Context, a: Atom) {
    && a.md == d.md && a.id == (if d.id != "" then d.id else c.newId(i))
    && (forall id :: id in a.kcIds <==> id in d.kcIds && id in c.allowed)
    && a.kind == (if d.kind.Learner? then Concept else d.kind)
    && (forall ref :: ref in d.refs && ref in c.refs ==> HasRow(a.evidence, c.refs[ref]))
    && forall n :: a.id != "" && LastWith(window, n, a.id) ==> window[n].evidence <= a.evidence
  }

  /**
    A merge holds the settled atoms and then one atom for each of the reply's, in order: the
    learner's own stored one where the id is that of one, and otherwise the reply's.
   */
  lemma MergeHoldsReply(atoms: seq<Atom>, drafts: seq<Drafted>, c: Context)
    requires Distilled(atoms, Drafts(drafts), c).Merged?
    ensures var settled, window, out := Settled(atoms, c), Offered(atoms, c), Distilled(atoms, Drafts(drafts), c).atoms;
            && |out| == |settled| + |drafts|
            && atoms == settled + window && (c.maxAtoms == 0 ==> window == atoms)
            && (c.maxAtoms > 0 ==> |window| == if |atoms| < c.maxAtoms then |atoms| else c.maxAtoms)
            && forall i: nat :: i < |drafts| ==>
                 var a := out[|settled| + i];
                 if IdFor(drafts[i], i, c) in LearnerAtoms(window) then a == LearnerAtoms(window)[IdFor(drafts[i], i, c)]
                 else StoredFrom(window, drafts[i], i, c, a)
  {
    var settled, window := Settled(atoms, c), Offered(atoms, c);
    var prepared := PreparedAll(window, drafts, c);
    var carried := Carried(LearnerAtoms(window), prepared);
    forall i: nat | i < |drafts| && IdFor(drafts[i], i, c) !in LearnerAtoms(window)
      ensures StoredFrom(window, drafts[i], i, c, carried[i])
    {
      AllowedAre(drafts[i].kcIds, c.allowed);
      LineageIs(window, prepared[i].id);
      CitedIsKept(PriorEvidence(window, prepared[i].id), drafts[i].refs, c.refs);
      EvidenceOnlyGrows(PriorEvidence(window, prepared[i].id), drafts[i].refs, c.refs);
    }
  }

  /** Some atom of the reply has this id, its own or a new one. */
  ghost predicate HasId(drafts: seq<Drafted>, c: Context, id: string) {
    exists i: nat :: i < |drafts| && IdFor(drafts[i], i, c) == id
  }

  /** A merge is rejected exactly when the reply is unusable or leaves out a learner atom it was offered. */
  lemma RejectedExactlyWhen(atoms: seq<Atom>, reply: Reply, c: Context)
    ensures Distilled(atoms, reply, c).Rejected? <==>
      || reply.Unusable?
      || (reply.Drafts? && exists a :: a in Offered(atoms, c) && IsLearners(a) && !HasId(reply.atoms, c, a.id))
  {
    if reply.Drafts? {
      var window := Offered(atoms, c);
      var prepared := PreparedAll(window, reply.atoms, c);
      LearnersByOwnId(window);
      assert forall i: nat :: i < |prepared| ==> prepared[i].id == IdFor(reply.atoms[i], i, c);
      if !AllPresent(LearnerAtoms(window), prepared) {
        var id :| id in LearnerAtoms(window) && !exists i :: 0 <= i < |prepared| && prepared[i].id == id;
        var a := LearnerAtoms(window)[id];
        assert a in window && IsLearners(a) && a.id == id;
        assert forall i: nat :: i < |prepared| ==> prepared[i].id != a.id;
      } else {
        forall a | a in window && IsLearners(a)
          ensures HasId(reply.atoms, c, a.id)
        {
          var i :| 0 <= i < |prepared| && prepared[i].id == a.id;
          assert IdFor(reply.atoms[i], i, c) == a.id;
        }
      }
    }
  }
}
