/** The log of alert transitions (`app/services/alert_history.py`). */
module AlertHistory {
  import opened Wrappers

  datatype Name = Name(id: int)

  datatype Alert = Alert(name: Name, severity: string, detail: string)

  /** What an evaluation found: the alerts firing, and the conditions it checked. */
  datatype Report = Report(firing: seq<Alert>, checked: seq<Name>)

  /** A condition started or stopped firing. */
  datatype Transition = Transition(name: Name, firing: bool, alert: Option<Alert>)

  // ---- The log, read ----------------------------------------------------------------------

  /** The rows of one condition, oldest first. */
  function RowsOf(log: seq<Transition>, name: Name): seq<Transition> {
    if log == [] then []
    else
      var before, row := RowsOf(log[..|log| - 1], name), log[|log| - 1];
      if row.name == name then before + [row] else before
  }

  /** `current_states`, for one condition: what its latest row says, and false when it has none. */
  function IsFiring(log: seq<Transition>, name: Name): bool {
    var rows := RowsOf(log, name);
    rows != [] && rows[|rows| - 1].firing
  }

  /** `current_states`: the latest row of every condition that has one. */
  function CurrentStates(log: seq<Transition>): map<Name, bool> {
    if log == [] then map[]
    else CurrentStates(log[..|log| - 1])[log[|log| - 1].name := log[|log| - 1].firing]
  }

  lemma {:induction false} StatesAreLatest(log: seq<Transition>, name: Name)
    ensures name in CurrentStates(log) <==> RowsOf(log, name) != []
    ensures name in CurrentStates(log) ==> CurrentStates(log)[name] == RowsOf(log, name)[|RowsOf(log, name)| - 1].firing
    decreases |log|
  {
    if log != [] {
      StatesAreLatest(log[..|log| - 1], name);
    }
  }

  // ---- `record` -----------------------------------------------------------------------------

  /** `firing_now`: by name, the last alert of those that share one. */
  function FiringNow(firing: seq<Alert>): map<Name, Alert> {
    if firing == [] then map[] else FiringNow(firing[..|firing| - 1])[firing[|firing| - 1].name := firing[|firing| - 1]]
  }

  function Evaluated(r: Report): set<Name> {
    (set n | n in r.checked) + FiringNow(r.firing).Keys
  }

  function StateIn(states: map<Name, bool>, name: Name): bool {
    name in states && states[name]
  }

  /** The row that says what the report found of `name`. */
  function RowFor(r: Report, name: Name): Transition {
    var now := FiringNow(r.firing);
    Transition(name, name in now, if name in now then Some(now[name]) else None)
  }

  /** Each name once, in ascending order. */
  ghost predicate IsSorted(names: seq<Name>) {
    forall i, j :: 0 <= i < j < |names| ==> names[i].id < names[j].id
  }

  /** The rows a report adds to the log, for these names in their order. */
  function Added(log: seq<Transition>, r: Report, names: seq<Name>): seq<Transition> {
    if names == [] then []
    else
      var before, name := Added(log, r, names[..|names| - 1]), names[|names| - 1];
      if IsFiring(log, name) == (name in FiringNow(r.firing)) then before else before + [RowFor(r, name)]
  }

  /** The rows of `rows` that say a condition fires, or that one does not. */
  function Of(rows: seq<Transition>, firing: bool): seq<Transition> {
    if rows == [] then []
    else
      var before, row := Of(rows[..|rows| - 1], firing), rows[|rows| - 1];
      if row.firing == firing then before + [row] else before
  }

  /** `sorted(evaluated)`. */
  method SortNames(names: set<Name>) returns (sorted: seq<Name>)
    ensures IsSorted(sorted) && forall n :: n in sorted <==> n in names
  {
    sorted := [];
    var rest := names;
    while rest != {}
      invariant IsSorted(sorted) && rest <= names
      invariant forall n :: n in names <==> n in rest || n in sorted
      invariant forall n, m :: n in sorted && m in rest ==> n.id < m.id
      decreases |rest|
    {
      var least := Least(rest);
      sorted := sorted + [least];
      rest := rest - {least};
    }
  }

  method Least(names: set<Name>) returns (least: Name)
    requires names != {}
    ensures least in names && forall n :: n in names ==> least.id <= n.id
  {
    least :| least in names;
    var rest := names - {least};
    while rest != {}
      invariant least in names && rest <= names
      invariant forall n :: n in names && n !in rest ==> least.id <= n.id
      decreases |rest|
    {
      var n :| n in rest;
      if n.id < least.id {
        least := n;
      }
      rest := rest - {n};
    }
  }

  /** The append-only table. */
  class History {
    var log: seq<Transition>

    constructor ()
      ensures log == []
    {
      log := [];
    }

    /** `record`: the log gains one row for each condition of the report that was found otherwise than its latest row says. */
    method Record(r: Report) returns (changed: seq<Transition>, ghost names: seq<Name>)
      modifies this
      ensures Covers(names, r) && log == After(old(log), r, names)
      ensures changed == Of(Added(old(log), r, names), true) + Of(Added(old(log), r, names), false)
    {
      var previous := CurrentStates(log);
      var order := SortNames(Evaluated(r));
      names := order;
      var started: seq<Transition>, resolved: seq<Transition> := [], [];
      for i := 0 to |order|
        invariant SoFar(old(log), r, order[..i], log, started, resolved)
      {
        var row := RowFor(r, order[i]);
        OneMore(old(log), r, order, i, log, started, resolved, previous);
        if StateIn(previous, row.name) == row.firing {
          continue;
        }
        log := log + [row];
        if row.firing {
          started := started + [row];
        } else {
          resolved := resolved + [row];
        }
      }
      assert order[..|order|] == order;
      changed := started + resolved;
    }
  }

  /** What the loop has written for some of the names. */
  ghost predicate SoFar(
    before: seq<Transition>, r: Report, names: seq<Name>, log: seq<Transition>, started: seq<Transition>, resolved: seq<Transition>)
  {
    && log == After(before, r, names)
    && started == Of(Added(before, r, names), true)
    && resolved == Of(Added(before, r, names), false)
  }

  lemma OneMore(
    before: seq<Transition>, r: Report, names: seq<Name>, i: nat, log: seq<Transition>, started: seq<Transition>,
    resolved: seq<Transition>, previous: map<Name, bool>)
    requires i < |names| && SoFar(before, r, names[..i], log, started, resolved) && previous == CurrentStates(before)
    ensures var row := RowFor(r, names[i]);
            if StateIn(previous, row.name) == row.firing then SoFar(before, r, names[..i + 1], log, started, resolved)
            else SoFar(before, r, names[..i + 1], log + [row],
                       if row.firing then started + [row] else started, if row.firing then resolved else resolved + [row])
  {
    AddedMore(before, r, names, i);
    StatesAreLatest(before, names[i]);
    OfMore(Added(before, r, names[..i]), RowFor(r, names[i]));
  }

  lemma AddedMore(log: seq<Transition>, r: Report, names: seq<Name>, i: nat)
    requires i < |names|
    ensures Added(log, r, names[..i + 1]) ==
      (if IsFiring(log, names[i]) == (names[i] in FiringNow(r.firing)) then Added(log, r, names[..i])
       else Added(log, r, names[..i]) + [RowFor(r, names[i])])
  {
    assert names[..i + 1][..i] == names[..i];
  }

  lemma OfMore(rows: seq<Transition>, row: Transition)
    ensures Of(rows + [row], true) == Of(rows, true) + if row.firing then [row] else []
    ensures Of(rows + [row], false) == Of(rows, false) + if row.firing then [] else [row]
  {
    assert (rows + [row])[..|rows|] == rows;
  }

  /** These rows all say the same of some of these names, in ascending order, each once. */
  ghost predicate ToldInOrder(told: seq<Transition>, names: seq<Name>, firing: bool) {
    && (forall i :: 0 <= i < |told| ==> told[i].firing == firing && told[i].name in names)
    && forall i, j :: 0 <= i < j < |told| ==> told[i].name.id < told[j].name.id
  }

  lemma ToldOneMore(told: seq<Transition>, names: seq<Name>, firing: bool, name: Name, row: Transition)
    requires ToldInOrder(told, names, firing) && IsSorted(names + [name]) && row.name == name
    ensures ToldInOrder(told, names + [name], firing)
    ensures row.firing == firing ==> ToldInOrder(told + [row], names + [name], firing)
  {
    var all := names + [name];
    forall n | n in names
      ensures n.id < name.id
    {
      var i :| 0 <= i < |names| && names[i] == n;
      assert all[i] == n && all[|names|] == name;
    }
  }

  /** What started, and what stopped, is told in ascending order of name, each once. */
  lemma {:induction false} ChangedInOrder(log: seq<Transition>, r: Report, names: seq<Name>, firing: bool)
    requires IsSorted(names)
    ensures ToldInOrder(Of(Added(log, r, names), firing), names, firing)
    decreases |names|
  {
    if names != [] {
      var n := |names| - 1;
      var init, row := names[..n], RowFor(r, names[n]);
      assert init + [names[n]] == names && names[..n + 1] == names;
      ChangedInOrder(log, r, init, firing);
      AddedMore(log, r, names, n);
      OfMore(Added(log, r, init), row);
      ToldOneMore(Of(Added(log, r, init), firing), init, firing, names[n], row);
      assert Of(Added(log, r, init), firing) + [] == Of(Added(log, r, init), firing);
    }
  }

  // ---- What the log is, after any reports -------------------------------------------------

  /** Fired, resolved, fired, and so on, beginning with fired. */
  predicate Alternates(rows: seq<Transition>) {
    forall i :: 0 <= i < |rows| ==> rows[i].firing == (i % 2 == 0)
  }

  lemma {:induction false} RowsJoin(log: seq<Transition>, more: seq<Transition>, name: Name)
    ensures RowsOf(log + more, name) == RowsOf(log, name) + RowsOf(more, name)
    decreases |more|
  {
    if more == [] {
      assert log + more == log;
    } else {
      RowsJoin(log, more[..|more| - 1], name);
      assert (log + more)[..|log + more| - 1] == log + more[..|more| - 1];
    }
  }

  /** A report adds at most one row for a condition: when it was evaluated and its state differs. */
  lemma {:induction false} AddsOneRow(log: seq<Transition>, r: Report, names: seq<Name>, name: Name)
    requires IsSorted(names)
    ensures RowsOf(Added(log, r, names), name) ==
      (if name in names && IsFiring(log, name) != (name in FiringNow(r.firing)) then [RowFor(r, name)] else [])
    decreases |names|
  {
    if names != [] {
      var init, last := names[..|names| - 1], names[|names| - 1];
      LastIsNew(names, name);
      AddsOneRow(log, r, init, name);
      RowsMore(Added(log, r, init), RowFor(r, last), name);
    }
  }

  lemma LastIsNew(names: seq<Name>, name: Name)
    requires IsSorted(names) && names != []
    ensures var init, last := names[..|names| - 1], names[|names| - 1];
            IsSorted(init) && last !in init && (name in names <==> name in init || name == last)
  {
    var init := names[..|names| - 1];
    assert forall i :: 0 <= i < |init| ==> init[i] == names[i];
    assert names == init + [names[|names| - 1]];
  }

  lemma RowsMore(rows: seq<Transition>, row: Transition, name: Name)
    ensures RowsOf(rows + [row], name) == if row.name == name then RowsOf(rows, name) + [row] else RowsOf(rows, name)
  {
    assert (rows + [row])[..|rows|] == rows;
  }

  /** The log after a report whose evaluated conditions are `names`. */
  function After(log: seq<Transition>, r: Report, names: seq<Name>): seq<Transition> {
    log + Added(log, r, names)
  }

  ghost predicate Covers(names: seq<Name>, r: Report) {
    IsSorted(names) && forall n :: n in names <==> n in Evaluated(r)
  }

  /** After a report an evaluated condition's latest row is what the report found; one not evaluated is untouched. */
  lemma LatestIsEvaluated(log: seq<Transition>, r: Report, names: seq<Name>, name: Name)
    requires Covers(names, r)
    ensures name in Evaluated(r) ==> IsFiring(After(log, r, names), name) == (name in FiringNow(r.firing))
    ensures name !in Evaluated(r) ==> RowsOf(After(log, r, names), name) == RowsOf(log, name)
  {
    RowsJoin(log, Added(log, r, names), name);
    AddsOneRow(log, r, names, name);
  }

  /** Recording the same report again writes nothing. */
  lemma {:induction false} SecondTimeAddsNothing(log: seq<Transition>, r: Report, names: seq<Name>, some: seq<Name>)
    requires Covers(names, r) && forall n :: n in some ==> n in names
    ensures Added(After(log, r, names), r, some) == []
    decreases |some|
  {
    if some != [] {
      var init, last := some[..|some| - 1], some[|some| - 1];
      assert forall n :: n in init ==> n in some;
      SecondTimeAddsNothing(log, r, names, init);
      assert last in some;
      LatestIsEvaluated(log, r, names, last);
    }
  }

  lemma RecordingTwiceWritesOnce(log: seq<Transition>, r: Report, names: seq<Name>)
    requires Covers(names, r)
    ensures After(After(log, r, names), r, names) == After(log, r, names)
  {
    SecondTimeAddsNothing(log, r, names, names);
    assert After(log, r, names) + [] == After(log, r, names);
  }

  lemma NextInTurn(rows: seq<Transition>, row: Transition)
    requires Alternates(rows) && row.firing != (rows != [] && rows[|rows| - 1].firing)
    ensures Alternates(rows + [row])
  {
    var n := |rows|;
    if n > 0 {
      assert rows[n - 1].firing == ((n - 1) % 2 == 0);
    }
    assert row.firing == (n % 2 == 0);
  }

  lemma AlternationKept(log: seq<Transition>, r: Report, names: seq<Name>, name: Name)
    requires Covers(names, r) && Alternates(RowsOf(log, name))
    ensures Alternates(RowsOf(After(log, r, names), name))
  {
    RowsJoin(log, Added(log, r, names), name);
    AddsOneRow(log, r, names, name);
    if name in names && IsFiring(log, name) != (name in FiringNow(r.firing)) {
      NextInTurn(RowsOf(log, name), RowFor(r, name));
    } else {
      assert RowsOf(log, name) + [] == RowsOf(log, name);
    }
  }

  /** One report after another, each with the names it evaluates. */
  datatype Entry = Entry(report: Report, names: seq<Name>)

  ghost predicate AllCovered(entries: seq<Entry>) {
    forall i :: 0 <= i < |entries| ==> Covers(entries[i].names, entries[i].report)
  }

  function Recorded(entries: seq<Entry>): seq<Transition> {
    if entries == [] then []
    else After(Recorded(entries[..|entries| - 1]), entries[|entries| - 1].report, entries[|entries| - 1].names)
  }

  /** What the last report to evaluate `name` found, and false if none has. */
  function LastFound(entries: seq<Entry>, name: Name): bool {
    if entries == [] then false
    else
      var e := entries[|entries| - 1];
      if name in Evaluated(e.report) then name in FiringNow(e.report.firing) else LastFound(entries[..|entries| - 1], name)
  }

  /**
    Over any sequence of reports each condition's rows alternate, fired first, and the latest says
    what the last report that evaluated it found.
   */
  lemma {:induction false} EveryLogAlternates(entries: seq<Entry>, name: Name)
    requires AllCovered(entries)
    ensures Alternates(RowsOf(Recorded(entries), name))
    ensures IsFiring(Recorded(entries), name) == LastFound(entries, name)
    decreases |entries|
  {
    if entries != [] {
      var init, e := entries[..|entries| - 1], entries[|entries| - 1];
      EveryLogAlternates(init, name);
      AlternationKept(Recorded(init), e.report, e.names, name);
      LatestIsEvaluated(Recorded(init), e.report, e.names, name);
    }
  }

  // ---- What a row says --------------------------------------------------------------------

  /** The alert of the report a condition's row is about: the last one under its name. */
  ghost predicate IsAlertOf(r: Report, name: Name, i: int) {
    0 <= i < |r.firing| && r.firing[i].name == name && forall j :: i < j < |r.firing| ==> r.firing[j].name != name
  }

  lemma {:induction false} FiringNowIsLast(firing: seq<Alert>, name: Name)
    ensures name in FiringNow(firing) <==> exists i :: 0 <= i < |firing| && firing[i].name == name
    ensures name in FiringNow(firing) ==>
      exists i :: 0 <= i < |firing| && firing[i].name == name && FiringNow(firing)[name] == firing[i]
        && forall j :: i < j < |firing| ==> firing[j].name != name
    decreases |firing|
  {
    if firing != [] {
      var init, last := firing[..|firing| - 1], firing[|firing| - 1];
      FiringNowIsLast(init, name);
      if last.name == name {
        assert firing[|firing| - 1].name == name;
      } else if name in FiringNow(init) {
        var i :| 0 <= i < |init| && init[i].name == name && FiringNow(init)[name] == init[i]
          && forall j :: i < j < |init| ==> init[j].name != name;
        assert firing[i].name == name;
      }
    }
  }

  /**
    A condition is evaluated when it was checked or fires. Its state changing, the report adds one
    row: with the alert that fires, if one does, and without one if it was resolved.
   */
  lemma RowSaysWhatFired(log: seq<Transition>, r: Report, names: seq<Name>, name: Name)
    requires Covers(names, r)
    ensures name in names <==> name in r.checked || exists i :: 0 <= i < |r.firing| && r.firing[i].name == name
    ensures var before, after := RowsOf(log, name), RowsOf(After(log, r, names), name);
            after == before || (|after| == |before| + 1 && after[..|before|] == before
              && after[|before|].name == name
              && (after[|before|].firing ==> exists i :: IsAlertOf(r, name, i) && after[|before|].alert == Some(r.firing[i]))
              && (!after[|before|].firing ==> after[|before|].alert == None && !exists i :: IsAlertOf(r, name, i)))
  {
    FiringNowIsLast(r.firing, name);
    RowsJoin(log, Added(log, r, names), name);
    AddsOneRow(log, r, names, name);
    if name in FiringNow(r.firing) {
      var i :| 0 <= i < |r.firing| && r.firing[i].name == name && FiringNow(r.firing)[name] == r.firing[i]
        && forall j :: i < j < |r.firing| ==> r.firing[j].name != name;
      assert IsAlertOf(r, name, i);
    }
  }
}
