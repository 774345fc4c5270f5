/** Concurrent answers: row locks taken in ascending order and held to commit (`app/learning/mastery.py`). */
module Locks {
  import opened Wrappers
  import opened Ids
  import D = Distinctness

  /** Where a transaction stands with the row it wants next (`_get_or_create_state`). */
  datatype Phase = Looking | Inserting | Rereading

  /** One transaction: the rows it has been through, and what it has written to them. */
  datatype Txn<V> = Active(next: nat, phase: Phase, written: map<KcId, V>) | Committed | RolledBack

  /** The committed rows, who holds a row or has inserted it uncommitted, and the transactions. */
  datatype State<V> = State(
    rows: map<KcId, V>, owner: map<KcId, nat>, txns: seq<Txn<V>>, commits: seq<nat>)

  /**
    What the transactions are: the components each answers, in the order it takes them, and what
    it makes of a component's row; `blank` is the row it inserts when there is none.
   */
  datatype Work<!V> = Work(
    programs: seq<seq<KcId>>, apply: (nat, KcId, V) -> V, blank: V)

  predicate Ascending(program: seq<KcId>) {
    forall i, j :: 0 <= i < j < |program| ==> program[i].id < program[j].id
  }

  /** Every transaction takes its rows in ascending order of component. */
  ghost predicate Ordered<V>(w: Work<V>) {
    forall t :: 0 <= t < |w.programs| ==> Ascending(w.programs[t])
  }

  function Initial<V>(w: Work<V>, rows: map<KcId, V>): State<V> {
    State(rows, map[], seq(|w.programs|, _ => Active(0, Looking, map[])), [])
  }

  function ValueIn<V>(rows: map<KcId, V>, kc: KcId, blank: V): V {
    if kc in rows then rows[kc] else blank
  }

  /** Some other transaction holds the row. */
  predicate HeldByOther<V>(s: State<V>, t: nat, kc: KcId) {
    kc in s.owner && s.owner[kc] != t
  }

  ghost predicate Wants<V>(w: Work<V>, s: State<V>, t: nat) {
    t < |s.txns| == |w.programs| && s.txns[t].Active? && s.txns[t].next < |w.programs[t]|
  }

  /** The transaction waits for a row another one holds, or for an insert another one has not committed. */
  ghost predicate Blocked<V>(w: Work<V>, s: State<V>, t: nat)
    requires Wants(w, s, t)
  {
    var kc := w.programs[t][s.txns[t].next];
    match s.txns[t].phase
    case Looking => kc in s.rows && HeldByOther(s, t, kc)
    case Inserting => kc !in s.rows && HeldByOther(s, t, kc)
    case Rereading => HeldByOther(s, t, kc)
  }

  /** The locked row is read as committed, or as just inserted, and its new value written. */
  function Take<V>(w: Work<V>, s: State<V>, t: nat, kc: KcId): State<V>
    requires t < |s.txns| && s.txns[t].Active?
  {
    var txn := s.txns[t];
    var value := w.apply(t, kc, ValueIn(s.rows, kc, w.blank));
    s.(owner := s.owner[kc := t], txns := s.txns[t := Active(txn.next + 1, Looking, txn.written[kc := value])])
  }

  /** One statement of the transaction, when it is not blocked. */
  function Advance<V>(w: Work<V>, s: State<V>, t: nat): State<V>
    requires Wants(w, s, t)
  {
    var txn := s.txns[t];
    var kc := w.programs[t][txn.next];
    match txn.phase
    case Looking =>
      if kc in s.rows then Take(w, s, t, kc) else s.(txns := s.txns[t := txn.(phase := Inserting)])
    case Inserting =>
      if kc in s.rows then s.(txns := s.txns[t := txn.(phase := Rereading)])
      else s.(owner := s.owner[kc := t], txns := s.txns[t := txn.(phase := Rereading)])
    case Rereading => Take(w, s, t, kc)
  }

  function Released(owner: map<KcId, nat>, t: nat): map<KcId, nat> {
    map kc | kc in owner && owner[kc] != t :: owner[kc]
  }

  ghost predicate Finished<V>(w: Work<V>, s: State<V>, t: nat) {
    t < |s.txns| == |w.programs| && s.txns[t].Active? && s.txns[t].next >= |w.programs[t]|
  }

  function Commit<V>(s: State<V>, t: nat): State<V>
    requires t < |s.txns| && s.txns[t].Active?
  {
    State(s.rows + s.txns[t].written, Released(s.owner, t), s.txns[t := Committed], s.commits + [t])
  }

  function Rollback<V>(s: State<V>, t: nat): State<V>
    requires t < |s.txns|
  {
    State(s.rows, Released(s.owner, t), s.txns[t := RolledBack], s.commits)
  }

  /** One step of the system: a transaction advances, commits, or is rolled back at any point. */
  ghost predicate Step<V(!new)>(w: Work<V>, s: State<V>, s': State<V>) {
    || (exists t: nat :: Wants(w, s, t) && !Blocked(w, s, t) && s' == Advance(w, s, t))
    || (exists t: nat :: Finished(w, s, t) && s' == Commit(s, t))
    || (exists t: nat :: t < |s.txns| && s.txns[t].Active? && s' == Rollback(s, t))
  }

  // ---- What every step keeps ----------------------------------------------------------------

  ghost predicate Holds<V>(s: State<V>, t: nat, kc: KcId) {
    kc in s.owner && s.owner[kc] == t
  }

  /** The transaction holds the row, and has written what it makes of the committed one. */
  ghost predicate Written<V>(w: Work<V>, s: State<V>, t: nat, written: map<KcId, V>, kc: KcId) {
    Holds(s, t, kc) && kc in written && written[kc] == w.apply(t, kc, ValueIn(s.rows, kc, w.blank))
  }

  /** Transaction `t` has written exactly the rows it has been through; one it rereads is there to read. */
  ghost predicate TxnOk<V>(w: Work<V>, s: State<V>, t: nat)
    requires t < |s.txns| == |w.programs|
  {
    s.txns[t].Active? ==>
      (var program, txn := w.programs[t], s.txns[t];
       && txn.next <= |program|
       && (forall i :: 0 <= i < txn.next ==> Written(w, s, t, txn.written, program[i]))
       && (forall kc :: kc in txn.written ==> kc in program[..txn.next])
       && (txn.phase.Rereading? ==>
             txn.next < |program| && (program[txn.next] in s.rows || Holds(s, t, program[txn.next]))))
  }

  /** A held row is held by an active transaction that has been through it, or is rereading its own insert. */
  ghost predicate OwnerOk<V>(w: Work<V>, s: State<V>, kc: KcId, t: nat) {
    && t < |s.txns| == |w.programs| && s.txns[t].Active? && s.txns[t].next <= |w.programs[t]|
    && (kc in w.programs[t][..s.txns[t].next]
        || (s.txns[t].phase.Rereading? && Wants(w, s, t) && w.programs[t][s.txns[t].next] == kc))
  }

  ghost predicate Inv<V>(w: Work<V>, s: State<V>) {
    && |s.txns| == |w.programs|
    && (forall t :: 0 <= t < |s.txns| ==> TxnOk(w, s, t))
    && (forall kc :: kc in s.owner ==> OwnerOk(w, s, kc, s.owner[kc]))
  }

  lemma InitialInv<V>(w: Work<V>, rows: map<KcId, V>)
    ensures Inv(w, Initial(w, rows))
  {
  }

  /** A row of the program further on is not among those before it. */
  lemma NotBefore(program: seq<KcId>, n: nat)
    requires Ascending(program) && n < |program|
    ensures program[n] !in program[..n] && program[..n + 1] == program[..n] + [program[n]]
  {
  }

  lemma TakeOk<V>(w: Work<V>, s: State<V>, t: nat, kc: KcId, u: nat)
    requires Ordered(w) && Inv(w, s) && Wants(w, s, t) && kc == w.programs[t][s.txns[t].next] && !HeldByOther(s, t, kc)
    requires u < |s.txns|
    ensures TxnOk(w, Take(w, s, t, kc), u)
  {
    var s' := Take(w, s, t, kc);
    assert TxnOk(w, s, u);
    NotBefore(w.programs[t], s.txns[t].next);
    if s'.txns[u].Active? {
      forall i | 0 <= i < s'.txns[u].next
        ensures Written(w, s', u, s'.txns[u].written, w.programs[u][i])
      {
        if u != t || i < s.txns[t].next {
          assert Written(w, s, u, s.txns[u].written, w.programs[u][i]);
          assert u == t ==> w.programs[t][i] in w.programs[t][..s.txns[t].next];
        }
      }
    }
  }

  lemma TakeKeeps<V>(w: Work<V>, s: State<V>, t: nat, kc: KcId)
    requires Ordered(w) && Inv(w, s) && Wants(w, s, t) && kc == w.programs[t][s.txns[t].next] && !HeldByOther(s, t, kc)
    ensures Inv(w, Take(w, s, t, kc))
  {
    var s' := Take(w, s, t, kc);
    forall u | 0 <= u < |s'.txns|
      ensures TxnOk(w, s', u)
    {
      TakeOk(w, s, t, kc, u);
    }
    NotBefore(w.programs[t], s.txns[t].next);
    forall k | k in s'.owner
      ensures OwnerOk(w, s', k, s'.owner[k])
    {
      if k != kc {
        assert OwnerOk(w, s, k, s.owner[k]);
      }
    }
  }

  /** Only the phase changes, to one that is not rereading, or rereading a row that is committed. */
  lemma TurnKeeps<V>(w: Work<V>, s: State<V>, t: nat, phase: Phase)
    requires Inv(w, s) && Wants(w, s, t) && !s.txns[t].phase.Rereading?
    requires phase.Rereading? ==> w.programs[t][s.txns[t].next] in s.rows
    ensures Inv(w, s.(txns := s.txns[t := s.txns[t].(phase := phase)]))
  {
    var s' := s.(txns := s.txns[t := s.txns[t].(phase := phase)]);
    forall u | 0 <= u < |s'.txns|
      ensures TxnOk(w, s', u)
    {
      assert TxnOk(w, s, u);
      if s'.txns[u].Active? {
        forall i | 0 <= i < s'.txns[u].next
          ensures Written(w, s', u, s'.txns[u].written, w.programs[u][i])
        {
          assert Written(w, s, u, s.txns[u].written, w.programs[u][i]);
        }
      }
    }
    forall k | k in s'.owner
      ensures OwnerOk(w, s', k, s'.owner[k])
    {
      assert OwnerOk(w, s, k, s.owner[k]);
    }
  }

  lemma InsertKeeps<V>(w: Work<V>, s: State<V>, t: nat, kc: KcId)
    requires Inv(w, s) && Wants(w, s, t) && s.txns[t].phase.Inserting? && kc == w.programs[t][s.txns[t].next]
    requires kc !in s.owner || s.owner[kc] == t
    ensures Inv(w, s.(owner := s.owner[kc := t], txns := s.txns[t := s.txns[t].(phase := Rereading)]))
  {
    var s' := s.(owner := s.owner[kc := t], txns := s.txns[t := s.txns[t].(phase := Rereading)]);
    forall u | 0 <= u < |s'.txns|
      ensures TxnOk(w, s', u)
    {
      assert TxnOk(w, s, u);
      if s'.txns[u].Active? {
        forall i | 0 <= i < s'.txns[u].next
          ensures Written(w, s', u, s'.txns[u].written, w.programs[u][i])
        {
          assert Written(w, s, u, s.txns[u].written, w.programs[u][i]);
        }
      }
    }
    forall k | k in s'.owner
      ensures OwnerOk(w, s', k, s'.owner[k])
    {
      if k != kc {
        assert OwnerOk(w, s, k, s.owner[k]);
      }
    }
  }

  lemma AdvanceKeeps<V>(w: Work<V>, s: State<V>, t: nat)
    requires Ordered(w) && Inv(w, s) && Wants(w, s, t) && !Blocked(w, s, t)
    ensures Inv(w, Advance(w, s, t))
  {
    var kc := w.programs[t][s.txns[t].next];
    match s.txns[t].phase
    case Looking =>
      if kc in s.rows {
        TakeKeeps(w, s, t, kc);
      } else {
        TurnKeeps(w, s, t, Inserting);
      }
    case Inserting =>
      if kc in s.rows {
        TurnKeeps(w, s, t, Rereading);
      } else {
        InsertKeeps(w, s, t, kc);
      }
    case Rereading => TakeKeeps(w, s, t, kc);
  }

  /** Rows another transaction holds stay as they were when `t` leaves, committed or not. */
  lemma LeavingKeeps<V>(w: Work<V>, s: State<V>, t: nat, s': State<V>)
    requires Inv(w, s) && t < |s.txns| && s.txns[t].Active? && |s'.txns| == |s.txns|
    requires s'.owner == Released(s.owner, t) && !s'.txns[t].Active?
    requires forall u :: 0 <= u < |s.txns| && u != t ==> s'.txns[u] == s.txns[u]
    requires s.rows.Keys <= s'.rows.Keys
    requires forall kc :: kc in s'.rows && !Holds(s, t, kc) ==> kc in s.rows && s'.rows[kc] == s.rows[kc]
    ensures Inv(w, s')
  {
    forall u | 0 <= u < |s'.txns|
      ensures TxnOk(w, s', u)
    {
      assert TxnOk(w, s, u);
      if s'.txns[u].Active? {
        forall i | 0 <= i < s'.txns[u].next
          ensures Written(w, s', u, s'.txns[u].written, w.programs[u][i])
        {
          assert Written(w, s, u, s.txns[u].written, w.programs[u][i]);
        }
      }
    }
    forall k | k in s'.owner
      ensures OwnerOk(w, s', k, s'.owner[k])
    {
      assert OwnerOk(w, s, k, s.owner[k]);
    }
  }

  lemma CommitKeeps<V>(w: Work<V>, s: State<V>, t: nat)
    requires Inv(w, s) && Finished(w, s, t)
    ensures Inv(w, Commit(s, t))
  {
    assert TxnOk(w, s, t);
    forall kc | kc in s.txns[t].written
      ensures Holds(s, t, kc)
    {
      var i :| 0 <= i < s.txns[t].next && w.programs[t][..s.txns[t].next][i] == kc;
      assert Written(w, s, t, s.txns[t].written, w.programs[t][i]);
    }
    LeavingKeeps(w, s, t, Commit(s, t));
  }

  lemma StepKeeps<V(!new)>(w: Work<V>, s: State<V>, s': State<V>)
    requires Ordered(w) && Inv(w, s) && Step(w, s, s')
    ensures Inv(w, s')
  {
    if t: nat :| Wants(w, s, t) && !Blocked(w, s, t) && s' == Advance(w, s, t) {
      AdvanceKeeps(w, s, t);
    } else if t: nat :| Finished(w, s, t) && s' == Commit(s, t) {
      CommitKeeps(w, s, t);
    } else {
      var t: nat :| t < |s.txns| && s.txns[t].Active? && s' == Rollback(s, t);
      LeavingKeeps(w, s, t, s');
    }
  }

  // ---- No deadlock --------------------------------------------------------------------------

  /** The row a transaction wants next. */
  ghost function WantedRow<V>(w: Work<V>, s: State<V>, t: nat): KcId
    requires Wants(w, s, t)
  {
    w.programs[t][s.txns[t].next]
  }

  /** Of the first `n` transactions, one that wants a row no earlier in the order than any other's. */
  lemma {:induction false} LastWanter<V>(w: Work<V>, s: State<V>, n: nat) returns (t: nat)
    requires n <= |s.txns| && exists u: nat :: u < n && Wants(w, s, u)
    ensures t < n && Wants(w, s, t)
    ensures forall u: nat :: u < n && Wants(w, s, u) ==> WantedRow(w, s, u).id <= WantedRow(w, s, t).id
    decreases n
  {
    if exists u: nat :: u < n - 1 && Wants(w, s, u) {
      t := LastWanter(w, s, n - 1);
      if Wants(w, s, n - 1) && WantedRow(w, s, n - 1).id > WantedRow(w, s, t).id {
        t := n - 1;
      }
    } else {
      t := n - 1;
    }
  }

  ghost predicate AnyActive<V>(s: State<V>) {
    exists t :: 0 <= t < |s.txns| && s.txns[t].Active?
  }

  ghost predicate AnyCanMove<V>(w: Work<V>, s: State<V>) {
    exists t: nat :: CanMove(w, s, t)
  }

  ghost predicate CanMove<V>(w: Work<V>, s: State<V>, t: nat) {
    (Wants(w, s, t) && !Blocked(w, s, t)) || Finished(w, s, t)
  }

  /** As long as some transaction is active, one of them can advance or commit. */
  lemma NeverDeadlocked<V>(w: Work<V>, s: State<V>)
    requires Ordered(w) && Inv(w, s) && AnyActive(s)
    ensures AnyCanMove(w, s)
  {
    var a :| 0 <= a < |s.txns| && s.txns[a].Active?;
    if Finished(w, s, a) {
      assert CanMove(w, s, a);
    } else {
      assert Wants(w, s, a);
      var t := LastWanter(w, s, |s.txns|);
      if !Blocked(w, s, t) {
        assert CanMove(w, s, t);
      } else {
        var kc := WantedRow(w, s, t);
        var u := s.owner[kc];
        assert OwnerOk(w, s, kc, u);
        HolderMoves(w, s, t, u, kc);
      }
    }
  }

  /** The holder of the last row anyone wants is not waiting: what it wants would come later still. */
  lemma HolderMoves<V>(w: Work<V>, s: State<V>, t: nat, u: nat, kc: KcId)
    requires Ordered(w) && Inv(w, s) && Wants(w, s, t) && kc == WantedRow(w, s, t) && Holds(s, u, kc) && u != t
    requires OwnerOk(w, s, kc, u)
    requires forall v: nat :: v < |s.txns| && Wants(w, s, v) ==> WantedRow(w, s, v).id <= kc.id
    ensures CanMove(w, s, u)
  {
    if Wants(w, s, u) {
      var program, n := w.programs[u], s.txns[u].next;
      assert WantedRow(w, s, u).id <= kc.id;
      forall i | 0 <= i < n
        ensures program[..n][i] != kc
      {
        assert program[i].id < program[n].id;
      }
    }
  }

  // ---- Every step is progress ---------------------------------------------------------------

  function PhasesLeft(phase: Phase): nat {
    match phase
    case Looking => 3
    case Inserting => 2
    case Rereading => 1
  }

  function Left<V>(w: Work<V>, s: State<V>, t: nat): nat
    requires t < |s.txns| == |w.programs|
  {
    var txn := s.txns[t];
    if !txn.Active? then 0
    else if txn.next >= |w.programs[t]| then 1
    else 4 * (|w.programs[t]| - txn.next) + PhasesLeft(txn.phase)
  }

  function LeftOf<V>(w: Work<V>, s: State<V>, n: nat): nat
    requires n <= |s.txns| == |w.programs|
  {
    if n == 0 then 0 else LeftOf(w, s, n - 1) + Left(w, s, n - 1)
  }

  lemma {:induction false} LeftFalls<V>(w: Work<V>, s: State<V>, s': State<V>, t: nat, n: nat)
    requires n <= |s.txns| == |w.programs| == |s'.txns| && t < |s.txns|
    requires forall u :: 0 <= u < |s.txns| && u != t ==> s'.txns[u] == s.txns[u]
    requires Left(w, s', t) < Left(w, s, t)
    ensures t < n ==> LeftOf(w, s', n) < LeftOf(w, s, n)
    ensures n <= t ==> LeftOf(w, s', n) == LeftOf(w, s, n)
    decreases n
  {
    if n > 0 {
      LeftFalls(w, s, s', t, n - 1);
    }
  }

  lemma AdvanceLeaves<V>(w: Work<V>, s: State<V>, t: nat)
    requires Inv(w, s) && Wants(w, s, t)
    ensures var s' := Advance(w, s, t);
            && |s'.txns| == |s.txns| && Left(w, s', t) < Left(w, s, t)
            && s'.rows == s.rows && s'.commits == s.commits && s'.txns[t].Active?
            && forall u :: 0 <= u < |s.txns| && u != t ==> s'.txns[u] == s.txns[u]
  {
  }

  /** Every step, whichever it is, leaves less to do: no run goes on forever. */
  lemma StepsEnd<V(!new)>(w: Work<V>, s: State<V>, s': State<V>)
    requires Inv(w, s) && Step(w, s, s')
    ensures |s'.txns| == |s.txns| && LeftOf(w, s', |s'.txns|) < LeftOf(w, s, |s.txns|)
  {
    if t: nat :| Wants(w, s, t) && !Blocked(w, s, t) && s' == Advance(w, s, t) {
      AdvanceLeaves(w, s, t);
      LeftFalls(w, s, s', t, |s.txns|);
    } else if t: nat :| Finished(w, s, t) && s' == Commit(s, t) {
      LeftFalls(w, s, s', t, |s.txns|);
    } else {
      var t: nat :| t < |s.txns| && s.txns[t].Active? && s' == Rollback(s, t);
      LeftFalls(w, s, s', t, |s.txns|);
    }
  }

  // ---- Serial order -------------------------------------------------------------------------

  /** The first `n` rows of a transaction run alone, one after the other. */
  function Alone<V>(w: Work<V>, rows: map<KcId, V>, t: nat, n: nat): map<KcId, V>
    requires t < |w.programs| && n <= |w.programs[t]|
  {
    if n == 0 then rows
    else
      var before, kc := Alone(w, rows, t, n - 1), w.programs[t][n - 1];
      before[kc := w.apply(t, kc, ValueIn(before, kc, w.blank))]
  }

  /** The transactions run one at a time, in this order. */
  function Serial<V>(w: Work<V>, rows: map<KcId, V>, order: seq<nat>): map<KcId, V>
    requires forall i :: 0 <= i < |order| ==> order[i] < |w.programs|
  {
    if order == [] then rows
    else
      var t := order[|order| - 1];
      Alone(w, Serial(w, rows, order[..|order| - 1]), t, |w.programs[t]|)
  }

  /** What every transaction keeps true of a row, with the blank one to begin with. */
  ghost predicate Preserves<V(!new)>(w: Work<V>, good: (KcId, V) -> bool) {
    && (forall kc :: good(kc, w.blank))
    && forall t: nat, kc: KcId, v: V :: t < |w.programs| && good(kc, v) ==> good(kc, w.apply(t, kc, v))
  }

  ghost predicate AllGood<V>(rows: map<KcId, V>, good: (KcId, V) -> bool) {
    forall kc :: kc in rows ==> good(kc, rows[kc])
  }

  lemma {:induction false} AlonePreserves<V(!new)>(w: Work<V>, rows: map<KcId, V>, t: nat, n: nat, good: (KcId, V) -> bool)
    requires t < |w.programs| && n <= |w.programs[t]| && Preserves(w, good) && AllGood(rows, good)
    ensures AllGood(Alone(w, rows, t, n), good)
    decreases n
  {
    if n > 0 {
      AlonePreserves(w, rows, t, n - 1, good);
      var before, kc := Alone(w, rows, t, n - 1), w.programs[t][n - 1];
      assert good(kc, ValueIn(before, kc, w.blank));
    }
  }

  /** What each transaction keeps true of each row is true of all rows after any serial run. */
  lemma {:induction false} SerialPreserves<V(!new)>(w: Work<V>, rows: map<KcId, V>, order: seq<nat>, good: (KcId, V) -> bool)
    requires forall i :: 0 <= i < |order| ==> order[i] < |w.programs|
    requires Preserves(w, good) && AllGood(rows, good)
    ensures AllGood(Serial(w, rows, order), good)
    decreases |order|
  {
    if order != [] {
      var init, t := order[..|order| - 1], order[|order| - 1];
      SerialPreserves(w, rows, init, good);
      AlonePreserves(w, Serial(w, rows, init), t, |w.programs[t]|, good);
    }
  }

  /** The committed rows are those of a serial run in commit order, of the transactions that committed, each once. */
  ghost predicate SerialSoFar<V>(w: Work<V>, start: map<KcId, V>, s: State<V>) {
    && |s.txns| == |w.programs|
    && (forall i :: 0 <= i < |s.commits| ==> s.commits[i] < |w.programs|)
    && s.rows == Serial(w, start, s.commits)
    && D.NoDuplicates(s.commits)
    && forall t :: 0 <= t < |s.txns| ==> (s.txns[t].Committed? <==> t in s.commits)
  }

  ghost predicate AloneAt<V>(w: Work<V>, rows: map<KcId, V>, r: map<KcId, V>, t: nat, kc: KcId) {
    kc in r && r[kc] == w.apply(t, kc, ValueIn(rows, kc, w.blank))
  }

  /** Running a transaction alone changes each of its rows once, from what it was. */
  lemma {:induction false} AloneIs<V>(w: Work<V>, rows: map<KcId, V>, t: nat, n: nat)
    requires Ordered(w) && t < |w.programs| && n <= |w.programs[t]|
    ensures var r := Alone(w, rows, t, n);
            && (forall i :: 0 <= i < n ==> AloneAt(w, rows, r, t, w.programs[t][i]))
            && (forall kc :: kc !in w.programs[t][..n] ==> (kc in r <==> kc in rows) && (kc in r ==> r[kc] == rows[kc]))
            && (forall kc :: kc in r ==> kc in rows || kc in w.programs[t][..n])
    decreases n
  {
    if n > 0 {
      AloneIs(w, rows, t, n - 1);
      NotBefore(w.programs[t], n - 1);
    }
  }

  /** What a finished transaction commits is what it would have done alone, on the rows as committed now. */
  lemma CommitIsAlone<V>(w: Work<V>, s: State<V>, t: nat)
    requires Ordered(w) && Inv(w, s) && Finished(w, s, t)
    ensures s.rows + s.txns[t].written == Alone(w, s.rows, t, |w.programs[t]|)
  {
    assert TxnOk(w, s, t);
    var n, written, r := |w.programs[t]|, s.txns[t].written, Alone(w, s.rows, t, |w.programs[t]|);
    AloneIs(w, s.rows, t, n);
    assert w.programs[t][..n] == w.programs[t];
    forall kc
      ensures kc in s.rows + written <==> kc in r
      ensures kc in r ==> (s.rows + written)[kc] == r[kc]
    {
      if kc in w.programs[t] {
        var i :| 0 <= i < n && w.programs[t][i] == kc;
        assert Written(w, s, t, written, w.programs[t][i]);
        assert AloneAt(w, s.rows, r, t, w.programs[t][i]);
      }
    }
  }

  lemma CommitIsSerial<V>(w: Work<V>, start: map<KcId, V>, s: State<V>, t: nat)
    requires Ordered(w) && Inv(w, s) && SerialSoFar(w, start, s) && Finished(w, s, t)
    ensures SerialSoFar(w, start, Commit(s, t))
  {
    var s' := Commit(s, t);
    CommitIsAlone(w, s, t);
    assert s'.commits[..|s.commits|] == s.commits;
    assert t !in s.commits;
    D.ElementsAppend(s.commits, t);
  }

  /** A step that commits nothing changes neither the rows nor who has committed. */
  lemma OtherIsSerial<V>(w: Work<V>, start: map<KcId, V>, s: State<V>, s': State<V>, t: nat)
    requires SerialSoFar(w, start, s) && t < |s.txns| == |s'.txns| && s.txns[t].Active? && !s'.txns[t].Committed?
    requires s'.rows == s.rows && s'.commits == s.commits
    requires forall u :: 0 <= u < |s.txns| && u != t ==> s'.txns[u] == s.txns[u]
    ensures SerialSoFar(w, start, s')
  {
    assert t !in s.commits;
  }

  lemma StepIsSerial<V(!new)>(w: Work<V>, start: map<KcId, V>, s: State<V>, s': State<V>)
    requires Ordered(w) && Inv(w, s) && SerialSoFar(w, start, s) && Step(w, s, s')
    ensures SerialSoFar(w, start, s')
  {
    if t: nat :| Wants(w, s, t) && !Blocked(w, s, t) && s' == Advance(w, s, t) {
      AdvanceLeaves(w, s, t);
      OtherIsSerial(w, start, s, s', t);
    } else if t: nat :| Finished(w, s, t) && s' == Commit(s, t) {
      CommitIsSerial(w, start, s, t);
    } else {
      var t: nat :| t < |s.txns| && s.txns[t].Active? && s' == Rollback(s, t);
      OtherIsSerial(w, start, s, s', t);
    }
  }

  /** A run of the system: each state follows from the one before it by a step. */
  ghost predicate IsRun<V(!new)>(w: Work<V>, run: seq<State<V>>) {
    run != [] && forall i :: 0 <= i < |run| - 1 ==> Step(w, run[i], run[i + 1])
  }

  /**
    Every reachable state: the invariant holds, the committed rows are those of a serial run in
    commit order, and if any transaction is still active one of them can move.
   */
  lemma {:induction false} EveryRunIsSerial<V(!new)>(w: Work<V>, start: map<KcId, V>, run: seq<State<V>>)
    requires Ordered(w) && IsRun(w, run) && run[0] == Initial(w, start)
    ensures var s := run[|run| - 1];
            && Inv(w, s) && SerialSoFar(w, start, s)
            && (AnyActive(s) ==> AnyCanMove(w, s))
    decreases |run|
  {
    var n := |run|;
    if n == 1 {
      InitialInv(w, start);
    } else {
      var init := run[..n - 1];
      assert forall i :: 0 <= i < |init| ==> init[i] == run[i];
      EveryRunIsSerial(w, start, init);
      assert Step(w, run[n - 2], run[n - 2 + 1]);
      StepKeeps(w, run[n - 2], run[n - 1]);
      StepIsSerial(w, start, run[n - 2], run[n - 1]);
    }
    if AnyActive(run[n - 1]) {
      NeverDeadlocked(w, run[n - 1]);
    }
  }
}

/** Answers in flight together, as transactions over the components they touch. */
module ConcurrentAnswers {
  import opened Wrappers
  import opened Ids
  import opened MasteryRow
  import opened MasteryRuns
  import opened MasteryStore
  import Locks
  import Sorting

  datatype Submission = Submission(obs: Observation, now: int)

  function TagOf(tags: seq<Tag>, kc: KcId): Option<Tag> {
    if tags == [] then None else if tags[0].kc == kc then Some(tags[0]) else TagOf(tags[1..], kc)
  }

  /** What a submission makes of one component. */
  function Applied(p: Policy, s: Submission, kc: KcId, c: Component): Component {
    var tag, total := TagOf(s.obs.tags, kc), TotalWeight(s.obs.tags);
    if tag.Some? && total > 0.0 then Act(p, kc, c, ActionFor(s.obs, tag.value, total, s.now)) else c
  }

  function ProgramOf(s: Submission): seq<KcId> {
    KcsOf(Sorting.StableSort(s.obs.tags, ByKc))
  }

  function WorkOf(p: Policy, submissions: seq<Submission>): Locks.Work<Component> {
    Locks.Work(seq(|submissions|, i requires 0 <= i < |submissions| => ProgramOf(submissions[i])),
               (t: nat, kc: KcId, c: Component) => if t < |submissions| then Applied(p, submissions[t], kc, c) else c,
               UNSEEN)
  }

  /** Taking the tags in sorted order takes the rows in ascending order. */
  lemma ProgramAscends(s: Submission)
    requires ValidObservation(s.obs)
    ensures Locks.Ascending(ProgramOf(s))
  {
    var order := Sorting.StableSort(s.obs.tags, ByKc);
    OrderIsDistinct(s.obs.tags, order);
    Sorting.StableSortSorts(s.obs.tags, ByKc);
    forall i, j | 0 <= i < j < |order|
      ensures order[i].kc.id < order[j].kc.id
    {
      assert !SameKc(order[i], order[j]);
    }
  }

  /** An observation takes the rows of its tags, and no others. */
  lemma ProgramTakesTags(s: Submission)
    requires ValidObservation(s.obs)
    ensures forall kc :: kc in ProgramOf(s) <==> exists t :: t in s.obs.tags && t.kc == kc
  {
    OrderIsDistinct(s.obs.tags, Sorting.StableSort(s.obs.tags, ByKc));
    KcsIn(s.obs.tags);
  }

  /**
    Any number of answers and ratings in flight together, some rolled back: no reachable state is
    stuck, and the rows and logs are those of recording the committed ones one after the other.
   */
  lemma ConcurrentAnswersAreSerial(
    p: Policy, submissions: seq<Submission>, start: map<KcId, Component>, run: seq<Locks.State<Component>>)
    requires forall i :: 0 <= i < |submissions| ==> ValidObservation(submissions[i].obs)
    requires Locks.IsRun(WorkOf(p, submissions), run) && run[0] == Locks.Initial(WorkOf(p, submissions), start)
    ensures var s := run[|run| - 1];
            && Locks.SerialSoFar(WorkOf(p, submissions), start, s)
            && (Locks.AnyActive(s) ==> Locks.AnyCanMove(WorkOf(p, submissions), s))
  {
    var w := WorkOf(p, submissions);
    forall t | 0 <= t < |w.programs|
      ensures Locks.Ascending(w.programs[t])
    {
      ProgramAscends(submissions[t]);
    }
    Locks.EveryRunIsSerial(w, start, run);
  }

  /** A submission leaves a component the replay of its log if it was one, whatever its time. */
  lemma AppliedKeeps(p: Policy, s: Submission, kc: KcId, c: Component)
    requires Kept(p, c)
    ensures Kept(p, Applied(p, s, kc, c))
  {
    var tag, total := TagOf(s.obs.tags, kc), TotalWeight(s.obs.tags);
    if tag.Some? && total > 0.0 {
      ActKeeps(p, kc, c, ActionFor(s.obs, tag.value, total, s.now));
    }
  }

  lemma SubmissionsPreserve(p: Policy, submissions: seq<Submission>)
    ensures Locks.Preserves(WorkOf(p, submissions), (kc: KcId, c: Component) => Kept(p, c))
  {
    var w := WorkOf(p, submissions);
    FreshIsSound(p);
    forall t: nat, kc: KcId, c: Component | t < |w.programs| && Kept(p, c)
      ensures Kept(p, w.apply(t, kc, c))
    {
      AppliedKeeps(p, submissions[t], kc, c);
    }
  }

  /**
    However many answers and ratings are in flight, whatever their times and in whichever order
    they commit, every committed row is the replay of its own log, with the retention and the
    achievement that log implies.
   */
  lemma EveryRowReplays(
    p: Policy, submissions: seq<Submission>, start: map<KcId, Component>, run: seq<Locks.State<Component>>)
    requires forall i :: 0 <= i < |submissions| ==> ValidObservation(submissions[i].obs)
    requires Locks.IsRun(WorkOf(p, submissions), run) && run[0] == Locks.Initial(WorkOf(p, submissions), start)
    requires forall kc :: kc in start ==> Kept(p, start[kc])
    ensures var rows := run[|run| - 1].rows; forall kc :: kc in rows ==> Kept(p, rows[kc])
  {
    var w, s := WorkOf(p, submissions), run[|run| - 1];
    var good := (kc: KcId, c: Component) => Kept(p, c);
    ConcurrentAnswersAreSerial(p, submissions, start, run);
    SubmissionsPreserve(p, submissions);
    Locks.SerialPreserves(w, start, s.commits, good);
    assert forall kc :: kc in s.rows ==> good(kc, s.rows[kc]);
  }

  lemma {:induction false} TagFound(tags: seq<Tag>, t: Tag)
    requires DistinctKcs(tags) && t in tags
    ensures TagOf(tags, t.kc) == Some(t)
    decreases |tags|
  {
    if tags[0] != t {
      var i :| 0 <= i < |tags| && tags[i] == t;
      assert !SameKc(tags[0], tags[i]);
      assert tags[1..][i - 1] == t;
      forall a, b | 0 <= a < b < |tags[1..]|
        ensures !SameKc(tags[1..][a], tags[1..][b])
      {
        assert !SameKc(tags[a + 1], tags[b + 1]);
      }
      TagFound(tags[1..], t);
    }
  }

  /** Each row a transaction takes gets just what `record_observation` does to that component. */
  lemma AppliedIsRecorded(p: Policy, s: Submission, t: Tag, c: Component)
    requires ValidObservation(s.obs) && t in s.obs.tags
    ensures TotalWeight(s.obs.tags) > 0.0
    ensures Applied(p, s, t.kc, c) == Act(p, t.kc, c, ActionFor(s.obs, t, TotalWeight(s.obs.tags), s.now))
  {
    TotalIsPositive(s.obs.tags);
    TagFound(s.obs.tags, t);
  }
}
