/** Multi-version concurrency control as a step machine: transactions, their
    frozen snapshots, and a store of row versions stamped with creator and deleter. */
module Mvcc {
  import opened Core

  type TxId = UInt64
  type RowId = UInt64

  datatype State = State(
    nextTx: nat,
    active: set<TxId>,
    committed: set<TxId>,
    snaps: map<TxId, set<TxId>>,
    rows: map<RowId, Row>)

  const INIT := State(0, {}, {}, map[], map[])

  /** The calls of the engine.  The row ids of new versions are whatever unused ids the
      heap hands out; `fits` says whether the new row is short enough for the heap. */
  datatype Event =
    | Begin(t: TxId)
    | Commit(t: TxId)
    | Rollback(t: TxId)
    | Insert(t: TxId, newId: RowId, values: seq<Value>)
    | Update(t: TxId, id: RowId, newId: RowId, values: seq<Value>, fits: bool)
    | Delete(t: TxId, id: RowId)
    | Scan(t: TxId)

  /** The transactions that count as committed for t. */
  function Seen(s: State, t: TxId): set<TxId> {
    if t in s.snaps then s.snaps[t] else s.committed
  }

  /** isVisible */
  predicate Visible(s: State, t: TxId, r: Row) {
    && (r.xmin == t || r.xmin in Seen(s, t))
    && !(r.xmax != 0 && (r.xmax == t || r.xmax in Seen(s, t)))
  }

  /** checkWriteConflict */
  predicate Conflict(s: State, t: TxId, r: Row) {
    || (r.xmax != 0 && r.xmax != t && r.xmax in s.committed)
    || (t in s.snaps && r.xmin != t && r.xmin in s.committed && r.xmin !in s.snaps[t])
  }

  /** The rows a scan returns. */
  function VisibleRows(s: State, t: TxId): (m: map<RowId, seq<Value>>)
    ensures forall id :: id in m <==> id in s.rows && Visible(s, t, s.rows[id])
    ensures forall id :: id in m ==> m[id] == s.rows[id].values
  {
    map id | id in s.rows && Visible(s, t, s.rows[id]) :: s.rows[id].values
  }

  /** What the caller gets back. */
  datatype Obs = Done(ok: bool) | Saw(rows: map<RowId, seq<Value>>)

  predicate CanWrite(s: State, t: TxId, id: RowId) {
    id in s.rows && !Conflict(s, t, s.rows[id])
  }

  function Observe(s: State, e: Event): Obs {
    match e
    case Begin(_) => Done(true)
    case Commit(t) => Done(t in s.active)
    case Rollback(_) => Done(true)
    case Insert(_, _, _) => Done(true)
    case Update(t, id, _, _, fits) => Done(CanWrite(s, t, id) && fits)
    case Delete(t, id) => Done(CanWrite(s, t, id))
    case Scan(t) => Saw(VisibleRows(s, t))
  }

  function Stamp(s: State, t: TxId, id: RowId): State
    requires id in s.rows
  {
    s.(rows := s.rows[id := s.rows[id].(xmax := t)])
  }

  function AddRow(s: State, t: TxId, id: RowId, values: seq<Value>): State {
    s.(rows := s.rows[id := Row(values, t, 0)])
  }

  /** One call.  An update stamps the old version before it stores the new one, so a
      new row that does not fit still leaves the old one stamped. */
  function Step(s: State, e: Event): State {
    match e
    case Begin(t) =>
      s.(nextTx := t, active := s.active + {t}, snaps := s.snaps[t := s.committed])
    case Commit(t) =>
      if t in s.active
      then s.(active := s.active - {t}, snaps := s.snaps - {t}, committed := s.committed + {t})
      else s
    case Rollback(t) => s.(active := s.active - {t}, snaps := s.snaps - {t})
    case Insert(t, newId, values) => AddRow(s, t, newId, values)
    case Update(t, id, newId, values, fits) =>
      if !CanWrite(s, t, id) then s
      else if fits then AddRow(Stamp(s, t, id), t, newId, values)
      else Stamp(s, t, id)
    case Delete(t, id) => if CanWrite(s, t, id) then Stamp(s, t, id) else s
    case Scan(_) => s
  }

  /** Transaction ids increase, calls come through handles of transactions in
      progress, and new versions get unused row ids. */
  predicate Allowed(s: State, e: Event) {
    match e
    case Begin(t) => t > s.nextTx
    case Insert(t, newId, _) => t in s.active && newId !in s.rows
    case Update(t, _, newId, _, _) => t in s.active && newId !in s.rows
    case _ => e.t in s.active
  }

  /** What every reachable state satisfies. */
  ghost predicate Inv(s: State) {
    && s.snaps.Keys == s.active
    && s.active !! s.committed
    && 0 !in s.active && 0 !in s.committed
    && (forall t :: t in s.active || t in s.committed ==> t <= s.nextTx)
    && (forall t :: t in s.active ==> s.snaps[t] <= s.committed)
    && (forall id :: id in s.rows ==> 0 < s.rows[id].xmin <= s.nextTx && s.rows[id].xmax <= s.nextTx)
  }

  lemma {:induction false} StepKeepsInv(s: State, e: Event)
    requires Inv(s) && Allowed(s, e)
    ensures Inv(Step(s, e))
  {
  }

  /** A run: every call is allowed in the state it meets. */
  ghost predicate IsRun(s: State, es: seq<Event>)
    decreases |es|
  {
    es == [] || (Allowed(s, es[0]) && IsRun(Step(s, es[0]), es[1..]))
  }

  function Run(s: State, es: seq<Event>): (r: State)
    decreases |es|
  {
    if es == [] then s else Run(Step(s, es[0]), es[1..])
  }

  lemma {:induction false} RunKeepsInv(s: State, es: seq<Event>)
    requires Inv(s) && IsRun(s, es)
    ensures Inv(Run(s, es))
    decreases |es|
  {
    if es != [] {
      StepKeepsInv(s, es[0]);
      RunKeepsInv(Step(s, es[0]), es[1..]);
    }
  }

  // ---------------------------------------------------------------------
  // Snapshot stability
  // ---------------------------------------------------------------------

  predicate CreatedFor(s: State, t: TxId, r: Row) {
    r.xmin == t || r.xmin in Seen(s, t)
  }

  /** The call overwrites t's own deletion mark on a version that t could otherwise see. */
  predicate Overwrites(s: State, t: TxId, e: Event) {
    && (e.Update? || e.Delete?)
    && CanWrite(s, e.t, e.id)
    && s.rows[e.id].xmax == t
    && CreatedFor(s, t, s.rows[e.id])
  }

  ghost predicate Overwritten(s: State, t: TxId, es: seq<Event>)
    decreases |es|
  {
    es != [] && (Overwrites(s, t, es[0]) || Overwritten(Step(s, es[0]), t, es[1..]))
  }

  /** A deletion mark of another transaction in progress hides nothing from t. */
  lemma {:induction false} OthersStamp(s: State, t: TxId, w: TxId, id: RowId)
    requires Inv(s) && t in s.active && w in s.active && w != t && CanWrite(s, w, id)
    ensures var own := s.rows[id].xmax == t && CreatedFor(s, t, s.rows[id]);
            && (own ==> id !in VisibleRows(s, t))
            && VisibleRows(Stamp(s, w, id), t)
               == if own then VisibleRows(s, t)[id := s.rows[id].values] else VisibleRows(s, t)
  {
    assert w !in Seen(s, t);
    var s' := Stamp(s, w, id);
    forall x | x in s.rows && x != id ensures Visible(s', t, s'.rows[x]) == Visible(s, t, s.rows[x]) {
    }
  }

  lemma {:induction false} OthersAdd(s: State, t: TxId, w: TxId, newId: RowId, values: seq<Value>)
    requires Inv(s) && t in s.active && w in s.active && w != t && newId !in s.rows
    ensures VisibleRows(AddRow(s, w, newId, values), t) == VisibleRows(s, t)
  {
    assert w !in Seen(s, t);
    var s' := AddRow(s, w, newId, values);
    forall x | x in s.rows ensures Visible(s', t, s'.rows[x]) == Visible(s, t, s.rows[x]) {
    }
  }

  lemma {:induction false} OthersTransaction(s: State, t: TxId, e: Event)
    requires Inv(s) && Allowed(s, e) && t in s.active && e.t != t
    requires e.Begin? || e.Commit? || e.Rollback? || e.Scan?
    ensures VisibleRows(Step(s, e), t) == VisibleRows(s, t)
  {
    var s' := Step(s, e);
    forall x | x in s.rows ensures Visible(s', t, s'.rows[x]) == Visible(s, t, s.rows[x]) {
    }
  }

  /** One call of another transaction changes what t sees exactly when it overwrites
      t's own deletion mark, and then it only brings that row back. */
  lemma {:induction false} OthersStep(s: State, t: TxId, e: Event)
    requires Inv(s) && Allowed(s, e) && t in s.active && e.t != t
    ensures t in Step(s, e).active && Seen(Step(s, e), t) == Seen(s, t)
    ensures !Overwrites(s, t, e) ==> VisibleRows(Step(s, e), t) == VisibleRows(s, t)
    ensures Overwrites(s, t, e) ==>
              && e.id !in VisibleRows(s, t)
              && VisibleRows(Step(s, e), t) == VisibleRows(s, t)[e.id := s.rows[e.id].values]
  {
    match e
    case Insert(w, newId, values) => OthersAdd(s, t, w, newId, values);
    case Delete(w, id) =>
      if CanWrite(s, w, id) {
        OthersStamp(s, t, w, id);
      }
    case Update(w, id, newId, values, fits) =>
      if CanWrite(s, w, id) {
        OthersStamp(s, t, w, id);
        StampKeepsInv(s, w, id);
        OthersAdd(Stamp(s, w, id), t, w, newId, values);
      }
    case _ => OthersTransaction(s, t, e);
  }

  lemma {:induction false} StampKeepsInv(s: State, w: TxId, id: RowId)
    requires Inv(s) && w in s.active && id in s.rows
    ensures Inv(Stamp(s, w, id))
  {
  }

  ghost predicate NoneBy(es: seq<Event>, t: TxId) {
    forall i :: 0 <= i < |es| ==> es[i].t != t
  }

  /** Rows never leave the view of an active transaction while only others act. */
  lemma {:induction false} OthersOnlyAdd(s: State, t: TxId, es: seq<Event>)
    requires Inv(s) && IsRun(s, es) && t in s.active && NoneBy(es, t)
    ensures t in Run(s, es).active
    ensures forall id :: id in VisibleRows(s, t) ==>
              id in VisibleRows(Run(s, es), t) && VisibleRows(Run(s, es), t)[id] == VisibleRows(s, t)[id]
    decreases |es|
  {
    if es != [] {
      assert es[0].t != t;
      StepKeepsInv(s, es[0]);
      OthersStep(s, t, es[0]);
      OthersOnlyAdd(Step(s, es[0]), t, es[1..]);
    }
  }

  /** Over any run of calls by others, an active transaction sees the same rows at the
      end as at the start if and only if no call overwrote one of its own deletion marks. */
  lemma {:induction false} SnapshotStableIff(s: State, t: TxId, es: seq<Event>)
    requires Inv(s) && IsRun(s, es) && t in s.active && NoneBy(es, t)
    ensures VisibleRows(Run(s, es), t) == VisibleRows(s, t) <==> !Overwritten(s, t, es)
    decreases |es|
  {
    if es != [] {
      var e, s' := es[0], Step(s, es[0]);
      assert e.t != t;
      StepKeepsInv(s, e);
      OthersStep(s, t, e);
      if Overwrites(s, t, e) {
        OthersOnlyAdd(s', t, es[1..]);
        assert e.id in VisibleRows(s', t);
        assert e.id in VisibleRows(Run(s', es[1..]), t);
      } else {
        SnapshotStableIff(s', t, es[1..]);
      }
    }
  }

  ghost predicate StampedNothing(s: State, t: TxId) {
    forall id :: id in s.rows ==> s.rows[id].xmax != t
  }

  /** A transaction that has deleted or updated nothing has an unconditionally stable view. */
  lemma {:induction false} ReaderIsStable(s: State, t: TxId, es: seq<Event>)
    requires Inv(s) && IsRun(s, es) && t in s.active && NoneBy(es, t) && StampedNothing(s, t)
    ensures VisibleRows(Run(s, es), t) == VisibleRows(s, t)
    decreases |es|
  {
    if es != [] {
      assert es[0].t != t;
      StepKeepsInv(s, es[0]);
      OthersStep(s, t, es[0]);
      assert StampedNothing(Step(s, es[0]), t);
      ReaderIsStable(Step(s, es[0]), t, es[1..]);
    }
  }

  // ---------------------------------------------------------------------
  // Committed deleters are final
  // ---------------------------------------------------------------------

  /** Once a version's deleter has committed, the mark stays for the rest of the run
      and no other transaction can write the version. */
  lemma {:induction false} CommittedDeleterIsFinal(s: State, id: RowId, es: seq<Event>)
    requires Inv(s) && IsRun(s, es)
    requires id in s.rows && s.rows[id].xmax in s.committed
    ensures var r := Run(s, es);
            && id in r.rows && r.rows[id] == s.rows[id] && r.rows[id].xmax in r.committed
            && forall t :: t in r.active ==> !CanWrite(r, t, id)
    decreases |es|
  {
    if es != [] {
      StepKeepsInv(s, es[0]);
      CommittedDeleterIsFinal(Step(s, es[0]), id, es[1..]);
    }
  }

  /** The committed set only grows and an active transaction keeps the snapshot of its start. */
  lemma {:induction false} SnapshotIsFrozen(s: State, t: TxId, es: seq<Event>)
    requires Inv(s) && IsRun(s, es) && t in s.active && t in Run(s, es).active
    ensures Seen(Run(s, es), t) == Seen(s, t) && s.committed <= Run(s, es).committed
    decreases |es|
  {
    if es != [] {
      var e, s' := es[0], Step(s, es[0]);
      StepKeepsInv(s, e);
      if t !in s'.active {
        GoneForever(s', t, es[1..]);
      }
      SnapshotIsFrozen(s', t, es[1..]);
    }
  }

  /** A finished transaction never becomes active again. */
  lemma {:induction false} GoneForever(s: State, t: TxId, es: seq<Event>)
    requires Inv(s) && IsRun(s, es) && t !in s.active && t <= s.nextTx
    ensures t !in Run(s, es).active
    ensures t in s.committed <==> t in Run(s, es).committed
    decreases |es|
  {
    if es != [] {
      StepKeepsInv(s, es[0]);
      GoneForever(Step(s, es[0]), t, es[1..]);
    }
  }

  /** First committer wins, exactly: whatever happened since t began in state s, t can write
      a version if and only if it was created by t, by a transaction committed before t
      began, or by one still uncommitted, and its deleter, if any, has not committed. */
  lemma {:induction false} FirstCommitterWins(s: State, t: TxId, es: seq<Event>, id: RowId)
    requires Inv(s) && t > s.nextTx && IsRun(Step(s, Begin(t)), es) && t in Run(Step(s, Begin(t)), es).active
    ensures var r := Run(Step(s, Begin(t)), es);
            CanWrite(r, t, id) <==>
              && id in r.rows
              && (r.rows[id].xmin == t || r.rows[id].xmin in s.committed || r.rows[id].xmin !in r.committed)
              && r.rows[id].xmax !in r.committed
  {
    StepKeepsInv(s, Begin(t));
    SnapshotIsFrozen(Step(s, Begin(t)), t, es);
    RunKeepsInv(Step(s, Begin(t)), es);
  }

  /** A version keeps its creator for ever. */
  lemma {:induction false} CreatorIsFixed(s: State, es: seq<Event>, id: RowId)
    requires IsRun(s, es) && id in s.rows
    ensures id in Run(s, es).rows && Run(s, es).rows[id].xmin == s.rows[id].xmin
    decreases |es|
  {
    if es != [] {
      CreatorIsFixed(Step(s, es[0]), es[1..], id);
    }
  }

  /** Two writers of one version: after w stamped a version that t sees, and whatever
      happened since, t can still write it exactly until its deleter has committed.  While
      the mark is w's, that is until w commits. */
  lemma {:induction false} SecondWriterSucceedsIff(s: State, w: TxId, t: TxId, id: RowId, es: seq<Event>)
    requires Inv(s) && w in s.active && t in s.active && w != t && CanWrite(s, w, id) && CreatedFor(s, t, s.rows[id])
    requires IsRun(Stamp(s, w, id), es) && t in Run(Stamp(s, w, id), es).active
    ensures var r := Run(Stamp(s, w, id), es);
            && id in r.rows
            && (CanWrite(r, t, id) <==> r.rows[id].xmax !in r.committed)
            && (r.rows[id].xmax == w ==> (CanWrite(r, t, id) <==> w !in r.committed))
  {
    var a := Stamp(s, w, id);
    StampKeepsInv(s, w, id);
    SnapshotIsFrozen(a, t, es);
    CreatorIsFixed(a, es, id);
    RunKeepsInv(a, es);
    assert Seen(a, t) == Seen(s, t);
  }

  /** A deletion is final for all later readers exactly when its mark still stands at the
      commit: at the moment w commits, no reader that begins at any later point of any run sees
      the version if and only if the mark on it is w's. */
  lemma {:induction false} DeletionFinalIff(s: State, w: TxId, id: RowId)
    requires Inv(s) && w in s.active && id in s.rows && s.nextTx + 1 < 0x1_0000_0000_0000_0000
    requires s.rows[id].xmin in s.committed && s.rows[id].xmax !in s.committed
    ensures HiddenForEver(Step(s, Commit(w)), id) <==> s.rows[id].xmax == w
  {
    var c := Step(s, Commit(w));
    StepKeepsInv(s, Commit(w));
    if s.rows[id].xmax == w {
      forall es, x: TxId | IsRun(c, es) && x > Run(c, es).nextTx
        ensures id !in VisibleRows(Step(Run(c, es), Begin(x)), x)
      {
        CommittedDeleterIsFinal(c, id, es);
        RunKeepsInv(c, es);
      }
    } else {
      var x: TxId := s.nextTx + 1;
      assert IsRun(c, []) && Run(c, []) == c;
      assert id in VisibleRows(Step(Run(c, []), Begin(x)), x);
    }
  }

  /** No transaction that begins now or after any further run sees the version. */
  ghost predicate HiddenForEver(s: State, id: RowId) {
    forall es, x: TxId :: IsRun(s, es) && x > Run(s, es).nextTx ==> id !in VisibleRows(Step(Run(s, es), Begin(x)), x)
  }

  // ---------------------------------------------------------------------
  // Uncommitted transactions leave no trace
  // ---------------------------------------------------------------------

  /** The run without the calls of t. */
  function Erase(es: seq<Event>, t: TxId): (r: seq<Event>) {
    if es == [] then [] else (if es[0].t == t then [] else [es[0]]) + Erase(es[1..], t)
  }

  /** What all transactions except t get back, call by call. */
  function Observations(s: State, es: seq<Event>, t: TxId): (os: seq<Obs>)
    decreases |es|
  {
    if es == [] then []
    else (if es[0].t == t then [] else [Observe(s, es[0])]) + Observations(Step(s, es[0]), es[1..], t)
  }

  /** Deletions and updates target rows their transaction can see. */
  predicate TargetsVisible(s: State, e: Event) {
    e.Update? || e.Delete? ==> e.id in VisibleRows(s, e.t)
  }

  /** t does not overwrite the deletion mark of another transaction in progress. */
  predicate SparesOthers(s: State, t: TxId, e: Event) {
    (e.Update? || e.Delete?) && e.t == t && e.id in s.rows ==> s.rows[e.id].xmax !in s.active - {t}
  }

  /** Along the run, every deletion or update targets a row its transaction can see. */
  ghost predicate AllTargetsVisible(s: State, es: seq<Event>)
    decreases |es|
  {
    es == [] || (TargetsVisible(s, es[0]) && AllTargetsVisible(Step(s, es[0]), es[1..]))
  }

  /** Along the run, t never overwrites the mark of another transaction in progress. */
  ghost predicate Polite(s: State, t: TxId, es: seq<Event>)
    decreases |es|
  {
    es == [] || (SparesOthers(s, t, es[0]) && Polite(Step(s, es[0]), t, es[1..]))
  }

  /** A transaction id that is neither in progress nor committed (or no id at all). */
  predicate Dead(s: State, x: TxId) {
    x == 0 || (x !in s.active && x !in s.committed && x <= s.nextTx)
  }

  /** s without t: the versions t created are missing, and where t stands as deleter
      there is a dead one instead. */
  ghost predicate Without(s: State, u: State, t: TxId) {
    && u.nextTx <= s.nextTx
    && u.active == s.active - {t}
    && u.committed == s.committed
    && (forall x :: x in u.active ==> Seen(u, x) == Seen(s, x))
    && (forall id :: id in u.rows <==> id in s.rows && s.rows[id].xmin != t)
    && (forall id :: id in u.rows ==> u.rows[id].values == s.rows[id].values && u.rows[id].xmin == s.rows[id].xmin)
    && (forall id :: id in u.rows && s.rows[id].xmax != t ==> u.rows[id].xmax == s.rows[id].xmax)
    && (forall id :: id in u.rows && s.rows[id].xmax == t ==> Dead(s, u.rows[id].xmax) && u.rows[id].xmax != t)
  }

  /** Others cannot tell the two states apart. */
  lemma {:induction false} SameForOthers(s: State, u: State, t: TxId, x: TxId)
    requires Inv(s) && Inv(u) && Without(s, u, t) && t !in s.committed && x != t && x in s.active
    ensures VisibleRows(s, x) == VisibleRows(u, x)
    ensures forall id :: id in u.rows ==> (CanWrite(s, x, id) <==> CanWrite(u, x, id))
  {
    assert x in u.active;
    forall id | id in s.rows && s.rows[id].xmin != t ensures Visible(s, x, s.rows[id]) == Visible(u, x, u.rows[id]) {
    }
    assert VisibleRows(s, x) == VisibleRows(u, x);
  }

  lemma {:induction false} OwnStamp(s: State, u: State, t: TxId, id: RowId)
    requires Inv(s) && Inv(u) && Without(s, u, t) && t in s.active
    requires id in s.rows && s.rows[id].xmax != t && Dead(s, s.rows[id].xmax)
    ensures Without(Stamp(s, t, id), u, t)
  {
    var s' := Stamp(s, t, id);
    forall x | x in u.rows && s'.rows[x].xmax == t ensures Dead(s', u.rows[x].xmax) && u.rows[x].xmax != t {
      assert x != id ==> s.rows[x].xmax == t;
    }
  }

  lemma {:induction false} OwnAdd(s: State, u: State, t: TxId, newId: RowId, values: seq<Value>)
    requires Inv(s) && Inv(u) && Without(s, u, t) && t in s.active && newId !in s.rows
    ensures Without(AddRow(s, t, newId, values), u, t)
  {
    var s' := AddRow(s, t, newId, values);
    forall x | x in u.rows && s'.rows[x].xmax == t ensures Dead(s', u.rows[x].xmax) && u.rows[x].xmax != t {
      assert s.rows[x].xmax == t;
    }
  }

  lemma {:induction false} OwnTransaction(s: State, u: State, t: TxId, e: Event)
    requires Inv(s) && Inv(u) && Without(s, u, t) && t !in s.committed && Allowed(s, e) && e.t == t
    requires e.Begin? || e.Rollback? || e.Scan?
    requires e.Begin? ==> forall id :: id in s.rows ==> s.rows[id].xmin != t && s.rows[id].xmax != t
    ensures Without(Step(s, e), u, t)
  {
    var s' := Step(s, e);
    assert forall x :: x in u.active ==> x != t && x in s.active;
    forall x | x in u.rows && s'.rows[x].xmax == t ensures Dead(s', u.rows[x].xmax) && u.rows[x].xmax != t {
      assert s.rows[x].xmax == t;
    }
  }

  /** A call of t itself does not change what others can tell. */
  lemma {:induction false} OwnStep(s: State, u: State, t: TxId, e: Event)
    requires Inv(s) && Inv(u) && Without(s, u, t) && t !in s.committed && t > 0
    requires e.t == t && !e.Commit? && Allowed(s, e) && TargetsVisible(s, e) && SparesOthers(s, t, e)
    requires e.Begin? ==> forall id :: id in s.rows ==> s.rows[id].xmin != t && s.rows[id].xmax != t
    ensures Without(Step(s, e), u, t)
  {
    match e
    case Insert(_, newId, values) => OwnAdd(s, u, t, newId, values);
    case Delete(_, id) =>
      if CanWrite(s, t, id) {
        OwnStamp(s, u, t, id);
      }
    case Update(_, id, newId, values, fits) =>
      if CanWrite(s, t, id) {
        OwnStamp(s, u, t, id);
        StampKeepsInv(s, t, id);
        OwnAdd(Stamp(s, t, id), u, t, newId, values);
      }
    case _ => OwnTransaction(s, u, t, e);
  }

  lemma {:induction false} BothStamp(s: State, u: State, t: TxId, w: TxId, id: RowId)
    requires Inv(s) && Inv(u) && Without(s, u, t) && w != t && w in s.active && id in u.rows
    ensures Without(Stamp(s, w, id), Stamp(u, w, id), t)
  {
    var s', u' := Stamp(s, w, id), Stamp(u, w, id);
    forall x | x in u'.rows && s'.rows[x].xmax == t ensures Dead(s', u'.rows[x].xmax) && u'.rows[x].xmax != t {
      assert x != id && s.rows[x].xmax == t;
    }
  }

  lemma {:induction false} BothAdd(s: State, u: State, t: TxId, w: TxId, newId: RowId, values: seq<Value>)
    requires Inv(s) && Inv(u) && Without(s, u, t) && w != t && w in s.active && newId !in s.rows && t > 0
    ensures Without(AddRow(s, w, newId, values), AddRow(u, w, newId, values), t)
  {
    var s', u' := AddRow(s, w, newId, values), AddRow(u, w, newId, values);
    forall x | x in u'.rows && s'.rows[x].xmax == t ensures Dead(s', u'.rows[x].xmax) && u'.rows[x].xmax != t {
      assert x != newId && s.rows[x].xmax == t;
    }
  }

  lemma {:induction false} BothTransaction(s: State, u: State, t: TxId, e: Event)
    requires Inv(s) && Inv(u) && Without(s, u, t) && t !in s.committed && Allowed(s, e) && e.t != t
    requires e.Begin? || e.Commit? || e.Rollback? || e.Scan?
    ensures Without(Step(s, e), Step(u, e), t)
  {
    var s', u' := Step(s, e), Step(u, e);
    assert forall x :: x in u.active ==> x in u.snaps && x in s.snaps;
    forall x | x in u'.rows && s'.rows[x].xmax == t ensures Dead(s', u'.rows[x].xmax) && u'.rows[x].xmax != t {
      assert s.rows[x].xmax == t && Dead(s, u.rows[x].xmax);
    }
  }

  /** A call of another transaction acts the same way on both states. */
  lemma {:induction false} OtherCall(s: State, u: State, t: TxId, e: Event)
    requires Inv(s) && Inv(u) && Without(s, u, t) && t !in s.committed && t > 0
    requires e.t != t && Allowed(s, e) && TargetsVisible(s, e)
    ensures Allowed(u, e) && Observe(u, e) == Observe(s, e)
    ensures Without(Step(s, e), Step(u, e), t)
  {
    if !e.Begin? {
      SameForOthers(s, u, t, e.t);
    }
    match e
    case Insert(w, newId, values) => BothAdd(s, u, t, w, newId, values);
    case Delete(w, id) =>
      if CanWrite(s, w, id) {
        BothStamp(s, u, t, w, id);
      }
    case Update(w, id, newId, values, fits) =>
      if CanWrite(s, w, id) {
        BothStamp(s, u, t, w, id);
        StampKeepsInv(s, w, id);
        StampKeepsInv(u, w, id);
        BothAdd(Stamp(s, w, id), Stamp(u, w, id), t, w, newId, values);
      }
    case _ => BothTransaction(s, u, t, e);
  }

  /** The id t is used for the first time by a Begin in this run. */
  ghost predicate FreshIn(s: State, t: TxId) {
    t > 0 && t !in s.active && t !in s.committed && forall id :: id in s.rows ==>
      s.rows[id].xmin != t && s.rows[id].xmax != t
  }

  ghost predicate NoCommit(es: seq<Event>, t: TxId) {
    forall i :: 0 <= i < |es| ==> es[i] != Commit(t)
  }

  /** A transaction that does not commit in the run, and overwrites no deletion mark of
      another one in progress, is invisible: with all its calls deleted the run is
      still possible and every other transaction gets back exactly the same. */
  lemma {:induction false} UncommittedLeavesNoTrace(s: State, u: State, t: TxId, es: seq<Event>)
    requires Inv(s) && Inv(u) && Without(s, u, t) && t !in s.committed && t > 0
    requires t > s.nextTx ==> FreshIn(s, t)
    requires IsRun(s, es) && AllTargetsVisible(s, es) && NoCommit(es, t) && Polite(s, t, es)
    ensures IsRun(u, Erase(es, t))
    ensures Observations(u, Erase(es, t), t) == Observations(s, es, t)
    ensures Without(Run(s, es), Run(u, Erase(es, t)), t)
    decreases |es|
  {
    if es != [] {
      var e, s', rest := es[0], Step(s, es[0]), es[1..];
      StepKeepsInv(s, e);
      assert NoCommit(rest, t) by {
        assert forall i :: 0 <= i < |rest| ==> rest[i] == es[i + 1];
      }
      if e.t == t {
        assert e != Commit(t);
        OwnStep(s, u, t, e);
        assert Erase(es, t) == Erase(rest, t);
        assert Observations(s, es, t) == Observations(s', rest, t);
        UncommittedLeavesNoTrace(s', u, t, rest);
      } else {
        OtherCall(s, u, t, e);
        StepKeepsInv(u, e);
        var u' := Step(u, e);
        assert t !in s'.committed;
        assert t > s'.nextTx ==> FreshIn(s', t);
        UncommittedLeavesNoTrace(s', u', t, rest);
        var er := Erase(es, t);
        assert er == [e] + Erase(rest, t) && er[0] == e && er[1..] == Erase(rest, t);
      }
    }
  }

  /** No transaction in progress other than t can tell s from u: it sees the same rows and
      would meet the same write conflicts. */
  ghost predicate SameViews(s: State, u: State, t: TxId) {
    forall x :: x in s.active && x != t ==>
      && VisibleRows(s, x) == VisibleRows(u, x)
      && forall id :: id in VisibleRows(s, x) ==> (CanWrite(s, x, id) <==> CanWrite(u, x, id))
  }

  /** Side by side, the run from s and the run without t's calls from u: after every call no
      other transaction can tell them apart. */
  ghost predicate Unnoticed(s: State, u: State, t: TxId, es: seq<Event>)
    decreases |es|
  {
    && SameViews(s, u, t)
    && (es == [] || Unnoticed(Step(s, es[0]), if es[0].t == t then u else Step(u, es[0]), t, es[1..]))
  }

  /** The mark of a transaction in progress stands on a version created for that transaction. */
  ghost predicate MarksSeen(s: State) {
    forall id :: id in s.rows && s.rows[id].xmax in s.active ==> CreatedFor(s, s.rows[id].xmax, s.rows[id])
  }

  lemma {:induction false} StepKeepsMarksSeen(s: State, e: Event)
    requires Inv(s) && MarksSeen(s) && Allowed(s, e) && TargetsVisible(s, e)
    ensures MarksSeen(Step(s, e))
  {
    var s' := Step(s, e);
    forall id | id in s'.rows && s'.rows[id].xmax in s'.active ensures CreatedFor(s', s'.rows[id].xmax, s'.rows[id]) {
      assert s'.rows[id].xmax in s.active ==> Seen(s', s'.rows[id].xmax) == Seen(s, s'.rows[id].xmax);
    }
  }

  /** A call of t that overwrites the mark of w brings the row back into w's view. */
  lemma {:induction false} ImpoliteCallIsSeen(s: State, u: State, t: TxId, e: Event)
    requires Inv(s) && Inv(u) && Without(s, u, t) && t !in s.committed && MarksSeen(s)
    requires e.t == t && Allowed(s, e) && TargetsVisible(s, e) && !SparesOthers(s, t, e)
    ensures !SameViews(Step(s, e), u, t)
  {
    var w := s.rows[e.id].xmax;
    assert Overwrites(s, w, e);
    OthersStep(s, w, e);
    SameForOthers(s, u, t, w);
  }

  lemma {:induction false} WithoutIsUnnoticed(s: State, u: State, t: TxId)
    requires Inv(s) && Inv(u) && Without(s, u, t) && t !in s.committed
    ensures SameViews(s, u, t)
  {
    forall x | x in s.active && x != t
      ensures VisibleRows(s, x) == VisibleRows(u, x)
      ensures forall id :: id in VisibleRows(s, x) ==> (CanWrite(s, x, id) <==> CanWrite(u, x, id))
    {
      SameForOthers(s, u, t, x);
    }
  }

  /** The exact condition: in a run in which t does not commit, its calls go unnoticed by all
      others at every point if and only if t never overwrites the deletion mark of another
      transaction in progress. */
  lemma {:induction false} UnnoticedIffPolite(s: State, u: State, t: TxId, es: seq<Event>)
    requires Inv(s) && Inv(u) && Without(s, u, t) && t !in s.committed && t > 0 && MarksSeen(s)
    requires t > s.nextTx ==> FreshIn(s, t)
    requires IsRun(s, es) && AllTargetsVisible(s, es) && NoCommit(es, t)
    ensures Unnoticed(s, u, t, es) <==> Polite(s, t, es)
    decreases |es|
  {
    WithoutIsUnnoticed(s, u, t);
    if es != [] {
      var e, s', rest := es[0], Step(s, es[0]), es[1..];
      StepKeepsInv(s, e);
      StepKeepsMarksSeen(s, e);
      assert NoCommit(rest, t) by {
        assert forall i :: 0 <= i < |rest| ==> rest[i] == es[i + 1];
      }
      if e.t != t {
        OtherCall(s, u, t, e);
        StepKeepsInv(u, e);
        UnnoticedIffPolite(s', Step(u, e), t, rest);
      } else if SparesOthers(s, t, e) {
        assert e != Commit(t);
        OwnStep(s, u, t, e);
        UnnoticedIffPolite(s', u, t, rest);
      } else {
        ImpoliteCallIsSeen(s, u, t, e);
      }
    }
  }

  /** From the start of the engine, for any run in which t never commits: the run without t's
      calls is possible and gives every other transaction the same answers, if t is polite;
      and no one notices t at any point if and only if t is polite. */
  lemma {:induction false} AbortedRunIsInvisible(t: TxId, es: seq<Event>)
    requires t > 0 && IsRun(INIT, es) && AllTargetsVisible(INIT, es) && NoCommit(es, t)
    ensures Unnoticed(INIT, INIT, t, es) <==> Polite(INIT, t, es)
    ensures Polite(INIT, t, es) ==>
              && IsRun(INIT, Erase(es, t))
              && Observations(INIT, Erase(es, t), t) == Observations(INIT, es, t)
  {
    UnnoticedIffPolite(INIT, INIT, t, es);
    if Polite(INIT, t, es) {
      UncommittedLeavesNoTrace(INIT, INIT, t, es);
    }
  }
}
