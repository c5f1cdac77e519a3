/** What transactions read: their own writes at once, those of others once committed, and in a
    serial run exactly what one map with a working copy would give. */
module MvccReads {
  import opened Core
  import opened Mvcc

  // ---------------------------------------------------------------------
  // Own writes
  // ---------------------------------------------------------------------

  /** A transaction sees what it inserted, and everything else as before. */
  lemma {:induction false} InsertReads(s: State, e: Event)
    requires Inv(s) && Allowed(s, e) && e.Insert?
    ensures e.newId !in VisibleRows(s, e.t)
    ensures VisibleRows(Step(s, e), e.t) == VisibleRows(s, e.t)[e.newId := e.values]
  {
    assert e.t != 0;
  }

  /** After a deletion that goes through, the row is gone from the view and nothing else is. */
  lemma {:induction false} DeleteReads(s: State, e: Event)
    requires Inv(s) && Allowed(s, e) && e.Delete? && CanWrite(s, e.t, e.id)
    ensures VisibleRows(Step(s, e), e.t) == VisibleRows(s, e.t) - {e.id}
  {
    assert e.t != 0;
  }

  /** After an update that goes through, the old row is gone and the new one is there; one whose
      new row does not fit only loses the old row. */
  lemma {:induction false} UpdateReads(s: State, e: Event)
    requires Inv(s) && Allowed(s, e) && e.Update? && CanWrite(s, e.t, e.id)
    ensures e.newId !in VisibleRows(s, e.t) && e.newId != e.id
    ensures var kept := VisibleRows(s, e.t) - {e.id};
            VisibleRows(Step(s, e), e.t) == if e.fits then kept[e.newId := e.values] else kept
  {
    assert e.t != 0;
  }

  // ---------------------------------------------------------------------
  // Committed writes
  // ---------------------------------------------------------------------

  /** A version keeps its creator and its values for ever. */
  lemma {:induction false} VersionIsFixed(s: State, es: seq<Event>, id: RowId)
    requires IsRun(s, es) && id in s.rows
    ensures var r := Run(s, es);
            id in r.rows && r.rows[id].values == s.rows[id].values && r.rows[id].xmin == s.rows[id].xmin
    decreases |es|
  {
    if es != [] {
      VersionIsFixed(Step(s, es[0]), es[1..], id);
    }
  }

  /** What a transaction that began in s reads at any later time: the versions made by itself or
      by a transaction committed when it began, unless deleted by itself or by such a one. */
  lemma {:induction false} SnapshotReads(s: State, t: TxId, es: seq<Event>, id: RowId)
    requires Inv(s) && t > s.nextTx && IsRun(Step(s, Begin(t)), es) && t in Run(Step(s, Begin(t)), es).active
    ensures var r := Run(Step(s, Begin(t)), es);
            id in VisibleRows(r, t) <==>
              && id in r.rows
              && (r.rows[id].xmin == t || r.rows[id].xmin in s.committed)
              && r.rows[id].xmax != t && r.rows[id].xmax !in s.committed
  {
    StepKeepsInv(s, Begin(t));
    SnapshotIsFrozen(Step(s, Begin(t)), t, es);
    RunKeepsInv(Step(s, Begin(t)), es);
  }

  /** A version stored by an insert or an update, after any later run: a transaction that begins
      then sees it exactly if its creator has committed and no committed transaction has deleted
      it, and it sees the values that were stored. */
  lemma {:induction false} StoredIsSeenIff(s: State, e: Event, es: seq<Event>, x: TxId)
    requires Inv(s) && Allowed(s, e) && (e.Insert? || (e.Update? && e.fits && CanWrite(s, e.t, e.id)))
    requires IsRun(Step(s, e), es) && x > Run(Step(s, e), es).nextTx
    ensures var r := Run(Step(s, e), es);
            var view := VisibleRows(Step(r, Begin(x)), x);
            && e.newId in r.rows
            && (e.newId in view <==> e.t in r.committed && r.rows[e.newId].xmax !in r.committed)
            && (e.newId in view ==> view[e.newId] == e.values)
  {
    var s' := Step(s, e);
    var r := Run(s', es);
    StepKeepsInv(s, e);
    RunKeepsInv(s', es);
    VersionIsFixed(s', es, e.newId);
    StepKeepsInv(r, Begin(x));
    assert IsRun(Step(r, Begin(x)), []) && Run(Step(r, Begin(x)), []) == Step(r, Begin(x));
    SnapshotReads(r, x, [], e.newId);
  }

  // ---------------------------------------------------------------------
  // Serial runs
  // ---------------------------------------------------------------------

  type Rows = map<RowId, seq<Value>>

  /** One map of committed rows, and the working copy of the transaction in progress. */
  datatype Plain = Plain(db: Rows, work: Rows)

  function PlainStep(p: Plain, e: Event): Plain {
    match e
    case Begin(_) => Plain(p.db, p.db)
    case Commit(_) => Plain(p.work, p.work)
    case Rollback(_) => Plain(p.db, p.db)
    case Insert(_, newId, values) => Plain(p.db, p.work[newId := values])
    case Update(_, id, newId, values, fits) =>
      Plain(p.db, if fits then (p.work - {id})[newId := values] else p.work - {id})
    case Delete(_, id) => Plain(p.db, p.work - {id})
    case Scan(_) => p
  }

  /** Everything succeeds, except an update whose new row does not fit. */
  function PlainObserve(p: Plain, e: Event): Obs {
    if e.Scan? then Saw(p.work) else Done(e.Update? ==> e.fits)
  }

  function PlainObservations(p: Plain, es: seq<Event>): (os: seq<Obs>)
    decreases |es|
  {
    if es == [] then [] else [PlainObserve(p, es[0])] + PlainObservations(PlainStep(p, es[0]), es[1..])
  }

  /** What every caller gets back, call by call. */
  function AllObservations(s: State, es: seq<Event>): (os: seq<Obs>)
    decreases |es|
  {
    if es == [] then [] else [Observe(s, es[0])] + AllObservations(Step(s, es[0]), es[1..])
  }

  /** No transaction begins while another is in progress. */
  ghost predicate Serial(s: State, es: seq<Event>)
    decreases |es|
  {
    es == [] || ((es[0].Begin? ==> s.active == {}) && Serial(Step(s, es[0]), es[1..]))
  }

  predicate Live(s: State, id: RowId) {
    id in s.rows && s.rows[id].xmin in s.committed && s.rows[id].xmax !in s.committed
  }

  /** The map holds the live rows, and the one transaction in progress sees its working copy. */
  ghost predicate Agrees(s: State, p: Plain) {
    && (forall id :: id in p.db <==> Live(s, id))
    && (forall id :: id in p.db ==> p.db[id] == s.rows[id].values)
    && forall t :: t in s.active ==> s.active == {t} && Seen(s, t) == s.committed && p.work == VisibleRows(s, t)
  }

  /** In a serial run a row that is seen can be written. */
  lemma {:induction false} SeenIsWritable(s: State, p: Plain, e: Event)
    requires Inv(s) && Agrees(s, p) && Allowed(s, e) && TargetsVisible(s, e) && (e.Update? || e.Delete?)
    ensures CanWrite(s, e.t, e.id)
  {
  }

  /** Calls inside a transaction leave the live rows alone. */
  lemma {:induction false} WritesAreNotLive(s: State, e: Event, id: RowId)
    requires Inv(s) && Allowed(s, e) && (e.Insert? || e.Update? || e.Delete? || e.Scan?)
    ensures Live(Step(s, e), id) <==> Live(s, id)
    ensures Live(s, id) ==> Step(s, e).rows[id].values == s.rows[id].values
  {
  }

  /** A step that keeps the transactions and the live rows, and moves view and copy together. */
  lemma {:induction false} WorkMoves(s: State, p: Plain, s': State, p': Plain)
    requires Inv(s) && Agrees(s, p) && s.active == s'.active && s.committed == s'.committed && s.snaps == s'.snaps
    requires forall id :: Live(s', id) <==> Live(s, id)
    requires forall id :: Live(s, id) && Live(s', id) ==> s'.rows[id].values == s.rows[id].values
    requires p'.db == p.db && forall t :: t in s.active ==> p'.work == VisibleRows(s', t)
    ensures Agrees(s', p')
  {
    hide VisibleRows, Inv;
  }

  lemma {:induction false} WriteAgrees(s: State, p: Plain, e: Event)
    requires Inv(s) && Agrees(s, p) && Allowed(s, e) && TargetsVisible(s, e)
    requires e.Insert? || e.Update? || e.Delete? || e.Scan?
    ensures Agrees(Step(s, e), PlainStep(p, e)) && Observe(s, e) == PlainObserve(p, e)
  {
    assert s.active == {e.t} && p.work == VisibleRows(s, e.t);
    forall id
      ensures Live(Step(s, e), id) <==> Live(s, id)
      ensures Live(s, id) ==> Step(s, e).rows[id].values == s.rows[id].values
    {
      WritesAreNotLive(s, e, id);
    }
    hide VisibleRows, Live, Inv, Agrees;
    if e.Insert? {
      InsertReads(s, e);
    } else if e.Update? {
      SeenIsWritable(s, p, e);
      UpdateReads(s, e);
    } else if e.Delete? {
      SeenIsWritable(s, p, e);
      DeleteReads(s, e);
    }
    WorkMoves(s, p, Step(s, e), PlainStep(p, e));
  }

  lemma {:induction false} BeginAgrees(s: State, p: Plain, e: Event)
    requires Inv(s) && Agrees(s, p) && Allowed(s, e) && e.Begin? && s.active == {}
    ensures Agrees(Step(s, e), PlainStep(p, e))
  {
    var s' := Step(s, e);
    forall id ensures Live(s', id) <==> id in VisibleRows(s', e.t) {
    }
    assert VisibleRows(s', e.t) == p.db;
  }

  lemma {:induction false} EndAgrees(s: State, p: Plain, e: Event)
    requires Inv(s) && Agrees(s, p) && Allowed(s, e) && (e.Commit? || e.Rollback?)
    ensures Agrees(Step(s, e), PlainStep(p, e)) && Observe(s, e) == PlainObserve(p, e)
  {
    var s' := Step(s, e);
    forall id ensures Live(s', id) <==> if e.Commit? then id in VisibleRows(s, e.t) else Live(s, id) {
    }
  }

  lemma {:induction false} SerialAgrees(s: State, p: Plain, es: seq<Event>)
    requires Inv(s) && Agrees(s, p) && IsRun(s, es) && Serial(s, es) && AllTargetsVisible(s, es)
    ensures AllObservations(s, es) == PlainObservations(p, es)
    decreases |es|
  {
    if es != [] {
      var e := es[0];
      StepKeepsInv(s, e);
      if e.Begin? {
        BeginAgrees(s, p, e);
      } else if e.Commit? || e.Rollback? {
        EndAgrees(s, p, e);
      } else {
        WriteAgrees(s, p, e);
      }
      SerialAgrees(Step(s, e), PlainStep(p, e), es[1..]);
    }
  }

  /** In every serial run from the start of the engine whose deletions and updates target rows
      their transaction sees, each call answers what the one map with a working copy answers. */
  lemma {:induction false} SerialRunIsMap(es: seq<Event>)
    requires IsRun(INIT, es) && Serial(INIT, es) && AllTargetsVisible(INIT, es)
    ensures AllObservations(INIT, es) == PlainObservations(Plain(map[], map[]), es)
  {
    SerialAgrees(INIT, Plain(map[], map[]), es);
  }
}
