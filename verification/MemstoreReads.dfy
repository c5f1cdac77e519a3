/** What scans of the in-memory engine return after each kind of call, in terms of rows alone:
    a transaction reads its own writes at once, and publishes exactly those when it commits. */
module MemstoreReads {
  import opened Core
  import opened Eval
  import opened Memstore

  type Rows = map<nat, Tuple>

  /** The rows with one row written, or removed when there is nothing to write. */
  function Written(rows: Rows, id: nat, row: Option<Tuple>): Rows {
    if row.Some? then rows[id := row.value] else rows - {id}
  }

  // ---------------------------------------------------------------------
  // Which writes are accepted
  // ---------------------------------------------------------------------

  /** An update or a deletion goes through exactly when the table exists, the row is committed,
      no other transaction has a pending change on it, and a new row has the right width. */
  lemma {:induction false} WriteAcceptedIff(s: State, e: Event)
    requires Inv(s) && Handle(s, e) && e.Write?
    ensures Check(s, e).None? <==>
              && e.n in s.tables && e.id in s.tables[e.n].rows
              && (e.h.Some? ==> forall u :: u != e.h.value ==> e.id !in Ids(Pend(s, u, e.n)))
              && (e.change.Some? ==> |e.change.value| == |s.tables[e.n].schema|)
    ensures Check(s, e) == Some(NoTable) <==> e.n !in s.tables
    ensures Check(s, e) == Some(NoRow) <==> e.n in s.tables && e.id !in s.tables[e.n].rows
  {
    if e.h.Some? && e.n in s.tables && e.id in s.tables[e.n].rows {
      ConflictIffPending(s, e.h.value, e.n, e.id, e.change);
      hide Inv, Pend, Ids;
    }
  }

  /** An insert goes through exactly when the table exists and the row has the right width. */
  lemma {:induction false} InsertAcceptedIff(s: State, e: Event)
    requires e.Insert?
    ensures CheckInsert(s, e).None? <==> e.n in s.tables && |e.row| == |s.tables[e.n].schema|
    ensures CheckInsert(s, e) == Some(NoTable) <==> e.n !in s.tables
  {
  }

  // ---------------------------------------------------------------------
  // One call
  // ---------------------------------------------------------------------

  lemma {:induction false} OverlaySnoc(rows: Rows, cs: seq<Change>, c: Change)
    ensures Overlay(rows, cs + [c]) == Written(Overlay(rows, cs), c.id, c.row)
  {
    assert (cs + [c])[..|cs|] == cs;
  }

  /** A change recorded for t on table n shows in t's view of n and nowhere else. */
  lemma {:induction false} Recorded(s: State, t: nat, n: string, c: Change, s': State)
    requires n in s.tables && s'.pending == AddPending(s, t, n, c)
    requires s'.tables.Keys == s.tables.Keys && forall m :: m in s.tables ==> s'.tables[m].rows == s.tables[m].rows
    ensures View(s', Some(t), n) == Written(View(s, Some(t), n), c.id, c.row)
    ensures forall h, m :: m in s.tables && (h != Some(t) || m != n) ==> View(s', h, m) == View(s, h, m)
  {
    PendAdded(s, t, n, c, s');
    OverlaySnoc(s.tables[n].rows, Pend(s, t, n), c);
  }

  /** The id of the next insert is in no view of any table. */
  lemma {:induction false} NextIdIsNew(s: State, h: Option<nat>, n: string)
    requires Inv(s) && n in s.tables
    ensures s.nextID + 1 !in View(s, h, n)
  {
    if h.Some? {
      Untouched(s.tables[n].rows, Pend(s, h.value, n), s.nextID + 1);
    }
  }

  /** A stored change on a row on which h has nothing pending shows in h's view. */
  lemma {:induction false} Stored(s: State, h: Option<nat>, n: string, id: nat, row: Option<Tuple>, s': State)
    requires n in s.tables && n in s'.tables && s'.pending == s.pending
    requires s'.tables[n].rows == Written(s.tables[n].rows, id, row)
    requires h.Some? ==> id !in Ids(Pend(s, h.value, n))
    ensures View(s', h, n) == Written(View(s, h, n), id, row)
  {
    if h.Some? {
      ApplyCommutes(s.tables[n].rows, Pend(s, h.value, n), Change(id, row));
      assert Pend(s', h.value, n) == Pend(s, h.value, n);
    }
  }

  /** An accepted insert through a transaction adds exactly that row under a new id to its own
      view of the table; one without a transaction adds it to the table and to every view of it.
      No other view changes. */
  lemma {:induction false} InsertReads(s: State, e: Event, h: Option<nat>, n: string)
    requires Inv(s) && Handle(s, e) && e.Insert? && CheckInsert(s, e).None? && n in s.tables
    ensures var s', id := Step(s, e), s.nextID + 1;
            && n in s'.tables && id !in View(s, h, n)
            && (n == e.n && (e.h.None? || h == e.h) ==> View(s', h, n) == View(s, h, n)[id := e.row])
            && (n != e.n || (e.h.Some? && h != e.h) ==> View(s', h, n) == View(s, h, n))
  {
    NextIdIsNew(s, h, n);
    var s', id := Step(s, e), s.nextID + 1;
    if e.h.Some? {
      Recorded(s, e.h.value, e.n, Change(id, Some(e.row)), s');
    } else if n == e.n {
      Stored(s, h, n, id, Some(e.row), s');
    } else if h.Some? {
      assert Pend(s', h.value, n) == Pend(s, h.value, n);
    }
  }

  /** An accepted update or deletion through a transaction writes exactly that row in its own
      view of the table; one without a transaction writes it in the table and in the view of
      everyone who has no change pending on it.  No other view changes. */
  lemma {:induction false} WriteReads(s: State, e: Event, h: Option<nat>, n: string)
    requires Inv(s) && Handle(s, e) && e.Write? && Check(s, e).None? && n in s.tables
    requires e.h.None? && h.Some? && n == e.n ==> e.id !in Ids(Pend(s, h.value, n))
    ensures var s' := Step(s, e);
            && n in s'.tables
            && (n == e.n && (e.h.None? || h == e.h) ==> View(s', h, n) == Written(View(s, h, n), e.id, e.change))
            && (n != e.n || (e.h.Some? && h != e.h) ==> View(s', h, n) == View(s, h, n))
  {
    var s' := Step(s, e);
    if e.h.Some? {
      Recorded(s, e.h.value, e.n, Change(e.id, e.change), s');
    } else if n == e.n {
      Stored(s, h, n, e.id, e.change, s');
    } else if h.Some? {
      assert Pend(s', h.value, n) == Pend(s, h.value, n);
    }
  }

  /** After a rollback nothing of the transaction's work is left: its handle reads the committed
      rows, as a new transaction does. */
  lemma {:induction false} RollbackDiscards(s: State, t: nat, n: string)
    requires n in s.tables
    ensures View(Step(s, Rollback(t)), Some(t), n) == s.tables[n].rows
    ensures View(Step(s, Rollback(t)), None, n) == s.tables[n].rows
  {
  }

  /** A transaction that just began has an unused id and reads the committed rows. */
  lemma {:induction false} BeginReads(s: State, n: string)
    requires Inv(s) && n in s.tables
    ensures s.nextTx + 1 !in s.active && s.nextTx + 1 in Step(s, Begin).active
    ensures View(Step(s, Begin), Some(s.nextTx + 1), n) == s.tables[n].rows
  {
    assert s.nextTx + 1 !in s.pending;
  }

  /** A new table has the given columns and is empty for everyone; an existing one stays. */
  lemma {:induction false} CreateReads(s: State, n: string, schema: Schema, h: Option<nat>)
    requires Inv(s)
    ensures var s' := Step(s, CreateTable(n, schema));
            && n in s'.tables
            && (n !in s.tables ==> s'.tables[n].schema == schema && View(s', h, n) == map[])
            && forall m :: m in s.tables ==> m in s'.tables && s'.tables[m] == s.tables[m]
  {
    if n !in s.tables && h.Some? {
      SomeId(Pend(s, h.value, n));
      assert Pend(Step(s, CreateTable(n, schema)), h.value, n) == Pend(s, h.value, n);
    }
  }

  // ---------------------------------------------------------------------
  // A whole transaction
  // ---------------------------------------------------------------------

  /** A call of t itself that writes, or one of another transaction that neither commits nor
      writes around all transactions. */
  predicate Private(e: Event, t: nat) {
    match e
    case Begin => true
    case Commit(_) => false
    case Rollback(u) => u != t
    case CreateTable(_, _) => true
    case Insert(h, _, _) => h.Some?
    case Write(h, _, _, _) => h.Some?
  }

  /** The rows after the accepted writes of t on table n among these calls, one after another. */
  function Effect(rows: Rows, s: State, es: seq<Event>, t: nat, n: string): (r: Rows)
    decreases |es|
  {
    if es == [] then rows
    else
      var e := es[0];
      var own := (e.Insert? || e.Write?) && e.h == Some(t) && e.n == n;
      var next :=
        if own && e.Insert? && CheckInsert(s, e).None? then rows[s.nextID + 1 := e.row]
        else if own && e.Write? && Check(s, e).None? then Written(rows, e.id, e.change)
        else rows;
      Effect(next, Step(s, e), es[1..], t, n)
  }

  ghost predicate AllPrivate(es: seq<Event>, t: nat) {
    forall i :: 0 <= i < |es| ==> Private(es[i], t)
  }

  /** While nobody else commits, a transaction reads the rows it started from with its own
      accepted writes in them, in order; its commit makes exactly those rows the table. */
  lemma {:induction false} OwnWritesAreRead(s: State, es: seq<Event>, t: nat, n: string)
    requires Inv(s) && Live(s, es) && AllPrivate(es, t) && t in s.active && n in s.tables
    ensures var r, rows := Run(s, es), Effect(View(s, Some(t), n), s, es, t, n);
            && Inv(r) && t in r.active && n in r.tables
            && View(r, Some(t), n) == rows
            && Step(r, Commit(t)).tables[n].rows == rows
    decreases |es|
  {
    hide Inv, Step, View, Handle, Check, CheckInsert, Written, Private;
    if es == [] {
      CommitKeepsTables(s, t, n);
    } else {
      var e, s' := es[0], Step(s, es[0]);
      assert Private(e, t);
      assert AllPrivate(es[1..], t) by {
        assert forall i :: 0 <= i < |es| - 1 ==> es[1..][i] == es[i + 1];
      }
      PrivateStep(s, e, t, n);
      OwnWritesAreRead(s', es[1..], t, n);
    }
  }

  lemma {:induction false} CommitKeepsTables(s: State, t: nat, n: string)
    requires n in s.tables
    ensures n in Step(s, Commit(t)).tables && Step(s, Commit(t)).tables[n].rows == View(s, Some(t), n)
  {
    CommitPublishes(s, t, n);
  }

  lemma {:induction false} PrivateStep(s: State, e: Event, t: nat, n: string)
    requires Inv(s) && Handle(s, e) && Private(e, t) && t in s.active && n in s.tables
    ensures Inv(Step(s, e)) && t in Step(s, e).active && n in Step(s, e).tables
    ensures View(Step(s, e), Some(t), n) == Effect(View(s, Some(t), n), s, [e], t, n)
  {
    assert [e][1..] == [];
    StepKeepsInvIff(s, e);
    hide Inv, Pend, Overlay;
    if (e.Insert? || e.Write?) && e.h == Some(t) {
      if e.Insert? && CheckInsert(s, e).None? {
        InsertReads(s, e, Some(t), n);
      } else if e.Write? && Check(s, e).None? {
        WriteReads(s, e, Some(t), n);
      }
    } else {
      OthersAreInvisible(s, e, Some(t), n);
    }
  }
}
