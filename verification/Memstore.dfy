/** The in-memory engine as a step machine: committed tables, row claims and the pending
    changes of active transactions. */
module Memstore {
  import opened Core
  import opened Sequences
  import opened Eval

  /** One pending change; a deletion carries no row. */
  datatype Change = Change(id: nat, row: Option<Tuple>)

  /** owner names the transaction that claims a committed row, 0 when nobody does. */
  datatype Table = Table(schema: Schema, rows: map<nat, Tuple>, owner: map<nat, nat>)

  type Pending = map<string, seq<Change>>

  datatype State = State(tables: map<string, Table>, nextID: nat, nextTx: nat,
                         pending: map<nat, Pending>, active: set<nat>)

  datatype Failure = NoTable | NoRow | WriteConflict | WrongWidth | TableExists

  /** The calls of the engine; a nil transaction handle is None, a deletion writes no row. */
  datatype Event =
    | Begin
    | Commit(t: nat)
    | Rollback(t: nat)
    | CreateTable(n: string, schema: Schema)
    | Insert(h: Option<nat>, n: string, row: Tuple)
    | Write(h: Option<nat>, n: string, id: nat, change: Option<Tuple>)

  function Pend(s: State, t: nat, n: string): (cs: seq<Change>) {
    if t in s.pending && n in s.pending[t] then s.pending[t][n] else []
  }

  function Ids(cs: seq<Change>): (ids: set<nat>) {
    set i | 0 <= i < |cs| :: cs[i].id
  }

  function Apply(rows: map<nat, Tuple>, c: Change): map<nat, Tuple> {
    if c.row.Some? then rows[c.id := c.row.value] else rows - {c.id}
  }

  /** The rows seen through a list of pending changes. */
  function Overlay(rows: map<nat, Tuple>, cs: seq<Change>): (r: map<nat, Tuple>) {
    if cs == [] then rows else Apply(Overlay(rows, cs[..|cs| - 1]), cs[|cs| - 1])
  }

  function Freed(owner: map<nat, nat>, c: Change): map<nat, nat> {
    if c.row.Some? then owner[c.id := 0] else owner - {c.id}
  }

  /** The claims after a commit. */
  function FreedAll(owner: map<nat, nat>, cs: seq<Change>): (r: map<nat, nat>) {
    if cs == [] then owner else Freed(FreedAll(owner, cs[..|cs| - 1]), cs[|cs| - 1])
  }

  function Published(t: Table, cs: seq<Change>): (r: Table) {
    t.(rows := Overlay(t.rows, cs), owner := FreedAll(t.owner, cs))
  }

  /** A rolled back transaction gives up its claims. */
  function Unclaimed(t: Table, txn: nat, cs: seq<Change>): (r: Table) {
    t.(owner := map id | id in t.owner :: if t.owner[id] == txn && id in Ids(cs) then 0 else t.owner[id])
  }

  function AddPending(s: State, t: nat, n: string, c: Change): (r: map<nat, Pending>) {
    s.pending[t := (if t in s.pending then s.pending[t] else map[])[n := Pend(s, t, n) + [c]]]
  }

  /** Why an update or a deletion is refused. */
  function Check(s: State, e: Event): (f: Option<Failure>)
    requires e.Write?
  {
    if e.n !in s.tables then Some(NoTable)
    else
      var t := s.tables[e.n];
      if e.id !in t.rows then Some(NoRow)
      else if && e.h.Some? && e.id in t.owner && t.owner[e.id] != 0
              && t.owner[e.id] != e.h.value && t.owner[e.id] in s.active
      then Some(WriteConflict)
      else if e.change.Some? && |e.change.value| != |t.schema| then Some(WrongWidth)
      else None
  }

  function CheckInsert(s: State, e: Event): (f: Option<Failure>)
    requires e.Insert?
  {
    if e.n !in s.tables then Some(NoTable)
    else if |e.row| != |s.tables[e.n].schema| then Some(WrongWidth)
    else None
  }

  function StepWrite(s: State, e: Event): (r: State)
    requires e.Write? && Check(s, e).None?
  {
    var t, c := s.tables[e.n], Change(e.id, e.change);
    if e.h.Some? then
      s.(tables := s.tables[e.n := t.(owner := t.owner[e.id := e.h.value])], pending := AddPending(s, e.h.value, e.n,
        c))
    else
      s.(tables := s.tables[e.n := t.(rows := Apply(t.rows, c), owner := Freed(t.owner, c))])
  }

  function StepInsert(s: State, e: Event): (r: State)
    requires e.Insert? && CheckInsert(s, e).None?
  {
    var t, id := s.tables[e.n], s.nextID + 1;
    if e.h.Some? then
      s.(nextID := id, pending := AddPending(s, e.h.value, e.n, Change(id, Some(e.row))))
    else
      s.(nextID := id, tables := s.tables[e.n := t.(rows := t.rows[id := e.row], owner := t.owner[id := 0])])
  }

  /** One engine call. */
  function Step(s: State, e: Event): (r: State) {
    match e
    case Begin => s.(nextTx := s.nextTx + 1, active := s.active + {s.nextTx + 1})
    case Commit(t) =>
      s.(tables := map n | n in s.tables :: Published(s.tables[n], Pend(s, t, n)),
         pending := s.pending - {t}, active := s.active - {t})
    case Rollback(t) =>
      s.(tables := map n | n in s.tables :: Unclaimed(s.tables[n], t, Pend(s, t, n)),
         pending := s.pending - {t}, active := s.active - {t})
    case CreateTable(n, schema) =>
      if n in s.tables then s else s.(tables := s.tables[n := Table(schema, map[], map[])])
    case Insert(_, _, _) => if CheckInsert(s, e).Some? then s else StepInsert(s, e)
    case Write(_, _, _, _) => if Check(s, e).Some? then s else StepWrite(s, e)
  }

  function Run(s: State, es: seq<Event>): (r: State)
    decreases |es|
  {
    if es == [] then s else Run(Step(s, es[0]), es[1..])
  }

  /** What a scan returns, by row id. */
  function View(s: State, h: Option<nat>, n: string): (rows: map<nat, Tuple>)
    requires n in s.tables
  {
    Overlay(s.tables[n].rows, if h.Some? then Pend(s, h.value, n) else [])
  }

  const EMPTY := State(map[], 0, 0, map[], {})

  // ---------------------------------------------------------------------
  // The invariant
  // ---------------------------------------------------------------------

  ghost predicate Claims(s: State) {
    forall t, n, i :: n in s.tables && 0 <= i < |Pend(s, t, n)| && Pend(s, t, n)[i].id in s.tables[n].owner ==>
      s.tables[n].owner[Pend(s, t, n)[i].id] == t
  }

  /** A claim that is not 0 belongs to an active transaction with a pending change on the row. */
  ghost predicate Backed(s: State) {
    forall n, id :: n in s.tables && id in s.tables[n].owner && s.tables[n].owner[id] != 0 ==>
      s.tables[n].owner[id] in s.active && id in Ids(Pend(s, s.tables[n].owner[id], n))
  }

  /** No two transactions have a pending change on the same row. */
  ghost predicate Disjoint(s: State) {
    forall t, u, n :: t != u ==> Ids(Pend(s, t, n)) !! Ids(Pend(s, u, n))
  }

  /** Ids were handed out by this engine, and pending changes name existing tables. */
  ghost predicate Bounded(s: State) {
    && s.pending.Keys <= s.active
    && (forall t :: t in s.active ==> 0 < t <= s.nextTx)
    && (forall n :: n in s.tables ==> s.tables[n].owner.Keys == s.tables[n].rows.Keys)
    && (forall n, id :: n in s.tables && id in s.tables[n].rows ==> id <= s.nextID)
    && (forall t, n, id :: id in Ids(Pend(s, t, n)) ==> id <= s.nextID && n in s.tables)
  }

  /** Every stored or pending row has one value per column. */
  ghost predicate Wide(s: State) {
    && (forall n, id :: n in s.tables && id in s.tables[n].rows ==> |s.tables[n].rows[id]| == |s.tables[n].schema|)
    && (forall t, n, i :: n in s.tables && 0 <= i < |Pend(s, t, n)| && Pend(s, t, n)[i].row.Some? ==>
          |Pend(s, t, n)[i].row.value| == |s.tables[n].schema|)
  }

  ghost predicate Inv(s: State) {
    Claims(s) && Backed(s) && Disjoint(s) && Bounded(s) && Wide(s)
  }

  /** Calls go through handles of active transactions, or through no handle. */
  predicate Handle(s: State, e: Event) {
    match e
    case Commit(t) => t in s.active
    case Rollback(t) => t in s.active
    case Insert(h, _, _) => h.Some? ==> h.value in s.active
    case Write(h, _, _, _) => h.Some? ==> h.value in s.active
    case _ => true
  }

  /** An update without a transaction that overwrites a claimed row. */
  predicate Clobbers(s: State, e: Event) {
    && e.Write? && e.h.None? && e.change.Some? && Check(s, e).None?
    && e.id in s.tables[e.n].owner && s.tables[e.n].owner[e.id] != 0
  }

  // ----- pending changes after one more -----

  lemma {:induction false} PendAdded(s: State, t: nat, n: string, c: Change, s': State)
    requires s'.pending == AddPending(s, t, n, c)
    ensures forall u, m :: Pend(s', u, m) == if u == t && m == n then Pend(s, t, n) + [c] else Pend(s, u, m)
  {
  }

  lemma {:induction false} IdsAdded(cs: seq<Change>, c: Change)
    ensures Ids(cs + [c]) == Ids(cs) + {c.id}
  {
    var more := cs + [c];
    assert forall i :: 0 <= i < |cs| ==> more[i] == cs[i];
    assert more[|cs|] == c;
    assert forall id :: id in Ids(cs) ==> id in Ids(more);
  }

  lemma {:induction false} SomeId(cs: seq<Change>)
    ensures cs != [] ==> Ids(cs) != {}
  {
    if cs != [] {
      assert cs[0].id in Ids(cs);
    }
  }

  lemma {:induction false} IdsInit(cs: seq<Change>)
    requires cs != []
    ensures Ids(cs) == Ids(cs[..|cs| - 1]) + {cs[|cs| - 1].id}
  {
    IdsAdded(cs[..|cs| - 1], cs[|cs| - 1]);
    assert cs == cs[..|cs| - 1] + [cs[|cs| - 1]];
  }

  lemma {:induction false} PendRemoved(s: State, t: nat, s': State)
    requires s'.pending == s.pending - {t}
    ensures forall u, m :: Pend(s', u, m) == if u == t then [] else Pend(s, u, m)
  {
  }

  // ----- what overlays and releases do to single rows -----

  lemma {:induction false} Untouched(rows: map<nat, Tuple>, cs: seq<Change>, id: nat)
    requires id !in Ids(cs)
    ensures id in Overlay(rows, cs) <==> id in rows
    ensures id in rows ==> Overlay(rows, cs)[id] == rows[id]
  {
    if cs != [] {
      IdsInit(cs);
      Untouched(rows, cs[..|cs| - 1], id);
    }
  }

  lemma {:induction false} FreedAt(owner: map<nat, nat>, cs: seq<Change>, id: nat)
    ensures id !in Ids(cs) ==> (id in FreedAll(owner, cs) <==> id in owner)
    ensures id !in Ids(cs) && id in owner ==> FreedAll(owner, cs)[id] == owner[id]
    ensures id in Ids(cs) && id in FreedAll(owner, cs) ==> FreedAll(owner, cs)[id] == 0
  {
    if cs != [] {
      IdsInit(cs);
      FreedAt(owner, cs[..|cs| - 1], id);
    }
  }

  lemma {:induction false} SameKeys(t: Table, cs: seq<Change>)
    requires t.owner.Keys == t.rows.Keys
    ensures FreedAll(t.owner, cs).Keys == Overlay(t.rows, cs).Keys
  {
    if cs != [] {
      SameKeys(t, cs[..|cs| - 1]);
    }
  }

  lemma {:induction false} OverlayWide(rows: map<nat, Tuple>, cs: seq<Change>, w: nat)
    requires forall id :: id in rows ==> |rows[id]| == w
    requires forall i :: 0 <= i < |cs| && cs[i].row.Some? ==> |cs[i].row.value| == w
    ensures forall id :: id in Overlay(rows, cs) ==> |Overlay(rows, cs)[id]| == w
  {
    if cs != [] {
      OverlayWide(rows, cs[..|cs| - 1], w);
    }
  }

  // ----- preservation, operation by operation -----

  lemma {:induction false} CommitKeeps(s: State, t: nat)
    requires Inv(s) && t in s.active
    ensures Inv(Step(s, Commit(t)))
  {
    var s' := Step(s, Commit(t));
    PendRemoved(s, t, s');
    CommitClaims(s, t, s');
    CommitWide(s, t, s');
    assert Disjoint(s');
    forall n | n in s.tables ensures s'.tables[n].owner.Keys == s'.tables[n].rows.Keys {
      SameKeys(s.tables[n], Pend(s, t, n));
    }
    forall n, id | n in s'.tables && id in s'.tables[n].rows ensures id <= s'.nextID {
      if id !in Ids(Pend(s, t, n)) {
        Untouched(s.tables[n].rows, Pend(s, t, n), id);
      }
    }
  }

  lemma {:induction false} CommitClaims(s: State, t: nat, s': State)
    requires Inv(s) && t in s.active && s' == Step(s, Commit(t))
    ensures Claims(s') && Backed(s')
  {
    PendRemoved(s, t, s');
    forall u, n, i | n in s'.tables && 0 <= i < |Pend(s', u, n)| && Pend(s', u, n)[i].id in s'.tables[n].owner
      ensures s'.tables[n].owner[Pend(s', u, n)[i].id] == u
    {
      var id := Pend(s', u, n)[i].id;
      assert id in Ids(Pend(s, u, n));
      FreedAt(s.tables[n].owner, Pend(s, t, n), id);
    }
    forall n, id | n in s'.tables && id in s'.tables[n].owner && s'.tables[n].owner[id] != 0
      ensures s'.tables[n].owner[id] in s'.active && id in Ids(Pend(s', s'.tables[n].owner[id], n))
    {
      FreedAt(s.tables[n].owner, Pend(s, t, n), id);
    }
  }

  lemma {:induction false} CommitWide(s: State, t: nat, s': State)
    requires Inv(s) && s' == Step(s, Commit(t))
    ensures Wide(s')
  {
    PendRemoved(s, t, s');
    forall n | n in s.tables ensures forall id :: id in s'.tables[n].rows ==>
      |s'.tables[n].rows[id]| == |s'.tables[n].schema| {
      OverlayWide(s.tables[n].rows, Pend(s, t, n), |s.tables[n].schema|);
    }
  }

  lemma {:induction false} RollbackKeeps(s: State, t: nat)
    requires Inv(s) && t in s.active
    ensures Inv(Step(s, Rollback(t)))
  {
    var s' := Step(s, Rollback(t));
    PendRemoved(s, t, s');
    forall u, n, i | n in s'.tables && 0 <= i < |Pend(s', u, n)| && Pend(s', u, n)[i].id in s'.tables[n].owner
      ensures s'.tables[n].owner[Pend(s', u, n)[i].id] == u
    {
      assert Pend(s', u, n)[i].id in Ids(Pend(s, u, n));
    }
    assert Backed(s') && Disjoint(s') && Bounded(s') && Wide(s');
  }

  lemma {:induction false} InsertKeeps(s: State, e: Event)
    requires Inv(s) && e.Insert? && Handle(s, e) && CheckInsert(s, e).None?
    ensures Inv(StepInsert(s, e))
  {
    var s' := StepInsert(s, e);
    if e.h.Some? {
      var t, c := e.h.value, Change(s.nextID + 1, Some(e.row));
      PendAdded(s, t, e.n, c, s');
      IdsAdded(Pend(s, t, e.n), c);
      NewIdPending(s, t, e.n, c, s');
    } else {
      NewIdStored(s, e, s');
    }
  }

  lemma {:induction false} NewIdPending(s: State, t: nat, n: string, c: Change, s': State)
    requires Inv(s) && t in s.active && n in s.tables && c.id == s.nextID + 1
    requires c.row.Some? && |c.row.value| == |s.tables[n].schema|
    requires s' == s.(nextID := c.id, pending := AddPending(s, t, n, c))
    ensures Inv(s')
  {
    PendAdded(s, t, n, c, s');
    IdsAdded(Pend(s, t, n), c);
    assert Claims(s') && Backed(s');
    assert Disjoint(s');
    assert Bounded(s');
    assert Wide(s');
  }

  lemma {:induction false} NewIdStored(s: State, e: Event, s': State)
    requires Inv(s) && e.Insert? && e.h.None? && CheckInsert(s, e).None? && s' == StepInsert(s, e)
    ensures Inv(s')
  {
    assert forall t, n :: Pend(s', t, n) == Pend(s, t, n);
    forall t, n, i | n in s'.tables && 0 <= i < |Pend(s', t, n)| && Pend(s', t, n)[i].id in s'.tables[n].owner
      ensures s'.tables[n].owner[Pend(s', t, n)[i].id] == t
    {
      assert Pend(s, t, n)[i].id in Ids(Pend(s, t, n));
    }
    assert Backed(s') && Disjoint(s') && Bounded(s') && Wide(s');
  }

  /** A write through a handle: nobody else has a pending change on the row. */
  lemma {:induction false} WriteKeeps(s: State, e: Event)
    requires Inv(s) && e.Write? && Check(s, e).None? && e.h.Some? && e.h.value in s.active
    ensures Inv(StepWrite(s, e))
  {
    var s', t, c := StepWrite(s, e), e.h.value, Change(e.id, e.change);
    PendAdded(s, t, e.n, c, s');
    IdsAdded(Pend(s, t, e.n), c);
    forall u | u != t ensures e.id !in Ids(Pend(s, u, e.n)) {
    }
    WriteClaims(s, e, s');
    WriteBounds(s, e, s');
    assert Disjoint(s');
  }

  lemma {:induction false} WriteBounds(s: State, e: Event, s': State)
    requires Inv(s) && e.Write? && Check(s, e).None? && e.h.Some? && e.h.value in s.active && s' == StepWrite(s, e)
    ensures Bounded(s') && Wide(s')
  {
    PendAdded(s, e.h.value, e.n, Change(e.id, e.change), s');
    IdsAdded(Pend(s, e.h.value, e.n), Change(e.id, e.change));
  }

  lemma {:induction false} WriteClaims(s: State, e: Event, s': State)
    requires Inv(s) && e.Write? && Check(s, e).None? && e.h.Some? && e.h.value in s.active && s' == StepWrite(s, e)
    requires forall u :: u != e.h.value ==> e.id !in Ids(Pend(s, u, e.n))
    ensures Claims(s') && Backed(s')
  {
    var t, c := e.h.value, Change(e.id, e.change);
    PendAdded(s, t, e.n, c, s');
    IdsAdded(Pend(s, t, e.n), c);
    forall u, n, i | n in s'.tables && 0 <= i < |Pend(s', u, n)| && Pend(s', u, n)[i].id in s'.tables[n].owner
      ensures s'.tables[n].owner[Pend(s', u, n)[i].id] == u
    {
      assert Pend(s', u, n)[i].id in Ids(Pend(s', u, n));
      if u != t && n == e.n {
        assert Pend(s', u, n) == Pend(s, u, n);
      }
    }
  }

  lemma {:induction false} NilWriteKeepsIff(s: State, e: Event)
    requires Inv(s) && e.Write? && Check(s, e).None? && e.h.None?
    ensures Inv(StepWrite(s, e)) <==> !Clobbers(s, e)
  {
    var s' := StepWrite(s, e);
    assert forall t, n :: Pend(s', t, n) == Pend(s, t, n);
    var owner := s.tables[e.n].owner;
    if Clobbers(s, e) {
      var t := owner[e.id];
      assert e.id in Ids(Pend(s, t, e.n));
      var i :| 0 <= i < |Pend(s', t, e.n)| && Pend(s', t, e.n)[i].id == e.id;
      assert s'.tables[e.n].owner[Pend(s', t, e.n)[i].id] == 0;
    } else {
      NilWriteKeeps(s, e, s');
    }
  }

  lemma {:induction false} NilWriteKeeps(s: State, e: Event, s': State)
    requires Inv(s) && e.Write? && Check(s, e).None? && e.h.None? && !Clobbers(s, e) && s' == StepWrite(s, e)
    ensures Inv(s')
  {
    assert forall t, n :: Pend(s', t, n) == Pend(s, t, n);
    forall t, n, i | n in s'.tables && 0 <= i < |Pend(s', t, n)| && Pend(s', t, n)[i].id in s'.tables[n].owner
      ensures s'.tables[n].owner[Pend(s', t, n)[i].id] == t
    {
      var id := Pend(s, t, n)[i].id;
      assert id in Ids(Pend(s, t, n));
      assert s.tables[n].owner[Pend(s, t, n)[i].id] == t;
      assert t in s.active;
    }
    assert Backed(s') && Disjoint(s') && Bounded(s') && Wide(s');
  }

  /** Every call through a live handle keeps the invariant, except exactly an update without
      a transaction on a row that an active transaction claims. */
  lemma {:induction false} StepKeepsInvIff(s: State, e: Event)
    requires Inv(s) && Handle(s, e)
    ensures Inv(Step(s, e)) <==> !Clobbers(s, e)
  {
    match e
    case Begin =>
      var s' := Step(s, e);
      assert forall t, n :: Pend(s', t, n) == Pend(s, t, n);
    case Commit(t) => CommitKeeps(s, t);
    case Rollback(t) => RollbackKeeps(s, t);
    case CreateTable(n, schema) => CreateKeeps(s, n, schema);
    case Insert(_, _, _) =>
      if CheckInsert(s, e).None? {
        InsertKeeps(s, e);
      }
    case Write(h, _, _, _) =>
      if Check(s, e).None? {
        if h.Some? {
          WriteKeeps(s, e);
        } else {
          NilWriteKeepsIff(s, e);
        }
      }
  }

  lemma {:induction false} CreateKeeps(s: State, n: string, schema: Schema)
    requires Inv(s)
    ensures Inv(Step(s, CreateTable(n, schema)))
  {
    var s' := Step(s, CreateTable(n, schema));
    assert forall t, m :: Pend(s', t, m) == Pend(s, t, m);
    if n !in s.tables {
      forall t ensures Pend(s, t, n) == [] {
        SomeId(Pend(s, t, n));
      }
      assert Claims(s') && Backed(s');
      assert Disjoint(s') && Bounded(s') && Wide(s');
    }
  }

  // ---------------------------------------------------------------------
  // Whole runs
  // ---------------------------------------------------------------------

  /** Every call along the run goes through a live handle or through none. */
  ghost predicate Live(s: State, es: seq<Event>)
    decreases |es|
  {
    es == [] || (Handle(s, es[0]) && Live(Step(s, es[0]), es[1..]))
  }

  /** No call along the run updates a claimed row without a transaction. */
  ghost predicate NoClobber(s: State, es: seq<Event>)
    decreases |es|
  {
    es == [] || (!Clobbers(s, es[0]) && NoClobber(Step(s, es[0]), es[1..]))
  }

  ghost predicate InvThroughout(s: State, es: seq<Event>)
    decreases |es|
  {
    Inv(s) && (es == [] || InvThroughout(Step(s, es[0]), es[1..]))
  }

  /** Over every run: the invariant holds at every point if and only if no call clobbers. */
  lemma {:induction false} RunKeepsInvIff(s: State, es: seq<Event>)
    requires Inv(s) && Live(s, es)
    ensures InvThroughout(s, es) <==> NoClobber(s, es)
    ensures NoClobber(s, es) ==> Inv(Run(s, es))
    decreases |es|
  {
    if es != [] {
      hide Inv, Clobbers, Step;
      StepKeepsInvIff(s, es[0]);
      if !Clobbers(s, es[0]) {
        RunKeepsInvIff(Step(s, es[0]), es[1..]);
      } else {
        assert !InvThroughout(Step(s, es[0]), es[1..]);
      }
    }
  }

  /** The write sets are disjoint now and after every further run without clobbering calls. */
  ghost predicate StaysDisjoint(s: State) {
    forall es :: Live(s, es) && NoClobber(s, es) ==> Disjoint(Run(s, es))
  }

  lemma {:induction false} InvStaysDisjoint(s: State)
    requires Inv(s)
    ensures StaysDisjoint(s)
  {
    forall es | Live(s, es) && NoClobber(s, es) ensures Disjoint(Run(s, es)) {
      RunKeepsInvIff(s, es);
    }
  }

  /** The calls that expose a clobber: a new transaction begins and deletes the row. */
  function Exposing(s: State, e: Event): (es: seq<Event>)
    requires e.Write?
  {
    [Begin, Write(Some(s.nextTx + 1), e.n, e.id, None)]
  }

  lemma {:induction false} RunOfTwo(s: State, a: Event, b: Event)
    ensures Run(s, [a, b]) == Step(Step(s, a), b)
    ensures Live(s, [a, b]) <==> Handle(s, a) && Handle(Step(s, a), b)
    ensures NoClobber(s, [a, b]) <==> !Clobbers(s, a) && !Clobbers(Step(s, a), b)
  {
    hide Step, Handle, Clobbers;
    assert [a, b][1..] == [b] && [b][1..] == [];
    var x := Step(s, a);
    assert Run(x, [b]) == Step(x, b);
    assert Live(x, [b]) <==> Handle(x, b);
    assert NoClobber(x, [b]) <==> !Clobbers(x, b);
  }

  /** After any clobbering call, a new transaction can claim the row that another one holds. */
  lemma {:induction false} ClobberBreaksDisjointness(s: State, e: Event)
    requires Inv(s) && Clobbers(s, e)
    ensures var s' := Step(s, e);
            && Live(s', Exposing(s', e)) && NoClobber(s', Exposing(s', e))
            && !Disjoint(Run(s', Exposing(s', e)))
  {
    var s1 := Step(s, e);
    var s2, t := Step(s1, Begin), s1.nextTx + 1;
    var w := Write(Some(t), e.n, e.id, None);
    RunOfTwo(s1, Begin, w);
    var u, c := s.tables[e.n].owner[e.id], Change(e.id, None);
    assert e.id in Ids(Pend(s, u, e.n)) && u in s.active;
    assert Pend(s2, u, e.n) == Pend(s, u, e.n);
    assert Check(s2, w).None?;
    var s3 := Step(s2, w);
    PendAdded(s2, t, e.n, c, s3);
    IdsAdded(Pend(s2, t, e.n), c);
    assert e.id in Ids(Pend(s3, t, e.n)) && e.id in Ids(Pend(s3, u, e.n));
  }

  /** Exactly the clobbering calls destroy disjointness. */
  lemma {:induction false} StaysDisjointIff(s: State, e: Event)
    requires Inv(s) && Handle(s, e)
    ensures StaysDisjoint(Step(s, e)) <==> !Clobbers(s, e)
  {
    if Clobbers(s, e) {
      ClobberBreaksDisjointness(s, e);
    } else {
      StepKeepsInvIff(s, e);
      InvStaysDisjoint(Step(s, e));
    }
  }

  ghost predicate DisjointThroughout(s: State, es: seq<Event>)
    decreases |es|
  {
    StaysDisjoint(s) && (es == [] || DisjointThroughout(Step(s, es[0]), es[1..]))
  }

  lemma {:induction false} DisjointRunIff(s: State, es: seq<Event>)
    requires Inv(s) && Live(s, es)
    ensures DisjointThroughout(s, es) <==> NoClobber(s, es)
    decreases |es|
  {
    hide Inv, Clobbers, Step, StaysDisjoint;
    InvStaysDisjoint(s);
    if es != [] {
      StepKeepsInvIff(s, es[0]);
      StaysDisjointIff(s, es[0]);
      if !Clobbers(s, es[0]) {
        DisjointRunIff(Step(s, es[0]), es[1..]);
      } else {
        assert !DisjointThroughout(Step(s, es[0]), es[1..]);
      }
    }
  }

  /** Along every run from the empty engine: no two transactions hold a pending change on the
      same row, now or after any further run without clobbering calls, if and only if no call
      updated a claimed row without a transaction. */
  lemma {:induction false} WriteSetsAreDisjointIff(es: seq<Event>)
    requires Live(EMPTY, es)
    ensures DisjointThroughout(EMPTY, es) <==> NoClobber(EMPTY, es)
    ensures NoClobber(EMPTY, es) ==>
              forall t, u, n :: t != u ==> Ids(Pend(Run(EMPTY, es), t, n)) !! Ids(Pend(Run(EMPTY, es), u, n))
  {
    assert forall v, m :: Pend(EMPTY, v, m) == [];
    DisjointRunIff(EMPTY, es);
    RunKeepsInvIff(EMPTY, es);
  }

  /** Pending changes name existing tables. */
  ghost predicate Named(s: State) {
    forall t, n :: Pend(s, t, n) != [] ==> n in s.tables
  }

  /** Row widths are kept by every call, clobbering or not, through any handle. */
  lemma {:induction false} StepKeepsWide(s: State, e: Event)
    requires Wide(s) && Named(s)
    ensures Wide(Step(s, e)) && Named(Step(s, e))
  {
    var s' := Step(s, e);
    match e
    case Begin => assert forall t, n :: Pend(s', t, n) == Pend(s, t, n);
    case CreateTable(_, _) => assert forall t, n :: Pend(s', t, n) == Pend(s, t, n);
    case Commit(t) =>
      PendRemoved(s, t, s');
      forall n | n in s.tables ensures forall id :: id in s'.tables[n].rows ==>
        |s'.tables[n].rows[id]| == |s'.tables[n].schema| {
        OverlayWide(s.tables[n].rows, Pend(s, t, n), |s.tables[n].schema|);
      }
    case Rollback(t) => PendRemoved(s, t, s');
    case Insert(h, n, row) => InsertKeepsWide(s, e);
    case Write(h, n, id, change) => WriteKeepsWide(s, e);
  }

  lemma {:induction false} InsertKeepsWide(s: State, e: Event)
    requires Wide(s) && Named(s) && e.Insert?
    ensures Wide(Step(s, e)) && Named(Step(s, e))
  {
    var s' := Step(s, e);
    if e.h.Some? && CheckInsert(s, e).None? {
      PendAdded(s, e.h.value, e.n, Change(s.nextID + 1, Some(e.row)), s');
    } else {
      assert forall t, n :: Pend(s', t, n) == Pend(s, t, n);
    }
  }

  lemma {:induction false} WriteKeepsWide(s: State, e: Event)
    requires Wide(s) && Named(s) && e.Write?
    ensures Wide(Step(s, e)) && Named(Step(s, e))
  {
    var s' := Step(s, e);
    if e.h.Some? && Check(s, e).None? {
      PendAdded(s, e.h.value, e.n, Change(e.id, e.change), s');
    } else {
      assert forall t, n :: Pend(s', t, n) == Pend(s, t, n);
    }
  }

  /** A write is refused as a conflict exactly when another transaction has a pending
      change on that row. */
  lemma {:induction false} ConflictIffPending(s: State, t: nat, n: string, id: nat, change: Option<Tuple>)
    requires Inv(s) && n in s.tables && id in s.tables[n].rows && t in s.active
    ensures Check(s, Write(Some(t), n, id, change)) == Some(WriteConflict)
            <==> exists u :: u != t && id in Ids(Pend(s, u, n))
  {
    var owner := s.tables[n].owner;
    if Check(s, Write(Some(t), n, id, change)) == Some(WriteConflict) {
      assert id in Ids(Pend(s, owner[id], n));
    }
    if u :| u != t && id in Ids(Pend(s, u, n)) {
      var i :| 0 <= i < |Pend(s, u, n)| && Pend(s, u, n)[i].id == id;
      assert owner[Pend(s, u, n)[i].id] == u;
      assert u in s.pending && u in s.active;
    }
  }

  // ---------------------------------------------------------------------
  // Commits
  // ---------------------------------------------------------------------

  lemma {:induction false} ApplyCommutes(rows: map<nat, Tuple>, a: seq<Change>, c: Change)
    requires c.id !in Ids(a)
    ensures Apply(Overlay(rows, a), c) == Overlay(Apply(rows, c), a)
  {
    if a != [] {
      IdsInit(a);
      ApplyCommutes(rows, a[..|a| - 1], c);
    }
  }

  lemma {:induction false} OverlaysCommute(rows: map<nat, Tuple>, a: seq<Change>, b: seq<Change>)
    requires Ids(a) !! Ids(b)
    ensures Overlay(Overlay(rows, a), b) == Overlay(Overlay(rows, b), a)
    decreases |b|
  {
    if b != [] {
      var b', c := b[..|b| - 1], b[|b| - 1];
      IdsInit(b);
      OverlaysCommute(rows, a, b');
      ApplyCommutes(Overlay(rows, b'), a, c);
    }
  }

  lemma {:induction false} FreedCommutes(owner: map<nat, nat>, a: seq<Change>, c: Change)
    requires c.id !in Ids(a)
    ensures Freed(FreedAll(owner, a), c) == FreedAll(Freed(owner, c), a)
  {
    if a != [] {
      IdsInit(a);
      FreedCommutes(owner, a[..|a| - 1], c);
    }
  }

  lemma {:induction false} ReleasesCommute(owner: map<nat, nat>, a: seq<Change>, b: seq<Change>)
    requires Ids(a) !! Ids(b)
    ensures FreedAll(FreedAll(owner, a), b) == FreedAll(FreedAll(owner, b), a)
    decreases |b|
  {
    if b != [] {
      var b', c := b[..|b| - 1], b[|b| - 1];
      IdsInit(b);
      ReleasesCommute(owner, a, b');
      FreedCommutes(FreedAll(owner, b'), a, c);
    }
  }

  /** Committing two transactions in either order gives the same engine state. */
  lemma {:induction false} CommitsCommute(s: State, t: nat, u: nat)
    requires Inv(s) && t != u
    ensures Step(Step(s, Commit(t)), Commit(u)) == Step(Step(s, Commit(u)), Commit(t))
  {
    var a, b := Step(s, Commit(t)), Step(s, Commit(u));
    var a', b' := Step(a, Commit(u)), Step(b, Commit(t));
    PendRemoved(s, t, a);
    PendRemoved(s, u, b);
    forall n | n in s.tables ensures a'.tables[n] == b'.tables[n] {
      OverlaysCommute(s.tables[n].rows, Pend(s, t, n), Pend(s, u, n));
      ReleasesCommute(s.tables[n].owner, Pend(s, t, n), Pend(s, u, n));
    }
    assert a'.pending == b'.pending && a'.active == b'.active;
  }

  function CommitAll(s: State, ts: seq<nat>): (r: State)
    decreases |ts|
  {
    if ts == [] then s else CommitAll(Step(s, Commit(ts[0])), ts[1..])
  }

  lemma {:induction false} DistinctTail(ts: seq<nat>)
    requires ts != [] && Distinct(ts)
    ensures Distinct(ts[1..]) && forall u :: u in ts[1..] ==> u in ts && u != ts[0]
  {
    assert forall i :: 0 <= i < |ts[1..]| ==> ts[1..][i] == ts[i + 1];
  }

  /** A commit can be moved in front of any others. */
  lemma {:induction false} CommitFirst(s: State, pre: seq<nat>, t: nat, post: seq<nat>)
    requires Inv(s) && t in s.active && (forall u :: u in pre ==> u in s.active && u != t) && Distinct(pre)
    ensures CommitAll(s, pre + [t] + post) == CommitAll(s, [t] + (pre + post))
    decreases |pre|
  {
    hide Inv;
    if pre == [] {
      assert pre + [t] + post == [t] + (pre + post);
    } else {
      var u, more := pre[0], pre[1..];
      var s1 := Step(s, Commit(u));
      assert (pre + [t] + post)[1..] == more + [t] + post;
      CommitKeeps(s, u);
      DistinctTail(pre);
      CommitFirst(s1, more, t, post);
      CommitsCommute(s, u, t);
      assert ([t] + (more + post))[1..] == more + post;
      assert ([t] + (pre + post))[1..] == pre + post && (pre + post)[1..] == more + post;
    }
  }

  /** Any order of committing the same transactions ends in the same engine state. */
  lemma {:induction false} CommitOrderIsIrrelevant(s: State, a: seq<nat>, b: seq<nat>)
    requires Inv(s) && multiset(a) == multiset(b) && Distinct(a) && forall t :: t in a ==> t in s.active
    ensures CommitAll(s, a) == CommitAll(s, b)
    decreases |a|
  {
    hide Inv, Distinct;
    if a == [] {
      assert |multiset(b)| == 0;
      assert b == [];
    } else {
      var t := a[0];
      assert t in multiset(b);
      var i :| 0 <= i < |b| && b[i] == t;
      var pre, post := b[..i], b[i + 1..];
      assert b == pre + [t] + post;
      Rest(a, b, i);
      CommitFirst(s, pre, t, post);
      assert ([t] + (pre + post))[1..] == pre + post;
      CommitKeeps(s, t);
      DistinctTail(a);
      CommitOrderIsIrrelevant(Step(s, Commit(t)), a[1..], pre + post);
    }
  }

  lemma {:induction false} Rest(a: seq<nat>, b: seq<nat>, i: nat)
    requires a != [] && i < |b| && b[i] == a[0] && multiset(a) == multiset(b) && Distinct(a)
    ensures multiset(a[1..]) == multiset(b[..i] + b[i + 1..]) && Distinct(b[..i])
    ensures forall u :: u in b[..i] ==> u in a && u != a[0]
  {
    var pre, post := b[..i], b[i + 1..];
    assert a == [a[0]] + a[1..] && b == pre + [a[0]] + post;
    BagWithout(multiset(a[1..]), multiset(pre), multiset(post), a[0], multiset(a));
    forall u | u in pre ensures u in a && u != a[0] && multiset(pre)[u] == 1 {
      assert u in multiset(pre) && u in multiset(a);
      DistinctOnce(a, u);
    }
    OnceDistinct(pre);
  }

  lemma {:induction false} BagWithout(tail: multiset<nat>, pre: multiset<nat>, post: multiset<nat>, x: nat,
                                      all: multiset<nat>)
    requires all == multiset{x} + tail && all == pre + multiset{x} + post
    ensures tail == pre + post && forall u :: pre[u] <= all[u] && (u == x ==> pre[u] < all[u])
  {
    assert tail == all - multiset{x};
    assert pre + post == all - multiset{x};
  }

  // ---------------------------------------------------------------------
  // Isolation
  // ---------------------------------------------------------------------

  /** After a commit a new scan sees exactly what the committer saw just before. */
  lemma {:induction false} CommitPublishes(s: State, t: nat, n: string)
    requires n in s.tables
    ensures View(Step(s, Commit(t)), None, n) == View(s, Some(t), n)
  {
  }

  /** A rollback changes no scan of anyone else, and lets go of every row it had claimed. */
  lemma {:induction false} RollbackLeavesNoTrace(s: State, t: nat, n: string, h: Option<nat>, u: nat, id: nat,
                                                 change: Option<Tuple>)
    requires Inv(s) && t in s.active && n in s.tables && h != Some(t)
    ensures View(Step(s, Rollback(t)), h, n) == View(s, h, n)
    ensures id in Ids(Pend(s, t, n)) ==>
              Check(Step(s, Rollback(t)), Write(Some(u), n, id, change)) != Some(WriteConflict)
  {
    var s' := Step(s, Rollback(t));
    PendRemoved(s, t, s');
    if id in Ids(Pend(s, t, n)) && id in s.tables[n].owner {
      var i :| 0 <= i < |Pend(s, t, n)| && Pend(s, t, n)[i].id == id;
      assert s.tables[n].owner[Pend(s, t, n)[i].id] == t;
    }
  }

  /** Uncommitted work is private: only commits, calls without a transaction and one's own
      calls change what a scan returns. */
  lemma {:induction false} OthersAreInvisible(s: State, e: Event, h: Option<nat>, n: string)
    requires n in s.tables && Handle(s, e) && Inv(s)
    requires e.Begin? || e.CreateTable? || (e.Rollback? && h != Some(e.t))
             || ((e.Insert? || e.Write?) && e.h.Some? && e.h != h)
    ensures n in Step(s, e).tables && View(Step(s, e), h, n) == View(s, h, n)
  {
    var s' := Step(s, e);
    match e
    case Begin =>
    case CreateTable(_, _) =>
    case Rollback(t) => RollbackLeavesNoTrace(s, t, n, h, 0, 0, None);
    case Insert(_, _, _) =>
      if CheckInsert(s, e).None? {
        PendAdded(s, e.h.value, e.n, Change(s.nextID + 1, Some(e.row)), s');
      }
    case Write(_, _, _, _) =>
      if Check(s, e).None? {
        PendAdded(s, e.h.value, e.n, Change(e.id, e.change), s');
      }
  }

  /** What a commit does to another transaction's scan: it adds the committed changes under
      the pending ones, which touch different rows. */
  lemma {:induction false} CommitSeenByOther(s: State, t: nat, u: nat, n: string)
    requires Inv(s) && t != u && n in s.tables
    ensures View(Step(s, Commit(t)), Some(u), n) == Overlay(View(s, Some(u), n), Pend(s, t, n))
  {
    PendRemoved(s, t, Step(s, Commit(t)));
    OverlaysCommute(s.tables[n].rows, Pend(s, t, n), Pend(s, u, n));
  }

  // ---------------------------------------------------------------------
  // Without a transaction
  // ---------------------------------------------------------------------

  /** The table of the example below: one INT column and at most row 1. */
  function Example(value: Int64, owner: nat): map<string, Table> {
    map["t" := Table([Column("a", TypeInt)], map[1 := [Int(value)]], map[1 := owner])]
  }

  lemma {:induction false} Overwritten<K, V>(k: K, a: V, b: V)
    ensures map[k := a][k := b] == map[k := b]
  {
  }

  function Changed(value: Int64): Change {
    Change(1, Some([Int(value)]))
  }

  /** Two transactions have begun over one row, and the first has updated it. */
  function Claimed(): State {
    State(Example(0, 1), 1, 2, map[1 := map["t" := [Changed(1)]]], {1, 2})
  }

  lemma {:induction false} ClaimedIsReachable()
    ensures var s := Step(EMPTY, CreateTable("t", [Column("a", TypeInt)]));
            var two := Step(Step(Step(s, Insert(None, "t", [Int(0)])), Begin), Begin);
            two == State(Example(0, 0), 1, 2, map[], {1, 2})
              && Step(two, Write(Some(1), "t", 1, Some([Int(1)]))) == Claimed()
  {
    var s := Step(EMPTY, CreateTable("t", [Column("a", TypeInt)]));
    var s1 := Step(s, Insert(None, "t", [Int(0)]));
    assert s1 == State(Example(0, 0), 1, 0, map[], {});
    var two := Step(Step(s1, Begin), Begin);
    assert two.active == {1, 2};
    FirstWrite(two);
  }

  lemma {:induction false} FirstWrite(s: State)
    requires s == State(Example(0, 0), 1, 2, map[], {1, 2})
    ensures Step(s, Write(Some(1), "t", 1, Some([Int(1)]))) == Claimed()
  {
    var e := Write(Some(1), "t", 1, Some([Int(1)]));
    assert Check(s, e).None?;
    assert Pend(s, 1, "t") + [Changed(1)] == [Changed(1)];
    Overwritten(1, 0, 1);
    Overwritten("t", Example(0, 0)["t"], Example(0, 1)["t"]);
    assert StepWrite(s, e).tables == Example(0, 1);
  }

  /** An update without a handle on a claimed row lets a second transaction claim it, ... */
  lemma {:induction false} NilUpdateBreaksDisjointness()
    ensures Clobbers(Claimed(), Write(None, "t", 1, Some([Int(9)])))
    ensures var s := Step(Claimed(), Write(None, "t", 1, Some([Int(9)])));
            Step(s, Write(Some(2), "t", 1, Some([Int(2)]))) == Clash()
    ensures Pend(Clash(), 1, "t") == [Changed(1)] && Pend(Clash(), 2, "t") == [Changed(2)]
  {
    var s := Step(Claimed(), Write(None, "t", 1, Some([Int(9)])));
    Overwritten(1, [Int(0)], [Int(9)]);
    Overwritten(1, 1, 0);
    Overwritten("t", Example(0, 1)["t"], Example(9, 0)["t"]);
    assert s.tables == Example(9, 0);
    var e := Write(Some(2), "t", 1, Some([Int(2)]));
    assert Check(s, e).None?;
    assert Pend(s, 2, "t") + [Changed(2)] == [Changed(2)];
    Overwritten(1, 0, 2);
    Overwritten("t", Example(9, 0)["t"], Example(9, 2)["t"]);
    assert StepWrite(s, e).tables == Example(9, 2);
  }

  /** ... which leaves both with a pending change on row 1 ... */
  function Clash(): State {
    State(Example(9, 2), 1, 2, map[1 := map["t" := [Changed(1)]], 2 := map["t" := [Changed(2)]]], {1, 2})
  }

  /** ... so that the order of the commits decides its value. */
  lemma {:induction false} ClashDependsOnOrder()
    ensures Step(Step(Clash(), Commit(1)), Commit(2)).tables == Example(2, 0)
    ensures Step(Step(Clash(), Commit(2)), Commit(1)).tables == Example(1, 0)
  {
    CommitExample(Clash(), 1, 9, 2, 1);
    CommitExample(Step(Clash(), Commit(1)), 2, 1, 0, 2);
    CommitExample(Clash(), 2, 9, 2, 2);
    CommitExample(Step(Clash(), Commit(2)), 1, 2, 0, 1);
  }

  lemma {:induction false} CommitExample(s: State, t: nat, value: Int64, owner: nat, next: Int64)
    requires s.tables == Example(value, owner) && Pend(s, t, "t") == [Changed(next)]
    ensures Step(s, Commit(t)).tables == Example(next, 0)
  {
    var tbl, cs := s.tables["t"], [Changed(next)];
    assert cs[..0] == [];
    Overwritten(1, [Int(value)], [Int(next)]);
    Overwritten(1, owner, 0);
    assert Overlay(tbl.rows, cs) == map[1 := [Int(next)]];
    assert FreedAll(tbl.owner, cs) == map[1 := 0];
  }
}
