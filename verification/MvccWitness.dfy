/** Runs that show why the hypotheses about overwritten deletion marks are needed. */
module MvccWitness {
  import opened Core
  import opened Mvcc

  /** A committed row 1, and transactions 2 and 3 in progress. */
  function TwoWriters(): (s: State) {
    State(3, {2, 3}, {1}, map[2 := {1}, 3 := {1}], map[1 := Row([Int(7)], 1, 0)])
  }

  lemma {:induction false} TwoWritersIsReachable()
    ensures var es := [Begin(1), Insert(1, 1, [Int(7)]), Commit(1), Begin(2), Begin(3)];
            IsRun(INIT, es) && Run(INIT, es) == TwoWriters()
  {
    var s1 := Step(INIT, Begin(1));
    var s2 := Step(s1, Insert(1, 1, [Int(7)]));
    var s3 := Step(s2, Commit(1));
    var s4 := Step(s3, Begin(2));
    assert s3.active == {} && s3.committed == {1} && s3.snaps == map[];
    assert Step(s4, Begin(3)) == TwoWriters();
    RunOfFive(INIT, Begin(1), Insert(1, 1, [Int(7)]), Commit(1), Begin(2), Begin(3));
  }

  lemma {:induction false} RunOfFive(s: State, a: Event, b: Event, c: Event, d: Event, e: Event)
    ensures Run(s, [a, b, c, d, e]) == Step(Step(Step(Step(Step(s, a), b), c), d), e)
    ensures IsRun(s, [a, b, c, d, e]) <==>
              && Allowed(s, a) && Allowed(Step(s, a), b) && Allowed(Step(Step(s, a), b), c)
              && Allowed(Step(Step(Step(s, a), b), c), d) && Allowed(Step(Step(Step(Step(s, a), b), c), d), e)
  {
    assert [a, b, c, d, e][1..] == [b, c, d, e];
    assert [b, c, d, e][1..] == [c, d, e];
    RunOfThree(Step(Step(s, a), b), c, d, e);
  }

  lemma {:induction false} RunOfThree(s: State, a: Event, b: Event, c: Event)
    ensures Run(s, [a, b, c]) == Step(Step(Step(s, a), b), c)
    ensures IsRun(s, [a, b, c]) <==> Allowed(s, a) && Allowed(Step(s, a), b) && Allowed(Step(Step(s, a), b), c)
  {
    assert [a, b, c][1..] == [b, c];
    assert [b, c][1..] == [c];
    assert [c][1..] == [];
    var x := Step(Step(s, a), b);
    assert Run(x, [c]) == Step(x, c) && (IsRun(x, [c]) <==> Allowed(x, c));
  }

  /** Two transactions in progress can both update the same version and both commit:
      a later reader finds both new versions. */
  lemma {:induction false} BothWritersCommit()
    ensures var s := TwoWriters();
            var a := Step(s, Update(2, 1, 4, [Int(8)], true));
            var b := Step(a, Update(3, 1, 5, [Int(9)], true));
            var c := Step(Step(Step(b, Commit(2)), Commit(3)), Begin(4));
            && Observe(s, Update(2, 1, 4, [Int(8)], true)) == Done(true)
            && Observe(a, Update(3, 1, 5, [Int(9)], true)) == Done(true)
            && VisibleRows(c, 4) == map[4 := [Int(8)], 5 := [Int(9)]]
  {
    var s := TwoWriters();
    var a := Step(s, Update(2, 1, 4, [Int(8)], true));
    var b := Step(a, Update(3, 1, 5, [Int(9)], true));
    assert b.rows == map[1 := Row([Int(7)], 1, 3), 4 := Row([Int(8)], 2, 0), 5 := Row([Int(9)], 3, 0)];
    var c := Step(Step(Step(b, Commit(2)), Commit(3)), Begin(4));
    assert c.snaps[4] == {1, 2, 3};
  }

  /** A row that transaction 2 deleted comes back into its own view when transaction 3
      overwrites the mark. */
  lemma {:induction false} DeletedRowComesBack()
    ensures var s := TwoWriters();
            var a := Step(s, Delete(2, 1));
            var b := Step(a, Delete(3, 1));
            && Overwritten(a, 2, [Delete(3, 1)])
            && VisibleRows(a, 2) == map[] && VisibleRows(b, 2) == map[1 := [Int(7)]]
  {
    var a := Step(TwoWriters(), Delete(2, 1));
    assert a.rows == map[1 := Row([Int(7)], 1, 2)];
    var b := Step(a, Delete(3, 1));
    assert b.rows == map[1 := Row([Int(7)], 1, 3)];
  }

  /** If a transaction that overwrote another one's mark rolls back, the other one's
      committed deletion is lost: the run with and without it differ for a later reader. */
  lemma {:induction false} RollbackCanUndoADelete()
    ensures var s := TwoWriters();
            var with3 := Step(Step(Step(Step(s, Delete(2, 1)), Delete(3, 1)), Rollback(3)), Commit(2));
            var without3 := Step(Step(s, Delete(2, 1)), Commit(2));
            && !SparesOthers(Step(s, Delete(2, 1)), 3, Delete(3, 1))
            && VisibleRows(Step(with3, Begin(4)), 4) == map[1 := [Int(7)]]
            && VisibleRows(Step(without3, Begin(4)), 4) == map[]
  {
    var s := TwoWriters();
    var a := Step(s, Delete(2, 1));
    assert a.rows == map[1 := Row([Int(7)], 1, 2)];
    var b := Step(a, Delete(3, 1));
    assert b.rows == map[1 := Row([Int(7)], 1, 3)];
    var c := Step(Step(b, Rollback(3)), Commit(2));
    assert c.committed == {1, 2};
    var d := Step(a, Commit(2));
    assert d.committed == {1, 2};
  }
}
