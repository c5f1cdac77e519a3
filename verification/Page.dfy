/** The slotted page: a header, a slot directory growing up and row bytes growing
    down inside one 4096-byte array. */
module Page {
  import opened Core
  import opened Bytes

  const PAGE_SIZE := 4096

  type PageBytes = d: seq<Byte> | |d| == PAGE_SIZE witness seq(PAGE_SIZE, i => 0)

  function Blank(): PageBytes { seq(PAGE_SIZE, i => 0) }

  function SlotCount(d: PageBytes): nat { U16(d, 0) }
  function FreePtr(d: PageBytes): nat { U16(d, 2) }

  /** Room left between the slot directory and the rows. */
  function Room(d: PageBytes): int { FreePtr(d) - (4 + 4 * SlotCount(d)) }

  function SlotOff(d: PageBytes, i: nat): nat
    requires 8 + 4 * i <= PAGE_SIZE
  {
    U16(d, 4 + 4 * i)
  }

  function SlotLen(d: PageBytes, i: nat): nat
    requires 8 + 4 * i <= PAGE_SIZE
  {
    U16(d, 6 + 4 * i)
  }

  /** The extent of slot i: cleared, or inside the row area. */
  ghost predicate SlotOk(d: PageBytes, i: nat)
    requires 8 + 4 * i <= PAGE_SIZE
  {
    || (SlotOff(d, i) == 0 && SlotLen(d, i) == 0)
    || (FreePtr(d) <= SlotOff(d, i) && SlotOff(d, i) + SlotLen(d, i) <= PAGE_SIZE)
  }

  /** Two extents share no byte. */
  ghost predicate Disjoint(d: PageBytes, i: nat, j: nat)
    requires 8 + 4 * i <= PAGE_SIZE && 8 + 4 * j <= PAGE_SIZE
  {
    || SlotOff(d, i) + SlotLen(d, i) <= SlotOff(d, j)
    || SlotOff(d, j) + SlotLen(d, j) <= SlotOff(d, i)
  }

  /** Header, directory and rows never overlap or leave the page.  A page that was
      never written is all zero: it has no slots and no room. */
  ghost predicate Inv(d: PageBytes) {
    && ((SlotCount(d) == 0 && FreePtr(d) == 0) || 4 + 4 * SlotCount(d) <= FreePtr(d) <= PAGE_SIZE)
    && (forall i :: 0 <= i < SlotCount(d) ==> SlotOk(d, i))
    && (forall i, j :: 0 <= i < j < SlotCount(d) ==> Disjoint(d, i, j))
  }

  function RowAt(d: PageBytes, i: nat): (row: seq<Byte>)
    requires Inv(d) && i < SlotCount(d)
    ensures |row| == SlotLen(d, i)
  {
    assert SlotOk(d, i);
    d[SlotOff(d, i)..SlotOff(d, i) + SlotLen(d, i)]
  }

  /** The rows of the page by slot; a deleted slot holds no bytes. */
  function Rows(d: PageBytes): (rows: seq<seq<Byte>>)
    requires Inv(d)
    ensures |rows| == SlotCount(d)
    ensures forall i :: 0 <= i < |rows| ==> rows[i] == RowAt(d, i)
  {
    seq(SlotCount(d), i requires 0 <= i < SlotCount(d) => RowAt(d, i))
  }

  // ---------------------------------------------------------------------
  // The bytes each operation produces
  // ---------------------------------------------------------------------

  function Inserted(d: PageBytes, row: seq<Byte>): (r: PageBytes)
    requires Inv(d) && |row| + 4 <= Room(d)
  {
    var n, f := SlotCount(d), FreePtr(d) - |row|;
    var a := Splice(d, f, row);
    var b := Write16(a, 4 + 4 * n, f);
    var c := Write16(b, 6 + 4 * n, |row|);
    Write16(Write16(c, 0, n + 1), 2, f)
  }

  function Deleted(d: PageBytes, i: nat): (r: PageBytes)
    requires Inv(d) && i < SlotCount(d)
  {
    Write16(Write16(d, 4 + 4 * i, 0), 6 + 4 * i, 0)
  }

  function Updated(d: PageBytes, i: nat, row: seq<Byte>): (r: PageBytes)
    requires Inv(d) && i < SlotCount(d) && |row| <= SlotLen(d, i)
  {
    assert SlotOk(d, i);
    Write16(Splice(d, SlotOff(d, i), row), 6 + 4 * i, |row|)
  }

  /** Two pages with the same bytes in slot i's entry and extent hold the same row there. */
  lemma {:induction false} SameRow(d: PageBytes, r: PageBytes, i: nat)
    requires Inv(d) && Inv(r) && i < SlotCount(d) && i < SlotCount(r)
    requires SlotOff(r, i) == SlotOff(d, i) && SlotLen(r, i) == SlotLen(d, i)
    requires forall k :: SlotOff(d, i) <= k < SlotOff(d, i) + SlotLen(d, i) && k < PAGE_SIZE ==> r[k] == d[k]
    ensures RowAt(r, i) == RowAt(d, i)
  {
    assert SlotOk(d, i) && SlotOk(r, i);
  }

  lemma {:induction false} InsertedSlots(d: PageBytes, row: seq<Byte>)
    requires Inv(d) && |row| + 4 <= Room(d)
    ensures var r, n := Inserted(d, row), SlotCount(d);
            && SlotCount(r) == n + 1 && FreePtr(r) == FreePtr(d) - |row|
            && SlotOff(r, n) == FreePtr(d) - |row| && SlotLen(r, n) == |row|
            && (forall i :: 0 <= i < n ==> SlotOff(r, i) == SlotOff(d, i) && SlotLen(r, i) == SlotLen(d, i))
            && (forall k :: FreePtr(d) <= k < PAGE_SIZE ==> r[k] == d[k])
            && r[FreePtr(r)..FreePtr(d)] == row
  {
  }

  /** One more slot right below the old rows keeps the page consistent. */
  lemma {:induction false} GrownInv(d: PageBytes, r: PageBytes, len: nat)
    requires Inv(d) && len + 4 <= Room(d)
    requires SlotCount(r) == SlotCount(d) + 1 && FreePtr(r) == FreePtr(d) - len
    requires SlotOff(r, SlotCount(d)) == FreePtr(r) && SlotLen(r, SlotCount(d)) == len
    requires forall i :: 0 <= i < SlotCount(d) ==> SlotOff(r, i) == SlotOff(d, i) && SlotLen(r, i) == SlotLen(d, i)
    ensures Inv(r)
  {
    var n := SlotCount(d);
    forall i | 0 <= i < n ensures SlotOk(r, i) && Disjoint(r, i, n) {
      assert SlotOk(d, i);
    }
    forall i, j | 0 <= i < j < n ensures Disjoint(r, i, j) {
      assert Disjoint(d, i, j);
    }
  }

  lemma {:induction false} InsertedRows(d: PageBytes, row: seq<Byte>)
    requires Inv(d) && |row| + 4 <= Room(d)
    ensures var r := Inserted(d, row);
            Inv(r) && Rows(r) == Rows(d) + [row] && Room(r) == Room(d) - |row| - 4
  {
    var r, n := Inserted(d, row), SlotCount(d);
    InsertedSlots(d, row);
    hide Inserted, SlotOff, SlotLen;
    GrownInv(d, r, |row|);
    forall i | 0 <= i < n ensures Rows(r)[i] == (Rows(d) + [row])[i] {
      assert SlotOk(d, i);
      SameRow(d, r, i);
    }
  }

  lemma {:induction false} DeletedRows(d: PageBytes, i: nat)
    requires Inv(d) && i < SlotCount(d)
    ensures var r := Deleted(d, i);
            Inv(r) && Rows(r) == Rows(d)[i := []] && Room(r) == Room(d)
  {
    var r, n := Deleted(d, i), SlotCount(d);
    assert SlotOff(r, i) == 0 && SlotLen(r, i) == 0;
    forall j | 0 <= j < n && j != i ensures SlotOff(r, j) == SlotOff(d, j) && SlotLen(r, j) == SlotLen(d, j) {
    }
    forall j | 0 <= j < n ensures SlotOk(r, j) {
      assert SlotOk(d, j);
    }
    forall a, b | 0 <= a < b < n ensures Disjoint(r, a, b) {
      assert Disjoint(d, a, b);
    }
    assert Inv(r);
    forall j | 0 <= j < n && j != i ensures RowAt(r, j) == RowAt(d, j) {
      assert SlotOk(d, j);
      SameRow(d, r, j);
    }
  }

  lemma {:induction false} SameDirectory(d: PageBytes, a: PageBytes)
    requires 4 + 4 * SlotCount(d) <= PAGE_SIZE && forall k :: 0 <= k < 4 + 4 * SlotCount(d) ==> a[k] == d[k]
    ensures SlotCount(a) == SlotCount(d) && FreePtr(a) == FreePtr(d)
    ensures forall j :: 0 <= j < SlotCount(d) ==> SlotOff(a, j) == SlotOff(d, j) && SlotLen(a, j) == SlotLen(d, j)
  {
  }

  lemma {:induction false} LengthWritten(a: PageBytes, i: nat, len: nat)
    requires 4 + 4 * SlotCount(a) <= PAGE_SIZE && i < SlotCount(a) && len < 0x1_0000
    ensures var r := Write16(a, 6 + 4 * i, len);
            && SlotCount(r) == SlotCount(a) && FreePtr(r) == FreePtr(a)
            && SlotOff(r, i) == SlotOff(a, i) && SlotLen(r, i) == len
            && forall j :: 0 <= j < SlotCount(a) && j != i ==>
                 SlotOff(r, j) == SlotOff(a, j) && SlotLen(r, j) == SlotLen(a, j)
  {
  }

  lemma {:induction false} UpdatedSlots(d: PageBytes, i: nat, row: seq<Byte>)
    requires Inv(d) && i < SlotCount(d) && |row| <= SlotLen(d, i)
    ensures var r := Updated(d, i, row);
            && SlotCount(r) == SlotCount(d) && FreePtr(r) == FreePtr(d)
            && SlotOff(r, i) == SlotOff(d, i) && SlotLen(r, i) == |row|
            && (forall j :: 0 <= j < SlotCount(d) && j != i ==>
                 SlotOff(r, j) == SlotOff(d, j) && SlotLen(r, j) == SlotLen(d, j))
  {
    assert SlotOk(d, i);
    hide Write16;
    var a := Splice(d, SlotOff(d, i), row);
    assert forall k :: 0 <= k < 4 + 4 * SlotCount(d) ==> a[k] == d[k];
    hide Splice, SlotOff, SlotLen, SlotCount, FreePtr;
    SameDirectory(d, a);
    LengthWritten(a, i, |row|);
  }

  lemma {:induction false} UpdatedBytes(d: PageBytes, i: nat, row: seq<Byte>, k: nat)
    requires Inv(d) && i < SlotCount(d) && |row| <= SlotLen(d, i)
    requires 4 + 4 * SlotCount(d) <= k < PAGE_SIZE
    ensures Updated(d, i, row)[k] ==
            if SlotOff(d, i) <= k < SlotOff(d, i) + |row| then row[k - SlotOff(d, i)] else d[k]
  {
    assert SlotOk(d, i);
  }

  /** The other rows keep their bytes. */
  lemma {:induction false} UpdateSpares(d: PageBytes, i: nat, row: seq<Byte>, j: nat)
    requires Inv(d) && i < SlotCount(d) && |row| <= SlotLen(d, i) && j < SlotCount(d) && j != i
    requires Inv(Updated(d, i, row))
    ensures j < SlotCount(Updated(d, i, row)) && RowAt(Updated(d, i, row), j) == RowAt(d, j)
  {
    var r := Updated(d, i, row);
    UpdatedSlots(d, i, row);
    hide Updated, SlotOff, SlotLen;
    assert SlotOk(d, j) && SlotOk(d, i);
    assert if j < i then Disjoint(d, j, i) else Disjoint(d, i, j);
    forall k | SlotOff(d, j) <= k < SlotOff(d, j) + SlotLen(d, j) ensures r[k] == d[k] {
      UpdatedBytes(d, i, row, k);
    }
    SameRow(d, r, j);
  }

  /** The updated row has the new bytes. */
  lemma {:induction false} UpdateStores(d: PageBytes, i: nat, row: seq<Byte>)
    requires Inv(d) && i < SlotCount(d) && |row| <= SlotLen(d, i) && Inv(Updated(d, i, row))
    ensures i < SlotCount(Updated(d, i, row)) && RowAt(Updated(d, i, row), i) == row
  {
    var r := Updated(d, i, row);
    UpdatedSlots(d, i, row);
    hide Updated, SlotOff, SlotLen;
    assert SlotOk(d, i);
    forall x | 0 <= x < |row| ensures RowAt(r, i)[x] == row[x] {
      UpdatedBytes(d, i, row, SlotOff(d, i) + x);
    }
    assert RowAt(r, i) == row;
  }

  lemma {:induction false} UpdatedRows(d: PageBytes, i: nat, row: seq<Byte>)
    requires Inv(d) && i < SlotCount(d) && |row| <= SlotLen(d, i)
    ensures var r := Updated(d, i, row);
            Inv(r) && Rows(r) == Rows(d)[i := row] && Room(r) == Room(d)
  {
    var r, n := Updated(d, i, row), SlotCount(d);
    UpdatedSlots(d, i, row);
    UpdatedInv(d, i, row);
    hide Updated, SlotOff, SlotLen, RowAt, Inv;
    UpdateStores(d, i, row);
    forall j | 0 <= j < n ensures Rows(r)[j] == Rows(d)[i := row][j] {
      if j != i {
        UpdateSpares(d, i, row, j);
      }
    }
    assert Rows(r) == Rows(d)[i := row];
  }

  lemma {:induction false} UpdatedInv(d: PageBytes, i: nat, row: seq<Byte>)
    requires Inv(d) && i < SlotCount(d) && |row| <= SlotLen(d, i)
    ensures Inv(Updated(d, i, row))
  {
    var r, n := Updated(d, i, row), SlotCount(d);
    UpdatedSlots(d, i, row);
    hide Updated, SlotOff, SlotLen;
    forall j | 0 <= j < n ensures SlotOk(r, j) {
      assert SlotOk(d, j);
    }
    forall a, b | 0 <= a < b < n ensures Disjoint(r, a, b) {
      assert Disjoint(d, a, b);
    }
  }

  // ---------------------------------------------------------------------
  // The operations, in place
  // ---------------------------------------------------------------------

  method Put16(p: array<Byte>, off: nat, x: nat)
    requires p.Length == PAGE_SIZE && off + 2 <= PAGE_SIZE
    modifies p
    ensures p[..] == Write16(old(p[..]), off, x)
  {
    p[off] := x % 256;
    p[off + 1] := x / 256 % 256;
  }

  /** copy(p.Data[off:off+len(b)], b) */
  method CopyInto(p: array<Byte>, off: nat, b: seq<Byte>)
    requires p.Length == PAGE_SIZE && off + |b| <= PAGE_SIZE
    modifies p
    ensures p[..] == Splice(old(p[..]), off, b)
  {
    ghost var d := p[..];
    for k := 0 to |b|
      invariant forall i :: 0 <= i < PAGE_SIZE ==> p[i] == if off <= i < off + k then b[i - off] else d[i]
    {
      p[off + k] := b[k];
    }
  }

  method NewPage() returns (p: array<Byte>)
    ensures fresh(p) && p.Length == PAGE_SIZE
    ensures Inv(p[..]) && Rows(p[..]) == [] && Room(p[..]) == 4092
  {
    p := new Byte[PAGE_SIZE](i => 0);
    Put16(p, 2, PAGE_SIZE);
    assert SlotCount(p[..]) == 0;
  }

  /** Fails exactly when the row and its slot entry do not fit; then nothing changes.
      Otherwise the row gets the next slot and every other row keeps its bytes. */
  method Insert(p: array<Byte>, row: seq<Byte>) returns (slot: Option<nat>)
    requires p.Length == PAGE_SIZE && Inv(p[..])
    modifies p
    ensures Inv(p[..])
    ensures slot.Some? <==> |row| + 4 <= Room(old(p[..]))
    ensures slot.None? ==> p[..] == old(p[..])
    ensures slot.Some? ==> slot.value == |Rows(old(p[..]))|
    ensures slot.Some? ==> Rows(p[..]) == Rows(old(p[..])) + [row]
    ensures slot.Some? ==> Room(p[..]) == Room(old(p[..])) - |row| - 4
  {
    ghost var d := p[..];
    var slotCount := SlotCount(p[..]);
    var freeSpace := FreePtr(p[..]);
    var slotOffset := 4 + slotCount * 4;
    if freeSpace - slotOffset < |row| + 4 {
      return None;
    }
    var newFreeSpace := freeSpace - |row|;
    CopyInto(p, newFreeSpace, row);
    Put16(p, slotOffset, newFreeSpace);
    Put16(p, slotOffset + 2, |row|);
    Put16(p, 0, slotCount + 1);
    Put16(p, 2, newFreeSpace);
    assert p[..] == Inserted(d, row);
    InsertedRows(d, row);
    slot := Some(slotCount);
  }

  method Get(p: array<Byte>, i: nat) returns (row: Option<seq<Byte>>)
    requires p.Length == PAGE_SIZE && Inv(p[..])
    ensures row == if i < |Rows(p[..])| then Some(Rows(p[..])[i]) else None
  {
    var slotCount := SlotCount(p[..]);
    if i >= slotCount {
      return None;
    }
    var off, len := SlotOff(p[..], i), SlotLen(p[..], i);
    assert SlotOk(p[..], i);
    row := Some(p[off..off + len]);
  }

  method Delete(p: array<Byte>, i: nat) returns (ok: bool)
    requires p.Length == PAGE_SIZE && Inv(p[..])
    modifies p
    ensures Inv(p[..]) && Room(p[..]) == Room(old(p[..]))
    ensures ok <==> i < |Rows(old(p[..]))|
    ensures !ok ==> p[..] == old(p[..])
    ensures ok ==> Rows(p[..]) == Rows(old(p[..]))[i := []]
  {
    ghost var d := p[..];
    var slotCount := SlotCount(p[..]);
    if i >= slotCount {
      return false;
    }
    Put16(p, 4 + 4 * i, 0);
    Put16(p, 4 + 4 * i + 2, 0);
    DeletedRows(d, i);
    ok := true;
  }

  /** Replaces the row of a slot in place; a longer row is refused and changes nothing. */
  method Update(p: array<Byte>, i: nat, row: seq<Byte>) returns (ok: bool)
    requires p.Length == PAGE_SIZE && Inv(p[..])
    modifies p
    ensures Inv(p[..]) && Room(p[..]) == Room(old(p[..]))
    ensures ok <==> i < |Rows(old(p[..]))| && |row| <= |Rows(old(p[..]))[i]|
    ensures !ok ==> p[..] == old(p[..])
    ensures ok ==> Rows(p[..]) == Rows(old(p[..]))[i := row]
  {
    ghost var d := p[..];
    var slotCount := SlotCount(p[..]);
    if i >= slotCount {
      return false;
    }
    var off, len := SlotOff(p[..], i), SlotLen(p[..], i);
    if |row| > len {
      return false;
    }
    assert SlotOk(d, i);
    CopyInto(p, off, row);
    Put16(p, 4 + 4 * i + 2, |row|);
    assert p[..] == Updated(d, i, row);
    UpdatedRows(d, i, row);
    ok := true;
  }

  // ---------------------------------------------------------------------
  // Whole runs
  // ---------------------------------------------------------------------

  datatype Op = InsertOp(row: seq<Byte>) | UpdateOp(slot: nat, row: seq<Byte>) | DeleteOp(slot: nat)

  /** The page after an operation; a refused one changes nothing. */
  function Apply(d: PageBytes, op: Op): (r: PageBytes)
    requires Inv(d)
  {
    match op
    case InsertOp(row) => if |row| + 4 <= Room(d) then Inserted(d, row) else d
    case UpdateOp(i, row) => if i < SlotCount(d) && |row| <= SlotLen(d, i) then Updated(d, i, row) else d
    case DeleteOp(i) => if i < SlotCount(d) then Deleted(d, i) else d
  }

  /** The same on a plain list of rows with a byte budget. */
  datatype Model = Model(rows: seq<seq<Byte>>, room: int)

  function ModelStep(m: Model, op: Op): (r: Model) {
    match op
    case InsertOp(row) => if |row| + 4 <= m.room then Model(m.rows + [row], m.room - |row| - 4) else m
    case UpdateOp(i, row) => if i < |m.rows| && |row| <= |m.rows[i]| then m.(rows := m.rows[i := row]) else m
    case DeleteOp(i) => if i < |m.rows| then m.(rows := m.rows[i := []]) else m
  }

  lemma {:induction false} ApplyRefines(d: PageBytes, op: Op)
    requires Inv(d)
    ensures Inv(Apply(d, op))
    ensures Model(Rows(Apply(d, op)), Room(Apply(d, op))) == ModelStep(Model(Rows(d), Room(d)), op)
  {
    match op
    case InsertOp(row) =>
      if |row| + 4 <= Room(d) { InsertedRows(d, row); }
    case UpdateOp(i, row) =>
      if i < SlotCount(d) && |row| <= SlotLen(d, i) { UpdatedRows(d, i, row); }
    case DeleteOp(i) =>
      if i < SlotCount(d) { DeletedRows(d, i); }
  }

  function ApplyAll(d: PageBytes, ops: seq<Op>): (r: PageBytes)
    requires Inv(d)
    ensures Inv(r)
    decreases |ops|
  {
    if ops == [] then d else ApplyRefines(d, ops[0]); ApplyAll(Apply(d, ops[0]), ops[1..])
  }

  function ModelRun(m: Model, ops: seq<Op>): (r: Model)
    decreases |ops|
  {
    if ops == [] then m else ModelRun(ModelStep(m, ops[0]), ops[1..])
  }

  /** Any run of inserts, updates and deletes on a page behaves like the list of
      rows, with header, directory and row extents kept apart throughout. */
  lemma {:induction false} PageRunRefinesRows(d: PageBytes, ops: seq<Op>)
    requires Inv(d)
    ensures var r := ApplyAll(d, ops);
            Inv(r) && Model(Rows(r), Room(r)) == ModelRun(Model(Rows(d), Room(d)), ops)
    decreases |ops|
  {
    if ops != [] {
      ApplyRefines(d, ops[0]);
      PageRunRefinesRows(Apply(d, ops[0]), ops[1..]);
    }
  }
}
