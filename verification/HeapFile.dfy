/** The heap file: rows addressed by page and slot, reached through the page cache. */
module HeapFile {
  import opened Core
  import Page
  import opened BufferPool

  /** A 48-bit page number and a 16-bit slot packed into 64 bits. */
  function EncodeID(page: nat, slot: nat): (id: UInt64)
    requires slot < 0x1_0000
  {
    page * 0x1_0000 % 0x1_0000_0000_0000_0000 + slot
  }

  function PageOf(id: UInt64): nat { id / 0x1_0000 }
  function SlotOf(id: UInt64): nat { id % 0x1_0000 }

  /** Packing and unpacking are inverse for 48-bit pages and 16-bit slots. */
  lemma {:induction false} IdRoundTrip(page: nat, slot: nat, id: UInt64)
    requires page < 0x1_0000_0000_0000 && slot < 0x1_0000
    ensures PageOf(EncodeID(page, slot)) == page && SlotOf(EncodeID(page, slot)) == slot
    ensures EncodeID(PageOf(id), SlotOf(id)) == id
  {
  }

  lemma {:induction false} IdInjective(x: UInt64, y: UInt64)
    requires PageOf(x) == PageOf(y) && SlotOf(x) == SlotOf(y)
    ensures x == y
  {
  }

  method Pack(page: nat, slot: nat) returns (id: UInt64)
    requires page < 0x1_0000_0000_0000 && slot < 0x1_0000
    ensures PageOf(id) == page && SlotOf(id) == slot
  {
    IdRoundTrip(page, slot, 0);
    id := EncodeID(page, slot);
  }

  lemma {:induction false} BlankPage()
    ensures Page.Inv(Page.Blank()) && Page.Rows(Page.Blank()) == []
  {
    assert Page.SlotCount(Page.Blank()) == 0;
  }

  /** A pool whose dirty pages all exist in the file. */
  ghost predicate Settled(pool: Pool)
    reads pool, pool.pages.Values
  {
    pool.Valid() && forall i :: i in pool.dirty ==> i < |pool.file|
  }

  /** page.Insert on a cached page, followed by MarkDirty on success. */
  method InsertInPage(pool: Pool, i: nat, row: seq<Byte>) returns (slot: Option<nat>)
    requires Settled(pool) && i < |pool.file| && Page.Inv(pool.View(i))
    modifies pool, pool.pages.Values
    ensures Settled(pool) && |pool.file| == |old(pool.file)| && fresh(pool.pages.Values - old(pool.pages.Values))
    ensures forall j: nat :: j != i ==> pool.View(j) == old(pool.View(j))
    ensures slot.Some? <==> |row| + 4 <= Page.Room(old(pool.View(i)))
    ensures slot.None? ==> pool.View(i) == old(pool.View(i))
    ensures Page.Inv(pool.View(i))
    ensures slot.Some? ==> slot.value == |Page.Rows(old(pool.View(i)))|
    ensures slot.Some? ==> Page.Rows(pool.View(i)) == Page.Rows(old(pool.View(i))) + [row]
  {
    var page := pool.FetchPage(i);
    label fetched:
    slot := Page.Insert(page, row);
    pool.Written@fetched(i);
    if slot.Some? {
      pool.MarkDirty(i);
    }
  }

  /** page.Update on a cached page, followed by MarkDirty on success. */
  method UpdateInPage(pool: Pool, i: nat, slot: nat, row: seq<Byte>) returns (ok: bool)
    requires Settled(pool) && Page.Inv(pool.View(i)) && (i >= |pool.file| ==> |Page.Rows(pool.View(i))| == 0)
    modifies pool, pool.pages.Values
    ensures Settled(pool) && |pool.file| == |old(pool.file)| && fresh(pool.pages.Values - old(pool.pages.Values))
    ensures forall j: nat :: j != i ==> pool.View(j) == old(pool.View(j))
    ensures ok <==> slot < |Page.Rows(old(pool.View(i)))| && |row| <= |Page.Rows(old(pool.View(i)))[slot]|
    ensures !ok ==> pool.View(i) == old(pool.View(i))
    ensures Page.Inv(pool.View(i))
    ensures ok ==> Page.Rows(pool.View(i)) == Page.Rows(old(pool.View(i)))[slot := row]
  {
    var page := pool.FetchPage(i);
    label fetched:
    ok := Page.Update(page, slot, row);
    pool.Written@fetched(i);
    if ok {
      pool.MarkDirty(i);
    }
  }

  method DeleteInPage(pool: Pool, i: nat, slot: nat) returns (ok: bool)
    requires Settled(pool) && Page.Inv(pool.View(i)) && (i >= |pool.file| ==> |Page.Rows(pool.View(i))| == 0)
    modifies pool, pool.pages.Values
    ensures Settled(pool) && |pool.file| == |old(pool.file)| && fresh(pool.pages.Values - old(pool.pages.Values))
    ensures forall j: nat :: j != i ==> pool.View(j) == old(pool.View(j))
    ensures ok <==> slot < |Page.Rows(old(pool.View(i)))|
    ensures !ok ==> pool.View(i) == old(pool.View(i))
    ensures Page.Inv(pool.View(i))
    ensures ok ==> Page.Rows(pool.View(i)) == Page.Rows(old(pool.View(i)))[slot := []]
  {
    var page := pool.FetchPage(i);
    label fetched:
    ok := Page.Delete(page, slot);
    pool.Written@fetched(i);
    if ok {
      pool.MarkDirty(i);
    }
  }

  ghost predicate PagesOk(pool: Pool)
    reads pool, pool.pages.Values
  {
    Settled(pool) && forall i :: 0 <= i < |pool.file| ==> Page.Inv(pool.View(i))
  }

  /** The scan for the first page with room: its number and the slot given to the row. */
  method InsertInExisting(pool: Pool, row: seq<Byte>) returns (at: Option<(nat, nat)>)
    requires PagesOk(pool)
    modifies pool, pool.pages.Values
    ensures PagesOk(pool) && |pool.file| == |old(pool.file)| && fresh(pool.pages.Values - old(pool.pages.Values))
    ensures forall j :: 0 <= j < (if at.Some? then at.value.0 else |pool.file|) ==>
              Page.Room(old(pool.View(j))) < |row| + 4
    ensures at.None? ==> forall j: nat :: pool.View(j) == old(pool.View(j))
    ensures at.Some? ==>
              var (p, slot) := at.value;
              && p < |pool.file| && |row| + 4 <= Page.Room(old(pool.View(p)))
              && slot == |Page.Rows(old(pool.View(p)))|
              && Page.Rows(pool.View(p)) == Page.Rows(old(pool.View(p))) + [row]
              && (forall j: nat :: j != p ==> pool.View(j) == old(pool.View(j)))
  {
    var pageCount := |pool.file|;
    var i := 0;
    while i < pageCount
      invariant 0 <= i <= pageCount == |pool.file| == |old(pool.file)|
      invariant PagesOk(pool) && fresh(pool.pages.Values - old(pool.pages.Values))
      invariant forall j: nat :: pool.View(j) == old(pool.View(j))
      invariant forall j :: 0 <= j < i ==> Page.Room(old(pool.View(j))) < |row| + 4
    {
      var slot := InsertInPage(pool, i, row);
      if slot.Some? {
        return Some((i, slot.value));
      }
      i := i + 1;
    }
    at := None;
  }

  /** A row that found no room gets a new page at the end of the file. */
  method AppendRow(pool: Pool, row: seq<Byte>) returns (ok: bool)
    requires Settled(pool)
    modifies pool
    ensures Settled(pool) && fresh(pool.pages.Values - old(pool.pages.Values))
    ensures ok <==> |row| <= 4088
    ensures |pool.file| == |old(pool.file)| + if ok then 1 else 0
    ensures forall j: nat :: !(ok && j == |old(pool.file)|) ==> pool.View(j) == old(pool.View(j))
    ensures ok ==> Page.Inv(pool.View(|old(pool.file)|)) && Page.Rows(pool.View(|old(pool.file)|)) == [row]
  {
    var newPage := Page.NewPage();
    var slot := Page.Insert(newPage, row);
    if slot.None? {
      return false;
    }
    pool.Append(newPage);
    ok := true;
  }

  class HeapFile {
    const pool: Pool

    ghost predicate Valid()
      reads this, pool, pool.pages.Values
    {
      PagesOk(pool)
    }

    /** The rows of page i as readers see them. */
    ghost function RowsOf(i: nat): (rows: seq<seq<Byte>>)
      requires Valid()
      reads this, pool, pool.pages.Values
    {
      if i < |pool.file| then Page.Rows(pool.View(i)) else []
    }

    ghost function RoomOf(i: nat): int
      requires Valid() && i < |pool.file|
      reads this, pool, pool.pages.Values
    {
      Page.Room(pool.View(i))
    }

    /** The file as a map from row ids to bytes. */
    ghost function Lookup(id: UInt64): (row: Option<seq<Byte>>)
      requires Valid()
      reads this, pool, pool.pages.Values
    {
      if SlotOf(id) < |RowsOf(PageOf(id))| then Some(RowsOf(PageOf(id))[SlotOf(id)]) else None
    }

    constructor (capacity: nat)
      ensures Valid() && fresh(pool) && pool.pages == map[] && pool.file == []
      ensures forall id: UInt64 :: Lookup(id) == None
    {
      pool := new Pool([], capacity);
    }

    /** A page past the end of the file has no slots, like the empty row list. */
    lemma {:induction false} PastEnd(i: nat)
      requires Valid()
      ensures Page.Inv(pool.View(i)) && Page.Rows(pool.View(i)) == RowsOf(i)
    {
      BlankPage();
    }

    /** Slots are used without gaps, and only in pages of the file. */
    lemma {:induction false} NoGaps(x: UInt64, y: UInt64)
      requires Valid() && PageOf(x) == PageOf(y) && SlotOf(x) <= SlotOf(y) && Lookup(x).None?
      ensures Lookup(y).None?
    {
    }

    lemma {:induction false} FewSlots(x: UInt64)
      requires Valid() && Lookup(x).Some?
      ensures SlotOf(x) + 1 < 0x1_0000
    {
      SmallSlot(pool.View(PageOf(x)));
    }

    lemma {:induction false} NothingPastEnd(x: UInt64)
      requires Valid() && PageOf(x) >= |pool.file|
      ensures Lookup(x).None?
    {
    }

    /** Get: the latest bytes of the row, or an error for a slot that was never used. */
    method Get(id: UInt64) returns (row: Option<seq<Byte>>)
      requires Valid()
      modifies pool
      ensures Valid() && fresh(pool.pages.Values - old(pool.pages.Values))
      ensures |pool.file| == |old(pool.file)|
      ensures row == Lookup(id)
      ensures forall x: UInt64 :: Lookup(x) == old(Lookup(x))
    {
      hide PageOf, SlotOf;
      PastEnd(PageOf(id));
      var page := pool.FetchPage(PageOf(id));
      row := Page.Get(page, SlotOf(id));
    }

    /** Update in place: refused, with no effect, unless the row exists and the new bytes are not longer. */
    method Update(id: UInt64, row: seq<Byte>) returns (ok: bool)
      requires Valid()
      modifies pool, pool.pages.Values
      ensures Valid() && fresh(pool.pages.Values - old(pool.pages.Values))
      ensures |pool.file| == |old(pool.file)|
      ensures ok <==> old(Lookup(id)).Some? && |row| <= |old(Lookup(id)).value|
      ensures Lookup(id) == if ok then Some(row) else old(Lookup(id))
      ensures forall x: UInt64 :: x != id ==> Lookup(x) == old(Lookup(x))
    {
      PastEnd(PageOf(id));
      ok := UpdateInPage(pool, PageOf(id), SlotOf(id), row);
      forall x: UInt64 | x != id ensures Lookup(x) == old(Lookup(x)) {
        if PageOf(x) == PageOf(id) && SlotOf(x) == SlotOf(id) {
          IdInjective(x, id);
        }
      }
    }

    method Delete(id: UInt64) returns (ok: bool)
      requires Valid()
      modifies pool, pool.pages.Values
      ensures Valid() && fresh(pool.pages.Values - old(pool.pages.Values))
      ensures |pool.file| == |old(pool.file)|
      ensures ok <==> old(Lookup(id)).Some?
      ensures Lookup(id) == if ok then Some([]) else old(Lookup(id))
      ensures forall x: UInt64 :: x != id ==> Lookup(x) == old(Lookup(x))
    {
      PastEnd(PageOf(id));
      ok := DeleteInPage(pool, PageOf(id), SlotOf(id));
      forall x: UInt64 | x != id ensures Lookup(x) == old(Lookup(x)) {
        if PageOf(x) == PageOf(id) && SlotOf(x) == SlotOf(id) {
          IdInjective(x, id);
        }
      }
    }

    /** The row goes to the lowest page with room, or to one new page. */
    method InsertAt(row: seq<Byte>) returns (at: Option<(nat, nat)>)
      requires Valid()
      modifies pool, pool.pages.Values
      ensures Valid() && fresh(pool.pages.Values - old(pool.pages.Values))
      ensures at.None? <==> |row| > 4088
      ensures at.None? ==> |pool.file| == |old(pool.file)| && forall j: nat :: RowsOf(j) == old(RowsOf(j))
      ensures at.Some? ==>
                var (p, slot) := at.value;
                && p <= |old(pool.file)| && slot < 0x1_0000
                && |pool.file| == (if p < |old(pool.file)| then |old(pool.file)| else |old(pool.file)| + 1)
                && slot == |old(RowsOf(p))|
                && (forall j: nat :: RowsOf(j) == if j == p then old(RowsOf(j)) + [row] else old(RowsOf(j)))
                && (forall j :: 0 <= j < p ==> old(RoomOf(j)) < |row| + 4)
                && (p < |old(pool.file)| ==> old(RoomOf(p)) >= |row| + 4)
    {
      at := InsertInExisting(pool, row);
      if at.Some? {
        ghost var p := at.value.0;
        SmallSlot(old(pool.View(p)));
      } else {
        var ok := AppendRow(pool, row);
        if ok {
          at := Some((|pool.file| - 1, 0));
        }
      }
    }

    /** Insert: refused, with no effect, exactly for rows over 4088 bytes.  Otherwise the
        row gets an id that was never used and every other id keeps its bytes. */
    method Insert(row: seq<Byte>) returns (id: Option<UInt64>)
      requires Valid() && |pool.file| < 0x1_0000_0000_0000
      modifies pool, pool.pages.Values
      ensures Valid() && fresh(pool.pages.Values - old(pool.pages.Values))
      ensures id.None? <==> |row| > 4088
      ensures |old(pool.file)| <= |pool.file| <= |old(pool.file)| + 1
      ensures id.None? ==> forall x: UInt64 :: Lookup(x) == old(Lookup(x))
      ensures id.Some? ==>
                && old(Lookup(id.value)).None? && Lookup(id.value) == Some(row)
                && forall x: UInt64 :: x != id.value ==> Lookup(x) == old(Lookup(x))
    {
      hide EncodeID, PageOf, SlotOf, RowsOf, RoomOf, Valid;
      var at := InsertAt(row);
      if at.None? {
        return None;
      }
      var packed := Pack(at.value.0, at.value.1);
      id := Some(packed);
      forall x: UInt64 | x != packed ensures Lookup(x) == old(Lookup(x)) {
        if PageOf(x) == PageOf(packed) && SlotOf(x) == SlotOf(packed) {
          IdInjective(x, packed);
        }
      }
    }
  }

  /** A page has at most 1023 slots. */
  lemma {:induction false} SmallSlot(d: Page.PageBytes)
    requires Page.Inv(d)
    ensures |Page.Rows(d)| < 0xFFFF && Page.Room(d) <= 4092
  {
  }
}
