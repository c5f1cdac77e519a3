/** The page cache over a file that is a growing sequence of pages.  Cached pages
    are shared byte arrays: a caller that got one from FetchPage changes the cache
    by writing into it. */
module BufferPool {
  import opened Core
  import opened Page

  /** readPage: a page beyond the end of the file reads as zeros. */
  function FileAt(file: seq<PageBytes>, i: nat): PageBytes {
    if i < |file| then file[i] else Blank()
  }

  /** writePage: a write beyond the end leaves a hole of zeros. */
  function WriteAt(file: seq<PageBytes>, i: nat, b: PageBytes): (r: seq<PageBytes>)
    ensures forall j: nat :: FileAt(r, j) == if j == i then b else FileAt(file, j)
    ensures |file| <= |r| && (i < |file| ==> |r| == |file|) && (i == |file| ==> |r| == |file| + 1)
  {
    if i < |file| then file[i := b]
    else file + seq(i - |file|, k => Blank()) + [b]
  }

  /** readPage: a fresh buffer with the bytes of the page. */
  method ReadPage(file: seq<PageBytes>, id: nat) returns (page: array<Byte>)
    ensures fresh(page) && page.Length == PAGE_SIZE && page[..] == FileAt(file, id)
  {
    var d := FileAt(file, id);
    page := new Byte[PAGE_SIZE](i requires 0 <= i < PAGE_SIZE => d[i]);
  }

  class Pool {
    var file: seq<PageBytes>
    var pages: map<nat, array<Byte>>
    var dirty: set<nat>
    const capacity: nat

    /** Cached pages are distinct arrays; a clean one equals its page in the file,
        with the possible exception of one page that is being modified. */
    ghost predicate ValidBut(ids: set<nat>)
      reads this, pages.Values
    {
      && (forall i :: i in pages ==> pages[i].Length == PAGE_SIZE)
      && (forall i, j :: i in pages && j in pages && i != j ==> pages[i] != pages[j])
      && (forall i :: i in pages && i !in dirty && i !in ids ==> pages[i][..] == FileAt(file, i))
    }

    ghost predicate Valid()
      reads this, pages.Values
    {
      ValidBut({})
    }

    /** What a reader sees: the cached page if there is one, else the file. */
    ghost function View(i: nat): (d: PageBytes)
      reads this, pages.Values
      requires forall i :: i in pages ==> pages[i].Length == PAGE_SIZE
    {
      if i in pages then pages[i][..] else FileAt(file, i)
    }

    constructor (file: seq<PageBytes>, capacity: nat)
      ensures Valid() && pages == map[] && dirty == {}
      ensures this.file == file && this.capacity == capacity
      ensures forall j: nat :: View(j) == FileAt(file, j)
    {
      this.file := file;
      this.capacity := capacity;
      pages := map[];
      dirty := {};
    }

    /** Writes a dirty page back; fails only for a dirty page that is not cached. */
    method Flush(id: nat) returns (ok: bool)
      requires Valid()
      modifies this`file, this`dirty
      ensures Valid()
      ensures ok <==> id in old(dirty) ==> id in pages
      ensures forall j: nat :: View(j) == old(View(j))
      ensures dirty == if ok then old(dirty) - {id} else old(dirty)
      ensures !ok ==> file == old(file)
      ensures |old(file)| <= |file|
      ensures id < |old(file)| ==> |file| == |old(file)|
    {
      if id in dirty {
        if id !in pages {
          return false;
        }
        file := WriteAt(file, id, pages[id][..]);
        dirty := dirty - {id};
      }
      ok := true;
    }

    /** After a successful FlushAll the file is what readers see. */
    method FlushAll() returns (ok: bool)
      requires Valid()
      modifies this`file, this`dirty
      ensures Valid()
      ensures ok <==> old(dirty) <= pages.Keys
      ensures forall j: nat :: View(j) == old(View(j))
      ensures ok ==> dirty == {} && forall j: nat :: FileAt(file, j) == View(j)
    {
      var todo := dirty;
      while todo != {}
        invariant todo == dirty <= old(dirty)
        invariant Valid()
        invariant old(dirty) - dirty <= pages.Keys
        invariant forall j: nat :: View(j) == old(View(j))
      {
        var id :| id in todo;
        ok := Flush(id);
        if !ok {
          return false;
        }
        todo := todo - {id};
      }
      ok := true;
    }

    /** Frees one place, preferring a clean page; a dirty one is written first. */
    method EvictPage()
      requires Valid()
      modifies this
      ensures Valid()
      ensures forall j: nat :: View(j) == old(View(j))
      ensures pages.Keys <= old(pages).Keys && forall i :: i in pages ==> pages[i] == old(pages)[i]
      ensures |pages| == if old(pages) == map[] then 0 else |old(pages)| - 1
      ensures dirty <= old(dirty)
      ensures |old(file)| <= |file|
      ensures (forall i :: i in old(dirty) ==> i < |old(file)|) ==> |file| == |old(file)|
    {
      if pages == map[] {
        return;
      }
      ghost var old_pages := pages;
      var clean := set id | id in pages && id !in dirty;
      var target: nat;
      if clean != {} {
        target :| target in clean;
      } else {
        target :| target in pages;
        var _ := Flush(target);
      }
      pages := pages - {target};
      dirty := dirty - {target};
      assert pages.Keys == old_pages.Keys - {target};
    }

    /** Returns the cached page, loading it (and evicting another) if necessary.
        What readers see never changes, whatever page is evicted. */
    method FetchPage(id: nat) returns (page: array<Byte>)
      requires Valid()
      modifies this
      ensures Valid()
      ensures id in pages && pages[id] == page && page.Length == PAGE_SIZE
      ensures page[..] == old(View(id))
      ensures forall j: nat :: View(j) == old(View(j))
      ensures forall i :: i in pages && i != id ==> i in old(pages) && pages[i] == old(pages)[i]
      ensures page in old(pages.Values) || fresh(page)
      ensures dirty <= old(dirty)
      ensures |old(file)| <= |file|
      ensures (forall i :: i in old(dirty) ==> i < |old(file)|) ==> |file| == |old(file)|
      ensures |pages| <= |old(pages)| || |pages| <= capacity || |pages| == 1
    {
      if id in pages {
        return pages[id];
      }
      if |pages| >= capacity {
        EvictPage();
      }
      page := ReadPage(file, id);
      pages := pages[id := page];
    }

    /** Writing into one cached page changes the view of that page only. */
    twostate lemma Written(id: nat)
      requires old(Valid()) && old(id in pages)
      requires unchanged(this) && forall i :: i in pages && i != id ==> unchanged(pages[i])
      ensures ValidBut({id})
      ensures View(id) == pages[id][..]
      ensures forall j: nat :: j != id ==> View(j) == old(View(j))
    {
    }

    /** Called after writing into a fetched page. */
    method MarkDirty(id: nat)
      requires ValidBut({id})
      modifies this`dirty
      ensures Valid() && dirty == old(dirty) + {id}
      ensures forall j: nat :: View(j) == old(View(j))
    {
      dirty := dirty + {id};
    }

    /** writePage of a zero page at the end of the file. */
    method ExtendFile() returns (id: nat)
      requires Valid()
      modifies this`file
      ensures Valid() && id == |old(file)| && |file| == |old(file)| + 1
      ensures forall j: nat :: View(j) == old(View(j))
    {
      id := |file|;
      file := WriteAt(file, id, Blank());
    }

    /** Appends a page to the file and puts it into the cache, past the capacity if need be. */
    method Append(page: array<Byte>)
      requires Valid() && page.Length == PAGE_SIZE && page !in pages.Values
      modifies this`file, this`pages
      ensures Valid() && |file| == |old(file)| + 1 && pages == old(pages)[|old(file)| := page]
      ensures forall j: nat :: View(j) == if j == |old(file)| then page[..] else old(View(j))
    {
      var id := |file|;
      file := WriteAt(file, id, page[..]);
      pages := pages[id := page];
    }
  }

  // ---------------------------------------------------------------------
  // Whole runs
  // ---------------------------------------------------------------------

  datatype Op = Fetch(id: nat) | Modify(id: nat, data: PageBytes) | FlushOne(id: nat) | FlushEverything

  /** The last contents written to page j, or what it held before. */
  function LastWritten(ops: seq<Op>, j: nat, before: PageBytes): (d: PageBytes)
    decreases |ops|
  {
    if ops == [] then before
    else
      var op := ops[|ops| - 1];
      if op.Modify? && op.id == j then op.data else LastWritten(ops[..|ops| - 1], j, before)
  }

  /** Fetching a page, overwriting it through the shared array and marking it dirty. */
  method ModifyPage(pool: Pool, id: nat, data: PageBytes)
    requires pool.Valid()
    modifies pool, pool.pages.Values
    ensures pool.Valid() && fresh(pool.pages.Values - old(pool.pages.Values))
    ensures forall j: nat :: pool.View(j) == if j == id then data else old(pool.View(j))
    ensures |pool.pages| <= |old(pool.pages)| || |pool.pages| <= pool.capacity || |pool.pages| == 1
  {
    var page := pool.FetchPage(id);
    label fetched:
    CopyInto(page, 0, data);
    assert page[..] == data;
    pool.Written@fetched(id);
    pool.MarkDirty(id);
  }

  /** The contents of page j after one more operation. */
  function After(op: Op, j: nat, before: PageBytes): (d: PageBytes) {
    if op.Modify? && op.id == j then op.data else before
  }

  lemma {:induction false} LastStep(ops: seq<Op>, k: nat, j: nat, before: PageBytes)
    requires k < |ops|
    ensures LastWritten(ops[..k + 1], j, before) == After(ops[k], j, LastWritten(ops[..k], j, before))
  {
    assert ops[..k + 1][..k] == ops[..k];
  }

  /** One operation of a run. */
  method Perform(pool: Pool, op: Op)
    requires pool.Valid()
    modifies pool, pool.pages.Values
    ensures pool.Valid() && fresh(pool.pages.Values - old(pool.pages.Values))
    ensures forall j: nat :: pool.View(j) == After(op, j, old(pool.View(j)))
    ensures 1 <= pool.capacity && |old(pool.pages)| <= pool.capacity ==> |pool.pages| <= pool.capacity
  {
    match op
    case Fetch(id) => var _ := pool.FetchPage(id);
    case Modify(id, data) => ModifyPage(pool, id, data);
    case FlushOne(id) => var _ := pool.Flush(id);
    case FlushEverything => var _ := pool.FlushAll();
  }

  /** For every run of fetches, modifications and flushes, with any choice of evicted
      pages: each page reads as the last contents written to it, and a pool that is
      within its capacity of at least one page stays within it. */
  method Drive(pool: Pool, ops: seq<Op>)
    requires pool.Valid()
    modifies pool, pool.pages.Values
    ensures pool.Valid()
    ensures forall j: nat :: pool.View(j) == LastWritten(ops, j, old(pool.View(j)))
    ensures 1 <= pool.capacity && |old(pool.pages)| <= pool.capacity ==> |pool.pages| <= pool.capacity
  {
    hide LastWritten, After;
    Unwritten();
    assert ops[..0] == [];
    for k := 0 to |ops|
      invariant pool.Valid() && fresh(pool.pages.Values - old(pool.pages.Values))
      invariant forall j: nat :: pool.View(j) == LastWritten(ops[..k], j, old(pool.View(j)))
      invariant 1 <= pool.capacity && |old(pool.pages)| <= pool.capacity ==> |pool.pages| <= pool.capacity
    {
      Perform(pool, ops[k]);
      forall j: nat ensures pool.View(j) == LastWritten(ops[..k + 1], j, old(pool.View(j))) {
        LastStep(ops, k, j, old(pool.View(j)));
      }
    }
    assert ops[..|ops|] == ops;
  }

  lemma {:induction false} Unwritten()
    ensures forall j: nat, d: PageBytes :: LastWritten([], j, d) == d
  {
  }
}
