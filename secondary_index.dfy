/**
 * `AbstractSimplePerColumnSecondaryIndex`: an index on one column, kept in
 * a store of its own whose partition keys are indexed values. Each base
 * write turns into writes to the index store; the store is modelled by the
 * sequence of requests it receives.
 */
module SecondaryIndexes {
  import opened Marshal
  import opened Config

  type Bytes = seq<bv8>

  /** Cells: a plain cell, an expiring cell, and a tombstone (`markedForDeleteAt` is its timestamp). */
  datatype Cell =
    | NormalCell(name: Bytes, value: Bytes, timestamp: int)
    | ExpiringCell(name: Bytes, value: Bytes, timestamp: int, timeToLive: int, localDeletionTime: int)
    | DeletedCell(name: Bytes, localDeletionTime: int, timestamp: int)

  /** `LocalToken`: a key ordered by the index key comparator. */
  datatype LocalToken = LocalToken(comparator: AbstractType, value: Bytes)

  /** `BufferDecoratedKey`: a partition key with its token. */
  datatype DecoratedKey = DecoratedKey(token: LocalToken, key: Bytes)

  /** The secondary index updater handed to `apply`; index writes always pass `nullUpdater`. */
  datatype Updater = NullUpdater | IndexingUpdater

  /** A request to the index store. */
  datatype StoreRequest =
    | Apply(key: DecoratedKey, cells: seq<Cell>, updater: Updater)
    | Invalidate
    | DiscardSSTables(truncatedAt: int)

  /**
   * The members a concrete index supplies (`getIndexedValue`,
   * `makeIndexColumnName`), `SecondaryIndexManager.shouldCleanupOldValue`,
   * and `Cell.isLive(now)`, a cell's liveness at a time in milliseconds.
   */
  datatype Hooks = Hooks(
    indexedValue: (Bytes, Cell) -> Bytes,
    indexColumnName: (Bytes, Cell) -> Bytes,
    shouldCleanupOldValue: (Cell, Cell) -> bool,
    isLive: (Cell, int) -> bool)

  const MinInt32 := -0x8000_0000
  const TwoTo32 := 0x1_0000_0000
  const MinInt64 := -0x8000_0000_0000_0000
  const MaxInt64 := 0x7FFF_FFFF_FFFF_FFFF

  /** Java's `long` division, which truncates toward zero. */
  function TruncatingDiv(n: int, d: nat): (q: int)
    requires d > 0
    ensures n >= 0 ==> q == n / d && q * d <= n < q * d + d
    ensures n < 0 ==> q <= 0 && q * d - d < n <= q * d
  {
    if n >= 0 then n / d else -((-n) / d)
  }

  /** Java's narrowing cast from `long` to `int`: the low 32 bits, as a signed value. */
  function ToInt32(n: int): (r: int)
    ensures MinInt32 <= r < -MinInt32
    ensures (r - n) % TwoTo32 == 0
    ensures MinInt32 <= n < -MinInt32 ==> r == n
  {
    (n - MinInt32) % TwoTo32 + MinInt32
  }

  /** `(int) (System.currentTimeMillis() / 1000)`: the local deletion time of a tombstone, in seconds. */
  function LocalDeletionTime(nowMillis: int): (r: int)
    requires MinInt64 <= nowMillis <= MaxInt64
    ensures MinInt32 <= r < -MinInt32
    ensures 0 <= nowMillis < -MinInt32 * 1000 ==> r == nowMillis / 1000 && 0 <= r
  {
    ToInt32(TruncatingDiv(nowMillis, 1000))
  }

  /**
   * `getIndexKeyFor` (:72-75): the indexed value as a partition key of the
   * index store, its token ordered by the indexed column's type.
   */
  function IndexKeyFor(columnDef: ColumnDefinition, value: Bytes): (r: DecoratedKey)
    ensures r.key == value && r.token.value == value
    ensures r.token.comparator == columnDef.columnType
  {
    DecoratedKey(LocalToken(columnDef.columnType, value), value)
  }

  /**
   * The index cell `insert` writes (:118-128): the index column name, an
   * empty value and the source cell's timestamp, and for an expiring source
   * cell its time to live and local deletion time as well.
   */
  function IndexEntry(name: Bytes, cell: Cell): (r: Cell)
    ensures r.name == name && !r.DeletedCell? && r.value == []
    ensures r.timestamp == cell.timestamp
    ensures r.ExpiringCell? <==> cell.ExpiringCell?
    ensures r.ExpiringCell? ==> r.timeToLive == cell.timeToLive && r.localDeletionTime == cell.localDeletionTime
  {
    if cell.ExpiringCell? then ExpiringCell(name, [], cell.timestamp, cell.timeToLive, cell.localDeletionTime)
    else NormalCell(name, [], cell.timestamp)
  }

  /** The one request `insert` (:112-136) sends for `cell` of row `rowKey`: no liveness check. */
  function InsertRequest(hooks: Hooks, columnDef: ColumnDefinition, rowKey: Bytes, cell: Cell): (r: StoreRequest)
    ensures r.Apply? && r.updater == NullUpdater && |r.cells| == 1
    ensures r.key == IndexKeyFor(columnDef, hooks.indexedValue(rowKey, cell))
    ensures r.cells[0] == IndexEntry(hooks.indexColumnName(rowKey, cell), cell)
  {
    Apply(IndexKeyFor(columnDef, hooks.indexedValue(rowKey, cell)),
          [IndexEntry(hooks.indexColumnName(rowKey, cell), cell)], NullUpdater)
  }

  /**
   * The requests `delete` (:98-110) sends: none for a cell that is not live,
   * otherwise one tombstone under the same key and name, deleted at the
   * source cell's timestamp, with the current time in seconds as its local
   * deletion time.
   */
  function DeleteRequests(hooks: Hooks, columnDef: ColumnDefinition, rowKey: Bytes, cell: Cell, nowMillis: int)
    : (r: seq<StoreRequest>)
    requires MinInt64 <= nowMillis <= MaxInt64
    ensures |r| <= 1
    ensures r == [] <==> !hooks.isLive(cell, nowMillis)
    ensures r != [] ==>
              && r[0].Apply? && r[0].updater == NullUpdater
              && r[0].key == InsertRequest(hooks, columnDef, rowKey, cell).key
              && r[0].cells == [DeletedCell(hooks.indexColumnName(rowKey, cell), LocalDeletionTime(nowMillis), cell.timestamp)]
  {
    if !hooks.isLive(cell, nowMillis) then []
    else
      [Apply(IndexKeyFor(columnDef, hooks.indexedValue(rowKey, cell)),
             [DeletedCell(hooks.indexColumnName(rowKey, cell), LocalDeletionTime(nowMillis), cell.timestamp)],
             NullUpdater)]
  }

  /**
   * The requests `update` (:138-145) sends: the insert of the new cell
   * first, then the delete of the old one if it is to be cleaned up.
   */
  function UpdateRequests(hooks: Hooks, columnDef: ColumnDefinition, rowKey: Bytes, oldCell: Cell, cell: Cell,
                          nowMillis: int): (r: seq<StoreRequest>)
    requires MinInt64 <= nowMillis <= MaxInt64
    ensures 1 <= |r| <= 2 && r[0] == InsertRequest(hooks, columnDef, rowKey, cell)
    ensures |r| == 2 <==> hooks.shouldCleanupOldValue(oldCell, cell) && hooks.isLive(oldCell, nowMillis)
    ensures r[1..] == if hooks.shouldCleanupOldValue(oldCell, cell)
                      then DeleteRequests(hooks, columnDef, rowKey, oldCell, nowMillis) else []
  {
    [InsertRequest(hooks, columnDef, rowKey, cell)]
      + if hooks.shouldCleanupOldValue(oldCell, cell) then DeleteRequests(hooks, columnDef, rowKey, oldCell, nowMillis)
        else []
  }

  /** No request writes with an updater that would index again. */
  predicate NoReindexing(requests: seq<StoreRequest>) {
    forall i :: 0 <= i < |requests| ==> requests[i].Apply? ==> requests[i].updater == NullUpdater
  }

  /** Index writes never reindex, so a store fed only by the index stays free of reindexing writes. */
  lemma UpdateKeepsNoReindexing(hooks: Hooks, columnDef: ColumnDefinition, rowKey: Bytes, oldCell: Cell,
                                cell: Cell, nowMillis: int, log: seq<StoreRequest>)
    requires MinInt64 <= nowMillis <= MaxInt64
    requires NoReindexing(log)
    ensures NoReindexing(log + UpdateRequests(hooks, columnDef, rowKey, oldCell, cell, nowMillis))
  {
    var u := UpdateRequests(hooks, columnDef, rowKey, oldCell, cell, nowMillis);
    forall i | 0 <= i < |log + u| && (log + u)[i].Apply? ensures (log + u)[i].updater == NullUpdater {
      if i >= |log| {
        assert (log + u)[i] == u[i - |log|];
        if i - |log| == 1 {
          assert u[1] == u[1..][0];
        }
      }
    }
  }

  /** The index store (`indexCfs`), seen through the requests it has received. */
  class IndexStore {
    var requests: seq<StoreRequest>

    /** A store just created for the index. */
    constructor ()
      ensures requests == []
    {
      requests := [];
    }

    /** `ColumnFamilyStore.apply`. */
    method Apply(key: DecoratedKey, cells: seq<Cell>, updater: Updater)
      modifies this
      ensures requests == old(requests) + [StoreRequest.Apply(key, cells, updater)]
    {
      requests := requests + [StoreRequest.Apply(key, cells, updater)];
    }

    /** `ColumnFamilyStore.invalidate`. */
    method Invalidate()
      modifies this
      ensures requests == old(requests) + [StoreRequest.Invalidate]
    {
      requests := requests + [StoreRequest.Invalidate];
    }

    /** `ColumnFamilyStore.discardSSTables`. */
    method DiscardSSTables(truncatedAt: int)
      modifies this
      ensures requests == old(requests) + [StoreRequest.DiscardSSTables(truncatedAt)]
    {
      requests := requests + [StoreRequest.DiscardSSTables(truncatedAt)];
    }
  }

  /** An initialised per-column index: its one column and its store. */
  class SimplePerColumnIndex {
    const columnDef: ColumnDefinition
    const indexCfs: IndexStore
    const hooks: Hooks

    /** The store has only been written by this index, which never asks for reindexing. */
    ghost predicate Valid()
      reads this, indexCfs
    {
      NoReindexing(indexCfs.requests)
    }

    /**
     * `init` (:49-64): exactly one indexed column, which the index keeps;
     * the index store is created empty.
     */
    constructor Init(columnDefs: set<ColumnDefinition>, hooks: Hooks)
      requires |columnDefs| == 1
      ensures columnDefs == {columnDef} && this.hooks == hooks
      ensures fresh(indexCfs) && indexCfs.requests == []
      ensures Valid()
    {
      var d :| d in columnDefs;
      assert columnDefs == {d} by {
        assert |columnDefs - {d}| == 0;
      }
      columnDef := d;
      this.hooks := hooks;
      indexCfs := new IndexStore();
    }

    /** `getIndexKeyComparator` (:66-69): the indexed column's type. */
    function IndexKeyComparator(): (r: AbstractType)
      ensures r == columnDef.columnType
    {
      columnDef.columnType
    }

    /** `getIndexKeyFor` (:72-75). */
    function GetIndexKeyFor(value: Bytes): (r: DecoratedKey)
      ensures r == IndexKeyFor(columnDef, value)
      ensures r.token.comparator == IndexKeyComparator()
    {
      DecoratedKey(LocalToken(IndexKeyComparator(), value), value)
    }

    /** `delete` (:98-110); `nowMillis` is `System.currentTimeMillis()`. */
    method Delete(rowKey: Bytes, cell: Cell, nowMillis: int)
      requires MinInt64 <= nowMillis <= MaxInt64
      requires Valid()
      modifies indexCfs
      ensures Valid()
      ensures indexCfs.requests == old(indexCfs.requests) + DeleteRequests(hooks, columnDef, rowKey, cell, nowMillis)
    {
      if !hooks.isLive(cell, nowMillis) {
        return;
      }
      var valueKey := GetIndexKeyFor(hooks.indexedValue(rowKey, cell));
      var localDeletionTime := ToInt32(TruncatingDiv(nowMillis, 1000));
      var cfi := [DeletedCell(hooks.indexColumnName(rowKey, cell), localDeletionTime, cell.timestamp)];
      indexCfs.Apply(valueKey, cfi, NullUpdater);
    }

    /** `insert` (:112-136). */
    method Insert(rowKey: Bytes, cell: Cell)
      requires Valid()
      modifies indexCfs
      ensures Valid()
      ensures indexCfs.requests == old(indexCfs.requests) + [InsertRequest(hooks, columnDef, rowKey, cell)]
    {
      var valueKey := GetIndexKeyFor(hooks.indexedValue(rowKey, cell));
      var name := hooks.indexColumnName(rowKey, cell);
      var cfi: seq<Cell>;
      if cell.ExpiringCell? {
        cfi := [ExpiringCell(name, [], cell.timestamp, cell.timeToLive, cell.localDeletionTime)];
      } else {
        cfi := [NormalCell(name, [], cell.timestamp)];
      }
      indexCfs.Apply(valueKey, cfi, NullUpdater);
    }

    /** `update` (:138-145): insert the new value, then clean up the old one if called for. */
    method Update(rowKey: Bytes, oldCol: Cell, col: Cell, nowMillis: int)
      requires MinInt64 <= nowMillis <= MaxInt64
      requires Valid()
      modifies indexCfs
      ensures Valid()
      ensures indexCfs.requests == old(indexCfs.requests) + UpdateRequests(hooks, columnDef, rowKey, oldCol, col, nowMillis)
    {
      Insert(rowKey, col);
      if hooks.shouldCleanupOldValue(oldCol, col) {
        Delete(rowKey, oldCol, nowMillis);
      }
    }

    /** `removeIndex` (:147-150): invalidates the store. */
    method RemoveIndex(columnName: Bytes)
      requires Valid()
      modifies indexCfs
      ensures Valid()
      ensures indexCfs.requests == old(indexCfs.requests) + [Invalidate]
    {
      indexCfs.Invalidate();
    }

    /** `invalidate` (:163-166). */
    method InvalidateIndex()
      requires Valid()
      modifies indexCfs
      ensures Valid()
      ensures indexCfs.requests == old(indexCfs.requests) + [Invalidate]
    {
      indexCfs.Invalidate();
    }

    /** `truncateBlocking` (:168-171): discards the store's data written up to `truncatedAt`. */
    method TruncateBlocking(truncatedAt: int)
      requires Valid()
      modifies indexCfs
      ensures Valid()
      ensures indexCfs.requests == old(indexCfs.requests) + [DiscardSSTables(truncatedAt)]
    {
      indexCfs.DiscardSSTables(truncatedAt);
    }
  }
}
