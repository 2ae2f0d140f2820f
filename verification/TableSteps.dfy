/**
 The operations on the chunks of a table, each as a step of the transition
 system: a table that holds the rows of a state holds those of the next state.
 */
module TableSteps {
  import opened VersionChain
  import opened StorageChunk
  import opened TableScan
  import opened Mvcc
  import opened MvccInvariant
  import MvccTheorems
  import opened Snapshots

  // ---------------------------------------------------------------- chunks apart

  ghost function Parts(c: Chunk): set<object>
    reads c`repr
  {
    {c, c.deleted, c.versionPointers, c.columns} + set n | n in c.repr :: n as object
  }

  /** No two chunks share anything. */
  ghost predicate Separate(table: DataTable)
    reads table, table.chunks
  {
    && (forall i, j :: 0 <= i < j < |table.chunks| ==> Parts(table.chunks[i]) !! Parts(table.chunks[j]))
    && (forall i :: 0 <= i < |table.chunks| ==> table !in Parts(table.chunks[i]))
  }

  /** The cells of rows that the table does not have are untouched. */
  ghost predicate Beyond(n: nat, cell: nat -> Cell, s: State) {
    forall r :: n <= r ==> ChainAt(s, cell(r)) == Chain([], None)
  }

  /** A valid table whose chunks lie apart holds the rows of a state, each in a cell of its own. */
  ghost predicate Holds(table: DataTable, cell: nat -> Cell, s: State)
    reads table, table.chunks, table.repr
  {
    && table.Valid() && Separate(table)
    && (forall r, q :: r != q ==> cell(r) != cell(q))
    && (forall i :: 0 <= i < |table.chunks| ==> ChunkHolds(table.chunks[i], cell, s))
    && Beyond(table.End(|table.chunks|), cell, s)
  }

  ghost predicate ChunkHolds(c: Chunk, cell: nat -> Cell, s: State)
    requires c.Valid()
    reads c, c.deleted, c.versionPointers, c.columns, c.repr
  {
    forall r :: 0 <= r < c.count ==> ChainAt(s, cell(c.start + r)) == c.RowChain(r)
  }

  /** What scans and index tests need. */
  lemma HoldsIs(table: DataTable, cell: nat -> Cell, s: State)
    requires Holds(table, cell, s)
    ensures HoldsRows(table, cell, s)
  {
    var n := |table.chunks|;
    forall q: nat | q < table.End(n) ensures ChainAt(s, cell(q)) == table.ChainOfRow(q) {
      var i := table.Locate(n, q);
      assert ChunkHolds(table.chunks[i], cell, s);
    }
  }

  /** The state after a step that changes one cell. */
  ghost predicate Changes(s: State, s': State, c: Cell, chain: Chain) {
    ChainAt(s', c) == chain && forall d :: d != c ==> ChainAt(s', d) == ChainAt(s, d)
  }

  /** The cell whose chain a step changes. */
  predicate Concerns(s: State, step: Step, c: Cell)
    requires Enabled(s, step)
  {
    match step
    case DoWrite(i, w) => c == w.cell
    case CommitOne => c == s.phase.txn.log[s.phase.txn.stamped].cell
    case UndoOne => c == s.active[s.phase.index].log[|s.active[s.phase.index].log| - 1].cell
    case CleanupOne => c == s.recent[0].log[s.recent[0].cleaned].cell
    case _ => false
  }

  lemma OthersUntouched(s: State, step: Step, c: Cell)
    requires Enabled(s, step) && !Concerns(s, step, c)
    ensures ChainAt(Next(s, step), c) == ChainAt(s, c)
  {
    hide Stamp, Undo, Unlink, Push;
  }

  /** The steps that concern no row leave the table with the rows of the next state. */
  lemma ElsewhereKeeps(table: DataTable, cell: nat -> Cell, s: State, step: Step)
    requires Holds(table, cell, s) && Enabled(s, step)
    requires forall r :: !Concerns(s, step, cell(r))
    ensures Holds(table, cell, Next(s, step))
  {
    hide Chunk.Valid, Chunk.RowChain, DataTable.Valid, Separate;
    forall r: nat ensures ChainAt(Next(s, step), cell(r)) == ChainAt(s, cell(r)) {
      OthersUntouched(s, step, cell(r));
    }
    forall i | 0 <= i < |table.chunks| ensures table.chunks[i].Valid() && ChunkHolds(table.chunks[i], cell, Next(s, step)) {
      Opened(table, i, cell, s);
    }
  }

  /** All rows of the chunk but one are in their cells. */
  ghost predicate OthersHold(c: Chunk, row: nat, cell: nat -> Cell, s: State)
    requires c.Valid()
    reads c, c.deleted, c.versionPointers, c.columns, c.repr
  {
    forall r :: 0 <= r < c.count && r != row ==> ChainAt(s, cell(c.start + r)) == c.RowChain(r)
  }

  /** Row identifiers of different chunks differ. */
  lemma RowsApart(table: DataTable, i: nat, k: nat, r: nat, q: nat)
    requires table.Valid() && i < |table.chunks| && k < |table.chunks| && i != k
    requires r < table.chunks[i].count && q < table.chunks[k].count
    ensures table.chunks[i].start + r != table.chunks[k].start + q
  {
    hide DataTable.Owned, Chunk.Valid;
    var n := |table.chunks|;
    table.EndsGrow(i + 1, n);
    table.EndsGrow(k + 1, n);
    if table.chunks[i].start + r == table.chunks[k].start + q {
      table.LocateIs(n, table.chunks[i].start + r, i);
      table.LocateIs(n, table.chunks[k].start + q, k);
    }
  }

  lemma RowBelow(table: DataTable, k: nat, r: nat)
    requires table.Valid() && k < |table.chunks| && r < table.chunks[k].count
    ensures table.chunks[k].start + r < table.End(|table.chunks|)
  {
    hide DataTable.Owned, Chunk.Valid;
    table.EndsGrow(k + 1, |table.chunks|);
  }

  /** One row has got the chain that its cell has in the next state, and all others are as they were. */
  lemma RowChanged(table: DataTable, k: nat, row: nat, cell: nat -> Cell, s: State, s': State)
    requires table.Valid() && Separate(table) && k < |table.chunks| && row < table.chunks[k].count
    requires forall r, q :: r != q ==> cell(r) != cell(q)
    requires forall i :: 0 <= i < |table.chunks| && i != k ==> ChunkHolds(table.chunks[i], cell, s)
    requires OthersHold(table.chunks[k], row, cell, s)
    requires Beyond(table.End(|table.chunks|), cell, s)
    requires row < STORAGE_CHUNK_SIZE && Changes(s, s', cell(table.chunks[k].start + row), table.chunks[k].RowChain(row))
    ensures Holds(table, cell, s')
  {
    hide DataTable.Consecutive, Chunk.Valid, Chunk.RowChain, Separate, DataTable.End;
    RowBelow(table, k, row);
    forall i, r | 0 <= i < |table.chunks| && 0 <= r < table.chunks[i].count
      ensures r < STORAGE_CHUNK_SIZE && ChainAt(s', cell(table.chunks[i].start + r)) == table.chunks[i].RowChain(r)
    {
      Bounded(table.chunks[i]);
      if i != k {
        assert ChunkHolds(table.chunks[i], cell, s);
        RowsApart(table, i, k, r, row);
      }
    }
  }

  /** The chunks keep their places and their nodes. */
  twostate lemma Still(table: DataTable)
    requires old(table.Valid() && Separate(table)) && table.chunks == old(table.chunks) && table.repr == old(table.repr)
    requires forall i :: 0 <= i < |table.chunks| ==>
               && table.chunks[i].Valid() && table.chunks[i].count == old(table.chunks[i].count)
               && table.chunks[i].repr == old(table.chunks[i].repr)
    ensures table.Valid() && Separate(table) && table.End(|table.chunks|) == old(table.End(|table.chunks|))
  {
    hide Chunk.Valid;
  }

  lemma Bounded(c: Chunk)
    requires c.Valid()
    ensures c.count <= STORAGE_CHUNK_SIZE == |c.lists|
  {
  }

  lemma NodeOwned(c: Chunk, r: nat, at: nat)
    requires c.Valid() && r < |c.lists| && at < |c.lists[r]|
    ensures c.lists[r][at] in c.repr
  {
    assert c.lists[r][at] in c.lists[r];
  }

  /** What a chunk and the chunks beside it are before an operation. */
  lemma Opened(table: DataTable, k: nat, cell: nat -> Cell, s: State)
    requires Holds(table, cell, s) && k < |table.chunks|
    ensures table.chunks[k].Valid() && ChunkHolds(table.chunks[k], cell, s)
    ensures table.chunks[k].count <= STORAGE_CHUNK_SIZE == |table.chunks[k].lists|
    ensures Parts(table.chunks[k]) <= table.repr && table !in Parts(table.chunks[k])
    ensures Beyond(table.End(|table.chunks|), cell, s)
    ensures forall i :: 0 <= i < |table.chunks| && i != k ==>
              table.chunks[i].Valid() && ChunkHolds(table.chunks[i], cell, s) && Parts(table.chunks[i]) !! Parts(table.chunks[k])
  {
    hide DataTable.Consecutive;
  }

  /** A new table holds the rows of the initial state. */
  method NewTable(ghost cell: nat -> Cell) returns (table: DataTable)
    requires forall r, q :: r != q ==> cell(r) != cell(q)
    ensures Holds(table, cell, Init) && table.chunks != [] && fresh(table) && fresh(table.repr)
  {
    hide Chunk.Valid;
    table := new DataTable();
  }

  // ---------------------------------------------------------------- commit

  /** Commit of one undo entry. */
  method CommitRow(table: DataTable, k: nat, info: VersionInformation, commitId: nat, ghost at: nat,
                   ghost cell: nat -> Cell, ghost s: State)
    requires Holds(table, cell, s) && k < |table.chunks|
    requires info.row < table.chunks[k].count && at < |table.chunks[k].lists[info.row]| && info == table.chunks[k].lists[info.row][at]
    requires Enabled(s, CommitOne) && commitId == s.phase.txn.cid && info.owner == s.phase.txn.id && info.entry == s.phase.txn.stamped
    requires s.phase.txn.log[info.entry].cell == cell(table.chunks[k].start + info.row)
    modifies info`versionNumber
    ensures Holds(table, cell, OneCommitted(s))
  {
    hide Chunk.Valid, Chunk.RowChain, Stamp, DataTable.Consecutive, DataTable.Valid, Separate, DataTable.End, Beyond;
    Opened(table, k, cell, s);
    var c := table.chunks[k];
    NodeOwned(c, info.row, at);
    assert info in Parts(c);
    c.StampEntry(info, commitId, at);
    Still(table);
    assert OthersHold(c, info.row, cell, s);
    RowChanged(table, k, info.row, cell, s, OneCommitted(s));
  }

  // ---------------------------------------------------------------- rollback and collection

  /** The node of an undo entry, by its position in the list and in the chain. */
  lemma NodeIs(c: Chunk, r: nat, at: nat)
    requires c.Valid() && r < STORAGE_CHUNK_SIZE == |c.lists| && at < |c.lists[r]|
    ensures |c.RowChain(r).nodes| == |c.lists[r]|
    ensures IsEntry(c.RowChain(r).nodes[at], c.lists[r][at].owner, c.lists[r][at].entry)
  {
    PreImagesAre(c.lists[r]);
    NodeValue(PreImages(c.lists[r]), c.BaseRow(r), at);
  }

  /** The entry that is undone next is at the head of its list. */
  lemma UndoneIsHead(c: Chunk, r: nat, at: nat, cell: Cell, s: State)
    requires c.Valid() && r < STORAGE_CHUNK_SIZE == |c.lists| && at < |c.lists[r]| && ChainAt(s, cell) == c.RowChain(r)
    requires Enabled(s, UndoOne)
    requires var log := s.active[s.phase.index].log;
             log[|log| - 1].cell == cell && c.lists[r][at].owner == s.active[s.phase.index].id && c.lists[r][at].entry == |log| - 1
    requires Inv(s)
    ensures at == 0
  {
    MvccTheorems.UndoneIsNewest(s);
    hide Inv, Chunk.Valid;
    NodeIs(c, r, 0);
    c.Position(r, at);
  }

  /** Rollback of one undo entry. */
  method UndoRow(table: DataTable, k: nat, info: VersionInformation, ghost at: nat, ghost cell: nat -> Cell, ghost s: State)
    requires Holds(table, cell, s) && k < |table.chunks|
    requires info.row < table.chunks[k].count && at < |table.chunks[k].lists[info.row]| && info == table.chunks[k].lists[info.row][at]
    requires Enabled(s, UndoOne)
    requires var t := s.active[s.phase.index];
             && info.owner == t.id && info.entry == |t.log| - 1
             && t.log[info.entry].cell == cell(table.chunks[k].start + info.row)
    requires Inv(s)
    modifies table.repr
    ensures Holds(table, cell, OneUndone(s))
  {
    hide Chunk.Valid, Chunk.RowChain, Undo, DataTable.Consecutive, DataTable.Valid, Separate, DataTable.End, Beyond, Inv;
    Opened(table, k, cell, s);
    var c := table.chunks[k];
    UndoneIsHead(c, info.row, at, cell(c.start + info.row), s);
    assert forall n :: n in c.repr ==> n in Parts(c);
    c.Undo(info);
    Still(table);
    assert OthersHold(c, info.row, cell, s);
    RowChanged(table, k, info.row, cell, s, OneUndone(s));
  }

  /** Collection of one undo entry. */
  method CollectRow(table: DataTable, k: nat, info: VersionInformation, ghost at: nat, ghost cell: nat -> Cell, ghost s: State)
    requires Holds(table, cell, s) && k < |table.chunks|
    requires info.row < table.chunks[k].count && at < |table.chunks[k].lists[info.row]| && info == table.chunks[k].lists[info.row][at]
    requires Enabled(s, CleanupOne) && info.owner == s.recent[0].id && info.entry == s.recent[0].cleaned
    requires s.recent[0].log[info.entry].cell == cell(table.chunks[k].start + info.row)
    modifies table.repr
    ensures Holds(table, cell, OneCleaned(s))
  {
    hide Chunk.Valid, Chunk.RowChain, Unlink, DataTable.Consecutive, DataTable.Valid, Separate, DataTable.End, Beyond;
    Opened(table, k, cell, s);
    var c := table.chunks[k];
    assert forall n :: n in c.repr ==> n in Parts(c);
    c.Collect(info, at);
    Still(table);
    assert OthersHold(c, info.row, cell, s);
    RowChanged(table, k, info.row, cell, s, OneCleaned(s));
  }

  // ---------------------------------------------------------------- writes

  lemma {:induction false} NodeFrom(ts: seq<Txn>, c: Cell, k: nat) returns (i: nat)
    requires k < |NodesOf(ts, c)|
    ensures i < |ts| && ts[i].id == NodesOf(ts, c)[k].owner && NodesOf(ts, c)[k].entry < |ts[i].log|
  {
    var t := ts[|ts| - 1];
    LogNodesAre(t, t.cleaned, |t.log|, c);
    if k < |TxnNodes(t, c)| {
      i := |ts| - 1;
    } else {
      i := NodeFrom(ts[..|ts| - 1], c, k - |TxnNodes(t, c)|);
    }
  }

  /** The entries of a running transaction in a chain are those of its log so far. */
  lemma OwnEntry(s: State, i: nat, c: Cell, k: nat)
    requires NumbersOk(s) && i < |s.active| && k < |Nodes(s, c)| && Nodes(s, c)[k].owner == s.active[i].id
    ensures Nodes(s, c)[k].entry < |s.active[i].log|
  {
    hide NodesOf, CollectedOk;
    var a, p := NodesOf(s.active, c), PendingNodes(s, c);
    if k < |a| {
      var j := NodeFrom(s.active, c, k);
    } else if k < |a + p| {
      LogNodesAre(s.phase.txn, s.phase.txn.cleaned, |s.phase.txn.log|, c);
    } else {
      assert Nodes(s, c)[k] == NodesOf(s.recent, c)[k - |a + p|];
      var j := NodeFrom(s.recent, c, k - |a + p|);
    }
  }

  /** So the next entry of its undo buffer is not in the list of the row yet. */
  lemma NextUnused(c: Chunk, r: nat, cell: Cell, s: State, i: nat)
    requires c.Valid() && r < STORAGE_CHUNK_SIZE == |c.lists| && ChainAt(s, cell) == c.RowChain(r)
    requires Inv(s) && i < |s.active|
    ensures c.Unused(r, s.active[i].id, |s.active[i].log|)
  {
    assert CellOk(s, cell) && NumbersOk(s);
    hide Inv, Chunk.Valid, NumbersOk, Nodes, Chunk.RowChain;
    forall n | n in c.lists[r] && n.owner == s.active[i].id ensures n.entry < |s.active[i].log| {
      var at :| 0 <= at < |c.lists[r]| && c.lists[r][at] == n;
      NodeIs(c, r, at);
      OwnEntry(s, i, cell, at);
    }
  }

  /** The parts lie apart from each other and from the table, within `owned`. */
  ghost predicate Apart(table: object, parts: seq<set<object>>, owned: set<object>) {
    && (forall i :: 0 <= i < |parts| ==> parts[i] <= owned && table !in parts[i])
    && (forall i, j :: 0 <= i < j < |parts| ==> parts[i] !! parts[j])
  }

  ghost predicate AreParts(parts: seq<set<object>>, chunks: seq<Chunk>, k: nat)
    reads chunks
  {
    |parts| == |chunks| && forall i :: 0 <= i < |chunks| && i != k ==> parts[i] == Parts(chunks[i])
  }

  lemma PartsApart(table: DataTable, k: nat) returns (parts: seq<set<object>>)
    requires table.Valid() && Separate(table) && k < |table.chunks|
    ensures AreParts(parts, table.chunks, k) && parts[k] == Parts(table.chunks[k]) && Apart(table, parts, table.repr)
    ensures table.Consecutive()
  {
    hide Chunk.Valid, DataTable.Consecutive;
    var chunks := table.chunks;
    parts := seq(|chunks|, i requires 0 <= i < |chunks| reads chunks => Parts(chunks[i]));
  }

  lemma NewParts(c: Chunk, before: set<VersionInformation>, part: set<object>)
    requires {c, c.deleted, c.versionPointers, c.columns} + (set n | n in before :: n as object) <= part
    ensures Parts(c) <= part + set n | n in c.repr - before :: n as object
  {
    forall n | n in c.repr ensures n in part + set n | n in c.repr - before :: n as object {
      assert n in before || n in c.repr - before;
      assert n in before ==> n in part;
    }
  }

  /** One chunk has got new parts. */
  lemma ApartGrown(table: object, parts: seq<set<object>>, k: nat, more: set<object>, owned: set<object>)
    requires Apart(table, parts, owned) && k < |parts| && more !! owned && table !in more
    ensures forall part :: part <= parts[k] + more ==> Apart(table, parts[k := part], owned + more)
  {
  }

  lemma NotDeleted(c: Chunk, r: nat)
    requires c.Valid() && r < c.count && Base(c.RowChain(r)).Some?
    ensures r < c.deleted.Length && r < c.columns.Length && !c.deleted[r] && Base(c.RowChain(r)) == Some(c.columns[r])
  {
    PreImagesAre(c.lists[r]);
    if c.lists[r] != [] {
      NodeValue(PreImages(c.lists[r]), c.BaseRow(r), 0);
    }
  }

  /** The table holds its rows, except for one. */
  ghost predicate HoldsBut(table: DataTable, k: nat, row: nat, cell: nat -> Cell, s: State)
    reads table, table.chunks, table.repr
  {
    && table.Valid() && Separate(table) && k < |table.chunks|
    && (forall r, q :: r != q ==> cell(r) != cell(q))
    && (forall i :: 0 <= i < |table.chunks| && i != k ==> ChunkHolds(table.chunks[i], cell, s))
    && OthersHold(table.chunks[k], row, cell, s) && Beyond(table.End(|table.chunks|), cell, s)
  }

  /** Updates or deletes a row of a chunk that is not deleted. */
  method WriteChunk(c: Chunk, r: nat, value: Option<Payload>, txn: nat, entry: nat,
                    ghost cell: nat -> Cell, ghost s: State) returns (ok: bool)
    requires c.Valid() && r < c.count && Base(c.RowChain(r)).Some? && c.Unused(r, txn, entry) && ChunkHolds(c, cell, s)
    modifies c`lists, c`repr, c.versionPointers, c.columns, c.deleted, c.repr
    ensures c.Valid() && fresh(c.repr - old(c.repr)) && c.count == old(c.count) && OthersHold(c, r, cell, s)
    ensures ok <==> !Conflict(old(c.RowChain(r)), txn)
    ensures c.RowChain(r) == if ok then Push(old(c.RowChain(r)), Version(txn, txn, entry, value)) else old(c.RowChain(r))
  {
    hide Chunk.Valid, Chunk.RowChain, WriteRow, Base, Conflict, Push;
    Bounded(c);
    if c.lists[r] != [] {
      NodeOwned(c, r, 0);
    }
    NotDeleted(c, r);
    WriteIsStep(c.RowChain(r), c.columns[r], Version(txn, txn, entry, value));
    if value.Some? {
      ok := c.UpdateRow(r, value.value, txn, entry);
    } else {
      ok := c.DeleteRow(r, txn, entry);
    }
  }

  /** Updates or deletes a row of a table that is not deleted, before the table takes in the new node. */
  method WriteBeside(table: DataTable, k: nat, r: nat, value: Option<Payload>, txn: nat, entry: nat,
                     ghost cell: nat -> Cell, ghost s: State) returns (ok: bool)
    requires Holds(table, cell, s) && k < |table.chunks| && r < table.chunks[k].count
    requires Base(table.chunks[k].RowChain(r)).Some? && table.chunks[k].Unused(r, txn, entry)
    modifies table.repr - {table}
    ensures fresh(table.chunks[k].repr - old(table.chunks[k].repr))
    ensures table.chunks[k].count == old(table.chunks[k].count)
    ensures forall i :: 0 <= i < |table.chunks| ==> table.chunks[i].Valid()
    ensures forall i :: 0 <= i < |table.chunks| && i != k ==>
              && ChunkHolds(table.chunks[i], cell, s)
              && table.chunks[i].count == old(table.chunks[i].count) && table.chunks[i].repr == old(table.chunks[i].repr)
    ensures OthersHold(table.chunks[k], r, cell, s)
    ensures ok <==> !Conflict(old(table.chunks[k].RowChain(r)), txn)
    ensures table.chunks[k].RowChain(r)
            == if ok then Push(old(table.chunks[k].RowChain(r)), Version(txn, txn, entry, value)) else old(table.chunks[k].RowChain(r))
  {
    hide Chunk.Valid, Chunk.RowChain, DataTable.Valid, Separate, Base, Conflict, Push, ChunkHolds, OthersHold, Beyond, DataTable.End;
    Opened(table, k, cell, s);
    var c := table.chunks[k];
    assert forall n :: n in c.repr ==> n in Parts(c);
    ok := WriteChunk(c, r, value, txn, entry, cell, s);
  }

  /** Updates or deletes a row of a table that is not deleted. */
  method WriteIn(table: DataTable, k: nat, r: nat, value: Option<Payload>, txn: nat, entry: nat,
                 ghost cell: nat -> Cell, ghost s: State) returns (ok: bool)
    requires Holds(table, cell, s) && k < |table.chunks| && r < table.chunks[k].count
    requires Base(table.chunks[k].RowChain(r)).Some? && table.chunks[k].Unused(r, txn, entry)
    modifies table`repr, table.repr
    ensures table.chunks == old(table.chunks) && HoldsBut(table, k, r, cell, s)
    ensures r < table.chunks[k].count <= STORAGE_CHUNK_SIZE && table.chunks[k].count == old(table.chunks[k].count)
    ensures ok <==> !Conflict(old(table.chunks[k].RowChain(r)), txn)
    ensures table.chunks[k].RowChain(r)
            == if ok then Push(old(table.chunks[k].RowChain(r)), Version(txn, txn, entry, value)) else old(table.chunks[k].RowChain(r))
  {
    hide Chunk.Valid, Chunk.RowChain, DataTable.Valid, Separate, Base, Conflict, Push, ChunkHolds, OthersHold, HoldsBut, Beyond, Apart;
    Opened(table, k, cell, s);
    ghost var parts := PartsApart(table, k);
    var c := table.chunks[k];
    ghost var before := c.repr;
    ok := WriteBeside(table, k, r, value, txn, entry, cell, s);
    NewParts(c, before, parts[k]);
    Bounded(c);
    Adopt(table, k, parts, set n | n in c.repr - before :: n as object, r, cell, s);
  }

  /** The table takes in the new parts of a chunk. */
  ghost method Adopt(table: DataTable, k: nat, parts: seq<set<object>>, more: set<object>, row: nat, cell: nat -> Cell, s: State)
    requires k < |table.chunks| && table.Consecutive()
    requires forall r, q :: r != q ==> cell(r) != cell(q)
    requires forall i :: 0 <= i < |table.chunks| ==> table.chunks[i].Valid()
    requires forall i :: 0 <= i < |table.chunks| && i != k ==> ChunkHolds(table.chunks[i], cell, s)
    requires OthersHold(table.chunks[k], row, cell, s) && Beyond(table.End(|table.chunks|), cell, s)
    requires Apart(table, parts, table.repr) && more !! table.repr && table !in more
    requires AreParts(parts, table.chunks, k)
    requires Parts(table.chunks[k]) <= parts[k] + more
    modifies table`repr
    ensures HoldsBut(table, k, row, cell, s)
  {
    hide Beyond, Chunk.Valid, ChunkHolds, OthersHold, HoldsBut, Apart;
    ApartGrown(table, parts, k, more, table.repr);
    table.repr := table.repr + more;
    Adopted(table, k, parts[k := Parts(table.chunks[k])], row, cell, s);
  }

  lemma Adopted(table: DataTable, k: nat, parts: seq<set<object>>, row: nat, cell: nat -> Cell, s: State)
    requires k < |table.chunks| && table.Consecutive()
    requires forall r, q :: r != q ==> cell(r) != cell(q)
    requires forall i :: 0 <= i < |table.chunks| ==> table.chunks[i].Valid()
    requires forall i :: 0 <= i < |table.chunks| && i != k ==> ChunkHolds(table.chunks[i], cell, s)
    requires OthersHold(table.chunks[k], row, cell, s) && Beyond(table.End(|table.chunks|), cell, s)
    requires AreParts(parts, table.chunks, k) && parts[k] == Parts(table.chunks[k]) && Apart(table, parts, table.repr)
    ensures HoldsBut(table, k, row, cell, s)
  {
    hide Chunk.Valid, ChunkHolds, OthersHold, Beyond, DataTable.Consecutive;
    assert table.Owned() && Separate(table) by {
      forall i | 0 <= i < |table.chunks| ensures Parts(table.chunks[i]) == parts[i] {
      }
    }
  }

  lemma Member(table: DataTable, k: nat)
    requires table.Valid() && k < |table.chunks|
    ensures table.chunks[k].Valid()
  {
  }

  /** The write that transaction `i` makes to a row: an update, or a deletion if there is no value. */
  ghost function RowWrite(c: Cell, value: Option<Payload>): Write {
    Write(if value.Some? then UpdateTuple else DeleteTuple, c, value)
  }

  /** Updates or deletes a row that is not deleted in the base table: the write step, or nothing on a conflict. */
  method UpdateOrDelete(table: DataTable, k: nat, r: nat, value: Option<Payload>, txn: nat, entry: nat,
                        ghost cell: nat -> Cell, ghost s: State, ghost i: nat) returns (ok: bool)
    requires Holds(table, cell, s) && k < |table.chunks| && r < table.chunks[k].count && Inv(s)
    requires i < |s.active| && s.active[i].id == txn && |s.active[i].log| == entry && s.phase != RollingBack(i)
    requires Base(ChainAt(s, cell(table.chunks[k].start + r))).Some?
    modifies table`repr, table.repr
    ensures ok <==> CanWrite(s, i, RowWrite(cell(old(table.chunks)[k].start + r), value))
    ensures Holds(table, cell, if ok then Written(s, i, RowWrite(cell(old(table.chunks)[k].start + r), value)) else s)
  {
    hide Chunk.Valid, Chunk.RowChain, DataTable.Valid, Separate, Inv, Base, Conflict, Push;
    Opened(table, k, cell, s);
    ghost var c := table.chunks[k];
    ghost var at := cell(c.start + r);
    NextUnused(c, r, at, s, i);
    ok := WriteIn(table, k, r, value, txn, entry, cell, s);
    ghost var s' := if ok then Written(s, i, RowWrite(at, value)) else s;
    Member(table, k);
    assert Changes(s, s', at, c.RowChain(r));
    RowChanged(table, k, r, cell, s, s');
  }

  // ---------------------------------------------------------------- appends

  lemma NoVersions(c: Chunk, r: nat)
    requires c.Valid() && c.count <= r < STORAGE_CHUNK_SIZE
    ensures c.RowChain(r) == Chain([], None)
  {
  }

  /** A new chunk behind the last one. */
  method NewTail(table: DataTable, ghost cell: nat -> Cell, ghost s: State)
    requires Holds(table, cell, s) && table.chunks != []
    modifies table
    ensures Holds(table, cell, s) && fresh(table.repr - old(table.repr))
    ensures table.chunks != [] && table.chunks[|table.chunks| - 1].count == 0
    ensures table.End(|table.chunks|) == old(table.End(|table.chunks|))
  {
    hide Chunk.Valid, ChunkHolds, Beyond, DataTable.Valid, Separate, Apart, Holds;
    ghost var k := |table.chunks| - 1;
    OpenedAll(table, cell, s);
    ghost var parts := PartsApart(table, k);
    var last := table.chunks[|table.chunks| - 1];
    var c := EmptyChunk(last.start + last.count, cell, s);
    table.chunks := table.chunks + [c];
    table.repr := table.repr + Parts(c);
    TailAdded(table, parts, old(table.repr), c, cell, s);
  }

  lemma OpenedAll(table: DataTable, cell: nat -> Cell, s: State)
    requires Holds(table, cell, s)
    ensures table.Valid() && Separate(table) && Beyond(table.End(|table.chunks|), cell, s)
    ensures forall r, q :: r != q ==> cell(r) != cell(q)
    ensures forall i :: 0 <= i < |table.chunks| ==> table.chunks[i].Valid() && ChunkHolds(table.chunks[i], cell, s)
  {
    hide ChunkHolds;
  }

  method EmptyChunk(start: nat, ghost cell: nat -> Cell, ghost s: State) returns (c: Chunk)
    ensures c.Valid() && c.start == start && c.count == 0 && fresh(Parts(c)) && ChunkHolds(c, cell, s)
  {
    c := new Chunk(start);
  }

  lemma TailAdded(table: DataTable, parts: seq<set<object>>, owned: set<object>, c: Chunk, cell: nat -> Cell, s: State)
    requires |table.chunks| == |parts| + 1 && table.chunks[|parts|] == c && table.Consecutive()
    requires forall i :: 0 <= i < |parts| ==> parts[i] == Parts(table.chunks[i])
    requires Apart(table, parts, owned) && Parts(c) !! owned && table !in Parts(c) && table.repr == owned + Parts(c)
    requires forall r, q :: r != q ==> cell(r) != cell(q)
    requires forall i :: 0 <= i < |table.chunks| ==> table.chunks[i].Valid() && ChunkHolds(table.chunks[i], cell, s)
    requires Beyond(table.End(|table.chunks|), cell, s)
    ensures Holds(table, cell, s)
  {
    hide Chunk.Valid, ChunkHolds, Beyond, DataTable.Consecutive, DataTable.End;
    assert Parts(c) == Parts(table.chunks[|parts|]);
  }

  /** Appends a row to the last chunk, before the table takes in the new node. */
  method AppendBeside(table: DataTable, value: Payload, txn: nat, entry: nat, ghost cell: nat -> Cell, ghost s: State) returns (row: nat)
    requires Holds(table, cell, s) && table.chunks != [] && table.chunks[|table.chunks| - 1].count < STORAGE_CHUNK_SIZE
    modifies table.repr - {table}
    ensures var k := |table.chunks| - 1;
            && fresh(table.chunks[k].repr - old(table.chunks[k].repr))
            && row == old(table.chunks[k].count) && table.chunks[k].count == row + 1 <= STORAGE_CHUNK_SIZE
    ensures forall i :: 0 <= i < |table.chunks| ==> table.chunks[i].Valid()
    ensures forall i :: 0 <= i < |table.chunks| - 1 ==>
              && ChunkHolds(table.chunks[i], cell, s)
              && table.chunks[i].count == old(table.chunks[i].count) && table.chunks[i].repr == old(table.chunks[i].repr)
    ensures OthersHold(table.chunks[|table.chunks| - 1], row, cell, s)
    ensures table.chunks[|table.chunks| - 1].RowChain(row) == Push(Chain([], None), Version(txn, txn, entry, Some(value)))
  {
    hide Chunk.Valid, Chunk.RowChain, DataTable.Valid, Separate, Push, Beyond, DataTable.End;
    ghost var k := |table.chunks| - 1;
    Opened(table, k, cell, s);
    var c := table.chunks[|table.chunks| - 1];
    NoVersions(c, c.count);
    assert forall n :: n in c.repr ==> n in Parts(c);
    row := c.AppendRow(value, txn, entry);
  }

  /** Appends a row to the last chunk. */
  method AppendIn(table: DataTable, value: Payload, txn: nat, entry: nat, ghost cell: nat -> Cell, ghost s: State) returns (row: nat)
    requires Holds(table, cell, s) && table.chunks != [] && table.chunks[|table.chunks| - 1].count < STORAGE_CHUNK_SIZE
    modifies table`repr, table.repr
    ensures table.chunks == old(table.chunks) && HoldsBut(table, |table.chunks| - 1, row, cell, s)
    ensures var c := table.chunks[|table.chunks| - 1];
            && c.count == row + 1 <= STORAGE_CHUNK_SIZE && row == old(table.chunks[|table.chunks| - 1].count)
            && c.RowChain(row) == Push(Chain([], None), Version(txn, txn, entry, Some(value)))
    ensures old(ChainAt(s, cell(table.End(|table.chunks|)))) == Chain([], None)
  {
    hide Chunk.Valid, Chunk.RowChain, DataTable.Valid, Separate, ChunkHolds, OthersHold, HoldsBut, Apart, Push;
    ghost var k := |table.chunks| - 1;
    Opened(table, k, cell, s);
    ghost var parts := PartsApart(table, k);
    ghost var c := table.chunks[k];
    ghost var before := c.repr;
    row := AppendBeside(table, value, txn, entry, cell, s);
    NewParts(c, before, parts[k]);
    Adopt(table, k, parts, set n | n in c.repr - before :: n as object, row, cell, s);
  }

  /** Appends a row, to a new chunk if the last one is full: the write step of an insertion. */
  method Append(table: DataTable, value: Payload, txn: nat, entry: nat,
                ghost cell: nat -> Cell, ghost s: State, ghost i: nat)
    requires Holds(table, cell, s) && table.chunks != []
    requires i < |s.active| && s.active[i].id == txn && |s.active[i].log| == entry && s.phase != RollingBack(i)
    modifies table, table.repr
    ensures table.chunks != [] && table.End(|table.chunks|) == old(table.End(|table.chunks|)) + 1
    ensures var w := Write(InsertTuple, cell(old(table.End(|table.chunks|))), Some(value));
            CanWrite(s, i, w) && Holds(table, cell, Written(s, i, w))
  {
    hide Chunk.Valid, Chunk.RowChain, DataTable.Valid, Separate, ChunkHolds, OthersHold, Push, Beyond, Holds;
    Opened(table, |table.chunks| - 1, cell, s);
    if table.chunks[|table.chunks| - 1].count == STORAGE_CHUNK_SIZE {
      NewTail(table, cell, s);
    }
    ghost var k := |table.chunks| - 1;
    ghost var c := table.chunks[k];
    var row := AppendIn(table, value, txn, entry, cell, s);
    Member(table, k);
    ghost var at := cell(c.start + row);
    ghost var s' := Written(s, i, Write(InsertTuple, at, Some(value)));
    assert Changes(s, s', at, c.RowChain(row));
    RowChanged(table, k, row, cell, s, s');
  }
}
