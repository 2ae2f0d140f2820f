/**
 Tables and catalog sets as states of the transition system: what scans and
 lookups return is the snapshot of their transaction, and a write to a row is a
 step unless the row was deleted.
 */
module Snapshots {
  import opened VersionChain
  import opened StorageChunk
  import opened TableScan
  import opened Mvcc
  import opened MvccInvariant
  import opened MvccTheorems
  import CatalogSet

  /** The database that a running transaction works on: what it sees of the others, and its own writes. */
  ghost function Own(s: State, t: Txn): Db {
    ApplyLog(Seen(s, t.id, t.start), t.log, |t.log|)
  }

  /** It is the database of the commits before its start with its own writes, unless a commit has its identifier. */
  lemma OwnIs(s: State, t: Txn)
    requires NumbersOk(s) && t.id >= TRANSACTION_ID_START && !Clashes(s, t.id)
    ensures Own(s, t) == ApplyLog(Snapshot(s, t.start), t.log, |t.log|)
  {
    NothingClashes(s, t.id);
  }

  // ---------------------------------------------------------------- tables

  /** The table holds the rows of a state, row `r` in cell `cell(r)`. */
  ghost predicate HoldsRows(table: DataTable, cell: nat -> Cell, s: State)
    requires table.Valid()
    reads table, table.chunks, table.repr
  {
    && (forall r, q :: r != q ==> cell(r) != cell(q))
    && (forall r: nat :: r < table.End(|table.chunks|) ==> ChainAt(s, cell(r)) == table.ChainOfRow(r))
  }

  /** The first `n` rows of a database. */
  ghost function RowsOf(db: Db, cell: nat -> Cell, n: nat): seq<Option<Payload>> {
    seq(n, r requires 0 <= r < n => Lookup(db, cell(r)))
  }

  /** Every row identifier shows what the transaction's database holds in its cell. */
  lemma ViewAtIsOwn(table: DataTable, cell: nat -> Cell, s: State, i: nat, r: nat)
    requires table.Valid() && HoldsRows(table, cell, s) && Inv(s) && i < |s.active| && r < table.End(|table.chunks|)
    ensures var t := s.active[i];
            && r < |table.View(|table.chunks|, t.id, t.start)|
            && table.View(|table.chunks|, t.id, t.start)[r] == Lookup(Own(s, t), cell(r))
  {
    hide DataTable.Valid, DataTable.View, Inv;
    var t, n := s.active[i], |table.chunks|;
    var k := table.Locate(n, r);
    table.ViewAt(n, k, r - table.chunks[k].start, t.id, t.start);
    ReadExactly(s, i, cell(r));
  }

  lemma ViewIsOwn(table: DataTable, cell: nat -> Cell, s: State, i: nat)
    requires table.Valid() && HoldsRows(table, cell, s) && Inv(s) && i < |s.active|
    ensures var t, n := s.active[i], |table.chunks|;
            table.View(n, t.id, t.start) == RowsOf(Own(s, t), cell, table.End(n))
  {
    hide DataTable.Valid, DataTable.View, Inv, Own, HoldsRows;
    var t, n := s.active[i], |table.chunks|;
    table.ViewLength(n, t.id, t.start);
    forall r: nat | r < table.End(n)
      ensures table.View(n, t.id, t.start)[r] == RowsOf(Own(s, t), cell, table.End(n))[r]
    {
      ViewAtIsOwn(table, cell, s, i, r);
    }
  }

  /** A full scan by a running transaction returns exactly the rows of its database, each once. */
  method ScanTable(table: DataTable, ghost cell: nat -> Cell, ghost s: State, ghost i: nat, id: nat, start: nat)
    returns (rows: seq<Payload>)
    requires table.Valid() && HoldsRows(table, cell, s) && Inv(s)
    requires i < |s.active| && s.active[i].id == id && s.active[i].start == start
    ensures multiset(rows) == multiset(Present(RowsOf(Own(s, s.active[i]), cell, table.End(|table.chunks|))))
  {
    hide Inv, Own, DataTable.View;
    ViewIsOwn(table, cell, s, i);
    rows := table.Drain(id, start);
  }

  /** Writing a row is the write step on its chain if and only if the row was not deleted. */
  lemma WriteIsStep(chain: Chain, data: Payload, v: Version)
    requires Base(chain) == None || Base(chain) == Some(data)
    ensures WriteRow(chain, data, v) == Push(chain, v) <==> Base(chain).Some?
  {
    var live := WithBase(chain, Some(data));
    assert Push(live, v).nodes[1..] == live.nodes && Push(chain, v).nodes[1..] == chain.nodes;
    assert Base(live) == Some(data);
    if Base(chain).Some? && chain.nodes != [] {
      assert live.nodes == chain.nodes;
    }
  }

  // ---------------------------------------------------------------- catalog sets

  /** The set holds the names of a state. */
  ghost predicate HoldsNames(names: CatalogSet.Set, cell: string -> Cell, s: State)
    requires names.Valid()
    reads names, names.repr
  {
    forall name :: ChainAt(s, cell(name)) == names.NameChain(name)
  }

  /** A running transaction finds under a name exactly what its database holds there. */
  method LookupName(names: CatalogSet.Set, ghost cell: string -> Cell, ghost s: State, ghost i: nat,
                    name: string, id: nat, start: nat) returns (found: Option<Payload>)
    requires names.Valid() && HoldsNames(names, cell, s) && Inv(s)
    requires i < |s.active| && s.active[i].id == id && s.active[i].start == start
    ensures found == Lookup(Own(s, s.active[i]), cell(name))
  {
    hide Inv;
    ReadExactly(s, i, cell(name));
    var entry := names.GetEntry(name, id, start);
    found := if entry == null then None else entry.value;
  }
}
