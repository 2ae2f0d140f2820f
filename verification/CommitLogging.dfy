/**
 The commit of an undo buffer: every entry gets the commit identifier, and the
 log gets the rows that were inserted, which are recovered from the version lists.
 */
module CommitLogging {
  import opened VersionChain
  import opened StorageChunk
  import opened TableScan
  import opened Mvcc
  import opened MvccInvariant
  import MvccSteps
  import opened MvccTheorems
  import opened TableSteps
  import TransactionManager
  import Log = UndoLogging

  // ---------------------------------------------------------------- one entry

  /** The node of the entry that commits next has its value, and keeps no pre-image exactly for insertions. */
  lemma NodeIsWrite(c: Chunk, at: nat, row: nat, cell: Cell, s: State)
    requires c.Valid() && row < STORAGE_CHUNK_SIZE == |c.lists| && at < |c.lists[row]| && ChainAt(s, cell) == c.RowChain(row)
    requires Enabled(s, CommitOne) && NextCommit(s).cell == cell
    requires c.lists[row][at].owner == s.phase.txn.id && c.lists[row][at].entry == s.phase.txn.stamped
    requires Inv(s)
    ensures at < |c.RowChain(row).nodes| && c.RowChain(row).nodes[at].value == NextCommit(s).value
    ensures NextCommit(s).flag.InsertTuple? ==> NextCommit(s).value.Some?
    ensures NextCommit(s).flag.InsertTuple? <==> c.lists[row][at].tupleData.None?
  {
    hide Inv, Chunk.Valid, Chunk.RowChain;
    var k := CommitFindsWritten(s);
    NodeIs(c, row, at);
    NodeIs(c, row, k);
    c.Position(row, at);
    KeptIs(c, row, at);
  }

  lemma KeptIs(c: Chunk, row: nat, at: nat)
    requires c.Valid() && row < STORAGE_CHUNK_SIZE == |c.lists| && at < |c.lists[row]| && at < |c.RowChain(row).nodes|
    ensures ValueBelow(c.RowChain(row), at) == c.lists[row][at].tupleData
  {
    PreImagesAre(c.lists[row]);
    BeforeIs(PreImages(c.lists[row]), c.BaseRow(row), at);
  }

  /**
   The row that an entry logs when it commits: for an insertion the value it
   inserted, whatever the transaction did to the row later, and nothing otherwise.
   */
  method LoggedRow(table: DataTable, k: nat, info: VersionInformation, ghost at: nat, ghost cell: nat -> Cell, ghost s: State)
    returns (row: Option<Payload>)
    requires Holds(table, cell, s) && k < |table.chunks|
    requires info.row < table.chunks[k].count && at < |table.chunks[k].lists[info.row]| && info == table.chunks[k].lists[info.row][at]
    requires Enabled(s, CommitOne) && info.owner == s.phase.txn.id && info.entry == s.phase.txn.stamped
    requires NextCommit(s).cell == cell(table.chunks[k].start + info.row)
    requires Inv(s)
    ensures row.Some? <==> NextCommit(s).flag.InsertTuple?
    ensures row.Some? ==> row == NextCommit(s).value
  {
    hide Inv, Chunk.Valid, Chunk.RowChain, DataTable.Valid, Separate, DataTable.End, Beyond;
    Opened(table, k, cell, s);
    var c := table.chunks[k];
    NodeIsWrite(c, at, info.row, cell(c.start + info.row), s);
    if info.tupleData.Some? {
      return None;
    }
    var data := c.InsertedRow(info, at);
    return Some(data);
  }

  // ---------------------------------------------------------------- the undo buffer

  /** An undo buffer entry; the entry of a row points to its node in a chunk of a table. */
  datatype BufferEntry =
    | RowEntry(table: Log.TableName, chunk: nat, info: VersionInformation)
    | QueryEntry(text: string)
    | NameEntry(change: Log.Change)

  /** How many entries are writes of the transaction. */
  function Writes(buffer: seq<BufferEntry>): nat {
    if buffer == [] then 0 else Writes(buffer[..|buffer| - 1]) + if buffer[|buffer| - 1].QueryEntry? then 0 else 1
  }

  lemma {:induction false} WritesGrow(buffer: seq<BufferEntry>, i: nat)
    requires i <= |buffer|
    ensures Writes(buffer[..i]) <= Writes(buffer)
    ensures i < |buffer| && !buffer[i].QueryEntry? ==> Writes(buffer[..i]) < Writes(buffer)
  {
    if i < |buffer| {
      var init := buffer[..|buffer| - 1];
      assert init[..i] == buffer[..i];
      WritesGrow(init, i);
    } else {
      assert buffer[..i] == buffer;
    }
  }

  /** What an entry tells the log, by the write it stands for. */
  function UndoEntryOf(e: BufferEntry, log: seq<Write>, p: nat): Log.UndoEntry
    requires !e.QueryEntry? ==> p < |log|
  {
    match e
    case QueryEntry(text) => Log.Query(text)
    case NameEntry(change) => Log.Catalog(change)
    case RowEntry(table, _, _) =>
      if log[p].flag.InsertTuple? && log[p].value.Some? then Log.Insertion(table, log[p].value.value) else Log.UpdateOrDelete
  }

  function UndoEntries(buffer: seq<BufferEntry>, log: seq<Write>): seq<Log.UndoEntry>
    requires Writes(buffer) <= |log|
  {
    if buffer == [] then []
    else
      var init := buffer[..|buffer| - 1];
      UndoEntries(init, log) + [UndoEntryOf(buffer[|buffer| - 1], log, Writes(init))]
  }

  type Tables = map<Log.TableName, DataTable>
  type Cells = Log.TableName -> (nat -> Cell)

  /** Tables share nothing, and their rows are different cells. */
  ghost predicate TablesApart(tables: Tables, cells: Cells)
    reads set t | t in tables :: tables[t]
  {
    && (forall t, u :: t in tables && u in tables ==> tables[t] !in tables[u].repr)
    && (forall t, u :: t in tables && u in tables && t != u ==> tables[t].repr !! tables[u].repr)
    && (forall t, u, r, q :: t != u ==> cells(t)(r) != cells(u)(q))
  }

  ghost predicate RowStands(table: DataTable, k: nat, info: VersionInformation, p: nat, id: nat, log: seq<Write>, cell: nat -> Cell)
    reads table, table.chunks
  {
    && p < |log| && k < |table.chunks|
    && var c := table.chunks[k];
       && info.row < c.count && info.row < |c.lists| && info in c.lists[info.row]
       && info.owner == id && info.entry == p && log[p].cell == cell(c.start + info.row)
  }

  ghost function AllChunks(tables: Tables): (all: set<Chunk>)
    reads set t | t in tables :: tables[t]
    ensures forall t, c :: t in tables && c in tables[t].chunks ==> c in all
  {
    set t, c | t in tables && c in tables[t].chunks :: c
  }

  /** The entry is that of write `p` of the transaction. */
  ghost predicate Stands(e: BufferEntry, p: nat, id: nat, log: seq<Write>, tables: Tables, cells: Cells)
    reads set t | t in tables :: tables[t]
    reads AllChunks(tables)
  {
    match e
    case QueryEntry(_) => true
    case NameEntry(_) => p < |log| && forall t, r :: t in tables ==> log[p].cell != cells(t)(r)
    case RowEntry(t, k, info) =>
      t in tables && RowStands(tables[t], k, info, p, id, log, cells(t))
  }

  /** The buffer holds the writes of the transaction in order. */
  ghost predicate Describes(buffer: seq<BufferEntry>, id: nat, log: seq<Write>, tables: Tables, cells: Cells)
    reads set t | t in tables :: tables[t]
    reads AllChunks(tables)
  {
    && Writes(buffer) == |log|
    && forall i :: 0 <= i < |buffer| ==> Stands(buffer[i], Writes(buffer[..i]), id, log, tables, cells)
  }

  // ---------------------------------------------------------------- what the buffer and the writes tell

  ghost predicate IsRow(cell: nat -> Cell, c: Cell) {
    exists r :: cell(r) == c
  }

  /** The values that the insertions among the writes put into a table, in order. */
  ghost function Inserted(log: seq<Write>, cell: nat -> Cell): seq<Option<Payload>> {
    if log == [] then []
    else
      var last := log[|log| - 1];
      Inserted(log[..|log| - 1], cell) + if last.flag.InsertTuple? && IsRow(cell, last.cell) then [last.value] else []
  }

  /** Every insertion into the table is there, behind those before it. */
  lemma {:induction false} InsertedAt(log: seq<Write>, cell: nat -> Cell, p: nat)
    requires p < |log| && log[p].flag.InsertTuple? && IsRow(cell, log[p].cell)
    ensures |Inserted(log[..p], cell)| < |Inserted(log, cell)|
    ensures Inserted(log, cell)[|Inserted(log[..p], cell)|] == log[p].value
  {
    if p < |log| - 1 {
      var init := log[..|log| - 1];
      assert init[..p] == log[..p];
      InsertedAt(init, cell, p);
    }
  }

  /** And nothing else. */
  lemma {:induction false} InsertedFrom(log: seq<Write>, cell: nat -> Cell, i: nat) returns (p: nat)
    requires i < |Inserted(log, cell)|
    ensures p < |log| && log[p].flag.InsertTuple? && IsRow(cell, log[p].cell) && |Inserted(log[..p], cell)| == i
  {
    var init := log[..|log| - 1];
    if i < |Inserted(init, cell)| {
      p := InsertedFrom(init, cell, i);
      assert init[..p] == log[..p];
    } else {
      p := |log| - 1;
    }
  }

  function Queries(buffer: seq<BufferEntry>): seq<string> {
    if buffer == [] then []
    else
      var last := buffer[|buffer| - 1];
      Queries(buffer[..|buffer| - 1]) + if last.QueryEntry? then [last.text] else []
  }

  function NameChanges(buffer: seq<BufferEntry>): seq<Log.Change> {
    if buffer == [] then []
    else
      var last := buffer[|buffer| - 1];
      NameChanges(buffer[..|buffer| - 1]) + if last.NameEntry? then [last.change] else []
  }

  function Somes(rows: seq<Payload>): seq<Option<Payload>> {
    seq(|rows|, i requires 0 <= i < |rows| => Some(rows[i]))
  }

  /** The write that an entry stands for is one to a row of its table, or to no row. */
  ghost predicate Fits(e: BufferEntry, p: nat, log: seq<Write>, names: set<Log.TableName>, cells: Cells) {
    match e
    case QueryEntry(_) => true
    case NameEntry(_) => p < |log| && forall t, r :: t in names ==> log[p].cell != cells(t)(r)
    case RowEntry(t, _, _) => p < |log| && t in names && IsRow(cells(t), log[p].cell)
  }

  ghost predicate AllFit(buffer: seq<BufferEntry>, log: seq<Write>, names: set<Log.TableName>, cells: Cells) {
    && (forall i :: 0 <= i < |buffer| ==> Fits(buffer[i], Writes(buffer[..i]), log, names, cells))
    && (forall p :: 0 <= p < |log| && log[p].flag.InsertTuple? ==> log[p].value.Some?)
    && (forall t, u, r, q :: t != u ==> cells(t)(r) != cells(u)(q))
  }

  lemma FitsInit(buffer: seq<BufferEntry>, n: nat, log: seq<Write>, names: set<Log.TableName>, cells: Cells)
    requires AllFit(buffer, log, names, cells) && n <= |buffer|
    ensures AllFit(buffer[..n], log, names, cells)
  {
    hide Fits;
    forall i | 0 <= i < n ensures Fits(buffer[..n][i], Writes(buffer[..n][..i]), log, names, cells) {
      assert buffer[..n][..i] == buffer[..i];
    }
  }

  /** The rows that the entries tell of a table are those of the insertions into it. */
  lemma {:induction false} EntriesTell(buffer: seq<BufferEntry>, log: seq<Write>, names: set<Log.TableName>, cells: Cells,
                                       t: Log.TableName)
    requires AllFit(buffer, log, names, cells) && Writes(buffer) <= |log| && t in names
    ensures Somes(Log.RowsOf(UndoEntries(buffer, log), t)) == Inserted(log[..Writes(buffer)], cells(t))
  {
    if buffer == [] {
      assert log[..0] == [];
    } else {
      hide AllFit, Inserted, UndoEntries, Writes, Log.RowsOf, UndoEntryOf, Somes;
      var n := |buffer| - 1;
      var init, e, p := buffer[..n], buffer[n], Writes(buffer[..n]);
      EntriesLast(buffer, log);
      FitsInit(buffer, n, log, names, cells);
      EntriesTell(init, log, names, cells, t);
      var u := UndoEntryOf(e, log, p);
      RowsLast(UndoEntries(init, log), u, t);
      var more := if u.Insertion? && u.table == t then [u.row] else [];
      SomesBoth(Log.RowsOf(UndoEntries(init, log), t), more);
      EntryTells(buffer, n, log, names, cells, t);
      if !e.QueryEntry? {
        InsertedLast(log, p, cells(t));
      }
    }
  }

  lemma SomesBoth(a: seq<Payload>, b: seq<Payload>)
    ensures Somes(a + b) == Somes(a) + Somes(b)
  {
  }

  /** An entry tells a row of a table exactly if its write is an insertion into the table, and tells its value. */
  lemma EntryTells(buffer: seq<BufferEntry>, n: nat, log: seq<Write>, names: set<Log.TableName>, cells: Cells, t: Log.TableName)
    requires AllFit(buffer, log, names, cells) && n < |buffer| && t in names
    requires !buffer[n].QueryEntry? ==> Writes(buffer[..n]) < |log|
    ensures var e, p := buffer[n], Writes(buffer[..n]);
            var u := UndoEntryOf(e, log, p);
            Somes(if u.Insertion? && u.table == t then [u.row] else [])
            == if !e.QueryEntry? && log[p].flag.InsertTuple? && IsRow(cells(t), log[p].cell) then [log[p].value] else []
  {
    var e, p := buffer[n], Writes(buffer[..n]);
    assert Fits(e, p, log, names, cells);
    if !e.QueryEntry? {
      CellsApart(buffer, log, names, cells);
      OwnTable(e, p, log, names, cells, t);
    }
  }

  lemma CellsApart(buffer: seq<BufferEntry>, log: seq<Write>, names: set<Log.TableName>, cells: Cells)
    requires AllFit(buffer, log, names, cells)
    ensures forall t, u, r, q :: t != u ==> cells(t)(r) != cells(u)(q)
  {
  }

  lemma EntriesLast(buffer: seq<BufferEntry>, log: seq<Write>)
    requires buffer != [] && Writes(buffer) <= |log|
    ensures var n := |buffer| - 1;
            && Writes(buffer) == Writes(buffer[..n]) + (if buffer[n].QueryEntry? then 0 else 1)
            && UndoEntries(buffer, log) == UndoEntries(buffer[..n], log) + [UndoEntryOf(buffer[n], log, Writes(buffer[..n]))]
  {
  }

  lemma RowsLast(entries: seq<Log.UndoEntry>, u: Log.UndoEntry, t: Log.TableName)
    ensures Log.RowsOf(entries + [u], t) == Log.RowsOf(entries, t) + if u.Insertion? && u.table == t then [u.row] else []
  {
    assert (entries + [u])[..|entries|] == entries;
  }

  lemma OthersLast(entries: seq<Log.UndoEntry>, u: Log.UndoEntry)
    ensures Log.QueriesOf(entries + [u]) == Log.QueriesOf(entries) + if u.Query? then [u.text] else []
    ensures Log.ChangesOf(entries + [u]) == Log.ChangesOf(entries) + if u.Catalog? then [u.change] else []
  {
    assert (entries + [u])[..|entries|] == entries;
  }

  lemma InsertedLast(log: seq<Write>, p: nat, cell: nat -> Cell)
    requires p < |log|
    ensures Inserted(log[..p + 1], cell)
            == Inserted(log[..p], cell) + if log[p].flag.InsertTuple? && IsRow(cell, log[p].cell) then [log[p].value] else []
  {
    assert log[..p + 1][..p] == log[..p];
  }

  lemma OwnTable(e: BufferEntry, p: nat, log: seq<Write>, names: set<Log.TableName>, cells: Cells, t: Log.TableName)
    requires !e.QueryEntry? && Fits(e, p, log, names, cells) && t in names
    requires forall t, u, r, q :: t != u ==> cells(t)(r) != cells(u)(q)
    ensures IsRow(cells(t), log[p].cell) <==> e.RowEntry? && e.table == t
  {
  }

  lemma {:induction false} EntriesAsk(buffer: seq<BufferEntry>, log: seq<Write>)
    requires Writes(buffer) <= |log|
    ensures Log.QueriesOf(UndoEntries(buffer, log)) == Queries(buffer)
    ensures Log.ChangesOf(UndoEntries(buffer, log)) == NameChanges(buffer)
  {
    if buffer != [] {
      hide UndoEntries, Log.QueriesOf, Log.ChangesOf, Writes;
      var n := |buffer| - 1;
      EntriesLast(buffer, log);
      EntriesAsk(buffer[..n], log);
      OthersLast(UndoEntries(buffer[..n], log), UndoEntryOf(buffer[n], log, Writes(buffer[..n])));
    }
  }

  /** A table that no entry is of gets no row. */
  lemma {:induction false} EntriesElsewhere(buffer: seq<BufferEntry>, log: seq<Write>, t: Log.TableName)
    requires Writes(buffer) <= |log| && forall i :: 0 <= i < |buffer| && buffer[i].RowEntry? ==> buffer[i].table != t
    ensures Log.RowsOf(UndoEntries(buffer, log), t) == []
  {
    if buffer != [] {
      hide UndoEntries, Log.RowsOf, Writes;
      var n := |buffer| - 1;
      EntriesLast(buffer, log);
      EntriesElsewhere(buffer[..n], log, t);
      RowsLast(UndoEntries(buffer[..n], log), UndoEntryOf(buffer[n], log, Writes(buffer[..n])), t);
    }
  }

  /** Record `q` is the query of buffer entry `b`; before both, the log and the buffer tell the same. */
  ghost predicate SameQuery(records: seq<Log.Record>, q: nat, buffer: seq<BufferEntry>, b: nat, log: seq<Write>,
                            names: set<Log.TableName>, cells: Cells)
    requires q < |records| && records[q].QueryRecord?
  {
    && b < |buffer| && buffer[b] == QueryEntry(records[q].query) && Writes(buffer[..b]) <= |log|
    && |Log.QueriesIn(records[..q])| == |Queries(buffer[..b])|
    && Log.ChangesIn(records[..q]) == NameChanges(buffer[..b])
    && forall t :: t in names ==> Somes(Log.RowsIn(records[..q], t)) == Inserted(log[..Writes(buffer[..b])], cells(t))
  }

  lemma {:induction false} NthQuery(buffer: seq<BufferEntry>, n: nat) returns (b: nat)
    requires n < |Queries(buffer)|
    ensures b < |buffer| && buffer[b].QueryEntry? && |Queries(buffer[..b])| == n
  {
    var init := buffer[..|buffer| - 1];
    if n < |Queries(init)| {
      b := NthQuery(init, n);
      assert init[..b] == buffer[..b];
    } else {
      b := |buffer| - 1;
    }
  }

  lemma {:induction false} QueriesBefore(records: seq<Log.Record>, q: nat)
    requires q < |records| && records[q].QueryRecord?
    ensures |Log.QueriesIn(records[..q])| < |Log.QueriesIn(records)|
  {
    var init := records[..|records| - 1];
    if q < |init| {
      assert init[..q] == records[..q];
      QueriesBefore(init, q);
    }
  }

  lemma {:induction false} EntriesPrefix(buffer: seq<BufferEntry>, b: nat, log: seq<Write>)
    requires b < |buffer| && Writes(buffer) <= |log|
    ensures Writes(buffer[..b]) <= |log| && |UndoEntries(buffer, log)| == |buffer|
    ensures UndoEntries(buffer, log)[..b] == UndoEntries(buffer[..b], log)
    ensures buffer[b].QueryEntry? ==> UndoEntries(buffer, log)[b] == Log.Query(buffer[b].text)
  {
    var n := |buffer| - 1;
    EntriesLast(buffer, log);
    EntriesCount(buffer[..n], log);
    if b < n {
      EntriesPrefix(buffer[..n], b, log);
      assert buffer[..n][..b] == buffer[..b];
    }
  }

  lemma {:induction false} EntriesCount(buffer: seq<BufferEntry>, log: seq<Write>)
    requires Writes(buffer) <= |log|
    ensures |UndoEntries(buffer, log)| == |buffer|
  {
    if buffer != [] {
      EntriesLast(buffer, log);
      EntriesCount(buffer[..|buffer| - 1], log);
    }
  }

  /** Every query of the log has its place in the buffer. */
  lemma QueryPlace(records: seq<Log.Record>, q: nat, buffer: seq<BufferEntry>, log: seq<Write>, names: set<Log.TableName>, cells: Cells)
    returns (b: nat)
    requires AllFit(buffer, log, names, cells) && Writes(buffer) <= |log| && q < |records| && records[q].QueryRecord?
    requires forall topic :: Log.Logged(records, topic) == Log.History(UndoEntries(buffer, log), topic)
    ensures SameQuery(records, q, buffer, b, log, names, cells)
  {
    hide AllFit, UndoEntries, Writes, Inserted, Somes, Log.Logged, Log.History, Log.RowsIn, Log.RowsOf, Log.QueriesIn, Log.QueriesOf,
         Log.ChangesIn, Log.ChangesOf, Queries, NameChanges;
    var entries := UndoEntries(buffer, log);
    AllQueries(records, buffer, log);
    QueriesBefore(records, q);
    b := NthQuery(buffer, |Log.QueriesIn(records[..q])|);
    EntriesPrefix(buffer, b, log);
    EntriesAsk(buffer[..b], log);
    Log.QuerySides(records, entries, q, b);
    FitsInit(buffer, b, log, names, cells);
    forall t | t in names ensures Somes(Log.RowsIn(records[..q], t)) == Inserted(log[..Writes(buffer[..b])], cells(t)) {
      EntriesTell(buffer[..b], log, names, cells, t);
    }
  }

  lemma AllQueries(records: seq<Log.Record>, buffer: seq<BufferEntry>, log: seq<Write>)
    requires Writes(buffer) <= |log|
    requires forall topic :: Log.Logged(records, topic) == Log.History(UndoEntries(buffer, log), topic)
    ensures Log.QueriesIn(records) == Queries(buffer) && Log.ChangesIn(records) == NameChanges(buffer)
  {
    hide UndoEntries, Log.Logged, Log.History;
    EntriesAsk(buffer, log);
    Log.LoggedHolds(records, Log.Changes);
    Log.HistoryHolds(UndoEntries(buffer, log), Log.Changes);
  }

  lemma AllRows(records: seq<Log.Record>, buffer: seq<BufferEntry>, log: seq<Write>, names: set<Log.TableName>, cells: Cells,
                t: Log.TableName)
    requires AllFit(buffer, log, names, cells) && Writes(buffer) == |log|
    requires forall topic :: Log.Logged(records, topic) == Log.History(UndoEntries(buffer, log), topic)
    ensures t in names ==> Somes(Log.RowsIn(records, t)) == Inserted(log, cells(t))
    ensures t !in names ==> Log.RowsIn(records, t) == []
  {
    Log.LoggedHolds(records, Log.Rows(t));
    Log.HistoryHolds(UndoEntries(buffer, log), Log.Rows(t));
    if t in names {
      EntriesTell(buffer, log, names, cells, t);
      assert log[..|log|] == log;
    } else {
      forall i | 0 <= i < |buffer| && buffer[i].RowEntry? ensures buffer[i].table != t {
        assert Fits(buffer[i], Writes(buffer[..i]), log, names, cells);
      }
      EntriesElsewhere(buffer, log, t);
    }
  }

  // ---------------------------------------------------------------- committing

  lemma Committable(buffer: seq<BufferEntry>, i: nat, s: State)
    requires i < |buffer| && s.phase.Committing? && Writes(buffer) == |s.phase.txn.log|
    requires s.phase.txn.stamped == Writes(buffer[..i])
    ensures Writes(buffer[..i + 1]) == Writes(buffer[..i]) + if buffer[i].QueryEntry? then 0 else 1
    ensures !buffer[i].QueryEntry? ==> Enabled(s, CommitOne)
  {
    assert buffer[..i + 1][..i] == buffer[..i];
    WritesGrow(buffer, i);
  }

  lemma EntriesPush(buffer: seq<BufferEntry>, i: nat, log: seq<Write>)
    requires i < |buffer| && Writes(buffer) <= |log|
    ensures Writes(buffer[..i]) <= |log| && Writes(buffer[..i + 1]) <= |log|
    ensures !buffer[i].QueryEntry? ==> Writes(buffer[..i]) < |log|
    ensures UndoEntries(buffer[..i + 1], log) == UndoEntries(buffer[..i], log) + [UndoEntryOf(buffer[i], log, Writes(buffer[..i]))]
  {
    WritesGrow(buffer, i);
    WritesGrow(buffer, i + 1);
    assert buffer[..i + 1][..i] == buffer[..i];
  }

  /** Stamps the entry of a row in its table: a commit step for all tables. */
  method StampRow(tables: Tables, table: Log.TableName, k: nat, info: VersionInformation, commitId: nat, ghost at: nat,
                  ghost cells: Cells, ghost s: State)
    requires TablesApart(tables, cells) && forall t :: t in tables ==> Holds(tables[t], cells(t), s)
    requires table in tables && k < |tables[table].chunks|
    requires var c := tables[table].chunks[k];
             info.row < c.count && info.row < |c.lists| && at < |c.lists[info.row]| && info == c.lists[info.row][at]
    requires Enabled(s, CommitOne) && commitId == s.phase.txn.cid && info.owner == s.phase.txn.id && info.entry == s.phase.txn.stamped
    requires NextCommit(s).cell == cells(table)(tables[table].chunks[k].start + info.row)
    modifies info`versionNumber
    ensures forall t :: t in tables ==> Holds(tables[t], cells(t), OneCommitted(s))
  {
    hide Holds, OneCommitted;
    NodeInside(tables[table], k, info, at, cells(table), s);
    CommitRow(tables[table], k, info, commitId, at, cells(table), s);
    forall t | t in tables && t != table ensures Holds(tables[t], cells(t), OneCommitted(s)) {
      ElsewhereKeeps(tables[t], cells(t), s, CommitOne);
    }
  }

  lemma NodeInside(table: DataTable, k: nat, info: VersionInformation, at: nat, cell: nat -> Cell, s: State)
    requires Holds(table, cell, s) && k < |table.chunks|
    requires var c := table.chunks[k]; info.row < c.count && at < |c.lists[info.row]| && info == c.lists[info.row][at]
    ensures info in table.repr
  {
    hide Chunk.Valid, Chunk.RowChain, DataTable.Valid, Separate, DataTable.End, Beyond, ChunkHolds;
    Opened(table, k, cell, s);
    NodeOwned(table.chunks[k], info.row, at);
    assert info in Parts(table.chunks[k]);
  }

  /** The nodes of a buffer. */
  function Infos(buffer: seq<BufferEntry>): set<VersionInformation> {
    set e | e in buffer && e.RowEntry? :: e.info
  }

  /** Commits one entry of the buffer: stamps it, and says what the log has to know. */
  method CommitEntry(tables: Tables, e: BufferEntry, commitId: nat, ghost cells: Cells, ghost s: State) returns (u: Log.UndoEntry)
    requires s.phase.Committing? && commitId == s.phase.txn.cid && (!e.QueryEntry? ==> Enabled(s, CommitOne))
    requires TablesApart(tables, cells) && forall t :: t in tables ==> Holds(tables[t], cells(t), s)
    requires Stands(e, s.phase.txn.stamped, s.phase.txn.id, s.phase.txn.log, tables, cells)
    requires Inv(s)
    modifies if e.RowEntry? then {e.info} else {}
    ensures u == UndoEntryOf(e, s.phase.txn.log, s.phase.txn.stamped)
    ensures e.QueryEntry? ==> u == Log.Query(e.text)
    ensures e.NameEntry? ==> u == Log.Catalog(e.change)
    ensures e.RowEntry? && NextCommit(s).flag.InsertTuple? ==>
              NextCommit(s).value.Some? && u == Log.Insertion(e.table, NextCommit(s).value.value)
    ensures e.RowEntry? && !NextCommit(s).flag.InsertTuple? ==> u == Log.UpdateOrDelete
    ensures forall t :: t in tables ==> Holds(tables[t], cells(t), if e.QueryEntry? then s else OneCommitted(s))
  {
    hide Holds, Inv, OneCommitted, TablesApart;
    match e
    case QueryEntry(text) =>
      u := Log.Query(text);
    case NameEntry(change) =>
      forall t | t in tables ensures Holds(tables[t], cells(t), OneCommitted(s)) {
        ElsewhereKeeps(tables[t], cells(t), s, CommitOne);
      }
      u := Log.Catalog(change);
    case RowEntry(table, k, info) =>
      var c := tables[table].chunks[k];
      ghost var at :| 0 <= at < |c.lists[info.row]| && c.lists[info.row][at] == info;
      var row := LoggedRow(tables[table], k, info, at, cells(table), s);
      StampRow(tables, table, k, info, commitId, at, cells, s);
      u := if row.Some? then Log.Insertion(table, row.value) else Log.UpdateOrDelete;
  }

  lemma NextPhase(s: State)
    requires Enabled(s, CommitOne)
    ensures OneCommitted(s).phase == Committing(s.phase.txn.(stamped := s.phase.txn.stamped + 1))
  {
  }

  lemma NoEntries(log: seq<Write>)
    ensures Writes([]) == 0 && UndoEntries([], log) == []
  {
  }

  /** Commits all entries of an undo buffer in order, and logs what they tell. */
  method CommitEntries(tables: Tables, buffer: seq<BufferEntry>, commitId: nat, ghost cells: Cells, ghost log: seq<Write>, ghost s: State)
    returns (records: seq<Log.Record>)
    requires s.phase.Committing? && s.phase.txn.stamped == 0 && commitId == s.phase.txn.cid && log == s.phase.txn.log
    requires TablesApart(tables, cells) && forall t :: t in tables ==> Holds(tables[t], cells(t), s)
    requires Describes(buffer, s.phase.txn.id, log, tables, cells)
    requires Inv(s)
    modifies Infos(buffer)
    ensures forall t :: t in tables ==> Holds(tables[t], cells(t), TransactionManager.AllStamped(s))
    ensures Writes(buffer) <= |log| && forall topic :: Log.Logged(records, topic) == Log.History(UndoEntries(buffer, log), topic)
    ensures Log.SizesOk(records, map[])
  {
    hide Holds, Inv, OneCommitted, TablesApart, Writes, Log.InStep, Log.SizesOk, UndoEntries, UndoEntryOf, TransactionManager.AllStamped;
    records := [];
    var appends: Log.Appends := map[];
    ghost var now := s;
    Log.InStepNone();
    NoEntries(log);
    assert buffer[..0] == [];
    for i := 0 to |buffer|
      invariant now.phase.Committing? && now.phase.txn == s.phase.txn.(stamped := Writes(buffer[..i])) && Inv(now)
      invariant TransactionManager.AllStamped(now) == TransactionManager.AllStamped(s)
      invariant forall t :: t in tables ==> Holds(tables[t], cells(t), now)
      invariant Writes(buffer[..i]) <= |log| && Log.SizesOk(records, appends)
      invariant Log.InStep(UndoEntries(buffer[..i], log), records, appends)
    {
      Committable(buffer, i, now);
      EntriesPush(buffer, i, log);
      var e := CommitEntry(tables, buffer[i], commitId, cells, now);
      records, appends := Log.LogEntry(records, appends, e, UndoEntries(buffer[..i], log));
      if !buffer[i].QueryEntry? {
        MvccSteps.CommitOneKeeps(now);
        TransactionManager.StampNext(now);
        NextPhase(now);
        now := OneCommitted(now);
      }
    }
    assert buffer[..|buffer|] == buffer;
    records := Log.FlushAppends(records, appends, UndoEntries(buffer, log));
    Log.InStepDone(UndoEntries(buffer, log), records);
    TransactionManager.StampDone(now);
  }

  lemma DescribedFits(buffer: seq<BufferEntry>, s: State, tables: Tables, cells: Cells)
    requires s.phase.Committing? && TablesApart(tables, cells) && Describes(buffer, s.phase.txn.id, s.phase.txn.log, tables, cells)
    requires Inv(s)
    ensures AllFit(buffer, s.phase.txn.log, tables.Keys, cells)
  {
    var log := s.phase.txn.log;
    forall p | 0 <= p < |log| && log[p].flag.InsertTuple? ensures log[p].value.Some? {
      LogFitsAt(Committed(s), log, |log|, p);
    }
    hide Inv;
    forall i | 0 <= i < |buffer| ensures Fits(buffer[i], Writes(buffer[..i]), log, tables.Keys, cells) {
      assert Stands(buffer[i], Writes(buffer[..i]), s.phase.txn.id, log, tables, cells);
    }
  }

  /**
   Commits an undo buffer. All its entries get the commit identifier in order. The
   log holds, for every table, the values of the insertions into it, each once and
   in order, and the queries and catalog changes of the buffer in order; what comes
   before a query in the buffer comes before it in the log, and nothing else does.
   */
  method Commit(tables: Tables, buffer: seq<BufferEntry>, commitId: nat, ghost cells: Cells, ghost s: State)
    returns (records: seq<Log.Record>)
    requires s.phase.Committing? && s.phase.txn.stamped == 0 && commitId == s.phase.txn.cid
    requires TablesApart(tables, cells) && forall t :: t in tables ==> Holds(tables[t], cells(t), s)
    requires Describes(buffer, s.phase.txn.id, s.phase.txn.log, tables, cells)
    requires Inv(s)
    modifies Infos(buffer)
    ensures forall t :: t in tables ==> Holds(tables[t], cells(t), TransactionManager.AllStamped(s))
    ensures forall t :: t in tables ==> Somes(Log.RowsIn(records, t)) == Inserted(s.phase.txn.log, cells(t))
    ensures forall t :: t !in tables ==> Log.RowsIn(records, t) == []
    ensures Log.QueriesIn(records) == Queries(buffer) && Log.ChangesIn(records) == NameChanges(buffer)
    ensures forall q :: 0 <= q < |records| && records[q].QueryRecord? ==>
              exists b :: SameQuery(records, q, buffer, b, s.phase.txn.log, tables.Keys, cells)
    ensures Log.SizesOk(records, map[])
  {
    hide Inv, Holds, TablesApart, AllFit, UndoEntries, Inserted, Somes, SameQuery, Log.Logged, Log.History, Log.RowsIn;
    ghost var log := s.phase.txn.log;
    DescribedFits(buffer, s, tables, cells);
    assert Writes(buffer) == |log|;
    records := CommitEntries(tables, buffer, commitId, cells, log, s);
    AllQueries(records, buffer, log);
    forall t ensures t in tables ==> Somes(Log.RowsIn(records, t)) == Inserted(log, cells(t))
             ensures t !in tables ==> Log.RowsIn(records, t) == [] {
      AllRows(records, buffer, log, tables.Keys, cells, t);
    }
    forall q | 0 <= q < |records| && records[q].QueryRecord?
      ensures exists b :: SameQuery(records, q, buffer, b, log, tables.Keys, cells)
    {
      var b := QueryPlace(records, q, buffer, log, tables.Keys, cells);
    }
  }
}
