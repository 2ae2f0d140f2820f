/**
 What committing a transaction writes to the log: insertions buffered per
 table, queries and catalog changes, against the order of the undo buffer.
 */
module UndoLogging {
  import opened VersionChain
  import opened Vectors

  type TableName(==, !new)
  type Change(==, !new)

  /**
   One undo buffer entry as the log sees it. `Insertion` carries the value the
   row was inserted with, which CommitLogging recovers from the version list;
   updates and deletions are logged as queries.
   */
  datatype UndoEntry =
    | Insertion(table: TableName, row: Payload)
    | UpdateOrDelete
    | Query(text: string)
    | Catalog(change: Change)

  datatype Record = InsertRecord(into: TableName, rows: seq<Payload>) | QueryRecord(query: string) | CatalogRecord(made: Change)

  // ---------------------------------------------------------------- what a log tells about one table

  datatype Event = Row(value: Payload) | Asked(text: string) | Changed(change: Change)

  /** A table, or the catalog. */
  datatype Topic = Rows(table: TableName) | Changes

  function EntryEvents(e: UndoEntry, topic: Topic): seq<Event> {
    match e
    case Insertion(table, row) => if topic == Rows(table) then [Row(row)] else []
    case UpdateOrDelete => []
    case Query(text) => [Asked(text)]
    case Catalog(change) => if topic == Changes then [Changed(change)] else []
  }

  /** The insertions into one table, or the catalog changes, among all queries, in undo buffer order. */
  function History(entries: seq<UndoEntry>, topic: Topic): seq<Event> {
    if entries == [] then []
    else History(entries[..|entries| - 1], topic) + EntryEvents(entries[|entries| - 1], topic)
  }

  function RowEvents(rows: seq<Payload>): seq<Event> {
    seq(|rows|, i requires 0 <= i < |rows| => Row(rows[i]))
  }

  function RecordEvents(r: Record, topic: Topic): seq<Event> {
    match r
    case InsertRecord(into, rows) => if topic == Rows(into) then RowEvents(rows) else []
    case QueryRecord(query) => [Asked(query)]
    case CatalogRecord(made) => if topic == Changes then [Changed(made)] else []
  }

  /** The same events as they were logged. */
  function Logged(records: seq<Record>, topic: Topic): seq<Event> {
    if records == [] then []
    else Logged(records[..|records| - 1], topic) + RecordEvents(records[|records| - 1], topic)
  }

  lemma HistoryPush(entries: seq<UndoEntry>, e: UndoEntry, topic: Topic)
    ensures History(entries + [e], topic) == History(entries, topic) + EntryEvents(e, topic)
  {
    assert (entries + [e])[..|entries|] == entries;
  }

  lemma LoggedPush(records: seq<Record>, r: Record, topic: Topic)
    ensures Logged(records + [r], topic) == Logged(records, topic) + RecordEvents(r, topic)
  {
    assert (records + [r])[..|records|] == records;
  }

  // ---------------------------------------------------------------- committing

  type Appends = map<TableName, seq<Payload>>

  /** What waits in the buffers for a topic. */
  function Buffered(appends: Appends, topic: Topic): seq<Event> {
    if topic.Rows? && topic.table in appends then RowEvents(appends[topic.table]) else []
  }

  predicate BufferOk(rows: seq<Payload>) {
    1 <= |rows| <= STANDARD_VECTOR_SIZE
  }

  /** Buffers and logged insertions hold between one row and a vector of them. */
  predicate SizesOk(records: seq<Record>, appends: Appends) {
    && (forall t :: t in appends ==> BufferOk(appends[t]))
    && (forall k :: 0 <= k < |records| && records[k].InsertRecord? ==> BufferOk(records[k].rows))
  }

  /** Logged and buffered events together are those of the undo buffer. */
  ghost predicate InStep(entries: seq<UndoEntry>, records: seq<Record>, appends: Appends) {
    forall topic :: Logged(records, topic) + Buffered(appends, topic) == History(entries, topic)
  }

  /** Writing the buffer of a table moves its rows to the log. */
  lemma StepFlush(entries: seq<UndoEntry>, records: seq<Record>, appends: Appends, table: TableName, after: Appends)
    requires InStep(entries, records, appends) && table in appends
    requires after == appends - {table} || after == appends[table := []]
    ensures InStep(entries, records + [InsertRecord(table, appends[table])], after)
  {
    hide Logged, History, Buffered, RecordEvents;
    var r := InsertRecord(table, appends[table]);
    forall topic ensures Logged(records + [r], topic) + Buffered(after, topic) == History(entries, topic) {
      LoggedPush(records, r, topic);
      FlushMoves(appends, table, after, topic);
      assert Logged(records, topic) + Buffered(appends, topic) == History(entries, topic);
    }
  }

  lemma FlushMoves(appends: Appends, table: TableName, after: Appends, topic: Topic)
    requires table in appends && (after == appends - {table} || after == appends[table := []])
    ensures Buffered(appends, topic) == RecordEvents(InsertRecord(table, appends[table]), topic) + Buffered(after, topic)
  {}

  /** A new row at the end of its buffer is the newest insertion. */
  lemma StepRow(entries: seq<UndoEntry>, records: seq<Record>, appends: Appends, table: TableName, row: Payload)
    requires InStep(entries, records, appends)
    ensures var rows := if table in appends then appends[table] else [];
            InStep(entries + [Insertion(table, row)], records, appends[table := rows + [row]])
  {
    hide Logged, History;
    var e, rows := Insertion(table, row), if table in appends then appends[table] else [];
    var after := appends[table := rows + [row]];
    forall topic ensures Logged(records, topic) + Buffered(after, topic) == History(entries + [e], topic) {
      HistoryPush(entries, e, topic);
      assert Logged(records, topic) + Buffered(appends, topic) == History(entries, topic);
      assert Buffered(after, topic) == Buffered(appends, topic) + EntryEvents(e, topic) by {
        assert RowEvents(rows + [row]) == RowEvents(rows) + [Row(row)];
      }
    }
  }

  /** Writes all buffered insertions, in any order of the tables. */
  method FlushAppends(log: seq<Record>, buffers: Appends, ghost entries: seq<UndoEntry>) returns (records: seq<Record>)
    requires SizesOk(log, buffers) && InStep(entries, log, buffers)
    ensures SizesOk(records, map[]) && InStep(entries, records, map[])
  {
    hide InStep;
    var appends := buffers;
    records := log;
    while appends.Keys != {}
      invariant SizesOk(records, appends) && InStep(entries, records, appends)
      decreases |appends.Keys|
    {
      var table :| table in appends.Keys;
      StepFlush(entries, records, appends, table, appends - {table});
      assert (appends - {table}).Keys == appends.Keys - {table};
      records, appends := records + [InsertRecord(table, appends[table])], appends - {table};
    }
    assert appends == map[];
  }

  /** Buffers one insertion; a full buffer is written first. */
  method WriteTuple(log: seq<Record>, buffers: Appends, table: TableName, row: Payload, ghost entries: seq<UndoEntry>)
    returns (records: seq<Record>, appends: Appends)
    requires SizesOk(log, buffers) && InStep(entries, log, buffers)
    ensures SizesOk(records, appends) && InStep(entries + [Insertion(table, row)], records, appends)
  {
    hide InStep;
    records, appends := log, buffers;
    if table in appends {
      if |appends[table]| == STANDARD_VECTOR_SIZE {
        StepFlush(entries, records, appends, table, appends[table := []]);
        records, appends := records + [InsertRecord(table, appends[table])], appends[table := []];
      }
    } else {
      StepNew(entries, records, appends, table);
      appends := appends[table := []];
    }
    StepRow(entries, records, appends, table, row);
    appends := appends[table := appends[table] + [row]];
  }

  lemma StepNew(entries: seq<UndoEntry>, records: seq<Record>, appends: Appends, table: TableName)
    requires InStep(entries, records, appends) && table !in appends
    ensures InStep(entries, records, appends[table := []])
  {
    hide Logged, History;
    forall topic ensures Logged(records, topic) + Buffered(appends[table := []], topic) == History(entries, topic) {
      assert Logged(records, topic) + Buffered(appends, topic) == History(entries, topic);
      assert Buffered(appends[table := []], topic) == Buffered(appends, topic);
    }
  }

  /** Logs one entry: insertions wait in the buffers, which are written before a query. */
  method LogEntry(log: seq<Record>, buffers: Appends, e: UndoEntry, ghost entries: seq<UndoEntry>)
    returns (records: seq<Record>, appends: Appends)
    requires SizesOk(log, buffers) && InStep(entries, log, buffers)
    ensures SizesOk(records, appends) && InStep(entries + [e], records, appends)
  {
    hide InStep;
    records, appends := log, buffers;
    match e
    case Insertion(table, row) =>
      records, appends := WriteTuple(records, appends, table, row, entries);
    case UpdateOrDelete =>
      StepSame(entries, e, records, appends);
    case Query(text) =>
      records := FlushAppends(records, appends, entries);
      appends := map[];
      StepRecord(entries, e, records, appends, QueryRecord(text));
      records := records + [QueryRecord(text)];
    case Catalog(change) =>
      StepRecord(entries, e, records, appends, CatalogRecord(change));
      records := records + [CatalogRecord(change)];
  }

  lemma InStepDone(entries: seq<UndoEntry>, records: seq<Record>)
    requires InStep(entries, records, map[])
    ensures forall topic :: Logged(records, topic) == History(entries, topic)
  {
    forall topic ensures Logged(records, topic) == History(entries, topic) {
      assert Logged(records, topic) + Buffered(map[], topic) == History(entries, topic);
    }
  }

  lemma InStepNone()
    ensures InStep([], [], map[]) && SizesOk([], map[])
  {
  }

  lemma StepSame(entries: seq<UndoEntry>, e: UndoEntry, records: seq<Record>, appends: Appends)
    requires InStep(entries, records, appends) && e.UpdateOrDelete?
    ensures InStep(entries + [e], records, appends)
  {
    forall topic ensures Logged(records, topic) + Buffered(appends, topic) == History(entries + [e], topic) {
      HistoryPush(entries, e, topic);
      assert Logged(records, topic) + Buffered(appends, topic) == History(entries, topic);
    }
  }

  /** A query written with empty buffers, or a catalog change, keeps the log in step. */
  lemma StepRecord(entries: seq<UndoEntry>, e: UndoEntry, records: seq<Record>, appends: Appends, r: Record)
    requires InStep(entries, records, appends)
    requires (e.Query? && r == QueryRecord(e.text) && appends == map[]) || (e.Catalog? && r == CatalogRecord(e.change))
    ensures InStep(entries + [e], records + [r], appends)
  {
    hide Logged, History;
    forall topic ensures Logged(records + [r], topic) + Buffered(appends, topic) == History(entries + [e], topic) {
      HistoryPush(entries, e, topic);
      LoggedPush(records, r, topic);
      assert Logged(records, topic) + Buffered(appends, topic) == History(entries, topic);
    }
  }

  // ---------------------------------------------------------------- what a log holds, record by record

  /** The rows that the records insert into a table, in order. */
  function RowsIn(records: seq<Record>, table: TableName): seq<Payload> {
    if records == [] then []
    else
      var last := records[|records| - 1];
      RowsIn(records[..|records| - 1], table) + if last.InsertRecord? && last.into == table then last.rows else []
  }

  function QueriesIn(records: seq<Record>): seq<string> {
    if records == [] then []
    else
      var last := records[|records| - 1];
      QueriesIn(records[..|records| - 1]) + if last.QueryRecord? then [last.query] else []
  }

  function ChangesIn(records: seq<Record>): seq<Change> {
    if records == [] then []
    else
      var last := records[|records| - 1];
      ChangesIn(records[..|records| - 1]) + if last.CatalogRecord? then [last.made] else []
  }

  /** The same of undo buffer entries. */
  function RowsOf(entries: seq<UndoEntry>, table: TableName): seq<Payload> {
    if entries == [] then []
    else
      var last := entries[|entries| - 1];
      RowsOf(entries[..|entries| - 1], table) + if last.Insertion? && last.table == table then [last.row] else []
  }

  function QueriesOf(entries: seq<UndoEntry>): seq<string> {
    if entries == [] then []
    else
      var last := entries[|entries| - 1];
      QueriesOf(entries[..|entries| - 1]) + if last.Query? then [last.text] else []
  }

  function ChangesOf(entries: seq<UndoEntry>): seq<Change> {
    if entries == [] then []
    else
      var last := entries[|entries| - 1];
      ChangesOf(entries[..|entries| - 1]) + if last.Catalog? then [last.change] else []
  }

  /** Every row of an insert record is there, behind those of the records before it. */
  lemma {:induction false} RowsInAt(records: seq<Record>, table: TableName, q: nat, j: nat)
    requires q < |records| && records[q].InsertRecord? && records[q].into == table && j < |records[q].rows|
    ensures |RowsIn(records[..q], table)| + j < |RowsIn(records, table)|
    ensures RowsIn(records, table)[|RowsIn(records[..q], table)| + j] == records[q].rows[j]
  {
    if q < |records| - 1 {
      var init := records[..|records| - 1];
      assert init[..q] == records[..q];
      RowsInAt(init, table, q, j);
    }
  }

  /** And no other row. */
  lemma {:induction false} RowsInFrom(records: seq<Record>, table: TableName, i: nat) returns (q: nat, j: nat)
    requires i < |RowsIn(records, table)|
    ensures q < |records| && records[q].InsertRecord? && records[q].into == table && j < |records[q].rows|
    ensures i == |RowsIn(records[..q], table)| + j
  {
    var init := records[..|records| - 1];
    if i < |RowsIn(init, table)| {
      q, j := RowsInFrom(init, table, i);
      assert init[..q] == records[..q];
    } else {
      q, j := |records| - 1, i - |RowsIn(init, table)|;
    }
  }

  // ---------------------------------------------------------------- events

  function Among<T>(es: seq<Event>, pick: Event -> seq<T>): seq<T> {
    if es == [] then [] else pick(es[0]) + Among(es[1..], pick)
  }

  function RowOf(e: Event): seq<Payload> {
    if e.Row? then [e.value] else []
  }

  function QueryOf(e: Event): seq<string> {
    if e.Asked? then [e.text] else []
  }

  function ChangeOf(e: Event): seq<Change> {
    if e.Changed? then [e.change] else []
  }

  function RowsAmong(es: seq<Event>): seq<Payload> {
    Among(es, RowOf)
  }

  function QueriesAmong(es: seq<Event>): seq<string> {
    Among(es, QueryOf)
  }

  function ChangesAmong(es: seq<Event>): seq<Change> {
    Among(es, ChangeOf)
  }

  lemma AmongFirst<T>(es: seq<Event>, pick: Event -> seq<T>)
    requires es != []
    ensures Among(es, pick) == pick(es[0]) + Among(es[1..], pick)
  {
  }

  lemma Regroup<T>(a: seq<T>, b: seq<T>, c: seq<T>)
    ensures a + (b + c) == a + b + c
  {
  }

  lemma {:induction false} AmongBoth<T>(a: seq<Event>, b: seq<Event>, pick: Event -> seq<T>)
    ensures Among(a + b, pick) == Among(a, pick) + Among(b, pick)
  {
    if a == [] {
      assert a + b == b;
    } else {
      hide Among;
      AmongFirst(a, pick);
      AmongFirst(a + b, pick);
      assert (a + b)[1..] == a[1..] + b;
      AmongBoth(a[1..], b, pick);
      Regroup(pick(a[0]), Among(a[1..], pick), Among(b, pick));
    }
  }

  lemma AmongConcat(a: seq<Event>, b: seq<Event>)
    ensures RowsAmong(a + b) == RowsAmong(a) + RowsAmong(b)
    ensures QueriesAmong(a + b) == QueriesAmong(a) + QueriesAmong(b)
    ensures ChangesAmong(a + b) == ChangesAmong(a) + ChangesAmong(b)
  {
    hide Among;
    AmongBoth(a, b, RowOf);
    AmongBoth(a, b, QueryOf);
    AmongBoth(a, b, ChangeOf);
  }

  lemma {:induction false} AmongRows(rows: seq<Payload>)
    ensures RowsAmong(RowEvents(rows)) == rows && QueriesAmong(RowEvents(rows)) == [] && ChangesAmong(RowEvents(rows)) == []
  {
    if rows != [] {
      assert RowEvents(rows)[1..] == RowEvents(rows[1..]);
      AmongRows(rows[1..]);
    }
  }

  lemma AmongOne(e: Event)
    ensures RowsAmong([e]) == if e.Row? then [e.value] else []
    ensures QueriesAmong([e]) == if e.Asked? then [e.text] else []
    ensures ChangesAmong([e]) == if e.Changed? then [e.change] else []
  {
    AmongSole(e, RowOf);
    AmongSole(e, QueryOf);
    AmongSole(e, ChangeOf);
  }

  lemma AmongSole<T>(e: Event, pick: Event -> seq<T>)
    ensures Among([e], pick) == pick(e)
  {
    AmongFirst([e], pick);
    assert [e][1..] == [] && Among<T>([], pick) == [];
  }

  lemma RecordAmong(r: Record, topic: Topic)
    ensures topic.Rows? ==> RowsAmong(RecordEvents(r, topic)) == if r.InsertRecord? && r.into == topic.table then r.rows else []
    ensures QueriesAmong(RecordEvents(r, topic)) == if r.QueryRecord? then [r.query] else []
    ensures topic.Changes? ==> ChangesAmong(RecordEvents(r, topic)) == if r.CatalogRecord? then [r.made] else []
  {
    match r
    case InsertRecord(_, rows) => AmongRows(rows);
    case QueryRecord(query) => AmongOne(Asked(query));
    case CatalogRecord(made) => AmongOne(Changed(made));
  }

  lemma {:induction false} LoggedHolds(records: seq<Record>, topic: Topic)
    ensures topic.Rows? ==> RowsAmong(Logged(records, topic)) == RowsIn(records, topic.table)
    ensures QueriesAmong(Logged(records, topic)) == QueriesIn(records)
    ensures topic.Changes? ==> ChangesAmong(Logged(records, topic)) == ChangesIn(records)
  {
    if records != [] {
      var init, last := records[..|records| - 1], records[|records| - 1];
      LoggedHolds(init, topic);
      AmongConcat(Logged(init, topic), RecordEvents(last, topic));
      RecordAmong(last, topic);
    }
  }

  lemma EntryAmong(e: UndoEntry, topic: Topic)
    ensures topic.Rows? ==> RowsAmong(EntryEvents(e, topic)) == if e.Insertion? && e.table == topic.table then [e.row] else []
    ensures QueriesAmong(EntryEvents(e, topic)) == if e.Query? then [e.text] else []
    ensures topic.Changes? ==> ChangesAmong(EntryEvents(e, topic)) == if e.Catalog? then [e.change] else []
  {
    match e
    case Insertion(_, row) => AmongOne(Row(row));
    case UpdateOrDelete =>
    case Query(text) => AmongOne(Asked(text));
    case Catalog(change) => AmongOne(Changed(change));
  }

  lemma {:induction false} HistoryHolds(entries: seq<UndoEntry>, topic: Topic)
    ensures topic.Rows? ==> RowsAmong(History(entries, topic)) == RowsOf(entries, topic.table)
    ensures QueriesAmong(History(entries, topic)) == QueriesOf(entries)
    ensures topic.Changes? ==> ChangesAmong(History(entries, topic)) == ChangesOf(entries)
  {
    if entries != [] {
      var init, last := entries[..|entries| - 1], entries[|entries| - 1];
      HistoryHolds(init, topic);
      AmongConcat(History(init, topic), EntryEvents(last, topic));
      EntryAmong(last, topic);
    }
  }

  // ---------------------------------------------------------------- on the right side of a query

  lemma {:induction false} LoggedPrefix(records: seq<Record>, q: nat, topic: Topic)
    requires q <= |records|
    ensures Logged(records[..q], topic) <= Logged(records, topic)
  {
    if q < |records| {
      LoggedPrefix(records[..|records| - 1], q, topic);
      assert records[..|records| - 1][..q] == records[..q];
    } else {
      assert records[..q] == records;
    }
  }

  lemma {:induction false} HistoryPrefix(entries: seq<UndoEntry>, b: nat, topic: Topic)
    requires b <= |entries|
    ensures History(entries[..b], topic) <= History(entries, topic)
  {
    if b < |entries| {
      HistoryPrefix(entries[..|entries| - 1], b, topic);
      assert entries[..|entries| - 1][..b] == entries[..b];
    } else {
      assert entries[..b] == entries;
    }
  }

  /** Two prefixes that end before a query, with equally many queries in them, are one. */
  lemma SameQuery(es: seq<Event>, a: seq<Event>, b: seq<Event>, x: string, y: string)
    requires a + [Asked(x)] <= es && b + [Asked(y)] <= es && |QueriesAmong(a)| == |QueriesAmong(b)|
    ensures a == b && x == y
  {
    if |a| < |b| {
      OneMore(a, b, x);
    } else if |b| < |a| {
      OneMore(b, a, y);
    } else {
      assert es[|a|] == Asked(x) && es[|b|] == Asked(y);
      assert a == es[..|a|] && b == es[..|b|];
    }
  }

  lemma OneMore(a: seq<Event>, b: seq<Event>, x: string)
    requires |a| < |b| && a + [Asked(x)] <= b
    ensures |QueriesAmong(a)| < |QueriesAmong(b)|
  {
    var c := b[|a| + 1..];
    assert b == a + [Asked(x)] + c;
    AmongConcat(a + [Asked(x)], c);
    AmongConcat(a, [Asked(x)]);
    AmongOne(Asked(x));
  }

  /** Before its query number `n`, a log tells what the undo buffer tells before its query number `n`. */
  lemma QuerySides(records: seq<Record>, entries: seq<UndoEntry>, q: nat, b: nat)
    requires forall topic :: Logged(records, topic) == History(entries, topic)
    requires q < |records| && records[q].QueryRecord? && b < |entries| && entries[b].Query?
    requires |QueriesIn(records[..q])| == |QueriesOf(entries[..b])|
    ensures records[q].query == entries[b].text
    ensures forall table :: RowsIn(records[..q], table) == RowsOf(entries[..b], table)
    ensures ChangesIn(records[..q]) == ChangesOf(entries[..b])
  {
    forall topic: Topic ensures records[q].query == entries[b].text && Logged(records[..q], topic) == History(entries[..b], topic) {
      QuerySide(records, entries, q, b, topic);
    }
    QuerySide(records, entries, q, b, Changes);
    LoggedHolds(records[..q], Changes);
    HistoryHolds(entries[..b], Changes);
    forall table ensures RowsIn(records[..q], table) == RowsOf(entries[..b], table) {
      LoggedHolds(records[..q], Rows(table));
      HistoryHolds(entries[..b], Rows(table));
    }
  }

  lemma QuerySide(records: seq<Record>, entries: seq<UndoEntry>, q: nat, b: nat, topic: Topic)
    requires Logged(records, topic) == History(entries, topic)
    requires q < |records| && records[q].QueryRecord? && b < |entries| && entries[b].Query?
    requires |QueriesIn(records[..q])| == |QueriesOf(entries[..b])|
    ensures records[q].query == entries[b].text && Logged(records[..q], topic) == History(entries[..b], topic)
  {
    hide Logged, History, RowsAmong, QueriesAmong, ChangesAmong, RowsIn, QueriesIn, ChangesIn, RowsOf, QueriesOf, ChangesOf;
    LoggedHolds(records[..q], topic);
    HistoryHolds(entries[..b], topic);
    LoggedPrefix(records, q + 1, topic);
    HistoryPrefix(entries, b + 1, topic);
    assert records[..q + 1] == records[..q] + [records[q]] && entries[..b + 1] == entries[..b] + [entries[b]];
    LoggedPush(records[..q], records[q], topic);
    HistoryPush(entries[..b], entries[b], topic);
    SameQuery(Logged(records, topic), Logged(records[..q], topic), History(entries[..b], topic), records[q].query, entries[b].text);
  }
}
