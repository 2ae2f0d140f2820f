/**
 Multi-version concurrency control as a transition system.

 Transactions start, write, commit one undo entry at a time, roll back in
 reverse and are garbage collected against the lowest active start time.
 Every section the engine runs under a lock is one step, and the steps of
 different transactions interleave freely, except that starting, committing,
 rolling back and collecting share the transaction lock (`phase`).
 */
module Mvcc {
  import opened VersionChain

  type Cell(==, !new)

  datatype UndoFlag = InsertTuple | UpdateTuple | DeleteTuple

  /** One undo buffer entry, with the value it wrote (None for a deletion). */
  datatype Write = Write(flag: UndoFlag, cell: Cell, value: Option<Payload>)

  /** `stamped` entries of the log carry the commit identifier, `cleaned` entries have been collected. */
  datatype Txn = Txn(id: nat, start: nat, cid: nat, log: seq<Write>, stamped: nat, cleaned: nat)

  /** Who holds the transaction lock. */
  datatype Phase = Idle | Committing(txn: Txn) | RollingBack(index: nat) | Collecting(lowest: nat)

  /**
   `cells` holds the chain of every cell ever written. `retired` and `floor` are
   history variables: the committed transactions that were collected, and the
   database after all collected writes.
   */
  datatype State = State(counter: nat, nextId: nat, cells: map<Cell, Chain>, active: seq<Txn>, phase: Phase,
                         recent: seq<Txn>, retired: seq<Txn>, floor: Db, cardinality: int)

  function ChainAt(s: State, c: Cell): Chain {
    if c in s.cells then s.cells[c] else Chain([], None)
  }

  function Read(s: State, t: Txn, c: Cell): Option<Payload> {
    Pick(ChainAt(s, c).nodes, ChainAt(s, c).origin, t.id, t.start)
  }

  function LowestStart(ts: seq<Txn>): (r: nat)
    ensures r <= TRANSACTION_ID_START
    ensures forall i :: 0 <= i < |ts| ==> r <= ts[i].start
    ensures r == TRANSACTION_ID_START || exists i :: 0 <= i < |ts| && r == ts[i].start
  {
    if ts == [] then TRANSACTION_ID_START
    else
      var r := LowestStart(ts[..|ts| - 1]);
      if ts[|ts| - 1].start < r then ts[|ts| - 1].start else r
  }

  function Remove(ts: seq<Txn>, i: nat): (r: seq<Txn>)
    requires i < |ts|
    ensures |r| == |ts| - 1
    ensures forall k :: 0 <= k < |r| ==> r[k] == ts[if k < i then k else k + 1]
  {
    ts[..i] + ts[i + 1..]
  }

  // ---------------------------------------------------------------- steps

  datatype Step =
    | Start
    | DoWrite(index: nat, write: Write)
    | BeginCommit(index: nat)
    | CommitOne
    | EndCommit
    | BeginRollback(index: nat)
    | UndoOne
    | EndRollback
    | CleanupOne
    | Retire
    | Release

  /** What a write does to a cell that is (not) present: inserting creates it, updating and deleting find it. */
  predicate FlagFits(w: Write, present: bool) {
    && (w.flag.InsertTuple? <==> !present)
    && (w.flag.DeleteTuple? <==> w.value.None?)
  }

  /**
   When a step can happen. One condition is a hypothesis on the run rather than
   a test the engine makes: updates and deletions reach only rows that are not
   deleted in the base table.
   */
  predicate Enabled(s: State, step: Step) {
    match step
    case Start => s.phase.Idle? && s.counter < TRANSACTION_ID_START
    case DoWrite(i, w) => CanWrite(s, i, w)
    case BeginCommit(i) => s.phase.Idle? && i < |s.active|
    case CommitOne => s.phase.Committing? && s.phase.txn.stamped < |s.phase.txn.log|
    case EndCommit => s.phase.Committing? && s.phase.txn.stamped == |s.phase.txn.log|
    case BeginRollback(i) => s.phase.Idle? && i < |s.active|
    case UndoOne => s.phase.RollingBack? && s.phase.index < |s.active| && s.active[s.phase.index].log != []
    case EndRollback => s.phase.RollingBack? && s.phase.index < |s.active| && s.active[s.phase.index].log == []
    case CleanupOne => Collectable(s) && s.recent[0].cleaned < |s.recent[0].log|
    case Retire => Collectable(s) && s.recent[0].cleaned == |s.recent[0].log|
    case Release => s.phase.Collecting? && !Collectable(s)
  }

  predicate CanWrite(s: State, i: nat, w: Write) {
    && i < |s.active|
    && s.phase != RollingBack(i)
    && !Conflict(ChainAt(s, w.cell), s.active[i].id)
    && FlagFits(w, Base(ChainAt(s, w.cell)).Some?)
  }

  predicate Collectable(s: State) {
    s.phase.Collecting? && s.recent != [] && s.recent[0].cid < s.phase.lowest
  }

  function Delta(w: Write): int {
    match w.flag
    case InsertTuple => 1
    case DeleteTuple => -1
    case UpdateTuple => 0
  }

  function Started(s: State): State {
    s.(counter := s.counter + 1, nextId := s.nextId + 1,
       active := s.active + [Txn(s.nextId, s.counter, 0, [], 0, 0)])
  }

  function Written(s: State, i: nat, w: Write): State
    requires CanWrite(s, i, w)
  {
    var t := s.active[i];
    s.(active := s.active[i := t.(log := t.log + [w])],
       cells := s.cells[w.cell := Push(ChainAt(s, w.cell), Version(t.id, t.id, |t.log|, w.value))])
  }

  function CommitBegun(s: State, i: nat): State
    requires Enabled(s, BeginCommit(i))
  {
    s.(counter := s.counter + 1, active := Remove(s.active, i),
       phase := Committing(s.active[i].(cid := s.counter)))
  }

  function OneCommitted(s: State): State
    requires Enabled(s, CommitOne)
  {
    var t := s.phase.txn;
    var w := t.log[t.stamped];
    var chain := ChainAt(s, w.cell);
    s.(phase := Committing(t.(stamped := t.stamped + 1)),
       cells := s.cells[w.cell := chain.(nodes := Stamp(chain.nodes, t.id, t.stamped, t.cid))],
       cardinality := s.cardinality + Delta(w))
  }

  function CommitEnded(s: State): State
    requires Enabled(s, EndCommit)
  {
    s.(phase := Collecting(LowestStart(s.active)), recent := s.recent + [s.phase.txn])
  }

  function OneUndone(s: State): State
    requires Enabled(s, UndoOne)
  {
    var t := s.active[s.phase.index];
    var last := |t.log| - 1;
    var c := t.log[last].cell;
    s.(active := s.active[s.phase.index := t.(log := t.log[..last])],
       cells := s.cells[c := Undo(ChainAt(s, c), t.id, last)])
  }

  function RollbackEnded(s: State): State
    requires Enabled(s, EndRollback)
  {
    var rest := Remove(s.active, s.phase.index);
    s.(active := rest, phase := Collecting(LowestStart(rest)))
  }

  function OneCleaned(s: State): State
    requires Enabled(s, CleanupOne)
  {
    var t := s.recent[0];
    var w := t.log[t.cleaned];
    s.(recent := [t.(cleaned := t.cleaned + 1)] + s.recent[1..],
       cells := s.cells[w.cell := Unlink(ChainAt(s, w.cell), t.id, t.cleaned)],
       floor := ApplyWrite(s.floor, w))
  }

  function Retired(s: State): State
    requires Enabled(s, Retire)
  {
    s.(recent := s.recent[1..], retired := s.retired + [s.recent[0]])
  }

  function Next(s: State, step: Step): State
    requires Enabled(s, step)
  {
    match step
    case Start => Started(s)
    case DoWrite(i, w) => Written(s, i, w)
    case BeginCommit(i) => CommitBegun(s, i)
    case CommitOne => OneCommitted(s)
    case EndCommit => CommitEnded(s)
    case BeginRollback(i) => s.(phase := RollingBack(i))
    case UndoOne => OneUndone(s)
    case EndRollback => RollbackEnded(s)
    case CleanupOne => OneCleaned(s)
    case Retire => Retired(s)
    case Release => s.(phase := Idle)
  }

  const Init := State(0, TRANSACTION_ID_START, map[], [], Idle, [], [], map[], 0)

  // ---------------------------------------------------------------- the reference database

  type Db = map<Cell, Payload>

  function Lookup(db: Db, c: Cell): Option<Payload> {
    if c in db then Some(db[c]) else None
  }

  function ApplyWrite(db: Db, w: Write): Db {
    if w.value.Some? then db[w.cell := w.value.value] else db - {w.cell}
  }

  /** The database after the first `hi` writes of a log. */
  function ApplyLog(db: Db, log: seq<Write>, hi: nat): Db
    requires hi <= |log|
  {
    if hi == 0 then db else ApplyWrite(ApplyLog(db, log, hi - 1), log[hi - 1])
  }

  /** The database after the transactions of `ts`, in order. */
  function DbOf(db: Db, ts: seq<Txn>): Db {
    if ts == [] then db
    else
      var t := ts[|ts| - 1];
      ApplyLog(DbOf(db, ts[..|ts| - 1]), t.log, |t.log|)
  }

  /** The database after exactly the transactions of `ts` with a commit identifier below `start`. */
  function DbBefore(db: Db, ts: seq<Txn>, start: nat): Db {
    if ts == [] then db
    else
      var t := ts[|ts| - 1];
      var before := DbBefore(db, ts[..|ts| - 1], start);
      if t.cid < start then ApplyLog(before, t.log, |t.log|) else before
  }

  /** The commits a transaction sees: those before its start, and one whose number is its identifier. */
  predicate SeesCommit(t: Txn, id: nat, start: nat) {
    t.cid < start || t.cid == id
  }

  /** The database after exactly the transactions of `ts` that a transaction sees. */
  function DbSeen(db: Db, ts: seq<Txn>, id: nat, start: nat): Db {
    if ts == [] then db
    else
      var t := ts[|ts| - 1];
      var before := DbSeen(db, ts[..|ts| - 1], id, start);
      if SeesCommit(t, id, start) then ApplyLog(before, t.log, |t.log|) else before
  }

  /** The snapshot of time `start`: everything committed before it. */
  function Snapshot(s: State, start: nat): Db {
    DbBefore(map[], s.retired + s.recent, start)
  }

  // ---------------------------------------------------------------- the chains a state must have

  function NodeOf(t: Txn, p: nat): Version
    requires p < |t.log|
  {
    Version(if p < t.stamped then t.cid else t.id, t.id, p, t.log[p].value)
  }

  /** The nodes of the log entries lo..hi that wrote `c`, newest first. */
  function LogNodes(t: Txn, lo: nat, hi: nat, c: Cell): seq<Version>
    requires hi <= |t.log|
  {
    if hi <= lo then []
    else (if t.log[hi - 1].cell == c then [NodeOf(t, hi - 1)] else []) + LogNodes(t, lo, hi - 1, c)
  }

  function TxnNodes(t: Txn, c: Cell): seq<Version> {
    LogNodes(t, t.cleaned, |t.log|, c)
  }

  function NodesOf(ts: seq<Txn>, c: Cell): seq<Version> {
    if ts == [] then [] else TxnNodes(ts[|ts| - 1], c) + NodesOf(ts[..|ts| - 1], c)
  }

  /** The nodes of the commit in progress. */
  function PendingNodes(s: State, c: Cell): seq<Version> {
    if s.phase.Committing? then TxnNodes(s.phase.txn, c) else []
  }

  function Nodes(s: State, c: Cell): seq<Version> {
    NodesOf(s.active, c) + PendingNodes(s, c) + NodesOf(s.recent, c)
  }

  /** The database as far as it was collected: chains keep its values as their origin. */
  function FloorOf(db: Db, ts: seq<Txn>): Db {
    if ts != [] && ts[0].cleaned <= |ts[0].log| then ApplyLog(db, ts[0].log, ts[0].cleaned) else db
  }

  /** The database of all finished commits. */
  function Committed(s: State): Db {
    DbOf(map[], s.retired + s.recent)
  }

  /** The database once the commit in progress, if any, is done. */
  function Latest(s: State): Db {
    if s.phase.Committing? then ApplyLog(Committed(s), s.phase.txn.log, |s.phase.txn.log|) else Committed(s)
  }

  /** Every entry of the log carries the flag that fits the database it was applied to. */
  ghost predicate LogFits(db: Db, log: seq<Write>, hi: nat)
    requires hi <= |log|
  {
    hi == 0 || (LogFits(db, log, hi - 1) && FlagFits(log[hi - 1], log[hi - 1].cell in ApplyLog(db, log, hi - 1)))
  }

  function LogDelta(log: seq<Write>, hi: nat): int
    requires hi <= |log|
  {
    if hi == 0 then 0 else LogDelta(log, hi - 1) + Delta(log[hi - 1])
  }
}
