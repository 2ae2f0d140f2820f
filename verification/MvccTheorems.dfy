/** What the transition system guarantees in every reachable state and over every run. */
module MvccTheorems {
  import opened VersionChain
  import opened Mvcc
  import opened MvccInvariant
  import opened MvccSteps

  // ---------------------------------------------------------------- runs

  ghost predicate IsRun(states: seq<State>, steps: seq<Step>) {
    && |states| == |steps| + 1
    && states[0] == Init
    && forall k :: 0 <= k < |steps| ==> Enabled(states[k], steps[k]) && states[k + 1] == Next(states[k], steps[k])
  }

  ghost predicate Reaches(states: seq<State>, steps: seq<Step>, s: State) {
    IsRun(states, steps) && states[|states| - 1] == s
  }

  /** A run that goes one step further. */
  lemma Take(states: seq<State>, steps: seq<Step>, s: State, step: Step) returns (more: seq<State>, all: seq<Step>)
    requires Reaches(states, steps, s) && Enabled(s, step)
    ensures Reaches(more, all, Next(s, step))
  {
    more, all := states + [Next(s, step)], steps + [step];
    hide Next, Enabled;
    forall k | 0 <= k < |all| ensures Enabled(more[k], all[k]) && more[k + 1] == Next(more[k], all[k]) {
      if k < |steps| {
        assert more[k] == states[k] && more[k + 1] == states[k + 1] && all[k] == steps[k];
      }
    }
  }

  lemma {:induction false} RunInv(states: seq<State>, steps: seq<Step>, n: nat)
    requires IsRun(states, steps) && n < |states|
    ensures Inv(states[n])
  {
    hide Inv, Next, Enabled;
    if n == 0 {
      InitKeeps();
    } else {
      RunInv(states, steps, n - 1);
      assert states[n] == Next(states[n - 1], steps[n - 1]);
      StepKeeps(states[n - 1], steps[n - 1]);
    }
  }

  // ---------------------------------------------------------------- snapshot isolation

  /** Nodes of other transactions that run or are committing are skipped by the walk. */
  lemma {:induction false} SkipOthers(ts: seq<Txn>, c: Cell, id: nat, start: nat)
    requires forall k :: 0 <= k < |ts| ==> ts[k].id != id && ts[k].id >= start && ts[k].stamped == 0
    ensures forall k :: 0 <= k < |NodesOf(ts, c)| ==> !Visible(NodesOf(ts, c)[k], id, start)
  {
    if ts != [] {
      var t := ts[|ts| - 1];
      SkipOthers(ts[..|ts| - 1], c, id, start);
      LogNodesAre(t, t.cleaned, |t.log|, c);
    }
  }

  /** The writes of the commit whose number is a transaction identifier, if there is one. */
  ghost function ClashOf(ts: seq<Txn>, id: nat): seq<Write> {
    if ts == [] then [] else if ts[|ts| - 1].cid == id then ts[|ts| - 1].log else ClashOf(ts[..|ts| - 1], id)
  }

  /** The same with a commit in progress, as far as it got. */
  ghost function Clash(s: State, id: nat): seq<Write> {
    if s.phase.Committing? && s.phase.txn.cid == id && s.phase.txn.stamped <= |s.phase.txn.log|
    then s.phase.txn.log[..s.phase.txn.stamped]
    else ClashOf(s.retired + s.recent, id)
  }

  /** What a transaction sees of the others: its snapshot, and the commit with its identifier. */
  ghost function Seen(s: State, id: nat, start: nat): Db {
    ApplyLog(Snapshot(s, start), Clash(s, id), |Clash(s, id)|)
  }

  lemma {:induction false} NoClash(ts: seq<Txn>, id: nat)
    requires forall k :: 0 <= k < |ts| ==> ts[k].cid != id
    ensures ClashOf(ts, id) == []
  {
    if ts != [] {
      NoClash(ts[..|ts| - 1], id);
    }
  }

  lemma {:induction false} DbSeenIs(db: Db, ts: seq<Txn>, id: nat, start: nat)
    requires start <= id && forall j, k :: 0 <= j < k < |ts| ==> ts[j].cid < ts[k].cid
    ensures DbSeen(db, ts, id, start) == ApplyLog(DbBefore(db, ts, start), ClashOf(ts, id), |ClashOf(ts, id)|)
  {
    if ts != [] {
      var init, t := ts[..|ts| - 1], ts[|ts| - 1];
      DbSeenIs(db, init, id, start);
      if t.cid <= id {
        NoClash(init, id);
      }
    }
  }

  /** A walk over committed nodes ends in what the transaction sees of them. */
  lemma PickRecent(s: State, id: nat, start: nat, c: Cell)
    requires NumbersOk(s) && FloorOk(s) && start <= TRANSACTION_ID_START <= id
    requires forall k :: 0 <= k < |s.retired| ==> s.retired[k].cid < start
    requires s.recent != [] && s.recent[0].cleaned > 0 ==> s.recent[0].cid < start
    requires forall k :: 0 <= k < |s.recent| ==> s.recent[k].id != id
    ensures Pick(NodesOf(s.recent, c), Lookup(s.floor, c), id, start)
            == Lookup(DbSeen(map[], s.retired + s.recent, id, start), c)
  {
    hide NodesOf, LogNodes, DbOf, DbBefore, Pick, DbSeen;
    PickTxns(DbOf(map[], s.retired), s.recent, c, id, start);
    DbSeenBefore(map[], s.retired, id, start);
    DbBeforeAll(map[], s.retired, start);
    DbSeenConcat(map[], s.retired, s.recent, id, start);
  }

  /** The entries of a log are newest first. */
  lemma {:induction false} LogNodesSplit(t: Txn, lo: nat, mid: nat, hi: nat, c: Cell)
    requires lo <= mid <= hi <= |t.log|
    ensures LogNodes(t, lo, hi, c) == LogNodes(t, mid, hi, c) + LogNodes(t, lo, mid, c)
  {
    if mid < hi {
      LogNodesSplit(t, lo, mid, hi - 1, c);
    }
  }

  /** The commit in progress: entries without their number are skipped, the others are seen if it is the identifier. */
  lemma PickPending(t: Txn, c: Cell, rest: seq<Version>, origin: Option<Payload>, id: nat, start: nat)
    requires t.id != id && start <= t.id && start <= t.cid && t.stamped <= |t.log| && t.cleaned == 0
    ensures Pick(TxnNodes(t, c) + rest, origin, id, start)
            == if t.cid == id && LogNodes(t, 0, t.stamped, c) != [] then LogNodes(t, 0, t.stamped, c)[0].value
               else Pick(rest, origin, id, start)
  {
    var open, done := LogNodes(t, t.stamped, |t.log|, c), LogNodes(t, 0, t.stamped, c);
    LogNodesSplit(t, 0, t.stamped, |t.log|, c);
    LogNodesAre(t, t.stamped, |t.log|, c);
    LogNodesAre(t, 0, t.stamped, c);
    assert TxnNodes(t, c) + rest == open + (done + rest);
    PickSkip(open, done + rest, origin, id, start);
    hide LogNodes;
    if t.cid != id {
      PickSkip(done, rest, origin, id, start);
    } else if done == [] {
      assert done + rest == rest;
    }
  }

  /** A walk that finds no uncommitted entry of its own ends in what the transaction sees of the others. */
  lemma PickCommitted(s: State, id: nat, start: nat, c: Cell)
    requires NumbersOk(s) && FloorOk(s) && start <= TRANSACTION_ID_START <= id
    requires forall k :: 0 <= k < |s.retired| ==> s.retired[k].cid < start
    requires s.recent != [] && s.recent[0].cleaned > 0 ==> s.recent[0].cid < start
    requires forall k :: 0 <= k < |s.recent| ==> s.recent[k].id != id
    requires s.phase.Committing? ==> s.phase.txn.id != id && start <= s.phase.txn.cid
    ensures Pick(PendingNodes(s, c) + NodesOf(s.recent, c), Lookup(s.floor, c), id, start)
            == Lookup(Seen(s, id, start), c)
  {
    hide NodesOf, LogNodes, DbOf, DbBefore, Pick, DbSeen, ClashOf, ApplyLog, FloorOk;
    PickRecent(s, id, start, c);
    DbSeenIs(map[], s.retired + s.recent, id, start);
    if s.phase.Committing? {
      var t := s.phase.txn;
      PickPending(t, c, NodesOf(s.recent, c), Lookup(s.floor, c), id, start);
      if t.cid == id {
        NoClash(s.retired + s.recent, id);
        SeenPending(Snapshot(s, start), t, c);
      }
    } else {
      assert PendingNodes(s, c) + NodesOf(s.recent, c) == NodesOf(s.recent, c);
    }
  }

  lemma SeenPending(db: Db, t: Txn, c: Cell)
    requires t.stamped <= |t.log|
    ensures Lookup(ApplyLog(db, t.log[..t.stamped], t.stamped), c)
            == if LogNodes(t, 0, t.stamped, c) == [] then Lookup(db, c) else LogNodes(t, 0, t.stamped, c)[0].value
    ensures ApplyLog(db, [], 0) == db
  {
    ApplyNodes(db, t, 0, t.stamped, c);
    ApplyPrefix(db, t.log[..t.stamped], t.log, t.stamped);
  }

  /** A cell the transaction wrote reads as its own last write. */
  lemma ReadOwn(s: State, i: nat, c: Cell)
    requires i < |s.active| && s.active[i].stamped == 0
    requires CellOk(s, c) && CellExclusive(s, c) && TxnNodes(s.active[i], c) != []
    ensures Read(s, s.active[i], c) == TxnNodes(s.active[i], c)[0].value
  {
    hide LogNodes, NodesOf;
    var t := s.active[i];
    NodesSole(s.active, i, c);
    LogNodesAre(t, t.cleaned, |t.log|, c);
    assert Nodes(s, c)[0] == TxnNodes(t, c)[0];
  }

  lemma CommittedFor(s: State, i: nat, c: Cell)
    requires NumbersOk(s) && FloorOk(s) && i < |s.active|
    ensures var t := s.active[i];
            Pick(PendingNodes(s, c) + NodesOf(s.recent, c), Lookup(s.floor, c), t.id, t.start) == Lookup(Seen(s, t.id, t.start), c)
  {
    hide LogNodes, NodesOf, Seen, FloorOk, Pick;
    assert TxnOk(s, s.active[i]);
    PickCommitted(s, s.active[i].id, s.active[i].start, c);
  }

  /** The uncommitted entries of others are not visible. */
  lemma SkipActive(s: State, i: nat, c: Cell)
    requires NumbersOk(s) && i < |s.active| && TxnNodes(s.active[i], c) == []
    ensures forall k :: 0 <= k < |NodesOf(s.active, c)| ==> !Visible(NodesOf(s.active, c)[k], s.active[i].id, s.active[i].start)
  {
    hide LogNodes, NodesOf, TxnNodes, Remove, RecentOk, CollectedOk, CommittingOk;
    NodesRemove(s.active, i, c);
    SkipOthers(Remove(s.active, i), c, s.active[i].id, s.active[i].start);
  }

  lemma ReadOther(s: State, i: nat, c: Cell)
    requires NumbersOk(s) && FloorOk(s) && CellOk(s, c) && i < |s.active| && TxnNodes(s.active[i], c) == []
    ensures Read(s, s.active[i], c) == Lookup(Seen(s, s.active[i].id, s.active[i].start), c)
  {
    hide LogNodes, NodesOf, TxnNodes, Seen, FloorOk, NumbersOk, Pick;
    var t := s.active[i];
    CommittedFor(s, i, c);
    SkipActive(s, i, c);
    var rest := PendingNodes(s, c) + NodesOf(s.recent, c);
    PickSkip(NodesOf(s.active, c), rest, Lookup(s.floor, c), t.id, t.start);
    assert Nodes(s, c) == NodesOf(s.active, c) + rest;
  }

  /**
   What a running transaction reads: the database of the commits before its
   start, the commit whose number is its identifier, if there is one, and its own
   writes, one over the other.
   */
  lemma ReadExactly(s: State, i: nat, c: Cell)
    requires Inv(s) && i < |s.active|
    ensures var t := s.active[i];
            Read(s, t, c) == Lookup(ApplyLog(Seen(s, t.id, t.start), t.log, |t.log|), c)
  {
    var t := s.active[i];
    assert CellOk(s, c) && CellExclusive(s, c);
    ApplyNodes(Seen(s, t.id, t.start), t, 0, |t.log|, c);
    hide LogNodes, Seen, CellOk, CellExclusive, Read;
    if TxnNodes(t, c) != [] {
      ReadOwn(s, i, c);
    } else {
      ReadOther(s, i, c);
    }
  }

  /** A commit has, or is getting, the identifier of a transaction as its number. */
  ghost predicate Clashes(s: State, id: nat) {
    || (exists k :: 0 <= k < |s.recent| && s.recent[k].cid == id)
    || (s.phase.Committing? && s.phase.txn.cid == id)
  }

  lemma NothingClashes(s: State, id: nat)
    requires NumbersOk(s) && id >= TRANSACTION_ID_START && !Clashes(s, id)
    ensures Clash(s, id) == []
  {
    NoClash(s.retired + s.recent, id);
  }

  /**
   Snapshot isolation: a running transaction reads exactly the database of the
   commits before its start, overlaid with its own writes.
   */
  lemma ReadIsSnapshot(s: State, i: nat, c: Cell)
    requires Inv(s) && i < |s.active| && !Clashes(s, s.active[i].id)
    ensures var t := s.active[i];
            Read(s, t, c) == Lookup(ApplyLog(Snapshot(s, t.start), t.log, |t.log|), c)
  {
    hide Snapshot, Read, Clashes, Clash, Exclusive, ChainsOk, FloorOk, CardinalityOk;
    NothingClashes(s, s.active[i].id);
    ReadExactly(s, i, c);
  }

  /** The cell is as in the snapshot, or the transaction wrote it itself. */
  ghost predicate Unharmed(s: State, t: Txn, c: Cell) {
    TxnNodes(t, c) != [] || Lookup(Seen(s, t.id, t.start), c) == Lookup(Snapshot(s, t.start), c)
  }

  /**
   A transaction reads its snapshot everywhere if and only if the commit with its
   identifier, if there is one, leaves all cells that the transaction has not
   written itself as they are in the snapshot.
   */
  lemma SnapshotExactly(s: State, i: nat)
    requires Inv(s) && i < |s.active|
    ensures var t := s.active[i];
            (forall c :: Read(s, t, c) == Lookup(ApplyLog(Snapshot(s, t.start), t.log, |t.log|), c))
            <==> forall c :: Unharmed(s, t, c)
  {
    var t := s.active[i];
    forall c
      ensures Read(s, t, c) == Lookup(ApplyLog(Snapshot(s, t.start), t.log, |t.log|), c) <==> Unharmed(s, t, c)
    {
      assert CellOk(s, c) && CellExclusive(s, c);
      ReadExactly(s, i, c);
      ApplyNodes(Seen(s, t.id, t.start), t, 0, |t.log|, c);
      ApplyNodes(Snapshot(s, t.start), t, 0, |t.log|, c);
    }
  }

  /** While the clock is not above 2^32, no commit has a transaction identifier as its number. */
  lemma ClockBelow(s: State, id: nat)
    requires NumbersOk(s) && s.counter <= TRANSACTION_ID_START <= id
    ensures !Clashes(s, id)
  {
  }

  /** No step changes what was committed before a transaction that keeps running. */
  lemma SnapshotStable(s: State, step: Step, start: nat)
    requires Enabled(s, step) && (s.phase.Committing? ==> start < s.phase.txn.cid)
    ensures Snapshot(Next(s, step), start) == Snapshot(s, start)
  {
    var s' := Next(s, step);
    match step
    case EndCommit =>
      var ts := s.retired + s'.recent;
      assert ts[..|ts| - 1] == s.retired + s.recent;
    case CleanupOne =>
      hide DbBefore, ApplyWrite, Unlink;
      DbBeforeSame(map[], s.retired + s.recent, s.retired + s'.recent, start);
    case Retire =>
      assert s'.retired + s'.recent == s.retired + s.recent;
    case _ =>
      hide DbBefore, LowestStart, Remove, Stamp, Undo;
  }

  lemma {:induction false} DbBeforeSame(db: Db, ts: seq<Txn>, us: seq<Txn>, start: nat)
    requires |ts| == |us| && forall k :: 0 <= k < |ts| ==> ts[k].log == us[k].log && ts[k].cid == us[k].cid
    ensures DbBefore(db, ts, start) == DbBefore(db, us, start)
  {
    if ts != [] {
      DbBeforeSame(db, ts[..|ts| - 1], us[..|us| - 1], start);
    }
  }

  /**
   Over a run, what a transaction sees changes only by its own writes: starts,
   writes, single entries of commits and rollbacks, and garbage collection of
   others leave it alone.
   */
  lemma {:induction false} ViewStable(states: seq<State>, steps: seq<Step>, m: nat, n: nat, i: nat, j: nat, c: Cell)
    requires IsRun(states, steps) && m <= n < |states|
    requires i < |states[m].active| && j < |states[n].active| && states[m].active[i] == states[n].active[j]
    requires forall k :: m <= k <= n ==> HasStart(states[k], states[m].active[i].start)
    requires !Clashes(states[m], states[m].active[i].id) && !Clashes(states[n], states[n].active[j].id)
    ensures Read(states[n], states[n].active[j], c) == Read(states[m], states[m].active[i], c)
  {
    RunInv(states, steps, m);
    RunInv(states, steps, n);
    ReadIsSnapshot(states[m], i, c);
    ReadIsSnapshot(states[n], j, c);
    SnapshotOverRun(states, steps, m, n, states[m].active[i].start);
  }

  /** Some transaction with this start time is running. */
  ghost predicate HasStart(s: State, start: nat) {
    exists i :: 0 <= i < |s.active| && s.active[i].start == start
  }

  lemma StartBelow(s: State, start: nat)
    requires Inv(s) && HasStart(s, start) && s.phase.Committing?
    ensures start < s.phase.txn.cid
  {
    hide Exclusive, ChainsOk, FloorOk, CardinalityOk;
  }

  lemma {:induction false} SnapshotOverRun(states: seq<State>, steps: seq<Step>, m: nat, n: nat, start: nat)
    requires IsRun(states, steps) && m <= n < |states|
    requires forall k :: m <= k <= n ==> HasStart(states[k], start)
    ensures Snapshot(states[n], start) == Snapshot(states[m], start)
  {
    hide Inv, Snapshot, HasStart, Next, Enabled;
    if m < n {
      SnapshotOverRun(states, steps, m, n - 1, start);
      RunInv(states, steps, n - 1);
      assert HasStart(states[n - 1], start) && states[n] == Next(states[n - 1], steps[n - 1]);
      if states[n - 1].phase.Committing? {
        StartBelow(states[n - 1], start);
      }
      SnapshotStable(states[n - 1], steps[n - 1], start);
    }
  }

  // ---------------------------------------------------------------- cardinality

  /** Between commits, the row counter is the number of rows a transaction starting now would see. */
  lemma CardinalityCounts(s: State, rows: set<Cell>)
    requires Inv(s) && !s.phase.Committing? && s.counter < TRANSACTION_ID_START
    requires forall c :: c in rows <==> Read(s, Txn(s.nextId, s.counter, 0, [], 0, 0), c).Some?
    ensures s.cardinality == |rows|
  {
    forall c ensures c in rows <==> c in Committed(s).Keys {
      FreshRead(s, c);
    }
    assert rows == Committed(s).Keys;
  }

  lemma FreshHistory(s: State)
    requires NumbersOk(s)
    ensures Snapshot(s, s.counter) == Committed(s)
  {
    hide DbOf, DbBefore;
    DbBeforeAll(map[], s.retired + s.recent, s.counter);
  }

  lemma FreshSeen(s: State, c: Cell)
    requires NumbersOk(s) && FloorOk(s) && !s.phase.Committing? && s.counter < TRANSACTION_ID_START
    ensures Pick(PendingNodes(s, c) + NodesOf(s.recent, c), Lookup(s.floor, c), s.nextId, s.counter) == Lookup(Committed(s), c)
  {
    hide LogNodes, NodesOf, FloorOk, Pick, Snapshot, Committed, Clash;
    FreshHistory(s);
    ClockBelow(s, s.nextId);
    NothingClashes(s, s.nextId);
    PickCommitted(s, s.nextId, s.counter, c);
  }

  lemma FreshSkip(s: State, c: Cell)
    requires NumbersOk(s) && s.counter < TRANSACTION_ID_START
    ensures forall k :: 0 <= k < |NodesOf(s.active, c)| ==> !Visible(NodesOf(s.active, c)[k], s.nextId, s.counter)
  {
    hide LogNodes, NodesOf, RecentOk, CollectedOk, CommittingOk;
    SkipOthers(s.active, c, s.nextId, s.counter);
  }

  lemma FreshRead(s: State, c: Cell)
    requires Inv(s) && !s.phase.Committing? && s.counter < TRANSACTION_ID_START
    ensures Read(s, Txn(s.nextId, s.counter, 0, [], 0, 0), c) == Lookup(Committed(s), c)
  {
    assert NumbersOk(s) && FloorOk(s) && CellOk(s, c);
    hide LogNodes, NodesOf, FloorOk, Pick, Inv, NumbersOk, Committed, Seen;
    FreshSeen(s, c);
    FreshSkip(s, c);
    var rest := PendingNodes(s, c) + NodesOf(s.recent, c);
    PickSkip(NodesOf(s.active, c), rest, Lookup(s.floor, c), s.nextId, s.counter);
    assert Nodes(s, c) == NodesOf(s.active, c) + rest;
  }

  /** The transaction that a start adds. */
  ghost function Newest(s: State): Txn
    requires s.active != []
  {
    s.active[|s.active| - 1]
  }

  /** A transaction starts above the numbers of all finished commits, with an identifier of its own and nothing written. */
  lemma StartAbove(s: State)
    requires Enabled(s, Start) && Inv(s)
    ensures Next(s, Start).active != [] && Newest(Next(s, Start)).log == []
    ensures forall k :: 0 <= k < |s.recent| ==> s.recent[k].cid < Newest(Next(s, Start)).start
    ensures forall k :: 0 <= k < |s.retired| ==> s.retired[k].cid < Newest(Next(s, Start)).start
    ensures forall i :: 0 <= i < |s.active| ==> s.active[i].id != Newest(Next(s, Start)).id
  {
    InvNumbers(s);
    hide Inv;
  }

  /** So it reads, in every cell, what the finished commits left there. */
  lemma StartReadsAll(s: State, c: Cell)
    requires Enabled(s, Start) && Inv(s)
    ensures Next(s, Start).active != []
    ensures Read(Next(s, Start), Newest(Next(s, Start)), c) == Lookup(Committed(s), c)
  {
    FreshRead(s, c);
    hide Inv, Read;
    ReadSame(s, Next(s, Start), Newest(Next(s, Start)), c);
  }

  lemma ReadSame(s: State, s': State, t: Txn, c: Cell)
    requires s.cells == s'.cells
    ensures Read(s', t, c) == Read(s, t, c)
  {
  }

  /** The row counter is the number of rows that a transaction sees that starts now. */
  lemma StartCounts(s: State, rows: set<Cell>)
    requires Enabled(s, Start) && Inv(s)
    requires Next(s, Start).active != [] && forall c :: c in rows <==> Read(Next(s, Start), Newest(Next(s, Start)), c).Some?
    ensures Next(s, Start).cardinality == |rows|
  {
    forall c ensures c in rows <==> c in Committed(s).Keys {
      StartReadsAll(s, c);
    }
    assert rows == Committed(s).Keys;
  }

  /** The write at `p` of transaction `k` is the last one to a cell. */
  ghost predicate LastWrite(ts: seq<Txn>, k: nat, p: nat, c: Cell) {
    && k < |ts| && p < |ts[k].log| && ts[k].log[p].cell == c
    && (forall q :: p < q < |ts[k].log| ==> ts[k].log[q].cell != c)
    && (forall j, q :: k < j < |ts| && 0 <= q < |ts[j].log| ==> ts[j].log[q].cell != c)
  }

  lemma {:induction false} ApplyNone(db: Db, log: seq<Write>, lo: nat, hi: nat, c: Cell)
    requires lo <= hi <= |log| && forall q :: lo <= q < hi ==> log[q].cell != c
    ensures Lookup(ApplyLog(db, log, hi), c) == Lookup(ApplyLog(db, log, lo), c)
  {
    if lo < hi {
      ApplyNone(db, log, lo, hi - 1, c);
    }
  }

  /** The committed database holds the last value that a committed transaction wrote to a cell. */
  lemma {:induction false} CommittedLast(ts: seq<Txn>, k: nat, p: nat, c: Cell)
    requires LastWrite(ts, k, p, c)
    ensures Lookup(DbOf(map[], ts), c) == ts[k].log[p].value
  {
    var init, t := ts[..|ts| - 1], ts[|ts| - 1];
    if k == |ts| - 1 {
      ApplyNone(DbOf(map[], init), t.log, p + 1, |t.log|, c);
    } else {
      assert LastWrite(init, k, p, c);
      CommittedLast(init, k, p, c);
      ApplyNone(DbOf(map[], init), t.log, 0, |t.log|, c);
    }
  }

  /** And nothing that none of them wrote. */
  lemma {:induction false} CommittedNone(ts: seq<Txn>, c: Cell)
    requires forall k, q :: 0 <= k < |ts| && 0 <= q < |ts[k].log| ==> ts[k].log[q].cell != c
    ensures Lookup(DbOf(map[], ts), c) == None
  {
    if ts != [] {
      var init, t := ts[..|ts| - 1], ts[|ts| - 1];
      assert ts[|ts| - 1] == t;
      CommittedNone(init, c);
      ApplyNone(DbOf(map[], init), t.log, 0, |t.log|, c);
    }
  }

  /** A snapshot holds the last value that a transaction committed before it wrote to a cell. */
  lemma {:induction false} SnapshotLast(ts: seq<Txn>, start: nat, k: nat, p: nat, c: Cell)
    requires k < |ts| && ts[k].cid < start && p < |ts[k].log| && ts[k].log[p].cell == c
    requires forall q :: p < q < |ts[k].log| ==> ts[k].log[q].cell != c
    requires forall j, q :: k < j < |ts| && ts[j].cid < start && 0 <= q < |ts[j].log| ==> ts[j].log[q].cell != c
    ensures Lookup(DbBefore(map[], ts, start), c) == ts[k].log[p].value
  {
    var init, t := ts[..|ts| - 1], ts[|ts| - 1];
    if k == |ts| - 1 {
      ApplyNone(DbBefore(map[], init, start), t.log, p + 1, |t.log|, c);
    } else {
      SnapshotLast(init, start, k, p, c);
      if t.cid < start {
        ApplyNone(DbBefore(map[], init, start), t.log, 0, |t.log|, c);
      }
    }
  }

  lemma {:induction false} SnapshotNone(ts: seq<Txn>, start: nat, c: Cell)
    requires forall j, q :: 0 <= j < |ts| && ts[j].cid < start && 0 <= q < |ts[j].log| ==> ts[j].log[q].cell != c
    ensures Lookup(DbBefore(map[], ts, start), c) == None
  {
    if ts != [] {
      var init, t := ts[..|ts| - 1], ts[|ts| - 1];
      assert ts[|ts| - 1] == t;
      SnapshotNone(init, start, c);
      if t.cid < start {
        ApplyNone(DbBefore(map[], init, start), t.log, 0, |t.log|, c);
      }
    }
  }

  // ---------------------------------------------------------------- garbage collection

  /** When collection ends, exactly the transactions committed before every running one, and below 2^32, are gone. */
  lemma CollectionExact(s: State)
    requires Inv(s) && Enabled(s, Release)
    ensures forall k, i :: 0 <= k < |s.retired| && 0 <= i < |s.active| ==> s.retired[k].cid < s.active[i].start
    ensures forall k :: 0 <= k < |s.recent| && s.recent[k].cid < TRANSACTION_ID_START ==>
              exists i :: 0 <= i < |s.active| && s.active[i].start <= s.recent[k].cid
    ensures forall k :: 0 <= k < |s.retired| ==> s.retired[k].cid < TRANSACTION_ID_START
  {
    var lowest := s.phase.lowest;
    assert IsLowest(s.active, lowest);
    forall k | 0 <= k < |s.recent| && s.recent[k].cid < TRANSACTION_ID_START
      ensures exists i :: 0 <= i < |s.active| && s.active[i].start <= s.recent[k].cid
    {
      assert s.recent[0].cid <= s.recent[k].cid;
      assert lowest != TRANSACTION_ID_START;
      var i :| 0 <= i < |s.active| && s.active[i].start == lowest;
    }
  }

  ghost predicate Alive(s: State, id: nat) {
    || (exists i :: 0 <= i < |s.active| && s.active[i].id == id)
    || (exists k :: 0 <= k < |s.recent| && s.recent[k].id == id)
    || (s.phase.Committing? && s.phase.txn.id == id)
  }

  lemma {:induction false} NodeOwner(ts: seq<Txn>, c: Cell, k: nat) returns (i: nat)
    requires k < |NodesOf(ts, c)|
    ensures i < |ts| && ts[i].id == NodesOf(ts, c)[k].owner
  {
    var t := ts[|ts| - 1];
    LogNodesAre(t, t.cleaned, |t.log|, c);
    if k < |TxnNodes(t, c)| {
      i := |ts| - 1;
    } else {
      i := NodeOwner(ts[..|ts| - 1], c, k - |TxnNodes(t, c)|);
    }
  }

  /** Every node of every chain lies in the undo buffer of a transaction that is not freed. */
  lemma NoDangling(s: State, c: Cell, k: nat)
    requires Inv(s) && k < |ChainAt(s, c).nodes|
    ensures Alive(s, ChainAt(s, c).nodes[k].owner)
  {
    assert CellOk(s, c);
    hide Inv, Alive;
    NodeAlive(s, c, k);
  }

  lemma NodeAlive(s: State, c: Cell, k: nat)
    requires k < |Nodes(s, c)|
    ensures Alive(s, Nodes(s, c)[k].owner)
  {
    hide LogNodes, NodesOf;
    var a, p := |NodesOf(s.active, c)|, |PendingNodes(s, c)|;
    if k < a {
      var i := NodeOwner(s.active, c, k);
    } else if k < a + p {
      LogNodesAre(s.phase.txn, s.phase.txn.cleaned, |s.phase.txn.log|, c);
      assert Nodes(s, c)[k] == PendingNodes(s, c)[k - a];
    } else {
      var i := NodeOwner(s.recent, c, k - a - p);
      assert Nodes(s, c)[k] == NodesOf(s.recent, c)[k - a - p];
    }
  }

  /** The node that collection takes out of a chain is its oldest one, and its write is committed. */
  lemma CollectedIsOldest(s: State)
    requires Enabled(s, CleanupOne) && Inv(s)
    ensures var t := s.recent[0];
            var nodes := ChainAt(s, t.log[t.cleaned].cell).nodes;
            && nodes != [] && IsEntry(nodes[|nodes| - 1], t.id, t.cleaned)
            && nodes[|nodes| - 1].stamp == t.cid < TRANSACTION_ID_START
  {
    hide FloorOk, CardinalityOk, Exclusive, LogNodes, NodesOf;
    var t := s.recent[0];
    var c := t.log[t.cleaned].cell;
    assert CellOk(s, c);
    assert s.recent == [t] + s.recent[1..];
    NodesFirst(t, s.recent[1..], c);
    LogNodesFront(t, t.cleaned, |t.log|, c);
    var tail := LogNodes(t, t.cleaned + 1, |t.log|, c) + [NodeOf(t, t.cleaned)];
    assert Nodes(s, c) == (NodesOf(s.active, c) + PendingNodes(s, c) + NodesOf(s.recent[1..], c)) + tail;
  }

  lemma {:induction false} LogNodesHas(t: Txn, lo: nat, hi: nat, c: Cell, p: nat) returns (k: nat)
    requires lo <= p < hi <= |t.log| && t.log[p].cell == c
    ensures k < |LogNodes(t, lo, hi, c)| && LogNodes(t, lo, hi, c)[k] == NodeOf(t, p)
  {
    if p == hi - 1 {
      k := 0;
    } else {
      k := LogNodesHas(t, lo, hi - 1, c, p);
      k := k + |LogNodes(t, lo, hi, c)| - |LogNodes(t, lo, hi - 1, c)|;
    }
  }

  lemma {:induction false} LogFitsAt(db: Db, log: seq<Write>, hi: nat, p: nat)
    requires p < hi <= |log| && LogFits(db, log, hi)
    ensures FlagFits(log[p], log[p].cell in ApplyLog(db, log, p))
  {
    if p < hi - 1 {
      LogFitsAt(db, log, hi - 1, p);
    }
  }

  /** The value under a node of a chain. */
  function ValueBelow(chain: Chain, k: nat): Option<Payload>
    requires k < |chain.nodes|
  {
    if k + 1 < |chain.nodes| then chain.nodes[k + 1].value else chain.origin
  }

  /** The log entry that the commit in progress stamps next. */
  ghost function NextCommit(s: State): Write
    requires Enabled(s, CommitOne)
  {
    s.phase.txn.log[s.phase.txn.stamped]
  }

  /** Node `k` of the chain is that of the entry and has its value; the row was absent before exactly for insertions. */
  ghost predicate HoldsWrite(s: State, k: nat)
    requires Enabled(s, CommitOne)
  {
    var w, chain := NextCommit(s), ChainAt(s, NextCommit(s).cell);
    && k < |chain.nodes| && IsEntry(chain.nodes[k], s.phase.txn.id, s.phase.txn.stamped)
    && chain.nodes[k].value == w.value
    && (w.flag.InsertTuple? <==> ValueBelow(chain, k).None?) && (w.flag.InsertTuple? ==> w.value.Some?)
  }

  ghost predicate FlagsFit(s: State)
    requires s.phase.Committing?
  {
    LogFits(Committed(s), s.phase.txn.log, |s.phase.txn.log|)
  }

  lemma CommitOpened(s: State, c: Cell)
    requires s.phase.Committing? && Inv(s)
    ensures CellOk(s, c) && NumbersOk(s) && FloorOk(s) && FlagsFit(s)
  {
  }

  /**
   When a write commits, the chain still holds the value that write left, even
   if the transaction wrote the cell again: this is the row an insertion logs.
   */
  lemma CommitFindsWritten(s: State) returns (k: nat)
    requires Enabled(s, CommitOne) && Inv(s)
    ensures HoldsWrite(s, k)
  {
    hide Inv, NumbersOk, FloorOk, LogFits, Committed, CellOk, ApplyLog, Newer, Older;
    var t := s.phase.txn;
    k := |Newer(s)|;
    CommitOpened(s, NextCommit(s).cell);
    CommitSplits(s);
    CommitBelow(s);
    BelowIs(Newer(s), NodeOf(t, t.stamped), Older(s), Lookup(s.floor, NextCommit(s).cell));
    LogFitsAt(Committed(s), t.log, |t.log|, t.stamped);
  }

  lemma BelowIs(front: seq<Version>, v: Version, back: seq<Version>, origin: Option<Payload>)
    ensures var chain := Chain(front + [v] + back, origin);
            chain.nodes[|front|] == v && ValueBelow(chain, |front|) == Base(Chain(back, origin))
  {
  }

  /** The nodes in front of the entry that is stamped next. */
  ghost function Newer(s: State): seq<Version>
    requires Enabled(s, CommitOne)
  {
    NodesOf(s.active, NextCommit(s).cell) + LogNodes(s.phase.txn, s.phase.txn.stamped + 1, |s.phase.txn.log|, NextCommit(s).cell)
  }

  /** The nodes behind it. */
  ghost function Older(s: State): seq<Version>
    requires Enabled(s, CommitOne)
  {
    LogNodes(s.phase.txn, 0, s.phase.txn.stamped, NextCommit(s).cell) + NodesOf(s.recent, NextCommit(s).cell)
  }

  ghost function Around(s: State): Chain
    requires Enabled(s, CommitOne)
  {
    Chain(Newer(s) + [NodeOf(s.phase.txn, s.phase.txn.stamped)] + Older(s), Lookup(s.floor, NextCommit(s).cell))
  }

  lemma CommitSplits(s: State)
    requires Enabled(s, CommitOne) && NumbersOk(s) && CellOk(s, NextCommit(s).cell)
    ensures ChainAt(s, NextCommit(s).cell) == Around(s)
  {
    hide NumbersOk, LogNodes, NodesOf;
    CommittingIds(s);
    var t, c := s.phase.txn, NextCommit(s).cell;
    LogNodesSplit(t, 0, t.stamped, |t.log|, c);
    LogNodesFront(t, t.stamped, |t.log|, c);
    Regrouped(NodesOf(s.active, c), LogNodes(t, t.stamped + 1, |t.log|, c), NodeOf(t, t.stamped), LogNodes(t, 0, t.stamped, c),
              NodesOf(s.recent, c));
  }

  lemma Regrouped(a: seq<Version>, b: seq<Version>, v: Version, d: seq<Version>, e: seq<Version>)
    ensures a + (b + [v] + d) + e == (a + b) + [v] + (d + e)
  {
  }

  ghost function LeftBefore(s: State): Option<Payload>
    requires Enabled(s, CommitOne)
  {
    Lookup(ApplyLog(Committed(s), s.phase.txn.log, s.phase.txn.stamped), NextCommit(s).cell)
  }

  /** Below it is what the commits and the entries before it leave in the cell. */
  lemma CommitBelow(s: State)
    requires Enabled(s, CommitOne) && NumbersOk(s) && FloorOk(s)
    ensures Base(Chain(Older(s), Lookup(s.floor, NextCommit(s).cell))) == LeftBefore(s)
  {
    assert CleanedOk(s.recent);
    hide NumbersOk, LogNodes, NodesOf, DbOf;
    var t, c := s.phase.txn, NextCommit(s).cell;
    ApplyNodes(Committed(s), t, 0, t.stamped, c);
    HeadTxns(DbOf(map[], s.retired), s.recent, c);
    DbOfConcat(map[], s.retired, s.recent);
    OntoHead(LogNodes(t, 0, t.stamped, c), NodesOf(s.recent, c), Lookup(s.floor, c));
  }

  lemma OntoHead(own: seq<Version>, rest: seq<Version>, origin: Option<Payload>)
    ensures Base(Chain(own + rest, origin)) == if own == [] then Base(Chain(rest, origin)) else own[0].value
  {
    assert own == [] ==> own + rest == rest;
  }

  // ---------------------------------------------------------------- rollback

  /** The node of the last entry of the transaction that rolls back is the newest one of its cell. */
  ghost predicate UndoesNewest(s: State)
    requires Enabled(s, UndoOne)
  {
    var t := s.active[s.phase.index];
    var nodes := ChainAt(s, t.log[|t.log| - 1].cell).nodes;
    nodes != [] && IsEntry(nodes[0], t.id, |t.log| - 1)
  }

  /** A rollback undoes only newest nodes, so it finds every row entry at the head of its list. */
  lemma UndoneIsNewest(s: State)
    requires Enabled(s, UndoOne) && Inv(s)
    ensures UndoesNewest(s)
  {
    hide FloorOk, CardinalityOk, LogNodes, NodesOf;
    var t := s.active[s.phase.index];
    var c := t.log[|t.log| - 1].cell;
    assert CellExclusive(s, c) && CellOk(s, c);
    UndoHead(s, s.phase.index, c);
  }

  /** All remaining entries of the transaction that rolls back, undone without interruption. */
  ghost function Unwound(s: State): State
    requires s.phase.RollingBack? && s.phase.index < |s.active|
    decreases |s.active[s.phase.index].log|
  {
    if s.active[s.phase.index].log == [] then s else Unwound(OneUndone(s))
  }

  /** Undoing an entry keeps the committed database, the row counter and all other cells. */
  lemma UndoFrame(s: State, c: Cell)
    requires Enabled(s, UndoOne)
    ensures var s' := OneUndone(s);
            s'.phase == s.phase && s'.cardinality == s.cardinality && Latest(s') == Latest(s)
    ensures var log := s.active[s.phase.index].log;
            log[|log| - 1].cell != c ==> ChainAt(OneUndone(s), c) == ChainAt(s, c)
  {
    hide DbOf, ApplyLog, Undo;
  }

  /** A cell without uncommitted entries holds the newest committed value. */
  lemma BaseIsCommitted(s: State, i: nat, c: Cell)
    requires Inv(s) && i < |s.active| && TxnNodes(s.active[i], c) == []
    requires forall j :: 0 <= j < |s.active| && j != i ==> TxnNodes(s.active[j], c) == []
    ensures Base(ChainAt(s, c)) == Lookup(Latest(s), c)
  {
    hide LogNodes, NodesOf, Latest, FloorOk, CardinalityOk, Exclusive;
    assert CellOk(s, c);
    NodesNone(s.active, c);
    LatestHead(s, c);
    assert Nodes(s, c) == PendingNodes(s, c) + NodesOf(s.recent, c);
  }

  lemma OthersAbsent(s: State, i: nat, c: Cell)
    requires Inv(s) && i < |s.active| && TxnNodes(s.active[i], c) != []
    ensures forall j :: 0 <= j < |s.active| && j != i ==> TxnNodes(s.active[j], c) == []
  {
    hide TxnNodes, NumbersOk, ChainsOk, FloorOk, CardinalityOk;
    assert CellExclusive(s, c);
  }

  lemma InvNumbers(s: State)
    requires Inv(s)
    ensures NumbersOk(s)
  {
  }

  lemma NoNodes(t: Txn, c: Cell)
    requires t.log == []
    ensures TxnNodes(t, c) == []
  {
  }

  /**
   Rollback: every cell the transaction wrote regains the newest committed
   value, every other cell keeps its chain, and the row counter is untouched.
   */
  lemma {:induction false} RollbackRestores(s: State, c: Cell)
    requires Inv(s) && s.phase.RollingBack? && s.phase.index < |s.active|
    ensures Inv(Unwound(s))
    ensures Unwound(s).cardinality == s.cardinality && Latest(Unwound(s)) == Latest(s)
    ensures TxnNodes(s.active[s.phase.index], c) == [] ==> ChainAt(Unwound(s), c) == ChainAt(s, c)
    ensures TxnNodes(s.active[s.phase.index], c) != [] ==> Base(ChainAt(Unwound(s), c)) == Lookup(Latest(s), c)
    decreases |s.active[s.phase.index].log|
  {
    hide Inv, Latest, Base, ChainAt, TxnNodes, Undo;
    var i := s.phase.index;
    if s.active[i].log == [] {
      NoNodes(s.active[i], c);
    } else {
      var s' := OneUndone(s);
      UndoKeeps(s);
      UndoFrame(s, c);
      InvNumbers(s);
      UndoSplits(s, c);
      RollbackRestores(s', c);
      if TxnNodes(s.active[i], c) != [] && TxnNodes(s'.active[i], c) == [] {
        OthersAbsent(s, i, c);
        BaseIsCommitted(s', i, c);
      }
    }
  }

  /** Transaction `id` runs and has uncommitted entries on the cell. */
  ghost predicate Writes(s: State, id: nat, c: Cell) {
    exists i :: 0 <= i < |s.active| && s.active[i].id == id && TxnNodes(s.active[i], c) != []
  }

  /** Only a commit changes the newest committed database. */
  lemma LatestStable(s: State, step: Step)
    requires Enabled(s, step) && !step.BeginCommit?
    ensures Latest(Next(s, step)) == Latest(s)
  {
    var s' := Next(s, step);
    match step
    case EndCommit =>
      var ts := s.retired + s'.recent;
      assert ts[..|ts| - 1] == s.retired + s.recent;
    case CleanupOne =>
      hide DbOf, Unlink, ApplyWrite;
      DbOfSame(map[], s.retired + s.recent, s.retired + s'.recent);
    case Retire =>
      assert s'.retired + s'.recent == s.retired + s.recent;
    case _ =>
      hide DbOf, ApplyLog, LowestStart, Remove, Stamp, Undo, Push;
  }

  /** While a transaction has uncommitted entries on a cell, nobody commits another value to it. */
  lemma CommittedFrozen(s: State, step: Step, id: nat, c: Cell)
    requires Inv(s) && Enabled(s, step) && Writes(s, id, c) && Writes(Next(s, step), id, c)
    ensures Lookup(Latest(Next(s, step)), c) == Lookup(Latest(s), c)
  {
    assert NumbersOk(s) && Exclusive(s);
    hide Inv, Writes, Latest, Exclusive;
    if step.BeginCommit? {
      OtherCommits(s, step.index, id, c);
    } else {
      LatestStable(s, step);
    }
  }

  lemma OtherCommits(s: State, k: nat, id: nat, c: Cell)
    requires ActiveOk(s) && Exclusive(s) && Enabled(s, BeginCommit(k))
    requires Writes(s, id, c) && Writes(CommitBegun(s, k), id, c)
    ensures Lookup(Latest(CommitBegun(s, k)), c) == Lookup(Latest(s), c)
  {
    var s', t := CommitBegun(s, k), s.active[k];
    ApplyNodes(Committed(s), t, 0, |t.log|, c);
    hide LogNodes, Remove, DbOf, ApplyLog;
    assert CellExclusive(s, c);
    var j :| 0 <= j < |s'.active| && s'.active[j].id == id && TxnNodes(s'.active[j], c) != [];
    assert s'.active[j] == s.active[if j < k then j else j + 1];
  }

  lemma {:induction false} FrozenOverRun(states: seq<State>, steps: seq<Step>, m: nat, n: nat, id: nat, c: Cell)
    requires IsRun(states, steps) && m <= n < |states|
    requires forall k :: m <= k <= n ==> Writes(states[k], id, c)
    ensures Lookup(Latest(states[n]), c) == Lookup(Latest(states[m]), c)
  {
    hide Inv, Latest, Writes, Next, Enabled;
    if m < n {
      FrozenOverRun(states, steps, m, n - 1, id, c);
      RunInv(states, steps, n - 1);
      assert states[n] == Next(states[n - 1], steps[n - 1]) && Writes(states[n - 1], id, c) && Writes(states[n], id, c);
      CommittedFrozen(states[n - 1], steps[n - 1], id, c);
    }
  }

  lemma FirstWrite(s: State, i: nat, w: Write)
    requires Inv(s) && CanWrite(s, i, w) && TxnNodes(s.active[i], w.cell) == []
    ensures Base(ChainAt(s, w.cell)) == Lookup(Latest(Written(s, i, w)), w.cell)
  {
    assert CellOk(s, w.cell) && CellExclusive(s, w.cell);
    NoOther(s, i, w.cell);
    BaseIsCommitted(s, i, w.cell);
  }

  /**
   Over a run, rolling back gives a cell the value it had before the
   transaction first wrote it, whatever the other transactions did meanwhile.
   */
  lemma RollbackReturns(states: seq<State>, steps: seq<Step>, m: nat, n: nat, i: nat, w: Write)
    requires IsRun(states, steps) && m < n < |states|
    requires steps[m] == DoWrite(i, w) && i < |states[m].active| && TxnNodes(states[m].active[i], w.cell) == []
    requires forall k :: m < k <= n ==> Writes(states[k], states[m].active[i].id, w.cell)
    requires states[n].phase.RollingBack? && states[n].phase.index < |states[n].active|
    requires states[n].active[states[n].phase.index].id == states[m].active[i].id
    ensures Base(ChainAt(Unwound(states[n]), w.cell)) == Base(ChainAt(states[m], w.cell))
  {
    var c, id, last := w.cell, states[m].active[i].id, states[n];
    RunInv(states, steps, m);
    RunInv(states, steps, n);
    assert states[m + 1] == Written(states[m], i, w);
    FirstWrite(states[m], i, w);
    FrozenOverRun(states, steps, m + 1, n, id, c);
    assert TxnNodes(last.active[last.phase.index], c) != [] by { WriterIs(last, last.phase.index, id, c); }
    RollbackRestores(last, c);
  }

  lemma WriterIs(s: State, i: nat, id: nat, c: Cell)
    requires Inv(s) && i < |s.active| && s.active[i].id == id && Writes(s, id, c)
    ensures TxnNodes(s.active[i], c) != []
  {
    hide TxnNodes, Exclusive, ChainsOk, FloorOk, CardinalityOk;
  }
}
