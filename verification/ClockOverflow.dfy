/**
 What happens when the clock passes 2^32: only starting a transaction tests it, so
 commits can get numbers that are transaction identifiers.
 */
module ClockOverflow {
  import opened VersionChain
  import opened Mvcc
  import opened MvccInvariant
  import opened MvccSteps
  import opened MvccTheorems

  // ---------------------------------------------------------------- the write-write conflict test

  /** The number of the newest commit among `ts` that still has an entry on the cell. */
  ghost function NewestCommit(ts: seq<Txn>, c: Cell): Option<nat> {
    if ts == [] then None
    else if TxnNodes(ts[|ts| - 1], c) != [] then Some(ts[|ts| - 1].cid)
    else NewestCommit(ts[..|ts| - 1], c)
  }

  lemma {:induction false} NewestIsHead(ts: seq<Txn>, c: Cell)
    requires forall k :: 0 <= k < |ts| ==> ts[k].stamped == |ts[k].log|
    ensures NewestCommit(ts, c) == if NodesOf(ts, c) == [] then None else Some(NodesOf(ts, c)[0].stamp)
  {
    if ts != [] {
      var t := ts[|ts| - 1];
      NewestIsHead(ts[..|ts| - 1], c);
      LogNodesAre(t, t.cleaned, |t.log|, c);
    }
  }

  /** A cell that another running transaction has written is refused. */
  lemma OtherWriterConflicts(s: State, i: nat, j: nat, c: Cell)
    requires Inv(s) && i < |s.active| && j < |s.active| && i != j && TxnNodes(s.active[j], c) != []
    ensures Conflict(ChainAt(s, c), s.active[i].id)
  {
    assert CellOk(s, c) && CellExclusive(s, c) && TxnOk(s, s.active[j]) && s.active[i].id != s.active[j].id;
    hide Inv, NodesOf, LogNodes;
    NodesSole(s.active, j, c);
    LogNodesAre(s.active[j], s.active[j].cleaned, |s.active[j].log|, c);
    assert Nodes(s, c)[0] == TxnNodes(s.active[j], c)[0];
  }

  /**
   While nobody commits, a cell that no running transaction has written is refused
   if and only if the newest commit on it has a number from 2^32 on, other than
   the identifier of the writer.
   */
  lemma ConflictExactly(s: State, i: nat, c: Cell)
    requires Inv(s) && i < |s.active| && !s.phase.Committing?
    requires forall j :: 0 <= j < |s.active| ==> TxnNodes(s.active[j], c) == []
    ensures Conflict(ChainAt(s, c), s.active[i].id)
            <==> var n := NewestCommit(s.recent, c); n.Some? && n.value >= TRANSACTION_ID_START && n.value != s.active[i].id
  {
    assert CellOk(s, c);
    NodesNone(s.active, c);
    NewestIsHead(s.recent, c);
    assert Nodes(s, c) == NodesOf(s.recent, c);
  }

  // ---------------------------------------------------------------- what is read

  lemma {:induction false} ClashIs(ts: seq<Txn>, k: nat)
    requires k < |ts| && forall i, j :: 0 <= i < j < |ts| ==> ts[i].cid < ts[j].cid
    ensures ClashOf(ts, ts[k].cid) == ts[k].log
  {
    if k < |ts| - 1 {
      ClashIs(ts[..|ts| - 1], k);
    }
  }

  /** A transaction reads a row of the commit with its identifier as if it had written it, whatever was committed since. */
  lemma ClashIsRead(s: State, i: nat, k: nat, c: Cell)
    requires Inv(s) && i < |s.active| && k < |s.recent| && s.recent[k].cid == s.active[i].id
    requires TxnNodes(s.active[i], c) == [] && TxnNodes(s.recent[k], c) != []
    ensures Read(s, s.active[i], c) == TxnNodes(s.recent[k], c)[0].value
  {
    hide Exclusive, ChainsOk, FloorOk, CardinalityOk, Read, LogNodes, Snapshot, ClashOf;
    var t, u, all := s.active[i], s.recent[k], s.retired + s.recent;
    ReadExactly(s, i, c);
    ApplyNodes(Seen(s, t.id, t.start), t, 0, |t.log|, c);
    assert all[|s.retired| + k] == u;
    ClashIs(all, |s.retired| + k);
    ApplyNodes(Snapshot(s, t.start), u, 0, |u.log|, c);
  }

  // ---------------------------------------------------------------- a run

  const READER := Txn(TRANSACTION_ID_START, 0, 0, [], 0, 0)

  ghost function Writer(c: Cell, v: Payload): Txn {
    Txn(TRANSACTION_ID_START + 1, 1, 0, [Write(InsertTuple, c, Some(v))], 0, 0)
  }

  /** The reader and the writer run, `n` transactions have been started, and all others were rolled back. */
  ghost function Running(c: Cell, v: Payload, n: nat): State {
    var w := TRANSACTION_ID_START + 1;
    State(n, TRANSACTION_ID_START + n, map[c := Chain([Version(w, w, 0, Some(v))], None)], [READER, Writer(c, v)], Idle,
          [], [], map[], 0)
  }

  /** Starts the reader and the writer, which inserts a row. */
  lemma Begin(c: Cell, v: Payload) returns (states: seq<State>, steps: seq<Step>)
    ensures Reaches(states, steps, Running(c, v, 2))
  {
    var w := Write(InsertTuple, c, Some(v));
    var s1 := Started(Init);
    var s2 := Started(s1);
    assert s2.active == [READER, Writer(c, v).(log := [])];
    var s3 := Written(s2, 1, w);
    assert [] + [w] == [w] && s3.active[1] == Writer(c, v);
    assert s3.active == [READER, Writer(c, v)];
    assert [Version(TRANSACTION_ID_START + 1, TRANSACTION_ID_START + 1, 0, Some(v))] + []
           == [Version(TRANSACTION_ID_START + 1, TRANSACTION_ID_START + 1, 0, Some(v))];
    assert s3 == Running(c, v, 2);
    states, steps := [Init], [];
    states, steps := Take(states, steps, Init, Start);
    states, steps := Take(states, steps, s1, Start);
    states, steps := Take(states, steps, s2, DoWrite(1, w));
  }

  /** Starting and rolling back a transaction advances the clock and changes nothing else. */
  lemma Tick(c: Cell, v: Payload, n: nat, states: seq<State>, steps: seq<Step>)
    returns (more: seq<State>, all: seq<Step>)
    requires 2 <= n < TRANSACTION_ID_START && Reaches(states, steps, Running(c, v, n))
    ensures Reaches(more, all, Running(c, v, n + 1))
  {
    var s := Running(c, v, n);
    var s1 := Started(s);
    var s2 := s1.(phase := RollingBack(2));
    var s3 := RollbackEnded(s2);
    assert s3.active == s.active;
    var s4 := s3.(phase := Idle);
    assert s4 == Running(c, v, n + 1);
    more, all := Take(states, steps, s, Start);
    more, all := Take(more, all, s1, BeginRollback(2));
    more, all := Take(more, all, s2, EndRollback);
    more, all := Take(more, all, s3, Release);
  }

  lemma {:induction false} Wait(c: Cell, v: Payload, n: nat, states: seq<State>, steps: seq<Step>)
    returns (more: seq<State>, all: seq<Step>)
    requires 2 <= n <= TRANSACTION_ID_START && Reaches(states, steps, Running(c, v, n))
    ensures Reaches(more, all, Running(c, v, TRANSACTION_ID_START))
    decreases TRANSACTION_ID_START - n
  {
    hide Reaches, Running;
    if n == TRANSACTION_ID_START {
      more, all := states, steps;
    } else {
      more, all := Tick(c, v, n, states, steps);
      more, all := Wait(c, v, n + 1, more, all);
    }
  }

  ghost function Done(c: Cell, v: Payload): State {
    var w := Writer(c, v).(cid := TRANSACTION_ID_START, stamped := 1);
    State(TRANSACTION_ID_START + 1, TRANSACTION_ID_START * 2,
          map[c := Chain([Version(TRANSACTION_ID_START, w.id, 0, Some(v))], None)], [READER], Idle, [w], [], map[], 1)
  }

  /** The writer commits when the clock has reached 2^32. */
  lemma CommitLate(c: Cell, v: Payload, states: seq<State>, steps: seq<Step>)
    returns (more: seq<State>, all: seq<Step>)
    requires Reaches(states, steps, Running(c, v, TRANSACTION_ID_START))
    ensures Reaches(more, all, Done(c, v))
  {
    var s := Running(c, v, TRANSACTION_ID_START);
    var s1 := CommitBegun(s, 1);
    var s2 := OneCommitted(s1);
    assert Stamp(ChainAt(s1, c).nodes, TRANSACTION_ID_START + 1, 0, TRANSACTION_ID_START)
           == [Version(TRANSACTION_ID_START, TRANSACTION_ID_START + 1, 0, Some(v))];
    var s3 := CommitEnded(s2);
    assert s1.active == [READER];
    var s4 := s3.(phase := Idle);
    assert s4 == Done(c, v);
    more, all := Take(states, steps, s, BeginCommit(1));
    more, all := Take(more, all, s1, CommitOne);
    more, all := Take(more, all, s2, EndCommit);
    more, all := Take(more, all, s3, Release);
  }

  /**
   A run after which a transaction reads a row that was committed after its
   start: the number of that commit is its identifier.
   */
  lemma LateCommitIsRead(c: Cell, v: Payload) returns (states: seq<State>, steps: seq<Step>)
    ensures Reaches(states, steps, Done(c, v)) && Done(c, v).active == [READER] && READER.log == []
    ensures Read(Done(c, v), READER, c) == Some(v)
    ensures Lookup(Snapshot(Done(c, v), READER.start), c) == None
  {
    hide Reaches, Running, Done, Read, Snapshot;
    states, steps := Begin(c, v);
    states, steps := Wait(c, v, 2, states, steps);
    states, steps := CommitLate(c, v, states, steps);
    DoneIs(c, v);
  }

  lemma DoneIs(c: Cell, v: Payload)
    ensures var s := Done(c, v);
            s.active == [READER] && Read(s, READER, c) == Some(v) && Lookup(Snapshot(s, READER.start), c) == None
  {
    hide DbBefore;
    var s := Done(c, v);
    assert s.retired + s.recent == s.recent;
    NothingBefore(map[], s.recent[0], READER.start);
  }

  lemma NothingBefore(db: Db, t: Txn, start: nat)
    requires t.cid >= start
    ensures DbBefore(db, [t], start) == db
  {
    assert [t][..0] == [];
  }
}
