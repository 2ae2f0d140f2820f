/**
 The transaction manager: the loops that commit, roll back and collect undo
 buffers, proved to perform the steps of the transition system in order.
 */
module TransactionManager {
  import opened VersionChain
  import opened Mvcc
  import opened MvccInvariant
  import opened MvccSteps
  import MvccTheorems

  // ---------------------------------------------------------------- whole operations on states

  /** Every remaining entry of the commit in progress gets its commit identifier. */
  function AllStamped(s: State): State
    requires s.phase.Committing?
    decreases |s.phase.txn.log| - s.phase.txn.stamped
  {
    if Enabled(s, CommitOne) then AllStamped(OneCommitted(s)) else s
  }

  /** Every remaining entry of the transaction that rolls back is undone, newest first. */
  function AllUndone(s: State): State
    requires s.phase.RollingBack? && s.phase.index < |s.active|
    decreases |s.active[s.phase.index].log|
  {
    if Enabled(s, UndoOne) then AllUndone(OneUndone(s)) else s
  }

  /** Collection until the oldest committed transaction is still needed. */
  function AllCollected(s: State): State
    requires s.phase.Collecting?
    decreases |s.recent|, if s.recent == [] then 0 else |s.recent[0].log| - s.recent[0].cleaned
  {
    if Enabled(s, CleanupOne) then AllCollected(OneCleaned(s))
    else if Enabled(s, Retire) then AllCollected(Retired(s))
    else s
  }

  lemma {:induction false} AllStampedIs(s: State)
    requires Inv(s) && s.phase.Committing?
    ensures Inv(AllStamped(s)) && Enabled(AllStamped(s), EndCommit)
    ensures var r := AllStamped(s);
            && r.active == s.active && r.recent == s.recent && r.retired == s.retired
            && r.phase.txn == s.phase.txn.(stamped := |s.phase.txn.log|)
    decreases |s.phase.txn.log| - s.phase.txn.stamped
  {
    assert NumbersOk(s);
    if Enabled(s, CommitOne) {
      CommitOneKeeps(s);
      AllStampedIs(OneCommitted(s));
    }
  }

  lemma {:induction false} AllUndoneIs(s: State)
    requires Inv(s) && s.phase.RollingBack? && s.phase.index < |s.active|
    ensures Inv(AllUndone(s)) && Enabled(AllUndone(s), EndRollback)
    ensures var r := AllUndone(s);
            && r.recent == s.recent && r.retired == s.retired && r.phase == s.phase
            && |r.active| == |s.active|
            && (forall k :: 0 <= k < |s.active| && k != s.phase.index ==> r.active[k] == s.active[k])
    decreases |s.active[s.phase.index].log|
  {
    hide Inv, Undo;
    if Enabled(s, UndoOne) {
      UndoKeeps(s);
      AllUndoneIs(OneUndone(s));
    }
  }

  lemma CleanedBound(s: State)
    requires Inv(s) && s.recent != []
    ensures s.recent[0].cleaned <= |s.recent[0].log|
  {
    hide Exclusive, ChainsOk, FloorOk, CardinalityOk;
  }

  lemma {:induction false} AllCollectedIs(s: State)
    requires Inv(s) && s.phase.Collecting?
    ensures Inv(AllCollected(s)) && Enabled(AllCollected(s), Release)
    ensures AllCollected(s).active == s.active && AllCollected(s).phase == s.phase
    ensures SameCommits(AllCollected(s).retired + AllCollected(s).recent, s.retired + s.recent)
    decreases |s.recent|, if s.recent == [] then 0 else |s.recent[0].log| - s.recent[0].cleaned
  {
    hide Inv, Unlink, ApplyWrite;
    if s.recent != [] {
      CleanedBound(s);
    }
    if Enabled(s, CleanupOne) {
      CleanupKeeps(s);
      AllCollectedIs(OneCleaned(s));
    } else if Enabled(s, Retire) {
      RetireKeeps(s);
      assert Retired(s).retired + Retired(s).recent == s.retired + s.recent;
      AllCollectedIs(Retired(s));
    }
  }

  /** The same transactions committed in the same order, whatever was collected of them. */
  ghost predicate SameCommits(ts: seq<Txn>, us: seq<Txn>) {
    |ts| == |us| && forall k :: 0 <= k < |ts| ==> ts[k] == us[k].(cleaned := ts[k].cleaned)
  }

  /** Commit of transaction `i` without interruption. */
  function CommitAll(s: State, i: nat): State
    requires Enabled(s, BeginCommit(i))
  {
    var stamped := AllStamped(CommitBegun(s, i));
    if Enabled(stamped, EndCommit) then AllCollected(CommitEnded(stamped)).(phase := Idle) else stamped
  }

  /** Rollback of transaction `i` without interruption. */
  function RollbackAll(s: State, i: nat): State
    requires Enabled(s, BeginRollback(i))
  {
    var undone := AllUndone(s.(phase := RollingBack(i)));
    if Enabled(undone, EndRollback) then AllCollected(RollbackEnded(undone)).(phase := Idle) else undone
  }

  /** The oldest committed transaction that is left committed after some running one started, or from 2^32 on. */
  ghost predicate NothingToCollect(s: State) {
    s.recent == [] || s.recent[0].cid >= TRANSACTION_ID_START || exists i :: 0 <= i < |s.active| && s.active[i].start <= s.recent[0].cid
  }

  lemma CollectedAll(s: State)
    requires s.phase == Collecting(LowestStart(s.active)) && Enabled(s, Release)
    ensures NothingToCollect(s.(phase := Idle))
  {
  }

  /** A commit appends one transaction to the history. */
  lemma CommitAppends(s: State, i: nat)
    requires Enabled(s, BeginCommit(i)) && Inv(s)
    ensures CommitAll(s, i).phase.Idle?
    ensures CommitAll(s, i).active == Remove(s.active, i)
    ensures var r := CommitAll(s, i);
            SameCommits(r.retired + r.recent,
                        s.retired + s.recent + [s.active[i].(cid := s.counter, stamped := |s.active[i].log|)])
    ensures Inv(CommitAll(s, i)) && NothingToCollect(CommitAll(s, i))
  {
    hide Inv, AllStamped, AllCollected, LowestStart, Remove, SameCommits;
    var begun := CommitBegun(s, i);
    BeginCommitKeeps(s, i);
    AllStampedIs(begun);
    var stamped := AllStamped(begun);
    EndCommitKeeps(stamped);
    AllCollectedIs(CommitEnded(stamped));
    StepKeeps(AllCollected(CommitEnded(stamped)), Release);
    CollectedAll(AllCollected(CommitEnded(stamped)));
    assert s.retired + (s.recent + [stamped.phase.txn]) == s.retired + s.recent + [stamped.phase.txn];
  }

  /** A rollback appends none. */
  lemma RollbackAppendsNothing(s: State, i: nat)
    requires Enabled(s, BeginRollback(i)) && Inv(s)
    ensures RollbackAll(s, i).phase.Idle?
    ensures RollbackAll(s, i).active == Remove(s.active, i)
    ensures var r := RollbackAll(s, i);
            SameCommits(r.retired + r.recent, s.retired + s.recent)
    ensures Inv(RollbackAll(s, i)) && NothingToCollect(RollbackAll(s, i))
  {
    hide Inv, AllUndone, AllCollected, LowestStart, SameCommits;
    StepKeeps(s, BeginRollback(i));
    var undone := AllUndone(s.(phase := RollingBack(i)));
    AllUndoneIs(s.(phase := RollingBack(i)));
    EndRollbackKeeps(undone);
    AllCollectedIs(RollbackEnded(undone));
    StepKeeps(AllCollected(RollbackEnded(undone)), Release);
    CollectedAll(AllCollected(RollbackEnded(undone)));
    assert Remove(undone.active, i) == Remove(s.active, i);
  }

  /** Collection leaves no transaction half collected. */
  lemma NothingHalfCollected(s: State)
    requires Inv(s) && Enabled(s, Release)
    ensures forall k :: 0 <= k < |s.recent| ==> s.recent[k].cleaned == 0
  {
    hide Exclusive, ChainsOk, FloorOk, CardinalityOk, CommittingOk;
    assert IsLowest(s.active, s.phase.lowest);
  }

  /** Transaction `i` leaves the active list, to the committed ones if it has a commit identifier. */
  function Removed(s: State, i: nat): State
    requires i < |s.active|
  {
    var t, rest := s.active[i], Remove(s.active, i);
    s.(active := rest, phase := Collecting(LowestStart(rest)),
       recent := if t.cid != 0 then s.recent + [t] else s.recent)
  }

  lemma LowestNone()
    ensures IsLowest([], TRANSACTION_ID_START)
  {
  }

  lemma LowestIs(ts: seq<Txn>)
    ensures IsLowest(ts, LowestStart(ts)) && LowestStart(ts) <= TRANSACTION_ID_START
  {
  }

  lemma LowestPush(ts: seq<Txn>, t: Txn, lowest: nat)
    requires IsLowest(ts, lowest) && lowest <= TRANSACTION_ID_START
    ensures IsLowest(ts + [t], if t.start < lowest then t.start else lowest)
  {
    var all := ts + [t];
    if t.start < lowest {
      assert all[|ts|].start == t.start;
    } else if lowest != TRANSACTION_ID_START {
      var w :| 0 <= w < |ts| && ts[w].start == lowest;
      assert all[w].start == lowest;
    }
  }

  lemma LowestUnique(ts: seq<Txn>, a: nat, b: nat)
    requires IsLowest(ts, a) && IsLowest(ts, b) && a <= TRANSACTION_ID_START && b <= TRANSACTION_ID_START
    ensures a == b
  {
  }

  lemma NotStamped(s: State, i: nat)
    requires Inv(s) && i < |s.active|
    ensures s.active[i].cid == 0 && s.active[i].stamped == 0 && s.active[i].cleaned == 0 && s.counter > 0
  {
    hide Exclusive, ChainsOk, FloorOk, CardinalityOk;
  }

  lemma StampNext(s: State)
    requires Enabled(s, CommitOne)
    ensures AllStamped(OneCommitted(s)) == AllStamped(s)
  {
  }

  lemma StampDone(s: State)
    requires Enabled(s, EndCommit)
    ensures AllStamped(s) == s
  {
  }

  lemma UndoNext(s: State)
    requires Enabled(s, UndoOne)
    ensures AllUndone(OneUndone(s)) == AllUndone(s)
  {
  }

  lemma UndoDone(s: State)
    requires Enabled(s, EndRollback)
    ensures AllUndone(s) == s
  {
  }

  lemma RemoveIgnores(ts: seq<Txn>, i: nat, t: Txn)
    requires i < |ts|
    ensures Remove(ts[i := t], i) == Remove(ts, i)
  {
  }

  lemma CollectRetire(s: State)
    requires Enabled(s, Retire)
    ensures AllCollected(Retired(s)) == AllCollected(s)
  {
  }

  lemma CollectDone(s: State)
    requires Enabled(s, Release)
    ensures AllCollected(s) == s
  {
  }

  // ---------------------------------------------------------------- the manager

  class Manager {
    var currentStartTimestamp: nat
    var currentTransactionId: nat
    var activeTransactions: seq<Txn>
    var recentlyCommitted: seq<Txn>
    /** The rows and catalog entries the undo buffers point into. */
    var cells: map<Cell, Chain>
    var cardinality: int
    ghost var retired: seq<Txn>
    ghost var floor: Db

    ghost function View(): State
      reads this
    {
      State(currentStartTimestamp, currentTransactionId, cells, activeTransactions, Idle,
            recentlyCommitted, retired, floor, cardinality)
    }

    ghost predicate Valid()
      reads this
    {
      Inv(View()) && forall k :: 0 <= k < |recentlyCommitted| ==> recentlyCommitted[k].cleaned == 0
    }

    constructor ()
      ensures View() == Init && Valid()
    {
      currentStartTimestamp := 0;
      currentTransactionId := TRANSACTION_ID_START;
      activeTransactions, recentlyCommitted := [], [];
      cells, cardinality := map[], 0;
      retired, floor := [], map[];
      new;
      InitKeeps();
    }

    method StartTransaction() returns (transaction: Option<Txn>)
      requires Valid()
      modifies this
      ensures Valid()
      ensures old(currentStartTimestamp) >= TRANSACTION_ID_START ==> transaction.None? && View() == old(View())
      ensures old(currentStartTimestamp) < TRANSACTION_ID_START ==>
                View() == Started(old(View())) && transaction == Some(activeTransactions[|activeTransactions| - 1])
      ensures transaction.Some? ==>
                && transaction.value.log == [] && (forall c :: Read(View(), transaction.value, c) == Lookup(Committed(old(View())), c))
                && (forall k :: 0 <= k < |old(recentlyCommitted)| ==> old(recentlyCommitted)[k].cid < transaction.value.start)
                && (forall k :: 0 <= k < |old(retired)| ==> old(retired)[k].cid < transaction.value.start)
    {
      hide Inv, Read, Committed, Lookup;
      if currentStartTimestamp >= TRANSACTION_ID_START {
        return None;
      }
      StartKeeps(View());
      MvccTheorems.StartAbove(View());
      forall c { MvccTheorems.StartReadsAll(View(), c); }
      var t := Txn(currentTransactionId, currentStartTimestamp, 0, [], 0, 0);
      currentStartTimestamp := currentStartTimestamp + 1;
      currentTransactionId := currentTransactionId + 1;
      activeTransactions := activeTransactions + [t];
      transaction := Some(t);
    }

    /** Lowest start time of the active transactions other than the one at `index`. */
    method LowestOther(index: nat) returns (lowest: nat)
      requires index < |activeTransactions|
      ensures lowest == LowestStart(Remove(activeTransactions, index))
    {
      hide IsLowest, LowestStart;
      lowest := TRANSACTION_ID_START;
      ghost var rest := Remove(activeTransactions, index);
      LowestNone();
      assert rest[..0] == [];
      for i := 0 to |activeTransactions|
        invariant lowest <= TRANSACTION_ID_START
        invariant IsLowest(rest[..if i <= index then i else i - 1], lowest)
      {
        if i != index {
          ghost var j := if i < index then i else i - 1;
          LowestPush(rest[..j], rest[j], lowest);
          assert rest[..j + 1] == rest[..j] + [rest[j]];
          if activeTransactions[i].start < lowest {
            lowest := activeTransactions[i].start;
          }
        }
      }
      assert rest[..|rest|] == rest;
      LowestIs(rest);
      LowestUnique(rest, lowest, LowestStart(rest));
    }

    /** Cleans the undo buffer of the transaction at the front of `ghost s`, entry by entry. */
    method Cleanup(transaction: Txn, ghost s: State) returns (ghost r: State)
      requires s.phase.Collecting? && Collectable(s) && s.cells == cells
      requires s.recent[0] == transaction && transaction.cleaned == 0
      modifies this`cells
      ensures r == s.(cells := cells, floor := r.floor, recent := r.recent)
      ensures r.recent == [transaction.(cleaned := |transaction.log|)] + s.recent[1..]
      ensures AllCollected(r) == AllCollected(s)
    {
      r := s;
      for k := 0 to |transaction.log|
        invariant r == s.(cells := cells, floor := r.floor, recent := r.recent)
        invariant r.recent == [transaction.(cleaned := k)] + s.recent[1..]
        invariant AllCollected(r) == AllCollected(s)
      {
        var c := transaction.log[k].cell;
        var chain := if c in cells then cells[c] else Chain([], None);
        cells := cells[c := Unlink(chain, transaction.id, k)];
        hide Unlink, ApplyWrite;
        r := OneCleaned(r);
      }
    }

    /** Takes a finished transaction off the active list and collects what no running transaction can see. */
    method RemoveTransaction(index: nat)
      requires index < |activeTransactions|
      requires forall k :: 0 <= k < |recentlyCommitted| ==> recentlyCommitted[k].cleaned == 0
      requires activeTransactions[index].cleaned == 0
      modifies this
      ensures View() == AllCollected(Removed(old(View()), index)).(phase := Idle)
    {
      hide LowestStart, AllCollected, Unlink, ApplyWrite;
      var lowest := LowestOther(index);
      var transaction := activeTransactions[index];
      ghost var s := Removed(View(), index);
      if transaction.cid != 0 {
        recentlyCommitted := recentlyCommitted + [transaction];
      }
      activeTransactions := activeTransactions[..index] + activeTransactions[index + 1..];
      hide Remove, Removed;
      var i := 0;
      while i < |recentlyCommitted| && recentlyCommitted[i].cid < lowest
        invariant i <= |recentlyCommitted|
        invariant s.recent == recentlyCommitted[i..] && s.phase == Collecting(lowest)
        invariant forall k :: 0 <= k < |recentlyCommitted| ==> recentlyCommitted[k].cleaned == 0
        invariant AllCollected(s) == AllCollected(Removed(old(View()), index))
        invariant s == View().(phase := s.phase, recent := s.recent, retired := s.retired, floor := s.floor)
      {
        assert s.recent[0] == recentlyCommitted[i] && s.recent[1..] == recentlyCommitted[i + 1..];
        s := Cleanup(recentlyCommitted[i], s);
        CollectRetire(s);
        s := Retired(s);
        i := i + 1;
      }
      CollectDone(s);
      recentlyCommitted := recentlyCommitted[i..];
      retired, floor := s.retired, s.floor;
    }

    /** Stamps the undo buffer of an active transaction with its commit identifier, then removes the transaction. */
    method CommitTransaction(index: nat)
      requires Valid() && index < |activeTransactions|
      modifies this
      ensures Valid()
      ensures View() == CommitAll(old(View()), index)
    {
      hide Inv, AllStamped, AllCollected, LowestStart, Remove, Stamp;
      ghost var s0 := View();
      ghost var s := CommitBegun(s0, index);
      BeginCommitKeeps(s0, index);
      AllStampedIs(s);
      CommitAppends(s0, index);
      var transaction := activeTransactions[index].(cid := currentStartTimestamp);
      currentStartTimestamp := currentStartTimestamp + 1;
      NotStamped(s0, index);
      for k := 0 to |transaction.log|
        invariant s.phase == Committing(transaction.(stamped := k))
        invariant AllStamped(s) == AllStamped(CommitBegun(s0, index))
        invariant s == View().(phase := s.phase, active := s.active) && s.active == Remove(s0.active, index)
        invariant activeTransactions == s0.active && recentlyCommitted == s0.recent
      {
        var w := transaction.log[k];
        var chain := if w.cell in cells then cells[w.cell] else Chain([], None);
        cells := cells[w.cell := chain.(nodes := Stamp(chain.nodes, transaction.id, k, transaction.cid))];
        if w.flag.InsertTuple? {
          cardinality := cardinality + 1;
        } else if w.flag.DeleteTuple? {
          cardinality := cardinality - 1;
        }
        StampNext(s);
        s := OneCommitted(s);
      }
      StampDone(s);
      transaction := transaction.(stamped := |transaction.log|);
      activeTransactions := activeTransactions[index := transaction];
      RemoveIgnores(s0.active, index, transaction);
      RemoveTransaction(index);
      EndCommitKeeps(s);
      AllCollectedIs(CommitEnded(s));
      NothingHalfCollected(AllCollected(CommitEnded(s)));
    }

    /** What a rollback leaves. */
    ghost function RolledBack(index: nat): State
      requires index < |activeTransactions|
      reads this
    {
      RollbackAll(View(), index)
    }

    /** Undoes the undo buffer of an active transaction from its end, then removes the transaction. */
    method RollbackTransaction(index: nat)
      requires Valid() && index < |activeTransactions|
      modifies this
      ensures Valid()
      ensures View() == old(RolledBack(index))
    {
      hide Inv, AllUndone, AllCollected, LowestStart, Remove, Undo;
      ghost var s0 := View();
      ghost var s := s0.(phase := RollingBack(index));
      StepKeeps(s0, BeginRollback(index));
      AllUndoneIs(s);
      RollbackAppendsNothing(s0, index);
      NotStamped(s0, index);
      var transaction := activeTransactions[index];
      while transaction.log != []
        invariant s.phase == RollingBack(index) && transaction == s0.active[index].(log := transaction.log)
        invariant index < |s.active|
        invariant AllUndone(s) == AllUndone(s0.(phase := RollingBack(index)))
        invariant activeTransactions == s0.active && recentlyCommitted == s0.recent
        invariant s.active == s0.active[index := transaction] && s == View().(phase := s.phase, active := s.active)
        decreases |transaction.log|
      {
        var last := |transaction.log| - 1;
        var c := transaction.log[last].cell;
        var chain := if c in cells then cells[c] else Chain([], None);
        cells := cells[c := Undo(chain, transaction.id, last)];
        transaction := transaction.(log := transaction.log[..last]);
        UndoNext(s);
        s := OneUndone(s);
      }
      UndoDone(s);
      activeTransactions := activeTransactions[index := transaction];
      RemoveTransaction(index);
      EndRollbackKeeps(s);
      AllCollectedIs(RollbackEnded(s));
      NothingHalfCollected(AllCollected(RollbackEnded(s)));
    }
  }
}
