/**
 The inductive invariant of the transition system: every chain is exactly the
 uncommitted entries of at most one transaction, newest first, followed by the
 entries of the committed transactions in reverse commit order.
 */
module MvccInvariant {
  import opened VersionChain
  import opened Mvcc

  // ---------------------------------------------------------------- folding logs

  lemma {:induction false} LogNodesAre(t: Txn, lo: nat, hi: nat, c: Cell)
    requires hi <= |t.log|
    ensures forall k :: 0 <= k < |LogNodes(t, lo, hi, c)| ==>
              var v := LogNodes(t, lo, hi, c)[k];
              lo <= v.entry < hi && v == NodeOf(t, v.entry)
  {
    if lo < hi {
      LogNodesAre(t, lo, hi - 1, c);
    }
  }

  /** The newest node of a log for `c` holds what the log leaves in `c`. */
  lemma {:induction false} ApplyNodes(db: Db, t: Txn, lo: nat, hi: nat, c: Cell)
    requires lo <= hi <= |t.log|
    ensures var r := LogNodes(t, lo, hi, c);
            Lookup(ApplyLog(db, t.log, hi), c)
            == if r == [] then Lookup(ApplyLog(db, t.log, lo), c) else r[0].value
  {
    if lo < hi {
      ApplyNodes(db, t, lo, hi - 1, c);
      var w, r := t.log[hi - 1], LogNodes(t, lo, hi - 1, c);
      if w.cell == c {
        assert LogNodes(t, lo, hi, c) == [NodeOf(t, hi - 1)] + r;
      } else {
        assert LogNodes(t, lo, hi, c) == r;
      }
    }
  }

  lemma {:induction false} DbOfConcat(db: Db, a: seq<Txn>, b: seq<Txn>)
    ensures DbOf(db, a + b) == DbOf(DbOf(db, a), b)
  {
    if b == [] {
      assert a + b == a;
    } else {
      assert (a + b)[..|a + b| - 1] == a + b[..|b| - 1];
      DbOfConcat(db, a, b[..|b| - 1]);
    }
  }

  lemma {:induction false} DbBeforeConcat(db: Db, a: seq<Txn>, b: seq<Txn>, start: nat)
    ensures DbBefore(db, a + b, start) == DbBefore(DbBefore(db, a, start), b, start)
  {
    if b == [] {
      assert a + b == a;
    } else {
      assert (a + b)[..|a + b| - 1] == a + b[..|b| - 1];
      DbBeforeConcat(db, a, b[..|b| - 1], start);
    }
  }

  /** The database that is seen is the snapshot, unless the number of a commit is the identifier. */
  lemma {:induction false} DbSeenBefore(db: Db, ts: seq<Txn>, id: nat, start: nat)
    requires forall k :: 0 <= k < |ts| ==> ts[k].cid != id
    ensures DbSeen(db, ts, id, start) == DbBefore(db, ts, start)
  {
    if ts != [] {
      DbSeenBefore(db, ts[..|ts| - 1], id, start);
    }
  }

  lemma {:induction false} DbSeenConcat(db: Db, a: seq<Txn>, b: seq<Txn>, id: nat, start: nat)
    ensures DbSeen(db, a + b, id, start) == DbSeen(DbSeen(db, a, id, start), b, id, start)
  {
    if b == [] {
      assert a + b == a;
    } else {
      assert (a + b)[..|a + b| - 1] == a + b[..|b| - 1];
      DbSeenConcat(db, a, b[..|b| - 1], id, start);
    }
  }

  lemma {:induction false} DbBeforeAll(db: Db, ts: seq<Txn>, start: nat)
    requires forall k :: 0 <= k < |ts| ==> ts[k].cid < start
    ensures DbBefore(db, ts, start) == DbOf(db, ts)
  {
    if ts != [] {
      DbBeforeAll(db, ts[..|ts| - 1], start);
    }
  }

  // ---------------------------------------------------------------- what the walk finds

  /** At most the oldest transaction is partly collected. */
  ghost predicate CleanedOk(ts: seq<Txn>) {
    && (forall k :: 0 <= k < |ts| ==> ts[k].cleaned <= |ts[k].log|)
    && (forall k :: 0 < k < |ts| ==> ts[k].cleaned == 0)
  }

  /** All nodes of `t` are visible to a transaction, or none is. */
  ghost predicate Uniform(t: Txn, id: nat, start: nat) {
    && t.id != id && t.id >= start && t.stamped == |t.log|
    && (t.cleaned > 0 ==> t.cid < start)
  }

  /** Walking the nodes of committed transactions yields the database of exactly those that are seen. */
  lemma {:induction false} PickTxns(db: Db, ts: seq<Txn>, c: Cell, id: nat, start: nat)
    requires CleanedOk(ts)
    requires forall k :: 0 <= k < |ts| ==> Uniform(ts[k], id, start)
    ensures Pick(NodesOf(ts, c), Lookup(FloorOf(db, ts), c), id, start) == Lookup(DbSeen(db, ts, id, start), c)
  {
    if ts != [] {
      var init, t := ts[..|ts| - 1], ts[|ts| - 1];
      PickTxns(db, init, c, id, start);
      ApplyNodes(DbSeen(db, init, id, start), t, t.cleaned, |t.log|, c);
      LogNodesAre(t, t.cleaned, |t.log|, c);
      if !SeesCommit(t, id, start) {
        PickSkip(TxnNodes(t, c), NodesOf(init, c), Lookup(FloorOf(db, ts), c), id, start);
      }
      if TxnNodes(t, c) == [] {
        assert NodesOf(ts, c) == NodesOf(init, c);
      }
    }
  }

  /** The newest node of committed transactions holds the newest committed value. */
  lemma {:induction false} HeadTxns(db: Db, ts: seq<Txn>, c: Cell)
    requires CleanedOk(ts)
    ensures Base(Chain(NodesOf(ts, c), Lookup(FloorOf(db, ts), c))) == Lookup(DbOf(db, ts), c)
  {
    if ts != [] {
      var init, t := ts[..|ts| - 1], ts[|ts| - 1];
      HeadTxns(db, init, c);
      ApplyNodes(DbOf(db, init), t, t.cleaned, |t.log|, c);
      if TxnNodes(t, c) == [] {
        assert NodesOf(ts, c) == NodesOf(init, c);
      }
    }
  }

  // ---------------------------------------------------------------- concatenations of logs

  lemma {:induction false} NodesNone(ts: seq<Txn>, c: Cell)
    requires forall k :: 0 <= k < |ts| ==> TxnNodes(ts[k], c) == []
    ensures NodesOf(ts, c) == []
  {
    if ts != [] {
      NodesNone(ts[..|ts| - 1], c);
    }
  }

  lemma {:induction false} NodesSole(ts: seq<Txn>, i: nat, c: Cell)
    requires i < |ts|
    requires forall k :: 0 <= k < |ts| && k != i ==> TxnNodes(ts[k], c) == []
    ensures NodesOf(ts, c) == TxnNodes(ts[i], c)
  {
    if i == |ts| - 1 {
      NodesNone(ts[..|ts| - 1], c);
    } else {
      NodesSole(ts[..|ts| - 1], i, c);
    }
  }

  lemma {:induction false} NodesSame(ts: seq<Txn>, us: seq<Txn>, c: Cell)
    requires |ts| == |us| && forall k :: 0 <= k < |ts| ==> TxnNodes(ts[k], c) == TxnNodes(us[k], c)
    ensures NodesOf(ts, c) == NodesOf(us, c)
  {
    if ts != [] {
      NodesSame(ts[..|ts| - 1], us[..|us| - 1], c);
    }
  }

  lemma {:induction false} NodesConcat(a: seq<Txn>, b: seq<Txn>, c: Cell)
    ensures NodesOf(a + b, c) == NodesOf(b, c) + NodesOf(a, c)
  {
    if b == [] {
      assert a + b == a;
    } else {
      assert (a + b)[..|a + b| - 1] == a + b[..|b| - 1];
      NodesConcat(a, b[..|b| - 1], c);
    }
  }

  lemma {:induction false} NodesRemove(ts: seq<Txn>, i: nat, c: Cell)
    requires i < |ts|
    requires TxnNodes(ts[i], c) == []
    ensures NodesOf(Remove(ts, i), c) == NodesOf(ts, c)
  {
    var init := ts[..|ts| - 1];
    if i == |ts| - 1 {
      assert Remove(ts, i) == init;
    } else {
      NodesRemove(init, i, c);
      assert Remove(ts, i)[..|ts| - 2] == Remove(init, i);
    }
  }

  lemma {:induction false} TouchedNonEmpty(t: Txn, lo: nat, hi: nat, p: nat)
    requires lo <= p < hi <= |t.log|
    ensures LogNodes(t, lo, hi, t.log[p].cell) != []
  {
    if p < hi - 1 {
      TouchedNonEmpty(t, lo, hi - 1, p);
    }
  }

  /** Log entries outside lo..hi and writes to other cells do not matter. */
  lemma {:induction false} LogNodesSame(t: Txn, u: Txn, lo: nat, hi: nat, c: Cell)
    requires hi <= |t.log| && hi <= |u.log|
    requires forall p :: lo <= p < hi ==> 
              t.log[p].cell == u.log[p].cell && (t.log[p].cell == c ==> NodeOf(t, p) == NodeOf(u, p))
    ensures LogNodes(t, lo, hi, c) == LogNodes(u, lo, hi, c)
  {
    if lo < hi {
      LogNodesSame(t, u, lo, hi - 1, c);
    }
  }

  // ---------------------------------------------------------------- the invariant

  ghost predicate TxnOk(s: State, t: Txn) {
    TRANSACTION_ID_START <= t.id < s.nextId && t.start < s.counter && t.start < TRANSACTION_ID_START
  }

  ghost predicate ActiveOk(s: State) {
    && TRANSACTION_ID_START <= s.nextId
    && (forall i :: 0 <= i < |s.active| ==>
          TxnOk(s, s.active[i]) && s.active[i].cid == 0 && s.active[i].stamped == 0 && s.active[i].cleaned == 0)
    && (forall i, j :: 0 <= i < j < |s.active| ==> s.active[i].id != s.active[j].id)
    && (s.phase.RollingBack? ==> s.phase.index < |s.active|)
  }

  /** Recently committed transactions are sorted by commit identifier. */
  ghost predicate RecentOk(s: State) {
    && CleanedOk(s.recent)
    && (forall k :: 0 <= k < |s.recent| ==>
          TxnOk(s, s.recent[k]) && s.recent[k].cid < s.counter && s.recent[k].stamped == |s.recent[k].log|)
    && (forall j, k :: 0 <= j < k < |s.recent| ==> s.recent[j].cid < s.recent[k].cid)
    && (forall j, k :: 0 <= j < k < |s.recent| ==> s.recent[j].id != s.recent[k].id)
    && (forall i, k :: 0 <= i < |s.active| && 0 <= k < |s.recent| ==> s.active[i].id != s.recent[k].id)
  }

  ghost predicate CommittingOk(s: State, t: Txn) {
    && TxnOk(s, t) && t.cid < s.counter && t.stamped <= |t.log| && t.cleaned == 0
    && (forall i :: 0 <= i < |s.active| ==> s.active[i].id != t.id && s.active[i].start < t.cid)
    && (forall k :: 0 <= k < |s.recent| ==> s.recent[k].id != t.id && s.recent[k].cid < t.cid)
    && (forall k :: 0 <= k < |s.retired| ==> s.retired[k].cid < t.cid)
  }

  ghost predicate IsLowest(ts: seq<Txn>, lowest: nat) {
    && (forall i :: 0 <= i < |ts| ==> lowest <= ts[i].start)
    && (lowest == TRANSACTION_ID_START || exists i :: 0 <= i < |ts| && ts[i].start == lowest)
  }

  /** Collected transactions lie before every transaction that still runs. */
  ghost predicate CollectedOk(s: State) {
    && (forall k :: 0 <= k < |s.retired| ==> s.retired[k].cid < s.counter)
    && (forall k :: 0 <= k < |s.retired| ==> s.retired[k].cid < TRANSACTION_ID_START)
    && (s.recent != [] && s.recent[0].cleaned > 0 ==> s.recent[0].cid < TRANSACTION_ID_START)
    && (forall j, k :: 0 <= j < k < |s.retired| ==> s.retired[j].cid < s.retired[k].cid)
    && (forall j, k :: 0 <= j < |s.retired| && 0 <= k < |s.recent| ==> s.retired[j].cid < s.recent[k].cid)
    && (forall j, i :: 0 <= j < |s.retired| && 0 <= i < |s.active| ==> s.retired[j].cid < s.active[i].start)
    && (forall i :: 0 <= i < |s.active| && s.recent != [] && s.recent[0].cleaned > 0 ==>
          s.recent[0].cid < s.active[i].start)
    && (s.phase.Collecting? ==> IsLowest(s.active, s.phase.lowest))
  }

  ghost predicate NumbersOk(s: State) {
    && ActiveOk(s) && RecentOk(s) && CollectedOk(s)
    && (s.phase.Committing? ==> CommittingOk(s, s.phase.txn))
  }

  /** The cell has at most one uncommitted writer. */
  ghost predicate CellExclusive(s: State, c: Cell) {
    && (forall i, j :: 0 <= i < |s.active| && 0 <= j < |s.active| && i != j ==>
          TxnNodes(s.active[i], c) == [] || TxnNodes(s.active[j], c) == [])
    && (s.phase.Committing? ==> forall i :: 0 <= i < |s.active| && TxnNodes(s.active[i], c) != [] ==>
          CellStamped(s.phase.txn, c))
  }

  /** No entry of the transaction on this cell waits for its commit identifier. */
  ghost predicate CellStamped(t: Txn, c: Cell) {
    TxnNodes(t, c) == [] || TxnNodes(t, c)[0].stamp == t.cid
  }

  ghost predicate Exclusive(s: State) {
    forall c :: CellExclusive(s, c)
  }

  ghost predicate CellOk(s: State, c: Cell) {
    ChainAt(s, c) == Chain(Nodes(s, c), Lookup(s.floor, c))
  }

  ghost predicate ChainsOk(s: State) {
    forall c :: CellOk(s, c)
  }

  ghost predicate FloorOk(s: State) {
    s.floor == FloorOf(DbOf(map[], s.retired), s.recent)
  }

  /** The row counter, and the flags it is computed from. */
  ghost predicate CardinalityOk(s: State) {
    && (forall i :: 0 <= i < |s.active| ==> LogFits(Latest(s), s.active[i].log, |s.active[i].log|))
    && (if s.phase.Committing? then
          var t := s.phase.txn;
          && t.stamped <= |t.log|
          && LogFits(Committed(s), t.log, |t.log|)
          && s.cardinality == |Committed(s)| + LogDelta(t.log, t.stamped)
        else s.cardinality == |Committed(s)|)
  }

  ghost predicate Inv(s: State) {
    NumbersOk(s) && Exclusive(s) && ChainsOk(s) && FloorOk(s) && CardinalityOk(s)
  }
}
