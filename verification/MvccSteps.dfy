/** Every step of the transition system keeps the invariant. */
module MvccSteps {
  import opened VersionChain
  import opened Mvcc
  import opened MvccInvariant

  // ---------------------------------------------------------------- logs

  lemma TxnAppend(t: Txn, w: Write, c: Cell)
    requires t.cleaned <= |t.log| && t.stamped <= |t.log|
    ensures TxnNodes(t.(log := t.log + [w]), c)
            == (if w.cell == c then [Version(t.id, t.id, |t.log|, w.value)] else []) + TxnNodes(t, c)
  {
    LogNodesSame(t, t.(log := t.log + [w]), t.cleaned, |t.log|, c);
  }

  /** The oldest entry of a log comes last in its nodes. */
  lemma {:induction false} LogNodesFront(t: Txn, lo: nat, hi: nat, c: Cell)
    requires lo < hi <= |t.log|
    ensures LogNodes(t, lo, hi, c)
            == LogNodes(t, lo + 1, hi, c) + (if t.log[lo].cell == c then [NodeOf(t, lo)] else [])
  {
    if lo + 1 < hi {
      LogNodesFront(t, lo, hi - 1, c);
    }
  }

  lemma {:induction false} LogNodesAlign(t: Txn, u: Txn, lo: nat, hi: nat, c: Cell)
    requires t.log == u.log && hi <= |t.log|
    ensures var a, b := LogNodes(t, lo, hi, c), LogNodes(u, lo, hi, c);
            |a| == |b| && forall k :: 0 <= k < |a| ==> a[k].entry == b[k].entry
  {
    if lo < hi {
      LogNodesAlign(t, u, lo, hi - 1, c);
    }
  }

  lemma {:induction false} LogStamp(t: Txn, lo: nat, hi: nat, c: Cell)
    requires t.stamped < |t.log| && hi <= |t.log|
    ensures Stamp(LogNodes(t, lo, hi, c), t.id, t.stamped, t.cid)
            == LogNodes(t.(stamped := t.stamped + 1), lo, hi, c)
  {
    if lo < hi {
      LogStamp(t, lo, hi - 1, c);
      var head, rest := if t.log[hi - 1].cell == c then [NodeOf(t, hi - 1)] else [], LogNodes(t, lo, hi - 1, c);
      StampConcat(head, rest, t.id, t.stamped, t.cid);
    }
  }

  lemma {:induction false} NodesMiss(ts: seq<Txn>, c: Cell, owner: nat, entry: nat)
    requires forall k :: 0 <= k < |ts| ==> ts[k].id != owner
    ensures forall k :: 0 <= k < |NodesOf(ts, c)| ==> !IsEntry(NodesOf(ts, c)[k], owner, entry)
  {
    if ts != [] {
      NodesMiss(ts[..|ts| - 1], c, owner, entry);
      var t := ts[|ts| - 1];
      LogNodesAre(t, t.cleaned, |t.log|, c);
    }
  }

  lemma {:induction false} ApplyPrefix(db: Db, a: seq<Write>, b: seq<Write>, hi: nat)
    requires hi <= |a| && hi <= |b| && a[..hi] == b[..hi]
    ensures ApplyLog(db, a, hi) == ApplyLog(db, b, hi)
    ensures LogFits(db, a, hi) == LogFits(db, b, hi)
  {
    if hi > 0 {
      assert a[hi - 1] == a[..hi][hi - 1] == b[hi - 1];
      assert a[..hi - 1] == a[..hi][..hi - 1] == b[..hi - 1];
      ApplyPrefix(db, a, b, hi - 1);
    }
  }

  /** A log only looks at the cells it writes. */
  lemma {:induction false} LogFitsFrame(db: Db, db': Db, log: seq<Write>, hi: nat, n: nat)
    requires hi <= n <= |log|
    requires forall p :: 0 <= p < n ==> Lookup(db, log[p].cell) == Lookup(db', log[p].cell)
    ensures LogFits(db, log, hi) == LogFits(db', log, hi)
    ensures forall p :: 0 <= p < n ==>
              Lookup(ApplyLog(db, log, hi), log[p].cell) == Lookup(ApplyLog(db', log, hi), log[p].cell)
  {
    if hi > 0 {
      LogFitsFrame(db, db', log, hi - 1, n);
    }
  }

  lemma WriteCounts(db: Db, w: Write)
    requires FlagFits(w, w.cell in db)
    ensures |ApplyWrite(db, w)| == |db| + Delta(w)
  {
    var after := ApplyWrite(db, w);
    if w.value.Some? {
      assert after.Keys == db.Keys + {w.cell};
    } else {
      assert after.Keys == db.Keys - {w.cell};
    }
    assert |after| == |after.Keys| && |db| == |db.Keys|;
  }

  /** The flags of a log count the rows it adds and removes. */
  lemma {:induction false} LogCounts(db: Db, log: seq<Write>, hi: nat)
    requires hi <= |log| && LogFits(db, log, hi)
    ensures |ApplyLog(db, log, hi)| == |db| + LogDelta(log, hi)
  {
    if hi > 0 {
      LogCounts(db, log, hi - 1);
      WriteCounts(ApplyLog(db, log, hi - 1), log[hi - 1]);
    }
  }

  lemma {:induction false} DbOfSame(db: Db, ts: seq<Txn>, us: seq<Txn>)
    requires |ts| == |us| && forall k :: 0 <= k < |ts| ==> ts[k].log == us[k].log
    ensures DbOf(db, ts) == DbOf(db, us)
  {
    if ts != [] {
      DbOfSame(db, ts[..|ts| - 1], us[..|us| - 1]);
    }
  }

  // ---------------------------------------------------------------- writing

  lemma ActiveHead(s: State, j: nat, c: Cell)
    requires j < |s.active| && s.active[j].stamped == 0
    requires CellExclusive(s, c) && CellOk(s, c) && TxnNodes(s.active[j], c) != []
    ensures ChainAt(s, c).nodes != [] && ChainAt(s, c).nodes[0].stamp == s.active[j].id
  {
    NodesSole(s.active, j, c);
    LogNodesAre(s.active[j], s.active[j].cleaned, |s.active[j].log|, c);
  }

  lemma CommittingHead(s: State, c: Cell)
    requires s.phase.Committing? && NodesOf(s.active, c) == []
    requires CellOk(s, c) && TxnNodes(s.phase.txn, c) != []
    ensures ChainAt(s, c).nodes != [] && ChainAt(s, c).nodes[0] == TxnNodes(s.phase.txn, c)[0]
  {
  }

  /** The conflict test leaves the writer as the only transaction with uncommitted entries on the cell. */
  lemma NoOther(s: State, i: nat, c: Cell)
    requires NumbersOk(s) && CellExclusive(s, c) && CellOk(s, c)
    requires i < |s.active| && !Conflict(ChainAt(s, c), s.active[i].id)
    ensures forall j :: 0 <= j < |s.active| && j != i ==> TxnNodes(s.active[j], c) == []
    ensures NodesOf(s.active, c) == TxnNodes(s.active[i], c)
    ensures s.phase.Committing? ==> CellStamped(s.phase.txn, c)
  {
    forall j | 0 <= j < |s.active| && j != i
      ensures TxnNodes(s.active[j], c) == []
    {
      assert s.active[j].id != s.active[i].id;
      if TxnNodes(s.active[j], c) != [] {
        ActiveHead(s, j, c);
      }
    }
    NodesSole(s.active, i, c);
    if TxnNodes(s.active[i], c) == [] && s.phase.Committing? && TxnNodes(s.phase.txn, c) != [] {
      CommittingHead(s, c);
      LogNodesAre(s.phase.txn, 0, |s.phase.txn.log|, c);
    }
  }

  lemma LatestHead(s: State, c: Cell)
    requires CleanedOk(s.recent) && FloorOk(s) && (s.phase.Committing? ==> s.phase.txn.cleaned == 0)
    ensures Base(Chain(PendingNodes(s, c) + NodesOf(s.recent, c), Lookup(s.floor, c))) == Lookup(Latest(s), c)
  {
    HeadTxns(DbOf(map[], s.retired), s.recent, c);
    DbOfConcat(map[], s.retired, s.recent);
    if s.phase.Committing? {
      ApplyNodes(Committed(s), s.phase.txn, 0, |s.phase.txn.log|, c);
    }
    if PendingNodes(s, c) == [] {
      assert PendingNodes(s, c) + NodesOf(s.recent, c) == NodesOf(s.recent, c);
    }
  }

  /** A transaction that may write a cell finds its own last write there, or the newest committed value. */
  lemma BaseOf(s: State, i: nat, c: Cell)
    requires NumbersOk(s) && FloorOk(s) && CellOk(s, c) && i < |s.active|
    requires NodesOf(s.active, c) == TxnNodes(s.active[i], c)
    ensures Base(ChainAt(s, c)) == Lookup(ApplyLog(Latest(s), s.active[i].log, |s.active[i].log|), c)
  {
    hide LogNodes, NodesOf, Latest, FloorOk, CollectedOk;
    assert TxnOk(s, s.active[i]) && CleanedOk(s.recent);
    var t := s.active[i];
    ApplyNodes(Latest(s), t, 0, |t.log|, c);
    LatestHead(s, c);
    if TxnNodes(t, c) == [] {
      assert Nodes(s, c) == PendingNodes(s, c) + NodesOf(s.recent, c);
    }
  }

  lemma WriteCell(s: State, i: nat, w: Write)
    requires NumbersOk(s) && CellExclusive(s, w.cell) && CellOk(s, w.cell) && CanWrite(s, i, w)
    ensures CellOk(Written(s, i, w), w.cell)
  {
    hide LogNodes, NodesOf, RecentOk, CollectedOk, CommittingOk;
    var s', c := Written(s, i, w), w.cell;
    var v := Version(s.active[i].id, s.active[i].id, |s.active[i].log|, w.value);
    NoOther(s, i, c);
    TxnAppend(s.active[i], w, c);
    NodesSole(s'.active, i, c);
    assert NodesOf(s'.active, c) == [v] + NodesOf(s.active, c);
    assert Nodes(s', c) == [v] + Nodes(s, c);
  }

  lemma WriteElsewhere(s: State, i: nat, w: Write, c: Cell)
    requires NumbersOk(s) && CellOk(s, c) && CanWrite(s, i, w) && c != w.cell
    ensures CellOk(Written(s, i, w), c)
  {
    hide LogNodes, NodesOf, RecentOk, CollectedOk, CommittingOk;
    TxnAppend(s.active[i], w, c);
    NodesSame(s.active, Written(s, i, w).active, c);
  }

  lemma WriteExclusive(s: State, i: nat, w: Write, c: Cell)
    requires NumbersOk(s) && CellExclusive(s, c) && CellOk(s, c) && CanWrite(s, i, w)
    ensures CellExclusive(Written(s, i, w), c)
  {
    hide LogNodes, NodesOf, RecentOk, CollectedOk, CommittingOk;
    TxnAppend(s.active[i], w, c);
    if c == w.cell {
      NoOther(s, i, c);
    }
  }

  lemma LowestSame(ts: seq<Txn>, us: seq<Txn>)
    requires |ts| == |us| && forall k :: 0 <= k < |ts| ==> ts[k].start == us[k].start
    ensures forall lowest :: IsLowest(ts, lowest) ==> IsLowest(us, lowest)
  {
    forall lowest | IsLowest(ts, lowest) ensures IsLowest(us, lowest) {
      if lowest != TRANSACTION_ID_START {
        var i :| 0 <= i < |ts| && ts[i].start == lowest;
        assert us[i].start == lowest;
      }
    }
  }

  lemma WriteNumbers(s: State, i: nat, w: Write)
    requires NumbersOk(s) && CanWrite(s, i, w)
    ensures NumbersOk(Written(s, i, w))
  {
    LowestSame(s.active, Written(s, i, w).active);
    hide IsLowest;
  }

  lemma WriteLogFits(s: State, i: nat, w: Write)
    requires Inv(s) && CanWrite(s, i, w)
    ensures var log := s.active[i].log + [w];
            LogFits(Latest(s), log, |log|)
  {
    hide NumbersOk, FloorOk, TxnNodes, NodesOf, CellOk, CellExclusive, Latest;
    var t := s.active[i];
    assert CellOk(s, w.cell) && CellExclusive(s, w.cell);
    NoOther(s, i, w.cell);
    BaseOf(s, i, w.cell);
    ApplyPrefix(Latest(s), t.log, t.log + [w], |t.log|);
  }

  lemma WriteFits(s: State, i: nat, w: Write)
    requires Inv(s) && CanWrite(s, i, w)
    ensures FloorOk(Written(s, i, w)) && CardinalityOk(Written(s, i, w))
  {
    hide NumbersOk, Exclusive, ChainsOk, DbOf, FloorOf, LogFits, ApplyLog;
    WriteLogFits(s, i, w);
  }

  lemma WriteKeeps(s: State, i: nat, w: Write)
    requires Inv(s) && CanWrite(s, i, w)
    ensures Inv(Written(s, i, w))
  {
    hide NumbersOk, CellOk, CellExclusive, FloorOk, CardinalityOk, Written;
    forall c ensures CellOk(Written(s, i, w), c) && CellExclusive(Written(s, i, w), c) {
      assert CellOk(s, c) && CellExclusive(s, c);
      if c == w.cell {
        WriteCell(s, i, w);
      } else {
        WriteElsewhere(s, i, w, c);
      }
      WriteExclusive(s, i, w, c);
    }
    WriteNumbers(s, i, w);
    WriteFits(s, i, w);
  }

  // ---------------------------------------------------------------- rollback

  /** The entry undone is the head of its chain. */
  lemma UndoHead(s: State, i: nat, c: Cell)
    requires i < |s.active| && s.active[i].cleaned == 0 && s.active[i].log != []
    requires s.active[i].log[|s.active[i].log| - 1].cell == c
    requires CellExclusive(s, c) && CellOk(s, c)
    ensures ChainAt(s, c).nodes != []
    ensures IsEntry(ChainAt(s, c).nodes[0], s.active[i].id, |s.active[i].log| - 1)
  {
    NodesSole(s.active, i, c);
  }

  lemma UndoSplits(s: State, c: Cell)
    requires NumbersOk(s) && Enabled(s, UndoOne)
    ensures var t := s.active[s.phase.index];
            var w := t.log[|t.log| - 1];
            TxnNodes(t, c) == (if w.cell == c then [Version(t.id, t.id, |t.log| - 1, w.value)] else [])
                              + TxnNodes(OneUndone(s).active[s.phase.index], c)
  {
    var t, t' := s.active[s.phase.index], OneUndone(s).active[s.phase.index];
    var w := t.log[|t.log| - 1];
    assert t == t'.(log := t'.log + [w]);
    TxnAppend(t', w, c);
  }

  lemma UndoCell(s: State, c: Cell)
    requires NumbersOk(s) && CellExclusive(s, c) && CellOk(s, c) && Enabled(s, UndoOne)
    ensures CellOk(OneUndone(s), c)
  {
    hide LogNodes, NodesOf, RecentOk, CollectedOk, CommittingOk;
    var s', i := OneUndone(s), s.phase.index;
    UndoSplits(s, c);
    if c == s.active[i].log[|s.active[i].log| - 1].cell {
      NodesSole(s.active, i, c);
      NodesSole(s'.active, i, c);
      assert NodesOf(s.active, c)[1..] == NodesOf(s'.active, c);
      assert Nodes(s, c)[1..] == Nodes(s', c);
    } else {
      NodesSame(s.active, s'.active, c);
    }
  }

  lemma UndoExclusive(s: State, c: Cell)
    requires NumbersOk(s) && CellExclusive(s, c) && Enabled(s, UndoOne)
    ensures CellExclusive(OneUndone(s), c)
  {
    UndoSplits(s, c);
  }

  lemma UndoNumbers(s: State)
    requires NumbersOk(s) && Enabled(s, UndoOne)
    ensures NumbersOk(OneUndone(s))
  {
  }

  lemma LatestUndone(s: State)
    requires Enabled(s, UndoOne)
    ensures Latest(OneUndone(s)) == Latest(s) && Committed(OneUndone(s)) == Committed(s)
  {
    hide DbOf, Undo;
  }

  lemma UndoFits(s: State)
    requires NumbersOk(s) && FloorOk(s) && CardinalityOk(s) && Enabled(s, UndoOne)
    ensures FloorOk(OneUndone(s)) && CardinalityOk(OneUndone(s))
  {
    hide DbOf, FloorOf, RecentOk, CollectedOk, CommittingOk, Undo, Latest, ApplyLog;
    var s', t := OneUndone(s), s.active[s.phase.index];
    LatestUndone(s);
    ApplyPrefix(Latest(s), t.log, s'.active[s.phase.index].log, |t.log| - 1);
  }

  lemma UndoKeeps(s: State)
    requires Inv(s) && Enabled(s, UndoOne)
    ensures Inv(OneUndone(s))
  {
    hide NumbersOk, CellOk, CellExclusive, FloorOk, CardinalityOk, OneUndone;
    forall c ensures CellOk(OneUndone(s), c) && CellExclusive(OneUndone(s), c) {
      assert CellOk(s, c) && CellExclusive(s, c);
      UndoCell(s, c);
      UndoExclusive(s, c);
    }
    UndoNumbers(s);
    UndoFits(s);
  }

  lemma EndRollbackCell(s: State, c: Cell)
    requires CellOk(s, c) && Enabled(s, EndRollback)
    ensures CellOk(RollbackEnded(s), c)
  {
    hide NodesOf, Remove, LowestStart;
    NodesRemove(s.active, s.phase.index, c);
  }

  lemma EndRollbackExclusive(s: State, c: Cell)
    requires CellExclusive(s, c) && Enabled(s, EndRollback)
    ensures CellExclusive(RollbackEnded(s), c)
  {
    hide TxnNodes, Remove, LowestStart;
  }

  lemma EndRollbackCollected(s: State)
    requires NumbersOk(s) && Enabled(s, EndRollback)
    ensures CollectedOk(RollbackEnded(s))
  {
    hide Remove, LowestStart, ActiveOk, RecentOk, CommittingOk;
  }

  lemma EndRollbackNumbers(s: State)
    requires NumbersOk(s) && Enabled(s, EndRollback)
    ensures NumbersOk(RollbackEnded(s))
  {
    hide Remove, LowestStart, CollectedOk;
    EndRollbackCollected(s);
  }

  lemma EndRollbackFits(s: State)
    requires FloorOk(s) && CardinalityOk(s) && Enabled(s, EndRollback)
    ensures FloorOk(RollbackEnded(s)) && CardinalityOk(RollbackEnded(s))
  {
    hide DbOf, FloorOf, LogFits;
  }

  lemma EndRollbackKeeps(s: State)
    requires Inv(s) && Enabled(s, EndRollback)
    ensures Inv(RollbackEnded(s))
  {
    hide NumbersOk, CellOk, CellExclusive, FloorOk, CardinalityOk, RollbackEnded;
    forall c ensures CellOk(RollbackEnded(s), c) && CellExclusive(RollbackEnded(s), c) {
      assert CellOk(s, c) && CellExclusive(s, c);
      EndRollbackCell(s, c);
      EndRollbackExclusive(s, c);
    }
    EndRollbackNumbers(s);
    EndRollbackFits(s);
  }

  // ---------------------------------------------------------------- commit

  lemma Reassociate(a: seq<Version>, b: seq<Version>, c: seq<Version>)
    ensures a + b + c == a + [] + (b + c)
    ensures b + [] + c == [] + b + c
  {
  }

  lemma BeginCommitCell(s: State, i: nat, c: Cell)
    requires CellExclusive(s, c) && CellOk(s, c) && NumbersOk(s) && Enabled(s, BeginCommit(i))
    ensures CellOk(CommitBegun(s, i), c)
  {
    hide LogNodes, NodesOf, Remove, RecentOk, CollectedOk, CommittingOk;
    var s', t := CommitBegun(s, i), s.active[i];
    LogNodesSame(t, s'.phase.txn, 0, |t.log|, c);
    if TxnNodes(t, c) == [] {
      NodesRemove(s.active, i, c);
    } else {
      NodesSole(s.active, i, c);
      NodesNone(s'.active, c);
      Reassociate([], TxnNodes(t, c), NodesOf(s.recent, c));
    }
  }

  lemma BeginCommitExclusive(s: State, i: nat, c: Cell)
    requires CellExclusive(s, c) && NumbersOk(s) && Enabled(s, BeginCommit(i))
    ensures CellExclusive(CommitBegun(s, i), c)
  {
    hide LogNodes, NodesOf, Remove, RecentOk, CollectedOk, CommittingOk;
    var s', t := CommitBegun(s, i), s.active[i];
    LogNodesSame(t, s'.phase.txn, 0, |t.log|, c);
    forall k | 0 <= k < |s'.active| && TxnNodes(s'.active[k], c) != [] ensures CellStamped(s'.phase.txn, c) {
      var j := if k < i then k else k + 1;
      assert s'.active[k] == s.active[j] && TxnNodes(t, c) == [];
    }
  }

  lemma BeginCommitNumbers(s: State, i: nat)
    requires NumbersOk(s) && Enabled(s, BeginCommit(i))
    ensures NumbersOk(CommitBegun(s, i))
  {
    hide Remove;
  }

  lemma BeginCommitFits(s: State, i: nat, u: Txn)
    requires Exclusive(s) && ActiveOk(s) && Enabled(s, BeginCommit(i)) && u in Remove(s.active, i)
    requires LogFits(Latest(s), u.log, |u.log|)
    ensures LogFits(Latest(CommitBegun(s, i)), u.log, |u.log|)
  {
    var s', t := CommitBegun(s, i), s.active[i];
    forall p | 0 <= p < |u.log|
      ensures Lookup(Latest(s), u.log[p].cell) == Lookup(Latest(s'), u.log[p].cell)
    {
      assert CellExclusive(s, u.log[p].cell);
      TouchedNonEmpty(u, 0, |u.log|, p);
      ApplyNodes(Latest(s), t, 0, |t.log|, u.log[p].cell);
    }
    LogFitsFrame(Latest(s), Latest(s'), u.log, |u.log|, |u.log|);
  }

  lemma BeginCommitHistory(s: State, i: nat)
    requires NumbersOk(s) && Exclusive(s) && FloorOk(s) && CardinalityOk(s) && Enabled(s, BeginCommit(i))
    ensures FloorOk(CommitBegun(s, i)) && CardinalityOk(CommitBegun(s, i))
  {
    hide DbOf, FloorOf, LogFits, Exclusive, Remove, RecentOk, CollectedOk;
    var s' := CommitBegun(s, i);
    forall k | 0 <= k < |s'.active|
      ensures LogFits(Latest(s'), s'.active[k].log, |s'.active[k].log|)
    {
      BeginCommitFits(s, i, s'.active[k]);
    }
  }

  lemma BeginCommitKeeps(s: State, i: nat)
    requires Inv(s) && Enabled(s, BeginCommit(i))
    ensures Inv(CommitBegun(s, i))
  {
    hide NumbersOk, CellOk, CellExclusive, FloorOk, CardinalityOk, CommitBegun;
    BeginCommitNumbers(s, i);
    BeginCommitHistory(s, i);
    forall c ensures CellOk(CommitBegun(s, i), c) && CellExclusive(CommitBegun(s, i), c) {
      assert CellOk(s, c) && CellExclusive(s, c);
      BeginCommitCell(s, i, c);
      BeginCommitExclusive(s, i, c);
    }
  }

  lemma StampAmong(a: seq<Version>, own: seq<Version>, b: seq<Version>, owner: nat, entry: nat, cid: nat)
    requires forall k :: 0 <= k < |a| ==> !IsEntry(a[k], owner, entry)
    requires forall k :: 0 <= k < |b| ==> !IsEntry(b[k], owner, entry)
    ensures Stamp(a + own + b, owner, entry, cid) == a + Stamp(own, owner, entry, cid) + b
  {
    StampMiss(a, owner, entry, cid);
    StampMiss(b, owner, entry, cid);
    StampConcat(a, own, owner, entry, cid);
    StampConcat(a + own, b, owner, entry, cid);
  }

  lemma CommittingIds(s: State)
    requires NumbersOk(s) && s.phase.Committing?
    ensures s.phase.txn.cleaned == 0
    ensures forall i :: 0 <= i < |s.active| ==> s.active[i].id != s.phase.txn.id
    ensures forall k :: 0 <= k < |s.recent| ==> s.recent[k].id != s.phase.txn.id
  {
  }

  lemma CommitOneCell(s: State, c: Cell)
    requires NumbersOk(s) && CellOk(s, c) && Enabled(s, CommitOne)
    ensures CellOk(OneCommitted(s), c)
  {
    hide LogNodes, NodesOf, TxnNodes, Stamp, NumbersOk, ApplyLog;
    CommitOneNodes(s, c);
    var t := s.phase.txn;
    if c == t.log[t.stamped].cell {
      CommittingIds(s);
      NodesMiss(s.active, c, t.id, t.stamped);
      NodesMiss(s.recent, c, t.id, t.stamped);
      StampAmong(NodesOf(s.active, c), TxnNodes(t, c), NodesOf(s.recent, c), t.id, t.stamped, t.cid);
    }
  }

  lemma CommitOneNodes(s: State, c: Cell)
    requires NumbersOk(s) && Enabled(s, CommitOne)
    ensures var t := s.phase.txn;
            TxnNodes(OneCommitted(s).phase.txn, c)
            == if c == t.log[t.stamped].cell then Stamp(TxnNodes(t, c), t.id, t.stamped, t.cid) else TxnNodes(t, c)
  {
    CommittingIds(s);
    hide LogNodes, Stamp, NumbersOk, ApplyLog;
    var t := s.phase.txn;
    if c == t.log[t.stamped].cell {
      LogStamp(t, 0, |t.log|, c);
    } else {
      LogNodesSame(t, OneCommitted(s).phase.txn, 0, |t.log|, c);
    }
  }

  lemma CommitOneExclusive(s: State, c: Cell)
    requires NumbersOk(s) && CellExclusive(s, c) && Enabled(s, CommitOne)
    ensures CellExclusive(OneCommitted(s), c)
  {
    var t, t' := s.phase.txn, OneCommitted(s).phase.txn;
    LogNodesAlign(t, t', 0, |t.log|, c);
    LogNodesAre(t, 0, |t.log|, c);
    LogNodesAre(t', 0, |t.log|, c);
  }

  lemma CommitOneNumbers(s: State)
    requires NumbersOk(s) && Enabled(s, CommitOne)
    ensures NumbersOk(OneCommitted(s))
  {
  }

  lemma CommitOneHistory(s: State)
    requires FloorOk(s) && CardinalityOk(s) && Enabled(s, CommitOne)
    ensures FloorOk(OneCommitted(s)) && CardinalityOk(OneCommitted(s))
  {
    hide DbOf, FloorOf, LogFits, ApplyLog;
  }

  lemma CommitOneKeeps(s: State)
    requires Inv(s) && Enabled(s, CommitOne)
    ensures Inv(OneCommitted(s))
  {
    hide NumbersOk, CellOk, CellExclusive, FloorOk, CardinalityOk, OneCommitted;
    forall c ensures CellOk(OneCommitted(s), c) && CellExclusive(OneCommitted(s), c) {
      assert CellOk(s, c) && CellExclusive(s, c);
      CommitOneCell(s, c);
      CommitOneExclusive(s, c);
    }
    CommitOneNumbers(s);
    CommitOneHistory(s);
  }

  lemma EndCommitFloor(s: State)
    requires NumbersOk(s) && FloorOk(s) && Enabled(s, EndCommit)
    ensures FloorOk(CommitEnded(s))
  {
    hide DbOf, ApplyWrite, ActiveOk, CollectedOk, RecentOk, LowestStart;
    assert CommitEnded(s).recent[0] == if s.recent == [] then s.phase.txn else s.recent[0];
  }

  lemma EndCommitCounts(s: State)
    requires CardinalityOk(s) && Enabled(s, EndCommit)
    ensures CardinalityOk(CommitEnded(s))
  {
    hide LogFits, LogDelta, LowestStart, ApplyLog;
    var s', t := CommitEnded(s), s.phase.txn;
    var ts := s.retired + s'.recent;
    assert ts[..|ts| - 1] == s.retired + s.recent;
    LogCounts(Committed(s), t.log, |t.log|);
  }

  lemma NodesLast(ts: seq<Txn>, t: Txn, c: Cell)
    ensures NodesOf(ts + [t], c) == TxnNodes(t, c) + NodesOf(ts, c)
  {
    assert (ts + [t])[..|ts|] == ts;
  }

  lemma EndCommitCell(s: State, c: Cell)
    requires CellOk(s, c) && CellExclusive(s, c) && Enabled(s, EndCommit)
    ensures CellOk(CommitEnded(s), c) && CellExclusive(CommitEnded(s), c)
  {
    hide NodesOf, TxnNodes, LowestStart;
    NodesLast(s.recent, s.phase.txn, c);
    Reassociate(NodesOf(s.active, c), TxnNodes(s.phase.txn, c), NodesOf(s.recent, c));
  }

  lemma EndCommitRecent(s: State)
    requires NumbersOk(s) && Enabled(s, EndCommit)
    ensures RecentOk(CommitEnded(s))
  {
    hide CollectedOk, LowestStart, Unlink, ApplyWrite;
  }

  lemma EndCommitCollected(s: State)
    requires NumbersOk(s) && Enabled(s, EndCommit)
    ensures CollectedOk(CommitEnded(s))
  {
    hide LowestStart, Unlink, ApplyWrite;
  }

  lemma EndCommitNumbers(s: State)
    requires NumbersOk(s) && Enabled(s, EndCommit)
    ensures NumbersOk(CommitEnded(s))
  {
    EndCommitRecent(s);
    EndCommitCollected(s);
    hide RecentOk, CollectedOk, LowestStart, Unlink, ApplyWrite;
  }

  lemma EndCommitKeeps(s: State)
    requires Inv(s) && Enabled(s, EndCommit)
    ensures Inv(CommitEnded(s))
  {
    hide NumbersOk, CellOk, CellExclusive, FloorOk, CardinalityOk, CommitEnded;
    EndCommitNumbers(s);
    EndCommitFloor(s);
    EndCommitCounts(s);
    forall c ensures CellOk(CommitEnded(s), c) && CellExclusive(CommitEnded(s), c) {
      assert CellOk(s, c) && CellExclusive(s, c);
      EndCommitCell(s, c);
    }
  }

  // ---------------------------------------------------------------- collection

  lemma NodesFirst(t: Txn, rest: seq<Txn>, c: Cell)
    ensures NodesOf([t] + rest, c) == NodesOf(rest, c) + TxnNodes(t, c)
  {
    NodesConcat([t], rest, c);
    assert NodesOf([t], c) == TxnNodes(t, c) + NodesOf([], c);
  }

  lemma CleanupCell(s: State, c: Cell)
    requires NumbersOk(s) && CellOk(s, c) && Enabled(s, CleanupOne)
    ensures CellOk(OneCleaned(s), c)
  {
    hide LogNodes, NodesOf, Unlink;
    var s', t, rest := OneCleaned(s), s.recent[0], s.recent[1..];
    var k, t' := t.cleaned, s'.recent[0];
    assert s.recent == [t] + rest;
    NodesFirst(t, rest, c);
    NodesFirst(t', rest, c);
    LogNodesFront(t, k, |t.log|, c);
    LogNodesSame(t, t', k + 1, |t.log|, c);
    if c == t.log[k].cell {
      NodesMiss(s.active, c, t.id, k);
      NodesMiss(rest, c, t.id, k);
      LogNodesAre(t', k + 1, |t.log|, c);
      assert Nodes(s, c) == Nodes(s', c) + [NodeOf(t, k)];
      UnlinkLast(Nodes(s', c), NodeOf(t, k), ChainAt(s, c).origin, t.id, k);
    }
  }

  lemma CleanupExclusive(s: State, c: Cell)
    requires CellExclusive(s, c) && Enabled(s, CleanupOne)
    ensures CellExclusive(OneCleaned(s), c)
  {
    hide TxnNodes, Unlink, ApplyWrite;
  }

  lemma CleanupRecent(s: State)
    requires NumbersOk(s) && Enabled(s, CleanupOne)
    ensures RecentOk(OneCleaned(s))
  {
    hide CollectedOk, LowestStart, Unlink, ApplyWrite;
  }

  lemma CleanupCollected(s: State)
    requires NumbersOk(s) && Enabled(s, CleanupOne)
    ensures CollectedOk(OneCleaned(s))
  {
    hide LowestStart, Unlink, ApplyWrite;
  }

  lemma CleanupNumbers(s: State)
    requires NumbersOk(s) && Enabled(s, CleanupOne)
    ensures NumbersOk(OneCleaned(s))
  {
    CleanupRecent(s);
    CleanupCollected(s);
    hide RecentOk, CollectedOk, LowestStart, Unlink, ApplyWrite;
  }

  lemma CleanupHistory(s: State)
    requires FloorOk(s) && CardinalityOk(s) && Enabled(s, CleanupOne)
    ensures FloorOk(OneCleaned(s)) && CardinalityOk(OneCleaned(s))
  {
    hide DbOf, LogFits, Unlink;
    DbOfSame(map[], s.retired + s.recent, s.retired + OneCleaned(s).recent);
    CleanupFloor(s);
  }

  lemma CleanupFloor(s: State)
    requires FloorOk(s) && Enabled(s, CleanupOne)
    ensures FloorOk(OneCleaned(s))
  {
    hide DbOf, Unlink, ApplyWrite;
  }

  lemma CleanupKeeps(s: State)
    requires Inv(s) && Enabled(s, CleanupOne)
    ensures Inv(OneCleaned(s))
  {
    hide NumbersOk, CellOk, CellExclusive, FloorOk, CardinalityOk, OneCleaned;
    CleanupNumbers(s);
    CleanupHistory(s);
    forall c ensures CellOk(OneCleaned(s), c) && CellExclusive(OneCleaned(s), c) {
      assert CellOk(s, c) && CellExclusive(s, c);
      CleanupCell(s, c);
      CleanupExclusive(s, c);
    }
  }

  lemma RetireHistory(s: State)
    requires NumbersOk(s) && FloorOk(s) && CardinalityOk(s) && Enabled(s, Retire)
    ensures FloorOk(Retired(s)) && CardinalityOk(Retired(s))
  {
    hide LogFits, FloorOk, NumbersOk, DbOf;
    var s' := Retired(s);
    assert s'.retired + s'.recent == s.retired + s.recent;
    RetireFloor(s);
  }

  lemma RetireFloor(s: State)
    requires NumbersOk(s) && FloorOk(s) && Enabled(s, Retire)
    ensures FloorOk(Retired(s))
  {
    hide ActiveOk, CollectedOk, CommittingOk;
    assert Retired(s).retired[..|s.retired|] == s.retired;
  }

  lemma RetireRecent(s: State)
    requires RecentOk(s) && Enabled(s, Retire)
    ensures RecentOk(Retired(s))
  {
  }

  lemma RetireCollected(s: State)
    requires NumbersOk(s) && Enabled(s, Retire)
    ensures CollectedOk(Retired(s))
  {
    hide LowestStart;
  }

  lemma RetireNumbers(s: State)
    requires NumbersOk(s) && Enabled(s, Retire)
    ensures NumbersOk(Retired(s))
  {
    hide RecentOk, CollectedOk;
    RetireRecent(s);
    RetireCollected(s);
  }

  lemma AllCleaned(t: Txn, c: Cell)
    requires t.cleaned == |t.log|
    ensures TxnNodes(t, c) == []
  {
  }

  lemma RetireExclusive(s: State, c: Cell)
    requires CellExclusive(s, c) && Enabled(s, Retire)
    ensures CellExclusive(Retired(s), c)
  {
    hide TxnNodes;
  }

  lemma RetireCell(s: State, c: Cell)
    requires CellOk(s, c) && CellExclusive(s, c) && Enabled(s, Retire)
    ensures CellOk(Retired(s), c) && CellExclusive(Retired(s), c)
  {
    hide LogNodes, NodesOf, TxnNodes, CellStamped, CellExclusive;
    var t, rest := s.recent[0], s.recent[1..];
    AllCleaned(t, c);
    RetireExclusive(s, c);
    assert s.recent == [t] + rest;
    NodesFirst(t, rest, c);
    assert NodesOf(s.recent, c) == NodesOf(rest, c);
  }

  lemma RetireKeeps(s: State)
    requires Inv(s) && Enabled(s, Retire)
    ensures Inv(Retired(s))
  {
    hide NumbersOk, CellOk, CellExclusive, FloorOk, CardinalityOk, Retired;
    RetireNumbers(s);
    RetireHistory(s);
    forall c ensures CellOk(Retired(s), c) && CellExclusive(Retired(s), c) {
      assert CellOk(s, c) && CellExclusive(s, c);
      RetireCell(s, c);
    }
  }

  // ---------------------------------------------------------------- all steps

  lemma StartCell(s: State, c: Cell)
    requires CellOk(s, c) && CellExclusive(s, c)
    ensures CellOk(Started(s), c) && CellExclusive(Started(s), c)
  {
    hide LogNodes, NodesOf;
    StartNodes(s, c);
  }

  lemma StartNodes(s: State, c: Cell)
    ensures NodesOf(Started(s).active, c) == NodesOf(s.active, c)
    ensures TxnNodes(Started(s).active[|s.active|], c) == []
  {
    assert Started(s).active[..|s.active|] == s.active;
  }

  lemma StartRecent(s: State)
    requires NumbersOk(s) && Enabled(s, Start)
    ensures RecentOk(Started(s))
  {
    hide CollectedOk, LowestStart, Unlink, ApplyWrite;
  }

  lemma StartCollected(s: State)
    requires NumbersOk(s) && Enabled(s, Start)
    ensures CollectedOk(Started(s))
  {
    hide LowestStart, Unlink, ApplyWrite;
  }

  lemma StartNumbers(s: State)
    requires NumbersOk(s) && Enabled(s, Start)
    ensures NumbersOk(Started(s))
  {
    StartRecent(s);
    StartCollected(s);
    hide RecentOk, CollectedOk, LowestStart, Unlink, ApplyWrite;
  }

  lemma StartHistory(s: State)
    requires FloorOk(s) && CardinalityOk(s) && Enabled(s, Start)
    ensures FloorOk(Started(s)) && CardinalityOk(Started(s))
  {
    hide DbOf, FloorOf;
  }

  lemma StartKeeps(s: State)
    requires Inv(s) && Enabled(s, Start)
    ensures Inv(Started(s))
  {
    hide NumbersOk, CellOk, CellExclusive, FloorOk, CardinalityOk, Started;
    forall c ensures CellOk(Started(s), c) && CellExclusive(Started(s), c) {
      assert CellOk(s, c) && CellExclusive(s, c);
      StartCell(s, c);
    }
    StartNumbers(s);
    StartHistory(s);
  }

  /** The lock is free, or taken for a rollback. */
  ghost predicate PhaseChange(s: State, s': State) {
    && s' == s.(phase := s'.phase) && !s.phase.Committing?
    && (s'.phase.Idle? || (s'.phase.RollingBack? && s'.phase.index < |s.active|))
  }

  lemma PhaseCell(s: State, s': State, c: Cell)
    requires PhaseChange(s, s') && CellOk(s, c) && CellExclusive(s, c)
    ensures CellOk(s', c) && CellExclusive(s', c)
  {
    hide TxnNodes, NodesOf;
  }

  lemma PhaseNumbers(s: State, s': State)
    requires PhaseChange(s, s') && NumbersOk(s) && FloorOk(s) && CardinalityOk(s)
    ensures NumbersOk(s') && FloorOk(s') && CardinalityOk(s')
  {
    hide DbOf, FloorOf, LogFits;
  }

  lemma PhaseKeeps(s: State, s': State)
    requires PhaseChange(s, s') && Inv(s)
    ensures Inv(s')
  {
    hide NumbersOk, CellOk, CellExclusive, FloorOk, CardinalityOk, PhaseChange;
    forall c ensures CellOk(s', c) && CellExclusive(s', c) {
      assert CellOk(s, c) && CellExclusive(s, c);
      PhaseCell(s, s', c);
    }
    PhaseNumbers(s, s');
  }

  lemma StepKeeps(s: State, step: Step)
    requires Inv(s) && Enabled(s, step)
    ensures Inv(Next(s, step))
  {
    hide NumbersOk, Exclusive, ChainsOk, FloorOk, CardinalityOk;
    match step
    case Start => StartKeeps(s);
    case DoWrite(i, w) => WriteKeeps(s, i, w);
    case BeginCommit(i) => BeginCommitKeeps(s, i);
    case CommitOne => CommitOneKeeps(s);
    case EndCommit => EndCommitKeeps(s);
    case BeginRollback(i) => PhaseKeeps(s, Next(s, step));
    case UndoOne => UndoKeeps(s);
    case EndRollback => EndRollbackKeeps(s);
    case CleanupOne => CleanupKeeps(s);
    case Retire => RetireKeeps(s);
    case Release => PhaseKeeps(s, Next(s, step));
  }

  lemma InitCell(c: Cell)
    ensures CellOk(Init, c) && CellExclusive(Init, c)
  {
  }

  lemma InitHistory()
    ensures FloorOk(Init) && CardinalityOk(Init)
  {
    hide LogFits, ApplyLog;
    assert Init.retired + Init.recent == [];
  }

  lemma InitKeeps()
    ensures Inv(Init)
  {
    hide CellOk, CellExclusive, FloorOk, CardinalityOk;
    forall c: Cell ensures CellOk(Init, c) && CellExclusive(Init, c) {
      InitCell(c);
    }
    InitHistory();
  }
}
