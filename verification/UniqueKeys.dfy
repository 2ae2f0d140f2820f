/**
 Key uniqueness over all runs: a unique index is checked before every batch of
 writes, and then no set of running transactions can bring two rows with the
 same key into the table.
 */
module UniqueKeys {
  import opened VersionChain
  import opened Mvcc
  import opened MvccInvariant
  import opened MvccSteps
  import opened MvccTheorems

  /** The key of a row under the order of the index, and whether one of its columns is NULL. */
  datatype Keys = Keys(of: Payload -> int, isNull: Payload -> bool)

  predicate SameKey(keys: Keys, u: Option<Payload>, v: Option<Payload>) {
    && HasKey(keys, u) && HasKey(keys, v)
    && keys.of(u.value) == keys.of(v.value)
  }

  predicate HasKey(keys: Keys, v: Option<Payload>) {
    v.Some? && !keys.isNull(v.value)
  }

  ghost predicate Unique(keys: Keys, db: Db) {
    forall c, d :: c != d ==> !SameKey(keys, Lookup(db, c), Lookup(db, d))
  }

  // ---------------------------------------------------------------- which transactions survive

  function Keep(ts: seq<Txn>, kept: set<nat>): seq<Txn> {
    if ts == [] then []
    else Keep(ts[..|ts| - 1], kept) + if ts[|ts| - 1].id in kept then [ts[|ts| - 1]] else []
  }

  /** The table if exactly the running transactions in `kept` commit and the others roll back. */
  ghost function DbKept(s: State, kept: set<nat>): Db {
    DbOf(Latest(s), Keep(s.active, kept))
  }

  /** A transaction that is rolling back cannot be kept. */
  ghost predicate Keepable(s: State, kept: set<nat>) {
    s.phase.RollingBack? && s.phase.index < |s.active| ==> s.active[s.phase.index].id !in kept
  }

  /** Whichever running transactions commit, no two rows share a key. */
  ghost predicate AllUnique(keys: Keys, s: State) {
    forall kept :: Keepable(s, kept) ==> Unique(keys, DbKept(s, kept))
  }

  ghost predicate Fresh(ts: seq<Txn>) {
    && (forall k :: 0 <= k < |ts| ==> ts[k].cleaned == 0)
    && (forall j, k :: 0 <= j < k < |ts| ==> ts[j].id != ts[k].id)
  }

  lemma {:induction false} KeptNone(db: Db, ts: seq<Txn>, kept: set<nat>, c: Cell)
    requires Fresh(ts) && forall k :: 0 <= k < |ts| && ts[k].id in kept ==> TxnNodes(ts[k], c) == []
    ensures Lookup(DbOf(db, Keep(ts, kept)), c) == Lookup(db, c)
  {
    if ts != [] {
      var init, t := ts[..|ts| - 1], ts[|ts| - 1];
      KeptNone(db, init, kept, c);
      ApplyNodes(DbOf(db, Keep(init, kept)), t, 0, |t.log|, c);
      KeepLast(db, init, t, kept);
      assert ts == init + [t];
    }
  }

  lemma KeepLast(db: Db, ts: seq<Txn>, t: Txn, kept: set<nat>)
    ensures DbOf(db, Keep(ts + [t], kept))
            == if t.id in kept then ApplyLog(DbOf(db, Keep(ts, kept)), t.log, |t.log|) else DbOf(db, Keep(ts, kept))
  {
    assert (ts + [t])[..|ts|] == ts;
    var k := Keep(ts, kept);
    assert (k + [t])[..|k|] == k && k + [] == k;
  }

  /** A cell with one uncommitted writer has that writer's value if it is kept, else the committed one. */
  lemma {:induction false} KeptOwn(db: Db, ts: seq<Txn>, kept: set<nat>, c: Cell, i: nat)
    requires Fresh(ts) && i < |ts| && TxnNodes(ts[i], c) != []
    requires forall k :: 0 <= k < |ts| && k != i ==> TxnNodes(ts[k], c) == []
    ensures Lookup(DbOf(db, Keep(ts, kept)), c)
            == if ts[i].id in kept then TxnNodes(ts[i], c)[0].value else Lookup(db, c)
  {
    hide TxnNodes, DbOf, Keep;
    var init, t := ts[..|ts| - 1], ts[|ts| - 1];
    assert ts == init + [t];
    KeepLast(db, init, t, kept);
    LogHead(DbOf(db, Keep(init, kept)), t, c);
    if i == |ts| - 1 {
      KeptNone(db, init, kept, c);
    } else {
      KeptOwn(db, init, kept, c, i);
    }
  }

  lemma LogHead(db: Db, t: Txn, c: Cell)
    requires t.cleaned == 0
    ensures Lookup(ApplyLog(db, t.log, |t.log|), c)
            == if TxnNodes(t, c) == [] then Lookup(db, c) else TxnNodes(t, c)[0].value
  {
    ApplyNodes(db, t, 0, |t.log|, c);
  }

  /** Transactions with the same identifiers and the same entries on a cell leave the same value in it. */
  lemma {:induction false} KeptSame(db: Db, ts: seq<Txn>, us: seq<Txn>, kept: set<nat>, c: Cell)
    requires Fresh(ts) && Fresh(us) && |ts| == |us|
    requires forall k :: 0 <= k < |ts| ==> ts[k].id == us[k].id
    requires forall k :: 0 <= k < |ts| && ts[k].id in kept ==> TxnNodes(ts[k], c) == TxnNodes(us[k], c)
    ensures Lookup(DbOf(db, Keep(ts, kept)), c) == Lookup(DbOf(db, Keep(us, kept)), c)
  {
    hide TxnNodes, DbOf, Keep;
    if ts != [] {
      var ti, t := ts[..|ts| - 1], ts[|ts| - 1];
      var ui, u := us[..|us| - 1], us[|us| - 1];
      assert ts == ti + [t] && us == ui + [u];
      assert forall k :: 0 <= k < |ti| ==> ti[k] == ts[k] && ui[k] == us[k];
      KeptSame(db, ti, ui, kept, c);
      KeepLast(db, ti, t, kept);
      KeepLast(db, ui, u, kept);
      LogHead(DbOf(db, Keep(ti, kept)), t, c);
      LogHead(DbOf(db, Keep(ui, kept)), u, c);
    }
  }

  // ---------------------------------------------------------------- the index

  /** The values of a cell from its base value down to the one the transaction sees. */
  function Upto(nodes: seq<Version>, origin: Option<Payload>, id: nat, start: nat): (vs: seq<Option<Payload>>)
    ensures vs != [] && vs[0] == Base(Chain(nodes, origin))
  {
    if nodes == [] then [origin]
    else [nodes[0].value] + if Visible(nodes[0], id, start) then [] else Upto(nodes[1..], origin, id, start)
  }

  predicate KeyIs(keys: Keys, v: Option<Payload>, key: int) {
    v.Some? && keys.of(v.value) == key
  }

  /**
   The index test on a row: a new key clashes with the base value, unless the
   row is being replaced, and with every older value down to the visible one.
   */
  predicate Clash(keys: Keys, chain: Chain, key: int, replaced: bool, id: nat, start: nat) {
    var vs := Upto(chain.nodes, chain.origin, id, start);
    exists k :: (if replaced then 1 else 0) <= k < |vs| && KeyIs(keys, vs[k], key)
  }

  /** The value of a chain at depth `k`: of its nodes from the newest, and below them of the origin. */
  function ValueAt(chain: Chain, k: nat): Option<Payload>
    requires k <= |chain.nodes|
  {
    if k < |chain.nodes| then chain.nodes[k].value else chain.origin
  }

  lemma {:induction false} UptoIs(nodes: seq<Version>, origin: Option<Payload>, id: nat, start: nat, k: nat)
    ensures var vs := Upto(nodes, origin, id, start);
            && (k < |vs| <==> k <= |nodes| && forall j :: 0 <= j < k ==> !Visible(nodes[j], id, start))
            && (k < |vs| ==> vs[k] == ValueAt(Chain(nodes, origin), k))
  {
    if nodes != [] && k > 0 && !Visible(nodes[0], id, start) {
      var rest := nodes[1..];
      UptoIs(rest, origin, id, start, k - 1);
      if k <= |nodes| {
        assert forall j :: 0 < j < k ==> nodes[j] == rest[j - 1];
        if forall j :: 0 <= j < k ==> !Visible(nodes[j], id, start) {
          forall j | 0 <= j < k - 1 ensures !Visible(rest[j], id, start) {
            assert rest[j] == nodes[j + 1];
          }
        }
      }
    }
  }

  /**
   A key clashes with a row if and only if one of the values from the newest one,
   or the one below it for a row that is replaced, down to the first one that the
   transaction sees has this key.
   */
  lemma ClashExactly(keys: Keys, chain: Chain, key: int, replaced: bool, id: nat, start: nat)
    ensures Clash(keys, chain, key, replaced, id, start)
            <==> exists k :: && (if replaced then 1 else 0) <= k <= |chain.nodes|
                             && (forall j :: 0 <= j < k ==> !Visible(chain.nodes[j], id, start))
                             && ValueAt(chain, k).Some? && keys.of(ValueAt(chain, k).value) == key
  {
    var vs := Upto(chain.nodes, chain.origin, id, start);
    forall k: nat ensures (k < |vs| <==> k <= |chain.nodes| && forall j :: 0 <= j < k ==> !Visible(chain.nodes[j], id, start))
                  ensures k < |vs| ==> vs[k] == ValueAt(chain, k) {
      UptoIs(chain.nodes, chain.origin, id, start, k);
    }
    hide Upto;
    if Clash(keys, chain, key, replaced, id, start) {
      var k :| (if replaced then 1 else 0) <= k < |vs| && KeyIs(keys, vs[k], key);
      assert ValueAt(chain, k) == vs[k];
    }
    if k :| && (if replaced then 1 else 0) <= k <= |chain.nodes|
            && (forall j :: 0 <= j < k ==> !Visible(chain.nodes[j], id, start))
            && ValueAt(chain, k).Some? && keys.of(ValueAt(chain, k).value) == key {
      assert k < |vs| && KeyIs(keys, vs[k], key);
    }
  }

  /** A batch of different keys that no row of the table holds or held is admitted. */
  lemma FreeKeysPass(keys: Keys, s: State, index: KeyIndex, i: nat, ws: seq<Write>)
    requires i < |s.active| && forall p, q :: 0 <= p < q < |ws| ==> !SameKey(keys, ws[p].value, ws[q].value)
    requires forall p, d, k :: 0 <= p < |ws| && HasKey(keys, ws[p].value) && 0 <= k <= |ChainAt(s, d).nodes|
                               && ValueAt(ChainAt(s, d), k).Some? ==>
               keys.of(ValueAt(ChainAt(s, d), k).value) != keys.of(ws[p].value.value)
    ensures Passes(keys, s, index, i, ws)
  {
    hide Clash;
    forall p, d | 0 <= p < |ws| && HasKey(keys, ws[p].value) && (keys.of(ws[p].value.value), d) in index
      ensures !Clash(keys, ChainAt(s, d), keys.of(ws[p].value.value), Writes(ws, d), s.active[i].id, s.active[i].start)
    {
      ClashExactly(keys, ChainAt(s, d), keys.of(ws[p].value.value), Writes(ws, d), s.active[i].id, s.active[i].start);
    }
  }

  /** An index entry for a key and the row it was written to. */
  type KeyIndex = set<(int, Cell)>

  predicate Writes(ws: seq<Write>, c: Cell) {
    exists p :: 0 <= p < |ws| && ws[p].cell == c
  }

  /** What a batch must pass: no two of its keys are equal, and no indexed row with one of its keys clashes. */
  ghost predicate Passes(keys: Keys, s: State, index: KeyIndex, i: nat, ws: seq<Write>)
    requires i < |s.active|
  {
    && (forall p, q :: 0 <= p < q < |ws| ==> !SameKey(keys, ws[p].value, ws[q].value))
    && (forall p, d :: 0 <= p < |ws| && HasKey(keys, ws[p].value) && (keys.of(ws[p].value.value), d) in index ==>
          !Clash(keys, ChainAt(s, d), keys.of(ws[p].value.value), Writes(ws, d), s.active[i].id, s.active[i].start))
  }

  function Added(keys: Keys, ws: seq<Write>): KeyIndex {
    if ws == [] then {}
    else Added(keys, ws[..|ws| - 1])
         + if HasKey(keys, ws[|ws| - 1].value) then {(keys.of(ws[|ws| - 1].value.value), ws[|ws| - 1].cell)} else {}
  }

  predicate InChain(chain: Chain, v: Option<Payload>) {
    v == chain.origin || exists k :: 0 <= k < |chain.nodes| && chain.nodes[k].value == v
  }

  /** The index has an entry for every key in every chain. */
  ghost predicate Covers(keys: Keys, s: State, index: KeyIndex) {
    forall c, v :: HasKey(keys, v) && InChain(ChainAt(s, c), v) ==> (keys.of(v.value), c) in index
  }

  // ---------------------------------------------------------------- batches of writes

  ghost predicate CanWriteAll(s: State, i: nat, ws: seq<Write>)
    decreases |ws|
  {
    i < |s.active| && (ws != [] ==> CanWrite(s, i, ws[0]) && CanWriteAll(Written(s, i, ws[0]), i, ws[1..]))
  }

  ghost function WrittenAll(s: State, i: nat, ws: seq<Write>): State
    requires CanWriteAll(s, i, ws)
    decreases |ws|
  {
    if ws == [] then s else WrittenAll(Written(s, i, ws[0]), i, ws[1..])
  }

  datatype Indexed = Indexed(s: State, index: KeyIndex)

  /** A row is written with the key it has. */
  predicate KeepsKey(keys: Keys, s: State, w: Write) {
    var base := Base(ChainAt(s, w.cell));
    && w.value.Some? && base.Some?
    && keys.of(w.value.value) == keys.of(base.value) && keys.isNull(w.value.value) == keys.isNull(base.value)
  }

  /** Updates that do not touch the key columns pass by the index. */
  datatype IndexedStep = WriteBatch(i: nat, ws: seq<Write>) | WriteOther(i: nat, w: Write) | Plain(step: Step)

  ghost predicate CanDo(keys: Keys, x: Indexed, step: IndexedStep) {
    match step
    case WriteBatch(i, ws) => CanWriteAll(x.s, i, ws) && Passes(keys, x.s, x.index, i, ws)
    case WriteOther(i, w) => CanWrite(x.s, i, w) && KeepsKey(keys, x.s, w)
    case Plain(step) => !step.DoWrite? && Enabled(x.s, step)
  }

  ghost function Do(keys: Keys, x: Indexed, step: IndexedStep): Indexed
    requires CanDo(keys, x, step)
  {
    match step
    case WriteBatch(i, ws) => Indexed(WrittenAll(x.s, i, ws), x.index + Added(keys, ws))
    case WriteOther(i, w) => Indexed(Written(x.s, i, w), x.index)
    case Plain(step) => Indexed(Next(x.s, step), x.index)
  }

  ghost predicate IndexedInv(keys: Keys, x: Indexed) {
    Inv(x.s) && Covers(keys, x.s, x.index) && AllUnique(keys, x.s)
  }

  // ---------------------------------------------------------------- one write

  lemma ActiveFresh(s: State)
    requires ActiveOk(s)
    ensures Fresh(s.active)
  {
  }

  lemma WriteLatest(s: State, i: nat, w: Write)
    requires CanWrite(s, i, w)
    ensures Latest(Written(s, i, w)) == Latest(s)
  {
    hide ApplyLog, DbOf, Push;
  }

  lemma WriteKeptHere(s: State, i: nat, w: Write, kept: set<nat>)
    requires CanWrite(s, i, w) && NumbersOk(s) && CellOk(s, w.cell) && CellExclusive(s, w.cell)
    ensures Lookup(DbKept(Written(s, i, w), kept), w.cell)
            == if s.active[i].id in kept then w.value else Lookup(DbKept(s, kept), w.cell)
  {
    hide CellOk, CellExclusive, TxnNodes, DbOf, Keep, Latest, RecentOk, CollectedOk, CommittingOk, Conflict, Base;
    var s', c := Written(s, i, w), w.cell;
    ActiveFresh(s);
    WriteLatest(s, i, w);
    TxnAppend(s.active[i], w, c);
    NoOther(s, i, c);
    KeptOwn(Latest(s), s'.active, kept, c, i);
    if TxnNodes(s.active[i], c) == [] {
      KeptNone(Latest(s), s.active, kept, c);
    } else {
      KeptOwn(Latest(s), s.active, kept, c, i);
    }
  }

  lemma WriteKeptElsewhere(s: State, i: nat, w: Write, kept: set<nat>, c: Cell)
    requires CanWrite(s, i, w) && ActiveOk(s) && c != w.cell
    ensures Lookup(DbKept(Written(s, i, w), kept), c) == Lookup(DbKept(s, kept), c)
  {
    hide TxnNodes, DbOf, Keep, Latest, Conflict, Base;
    var s' := Written(s, i, w);
    ActiveFresh(s);
    WriteLatest(s, i, w);
    TxnAppend(s.active[i], w, c);
    KeptSame(Latest(s), s.active, s'.active, kept, c);
  }

  /** A write changes the kept value of its own cell only, and only if the writer is kept. */
  lemma WriteKept(s: State, i: nat, w: Write, kept: set<nat>, c: Cell)
    requires CanWrite(s, i, w) && Inv(s)
    ensures Lookup(DbKept(Written(s, i, w), kept), c)
            == if s.active[i].id in kept && c == w.cell then w.value else Lookup(DbKept(s, kept), c)
  {
    assert CellOk(s, c) && CellExclusive(s, c) && ActiveOk(s);
    hide ActiveOk, RecentOk, CollectedOk, CommittingOk, Exclusive, ChainsOk, FloorOk, CardinalityOk, CellOk, CellExclusive,
         DbKept, Written;
    if c == w.cell {
      WriteKeptHere(s, i, w, kept);
    } else {
      WriteKeptElsewhere(s, i, w, kept, c);
    }
  }

  // ---------------------------------------------------------------- one batch

  /** The last value a batch writes to a cell. */
  ghost function LastValue(ws: seq<Write>, c: Cell): Option<Payload> {
    if ws == [] then None else if Writes(ws[1..], c) then LastValue(ws[1..], c) else ws[0].value
  }

  lemma WritesFirst(ws: seq<Write>, c: Cell)
    requires ws != []
    ensures Writes(ws, c) <==> ws[0].cell == c || Writes(ws[1..], c)
  {
    if Writes(ws, c) && ws[0].cell != c {
      var p :| 0 <= p < |ws| && ws[p].cell == c;
      assert ws[1..][p - 1].cell == c;
    }
    if Writes(ws[1..], c) {
      var p :| 0 <= p < |ws[1..]| && ws[1..][p].cell == c;
      assert ws[p + 1].cell == c;
    }
  }

  lemma {:induction false} LastIs(ws: seq<Write>, c: Cell) returns (p: nat)
    requires Writes(ws, c)
    ensures p < |ws| && ws[p].cell == c && LastValue(ws, c) == ws[p].value
  {
    WritesFirst(ws, c);
    if Writes(ws[1..], c) {
      p := LastIs(ws[1..], c);
      p := p + 1;
    } else {
      p := 0;
    }
  }

  lemma {:induction false} BatchKeeps(s: State, i: nat, ws: seq<Write>)
    requires CanWriteAll(s, i, ws) && Inv(s)
    ensures var s' := WrittenAll(s, i, ws);
            && Inv(s') && s'.phase == s.phase && |s'.active| == |s.active|
            && (forall k :: 0 <= k < |s.active| ==> s'.active[k].id == s.active[k].id)
    decreases |ws|
  {
    hide Inv, CanWrite;
    if ws != [] {
      WriteKeeps(s, i, ws[0]);
      BatchKeeps(Written(s, i, ws[0]), i, ws[1..]);
    }
  }

  /** A batch changes the kept values of its own cells only. */
  lemma {:induction false} BatchKept(s: State, i: nat, ws: seq<Write>, kept: set<nat>, c: Cell)
    requires CanWriteAll(s, i, ws) && Inv(s)
    ensures Lookup(DbKept(WrittenAll(s, i, ws), kept), c)
            == if s.active[i].id in kept && Writes(ws, c) then LastValue(ws, c) else Lookup(DbKept(s, kept), c)
    decreases |ws|
  {
    hide Inv, CanWrite, DbKept;
    if ws != [] {
      WriteKeeps(s, i, ws[0]);
      WriteKept(s, i, ws[0], kept, c);
      WritesFirst(ws, c);
      BatchKept(Written(s, i, ws[0]), i, ws[1..], kept, c);
    }
  }

  lemma {:induction false} UptoSkips(a: seq<Version>, b: seq<Version>, origin: Option<Payload>, id: nat, start: nat)
    requires forall k :: 0 <= k < |a| ==> !Visible(a[k], id, start)
    ensures Base(Chain(b, origin)) in Upto(a + b, origin, id, start)
  {
    if a == [] {
      assert a + b == b;
      assert Upto(b, origin, id, start)[0] == Base(Chain(b, origin));
    } else {
      assert (a + b)[1..] == a[1..] + b;
      UptoSkips(a[1..], b, origin, id, start);
    }
  }

  /** A cell that nobody has uncommitted entries on has its base value whoever is kept. */
  lemma KeptIdle(s: State, kept: set<nat>, c: Cell)
    requires NumbersOk(s) && FloorOk(s) && CellOk(s, c)
    requires forall k :: 0 <= k < |s.active| ==> TxnNodes(s.active[k], c) == []
    ensures Lookup(DbKept(s, kept), c) == Base(ChainAt(s, c))
  {
    hide TxnNodes, NodesOf, DbOf, Keep, Latest, FloorOk, CollectedOk;
    ActiveFresh(s);
    KeptNone(Latest(s), s.active, kept, c);
    NodesNone(s.active, c);
    LatestHead(s, c);
    assert Nodes(s, c) == PendingNodes(s, c) + NodesOf(s.recent, c);
  }

  /** With writer `i` kept, the kept value of every cell is one that the index test of `i` looks at. */
  lemma KeptSeen(s: State, i: nat, kept: set<nat>, c: Cell, j: nat)
    requires NumbersOk(s) && FloorOk(s) && CellOk(s, c) && CellExclusive(s, c)
    requires i < |s.active| && j < |s.active| && s.active[i].id in kept && TxnNodes(s.active[j], c) != []
    ensures Lookup(DbKept(s, kept), c) in Upto(ChainAt(s, c).nodes, ChainAt(s, c).origin, s.active[i].id, s.active[i].start)
  {
    hide TxnNodes, NodesOf, DbOf, Keep, Latest, FloorOk, CollectedOk;
    var t, rest := s.active[j], PendingNodes(s, c) + NodesOf(s.recent, c);
    ActiveFresh(s);
    KeptOwn(Latest(s), s.active, kept, c, j);
    NodesSole(s.active, j, c);
    assert Nodes(s, c) == TxnNodes(t, c) + rest;
    if t.id in kept {
      assert Upto(ChainAt(s, c).nodes, ChainAt(s, c).origin, s.active[i].id, s.active[i].start)[0] == TxnNodes(t, c)[0].value;
    } else {
      LatestHead(s, c);
      OwnInvisible(t, c, s.active[i].id, s.active[i].start);
      UptoSkips(TxnNodes(t, c), rest, Lookup(s.floor, c), s.active[i].id, s.active[i].start);
    }
  }

  lemma OwnInvisible(t: Txn, c: Cell, id: nat, start: nat)
    requires t.stamped == 0 && t.cleaned == 0 && t.id != id && start <= t.id
    ensures forall k :: 0 <= k < |TxnNodes(t, c)| ==> !Visible(TxnNodes(t, c)[k], id, start)
  {
    LogNodesAre(t, 0, |t.log|, c);
  }

  /** Every value the index test looks at is in the chain, so it is indexed. */
  lemma {:induction false} UptoInChain(nodes: seq<Version>, origin: Option<Payload>, id: nat, start: nat, v: Option<Payload>)
    requires v in Upto(nodes, origin, id, start)
    ensures InChain(Chain(nodes, origin), v)
  {
    if nodes != [] && v != nodes[0].value {
      UptoInChain(nodes[1..], origin, id, start, v);
      if v != origin {
        var k :| 0 <= k < |nodes[1..]| && nodes[1..][k].value == v;
        assert nodes[k + 1].value == v;
      }
    }
  }

  lemma KeptTested(s: State, i: nat, kept: set<nat>, c: Cell)
    requires Inv(s) && i < |s.active| && s.active[i].id in kept
    ensures Lookup(DbKept(s, kept), c) in Upto(ChainAt(s, c).nodes, ChainAt(s, c).origin, s.active[i].id, s.active[i].start)
  {
    hide ActiveOk, RecentOk, CollectedOk, CommittingOk, FloorOk, CardinalityOk, CellOk, CellExclusive, DbKept, TxnNodes;
    assert CellOk(s, c) && CellExclusive(s, c);
    if j :| 0 <= j < |s.active| && TxnNodes(s.active[j], c) != [] {
      KeptSeen(s, i, kept, c, j);
    } else {
      KeptIdle(s, kept, c);
      assert Upto(ChainAt(s, c).nodes, ChainAt(s, c).origin, s.active[i].id, s.active[i].start)[0] == Base(ChainAt(s, c));
    }
  }

  lemma SeenClashes(keys: Keys, chain: Chain, v: Option<Payload>, id: nat, start: nat)
    requires HasKey(keys, v) && v in Upto(chain.nodes, chain.origin, id, start)
    ensures Clash(keys, chain, keys.of(v.value), false, id, start)
  {
    var vs := Upto(chain.nodes, chain.origin, id, start);
    var k :| 0 <= k < |vs| && vs[k] == v;
    assert KeyIs(keys, vs[k], keys.of(v.value));
  }

  /** A value the batch writes has another key than every kept row outside the batch. */
  lemma BatchApart(keys: Keys, s: State, index: KeyIndex, i: nat, ws: seq<Write>, p: nat, kept: set<nat>, d: Cell)
    requires Inv(s) && Covers(keys, s, index) && i < |s.active| && Passes(keys, s, index, i, ws)
    requires p < |ws| && s.active[i].id in kept && !Writes(ws, d)
    ensures !SameKey(keys, ws[p].value, Lookup(DbKept(s, kept), d))
  {
    hide Inv, DbKept, Upto, InChain;
    var v, t := Lookup(DbKept(s, kept), d), s.active[i];
    if SameKey(keys, ws[p].value, v) {
      KeptTested(s, i, kept, d);
      UptoInChain(ChainAt(s, d).nodes, ChainAt(s, d).origin, t.id, t.start, v);
      assert (keys.of(v.value), d) in index;
      SeenClashes(keys, ChainAt(s, d), v, t.id, t.start);
    }
  }

  /** The cases of a pair of rows: both in the batch, one of them, or none. */
  lemma BatchPair(keys: Keys, s: State, index: KeyIndex, i: nat, ws: seq<Write>, kept: set<nat>, c: Cell, d: Cell)
    requires i < |s.active| && Passes(keys, s, index, i, ws) && Inv(s) && Covers(keys, s, index)
    requires s.active[i].id in kept && Unique(keys, DbKept(s, kept)) && c != d
    ensures !SameKey(keys, if Writes(ws, c) then LastValue(ws, c) else Lookup(DbKept(s, kept), c),
                     if Writes(ws, d) then LastValue(ws, d) else Lookup(DbKept(s, kept), d))
  {
    hide Inv, DbKept, Covers, Writes;
    if Writes(ws, c) {
      var p := LastIs(ws, c);
      if Writes(ws, d) {
        var q := LastIs(ws, d);
      } else {
        BatchApart(keys, s, index, i, ws, p, kept, d);
      }
    } else if Writes(ws, d) {
      var q := LastIs(ws, d);
      BatchApart(keys, s, index, i, ws, q, kept, c);
    }
  }

  /** A batch that passes keeps the keys unique. */
  lemma BatchUnique(keys: Keys, s: State, index: KeyIndex, i: nat, ws: seq<Write>)
    requires CanWriteAll(s, i, ws) && Passes(keys, s, index, i, ws)
    requires Inv(s) && Covers(keys, s, index) && AllUnique(keys, s)
    ensures AllUnique(keys, WrittenAll(s, i, ws))
  {
    assert i < |s.active|;
    hide Inv, DbKept, Covers, CanWriteAll, Passes, LastValue, Writes, SameKey;
    var s' := WrittenAll(s, i, ws);
    BatchKeeps(s, i, ws);
    forall kept, c, d | Keepable(s', kept) && c != d
      ensures !SameKey(keys, Lookup(DbKept(s', kept), c), Lookup(DbKept(s', kept), d))
    {
      BatchKept(s, i, ws, kept, c);
      BatchKept(s, i, ws, kept, d);
      assert Keepable(s, kept) && Unique(keys, DbKept(s, kept));
      if s.active[i].id in kept {
        BatchPair(keys, s, index, i, ws, kept, c, d);
      }
    }
  }

  /** With the writer kept, the kept value of a cell it may write is the base value. */
  lemma KeptBase(s: State, i: nat, kept: set<nat>, c: Cell)
    requires Inv(s) && i < |s.active| && s.active[i].id in kept && !Conflict(ChainAt(s, c), s.active[i].id)
    ensures Lookup(DbKept(s, kept), c) == Base(ChainAt(s, c))
  {
    hide RecentOk, CollectedOk, CommittingOk, FloorOk, CardinalityOk, CellOk, CellExclusive, DbOf, Keep, Latest, TxnNodes, Base;
    assert CellOk(s, c) && CellExclusive(s, c);
    NoOther(s, i, c);
    if TxnNodes(s.active[i], c) == [] {
      KeptIdle(s, kept, c);
    } else {
      ActiveFresh(s);
      KeptOwn(Latest(s), s.active, kept, c, i);
      OwnHead(s, i, c);
    }
  }

  /** Writing a row with the key it has keeps the keys unique. */
  lemma OtherUnique(keys: Keys, s: State, i: nat, w: Write)
    requires CanWrite(s, i, w) && KeepsKey(keys, s, w) && Inv(s) && AllUnique(keys, s)
    ensures AllUnique(keys, Written(s, i, w))
  {
    hide Inv, DbKept;
    var s' := Written(s, i, w);
    forall kept, c, d | Keepable(s', kept) && c != d
      ensures !SameKey(keys, Lookup(DbKept(s', kept), c), Lookup(DbKept(s', kept), d))
    {
      WriteKept(s, i, w, kept, c);
      WriteKept(s, i, w, kept, d);
      assert Keepable(s, kept) && Unique(keys, DbKept(s, kept));
      if s.active[i].id in kept {
        KeptBase(s, i, kept, w.cell);
      }
      assert !SameKey(keys, Lookup(DbKept(s, kept), c), Lookup(DbKept(s, kept), d));
    }
  }

  lemma OtherCovers(keys: Keys, s: State, index: KeyIndex, i: nat, w: Write)
    requires CanWrite(s, i, w) && KeepsKey(keys, s, w) && Covers(keys, s, index)
    ensures Covers(keys, Written(s, i, w), index)
  {
    WriteCovers(keys, s, index, i, w);
    var base := Base(ChainAt(s, w.cell));
    assert InChain(ChainAt(s, w.cell), base);
    assert HasKey(keys, w.value) ==> (keys.of(w.value.value), w.cell) in index;
    assert index + (if HasKey(keys, w.value) then {(keys.of(w.value.value), w.cell)} else {}) == index;
  }

  // ---------------------------------------------------------------- the index covers all chains

  lemma {:induction false} UnlinkInChain(chain: Chain, owner: nat, entry: nat, v: Option<Payload>)
    requires InChain(Unlink(chain, owner, entry), v)
    ensures InChain(chain, v)
    decreases |chain.nodes|
  {
    var nodes, after := chain.nodes, Unlink(chain, owner, entry);
    if nodes != [] && v != chain.origin && v != nodes[0].value {
      if IsEntry(nodes[0], owner, entry) {
        var k :| 0 <= k < |after.nodes| && after.nodes[k].value == v;
        assert nodes[k + 1].value == v;
      } else {
        var rest := Chain(nodes[1..], chain.origin);
        if v != after.origin {
          var k :| 0 <= k < |after.nodes| && after.nodes[k].value == v;
          assert Unlink(rest, owner, entry).nodes[k - 1].value == v;
        }
        UnlinkInChain(rest, owner, entry, v);
        var k :| 0 <= k < |rest.nodes| && rest.nodes[k].value == v;
        assert nodes[k + 1].value == v;
      }
    }
  }

  lemma {:induction false} StampValues(nodes: seq<Version>, owner: nat, entry: nat, cid: nat)
    ensures |Stamp(nodes, owner, entry, cid)| == |nodes|
    ensures forall k :: 0 <= k < |nodes| ==> Stamp(nodes, owner, entry, cid)[k].value == nodes[k].value
  {
    if nodes != [] {
      StampValues(nodes[1..], owner, entry, cid);
    }
  }

  /** No step but a write brings a value into a chain. */
  lemma StepInChain(s: State, step: Step, c: Cell, v: Option<Payload>)
    requires Enabled(s, step) && !step.DoWrite? && InChain(ChainAt(Next(s, step), c), v)
    ensures InChain(ChainAt(s, c), v)
  {
    var s' := Next(s, step);
    if ChainAt(s', c) != ChainAt(s, c) {
      match step
      case CommitOne =>
        StampValues(ChainAt(s, c).nodes, s.phase.txn.id, s.phase.txn.stamped, s.phase.txn.cid);
      case UndoOne =>
        var t := s.active[s.phase.index];
        if ChainAt(s, c).nodes != [] && IsEntry(ChainAt(s, c).nodes[0], t.id, |t.log| - 1) {
          if v != ChainAt(s, c).origin {
            var k :| 0 <= k < |ChainAt(s', c).nodes| && ChainAt(s', c).nodes[k].value == v;
            assert ChainAt(s, c).nodes[k + 1].value == v;
          }
        } else {
          UnlinkInChain(ChainAt(s, c), t.id, |t.log| - 1, v);
        }
      case CleanupOne =>
        UnlinkInChain(ChainAt(s, c), s.recent[0].id, s.recent[0].cleaned, v);
    }
  }

  lemma StepCovers(keys: Keys, s: State, index: KeyIndex, step: Step)
    requires Enabled(s, step) && !step.DoWrite? && Covers(keys, s, index)
    ensures Covers(keys, Next(s, step), index)
  {
    hide Enabled, Next, ChainAt, InChain;
    forall c, v | HasKey(keys, v) && InChain(ChainAt(Next(s, step), c), v) ensures (keys.of(v.value), c) in index {
      StepInChain(s, step, c, v);
    }
  }

  lemma WriteCovers(keys: Keys, s: State, index: KeyIndex, i: nat, w: Write)
    requires CanWrite(s, i, w) && Covers(keys, s, index)
    ensures Covers(keys, Written(s, i, w), index + if HasKey(keys, w.value) then {(keys.of(w.value.value), w.cell)} else {})
  {
    var s' := Written(s, i, w);
    forall c, v | HasKey(keys, v) && InChain(ChainAt(s', c), v) && (c != w.cell || v != w.value)
      ensures (keys.of(v.value), c) in index
    {
      if c == w.cell && v != ChainAt(s, c).origin {
        var k :| 0 <= k < |ChainAt(s', c).nodes| && ChainAt(s', c).nodes[k].value == v;
        assert ChainAt(s, c).nodes[k - 1].value == v;
      }
      assert InChain(ChainAt(s, c), v);
    }
  }

  lemma {:induction false} AddedFirst(keys: Keys, w: Write, ws: seq<Write>)
    ensures Added(keys, [w] + ws)
            == (if HasKey(keys, w.value) then {(keys.of(w.value.value), w.cell)} else {}) + Added(keys, ws)
  {
    if ws == [] {
      assert [w] + ws == [w] && [w][..0] == [];
    } else {
      assert ([w] + ws)[..|ws|] == [w] + ws[..|ws| - 1];
      AddedFirst(keys, w, ws[..|ws| - 1]);
    }
  }

  lemma {:induction false} BatchCovers(keys: Keys, s: State, index: KeyIndex, i: nat, ws: seq<Write>)
    requires CanWriteAll(s, i, ws) && Covers(keys, s, index)
    ensures Covers(keys, WrittenAll(s, i, ws), index + Added(keys, ws))
    decreases |ws|
  {
    hide Covers, CanWrite, Written;
    if ws == [] {
      assert index + Added(keys, ws) == index;
    } else {
      var more := index + if HasKey(keys, ws[0].value) then {(keys.of(ws[0].value.value), ws[0].cell)} else {};
      WriteCovers(keys, s, index, i, ws[0]);
      BatchCovers(keys, Written(s, i, ws[0]), more, i, ws[1..]);
      assert ws == [ws[0]] + ws[1..];
      AddedFirst(keys, ws[0], ws[1..]);
      assert more + Added(keys, ws[1..]) == index + Added(keys, ws);
    }
  }

  // ---------------------------------------------------------------- the other steps

  /** Dropping a transaction that is not kept changes nothing. */
  lemma {:induction false} KeepRemove(ts: seq<Txn>, i: nat, kept: set<nat>)
    requires Fresh(ts) && i < |ts|
    ensures Keep(Remove(ts, i), kept) == Keep(ts, kept - {ts[i].id})
  {
    hide Keep, Remove;
    var init, t, r := ts[..|ts| - 1], ts[|ts| - 1], Remove(ts, i);
    KeepInit(ts, kept - {ts[i].id});
    if i == |ts| - 1 {
      assert r == init;
      KeepSame(init, init, kept, kept - {ts[i].id});
    } else {
      assert r[..|r| - 1] == Remove(init, i) && r[|r| - 1] == t;
      KeepInit(r, kept);
      KeepRemove(init, i, kept);
    }
  }

  lemma KeepInit(ts: seq<Txn>, kept: set<nat>)
    requires ts != []
    ensures Keep(ts, kept) == Keep(ts[..|ts| - 1], kept) + if ts[|ts| - 1].id in kept then [ts[|ts| - 1]] else []
  {
  }

  lemma {:induction false} KeepSame(ts: seq<Txn>, us: seq<Txn>, kept: set<nat>, kept': set<nat>)
    requires |ts| == |us|
    requires forall k :: 0 <= k < |ts| ==> ts[k].id == us[k].id && (ts[k].id in kept <==> us[k].id in kept')
    requires forall k :: 0 <= k < |ts| && ts[k].id in kept ==> ts[k] == us[k]
    ensures Keep(ts, kept) == Keep(us, kept')
  {
    if ts != [] {
      KeepSame(ts[..|ts| - 1], us[..|us| - 1], kept, kept');
    }
  }

  /** Starting a transaction: its log is empty. */
  lemma StartKept(s: State, kept: set<nat>)
    requires Enabled(s, Start)
    ensures DbKept(Started(s), kept) == DbKept(s, kept)
  {
    hide DbOf, Keep;
    assert Latest(Started(s)) == Latest(s);
    KeepLast(Latest(s), s.active, Started(s).active[|s.active|], kept);
  }

  lemma UndoKept(s: State, kept: set<nat>)
    requires Enabled(s, UndoOne) && ActiveOk(s) && Keepable(s, kept)
    ensures DbKept(OneUndone(s), kept) == DbKept(s, kept)
  {
    hide DbOf, Keep, Undo, ApplyLog;
    assert Latest(OneUndone(s)) == Latest(s);
    KeepSame(OneUndone(s).active, s.active, kept, kept);
  }

  lemma EndRollbackKept(s: State, kept: set<nat>)
    requires Enabled(s, EndRollback) && ActiveOk(s)
    ensures DbKept(RollbackEnded(s), kept) == DbKept(s, kept - {s.active[s.phase.index].id})
  {
    hide DbOf, Keep, Remove, LowestStart, ApplyLog;
    assert Latest(RollbackEnded(s)) == Latest(s);
    ActiveFresh(s);
    KeepRemove(s.active, s.phase.index, kept);
  }

  /** A commit begins: the transaction is kept from then on. */
  lemma BeginCommitKept(s: State, i: nat, kept: set<nat>, c: Cell)
    requires Enabled(s, BeginCommit(i)) && ActiveOk(s) && CellExclusive(s, c)
    ensures Lookup(DbKept(CommitBegun(s, i), kept), c) == Lookup(DbKept(s, kept + {s.active[i].id}), c)
  {
    hide TxnNodes, DbOf, Keep, ApplyLog;
    var s', t, all := CommitBegun(s, i), s.active[i], kept + {s.active[i].id};
    ActiveFresh(s);
    assert Fresh(s'.active) by { hide Fresh; RemoveFresh(s.active, i); }
    assert Latest(s') == ApplyLog(Latest(s), t.log, |t.log|);
    LogHead(Latest(s), t, c);
    if j :| 0 <= j < |s.active| && TxnNodes(s.active[j], c) != [] {
      KeptOwn(Latest(s), s.active, all, c, j);
      if j == i {
        KeptNone(Latest(s'), s'.active, kept, c);
      } else {
        KeptOwn(Latest(s'), s'.active, kept, c, if j < i then j else j - 1);
      }
    } else {
      KeptNone(Latest(s), s.active, all, c);
      KeptNone(Latest(s'), s'.active, kept, c);
    }
  }

  lemma RemoveFresh(ts: seq<Txn>, i: nat)
    requires Fresh(ts) && i < |ts|
    ensures Fresh(Remove(ts, i))
  {
  }

  /** The steps that leave the running transactions and the committed database alone. */
  lemma QuietKept(s: State, step: Step, kept: set<nat>)
    requires Enabled(s, step)
    requires step.CommitOne? || step.EndCommit? || step.BeginRollback? || step.CleanupOne? || step.Retire? || step.Release?
    ensures DbKept(Next(s, step), kept) == DbKept(s, kept)
  {
    LatestStable(s, step);
    hide Latest, DbOf, Keep, Stamp, Unlink, LowestStart;
  }

  /** The transactions that must be kept before a step for those in `kept` to be kept after it. */
  ghost function KeptBefore(s: State, step: Step, kept: set<nat>): set<nat>
    requires Enabled(s, step)
  {
    match step
    case BeginCommit(i) => kept + {s.active[i].id}
    case EndRollback => kept - {s.active[s.phase.index].id}
    case _ => kept
  }

  lemma InvParts(s: State, c: Cell)
    requires Inv(s)
    ensures ActiveOk(s) && CellExclusive(s, c)
  {
  }

  /** Steps other than writes do not change what the table can become. */
  lemma StepKept(s: State, step: Step, kept: set<nat>, c: Cell)
    requires Enabled(s, step) && !step.DoWrite? && Inv(s) && Keepable(Next(s, step), kept)
    ensures Keepable(s, KeptBefore(s, step, kept))
    ensures Lookup(DbKept(Next(s, step), kept), c) == Lookup(DbKept(s, KeptBefore(s, step, kept)), c)
  {
    hide Inv, ActiveOk, CellExclusive, DbKept, LowestStart, Remove, Stamp, Unlink, Undo;
    InvParts(s, c);
    match step
    case Start => StartKept(s, kept);
    case BeginCommit(i) => BeginCommitKept(s, i, kept, c);
    case UndoOne => UndoKept(s, kept);
    case EndRollback => EndRollbackKept(s, kept);
    case _ => QuietKept(s, step, kept);
  }

  lemma PlainUnique(keys: Keys, s: State, step: Step)
    requires Enabled(s, step) && !step.DoWrite? && Inv(s) && AllUnique(keys, s)
    ensures AllUnique(keys, Next(s, step))
  {
    hide Inv, DbKept, Enabled, Next, Keepable, KeptBefore;
    forall kept, c, d | Keepable(Next(s, step), kept) && c != d
      ensures !SameKey(keys, Lookup(DbKept(Next(s, step), kept), c), Lookup(DbKept(Next(s, step), kept), d))
    {
      StepKept(s, step, kept, c);
      StepKept(s, step, kept, d);
      assert Unique(keys, DbKept(s, KeptBefore(s, step, kept)));
    }
  }

  /** Every step of the indexed table keeps its invariant. */
  lemma DoKeeps(keys: Keys, x: Indexed, step: IndexedStep)
    requires CanDo(keys, x, step) && IndexedInv(keys, x)
    ensures IndexedInv(keys, Do(keys, x, step))
  {
    hide Inv, Covers, AllUnique, CanWriteAll, Enabled, Next, Passes, CanWrite, Written, KeepsKey;
    match step
    case WriteOther(i, w) =>
      WriteKeeps(x.s, i, w);
      OtherCovers(keys, x.s, x.index, i, w);
      OtherUnique(keys, x.s, i, w);
    case WriteBatch(i, ws) =>
      BatchKeeps(x.s, i, ws);
      BatchCovers(keys, x.s, x.index, i, ws);
      BatchUnique(keys, x.s, x.index, i, ws);
    case Plain(p) =>
      StepKeeps(x.s, p);
      StepCovers(keys, x.s, x.index, p);
      PlainUnique(keys, x.s, p);
  }

  // ---------------------------------------------------------------- over all runs

  ghost predicate IsIndexedRun(keys: Keys, states: seq<Indexed>, steps: seq<IndexedStep>) {
    && |states| == |steps| + 1
    && states[0] == Indexed(Init, {})
    && forall k :: 0 <= k < |steps| ==> CanDo(keys, states[k], steps[k]) && states[k + 1] == Do(keys, states[k], steps[k])
  }

  lemma InitKept(keys: Keys, kept: set<nat>)
    ensures Unique(keys, DbKept(Init, kept))
  {
    assert Init.retired + Init.recent == [] && Keep([], kept) == [];
    assert DbKept(Init, kept) == map[];
  }

  lemma InitIndexed(keys: Keys)
    ensures IndexedInv(keys, Indexed(Init, {}))
  {
    hide Inv, Unique, DbOf;
    InitKeeps();
    forall c, v | HasKey(keys, v) ensures !InChain(ChainAt(Init, c), v) {
      assert ChainAt(Init, c) == Chain([], None);
    }
    forall kept ensures Unique(keys, DbKept(Init, kept)) {
      InitKept(keys, kept);
    }
  }

  /**
   Key uniqueness: in every reachable state, and whichever running transactions
   are rolled back, no two rows of the table share a key.
   */
  lemma {:induction false} UniqueOverRuns(keys: Keys, states: seq<Indexed>, steps: seq<IndexedStep>, n: nat)
    requires IsIndexedRun(keys, states, steps) && n < |states|
    ensures Inv(states[n].s) && Covers(keys, states[n].s, states[n].index) && AllUnique(keys, states[n].s)
  {
    hide Inv, Covers, AllUnique, CanDo, Do;
    if n == 0 {
      InitIndexed(keys);
    } else {
      UniqueOverRuns(keys, states, steps, n - 1);
      assert states[n] == Do(keys, states[n - 1], steps[n - 1]);
      DoKeeps(keys, states[n - 1], steps[n - 1]);
    }
  }

  /** The rolling back transaction still has entries on the cell. */
  ghost predicate BeingUndone(s: State, c: Cell) {
    s.phase.RollingBack? && s.phase.index < |s.active| && TxnNodes(s.active[s.phase.index], c) != []
  }

  /** All running transactions but one that rolls back. */
  ghost function Staying(s: State): set<nat> {
    set k | 0 <= k < |s.active| && s.phase != RollingBack(k) :: s.active[k].id
  }

  /** A base row that is not being undone is that of the table once the rollback is complete. */
  lemma BaseKept(s: State, c: Cell)
    requires Inv(s) && !BeingUndone(s, c)
    ensures Lookup(DbKept(s, Staying(s)), c) == Base(ChainAt(s, c))
  {
    hide RecentOk, CollectedOk, FloorOk, CardinalityOk, CellOk, CellExclusive, DbOf, Keep, Latest, TxnNodes;
    assert CellOk(s, c) && CellExclusive(s, c);
    if j :| 0 <= j < |s.active| && TxnNodes(s.active[j], c) != [] {
      ActiveFresh(s);
      assert forall k :: 0 <= k < |s.active| && k != j ==> TxnNodes(s.active[k], c) == [] by { OthersAbsent(s, j, c); }
      KeptOwn(Latest(s), s.active, Staying(s), c, j);
      OwnHead(s, j, c);
    } else {
      KeptIdle(s, Staying(s), c);
    }
  }

  lemma OwnHead(s: State, j: nat, c: Cell)
    requires CellOk(s, c) && CellExclusive(s, c) && j < |s.active| && TxnNodes(s.active[j], c) != []
    ensures Base(ChainAt(s, c)) == TxnNodes(s.active[j], c)[0].value
  {
    NodesSole(s.active, j, c);
  }

  lemma StayingKeepable(s: State)
    requires ActiveOk(s)
    ensures Keepable(s, Staying(s))
  {
  }

  /** No two rows of the base table share a key, except for rows that are being undone. */
  lemma BaseUnique(keys: Keys, states: seq<Indexed>, steps: seq<IndexedStep>, n: nat, c: Cell, d: Cell)
    requires IsIndexedRun(keys, states, steps) && n < |states| && c != d
    requires !BeingUndone(states[n].s, c) && !BeingUndone(states[n].s, d)
    ensures !SameKey(keys, Base(ChainAt(states[n].s, c)), Base(ChainAt(states[n].s, d)))
  {
    var s := states[n].s;
    UniqueOverRuns(keys, states, steps, n);
    StayingKeepable(s);
    hide Inv, DbKept, IsIndexedRun, Base, BeingUndone;
    BaseKept(s, c);
    BaseKept(s, d);
    assert Unique(keys, DbKept(s, Staying(s)));
  }

  // ---------------------------------------------------------------- during a rollback

  /** One transaction with these chains, and nothing else. */
  function Alone(log: seq<Write>, cells: map<Cell, Chain>, phase: Phase): State {
    State(1, TRANSACTION_ID_START + 1, cells, [Txn(TRANSACTION_ID_START, 0, 0, log, 0, 0)], phase, [], [], map[], 0)
  }

  function Own(entry: nat, v: Payload): Version {
    Version(TRANSACTION_ID_START, TRANSACTION_ID_START, entry, Some(v))
  }

  lemma WriteTwo(s: State, i: nat, w: Write, w': Write)
    requires CanWrite(s, i, w) && CanWrite(Written(s, i, w), i, w')
    ensures CanWriteAll(s, i, [w, w']) && WrittenAll(s, i, [w, w']) == Written(Written(s, i, w), i, w')
  {
    hide Conflict, FlagFits, Base;
    var s1 := Written(s, i, w);
    var s2 := Written(s1, i, w');
    assert [w, w'][1..] == [w'] && [w'][1..] == [];
    assert CanWriteAll(s2, i, []) && WrittenAll(s2, i, []) == s2;
    assert CanWriteAll(s1, i, [w']) && WrittenAll(s1, i, [w']) == s2;
  }

  lemma InsertTwo(keys: Keys, c: Cell, d: Cell, a: Payload, b: Payload)
    requires c != d && keys.of(a) != keys.of(b) && !keys.isNull(a) && !keys.isNull(b)
    ensures var ws := [Write(InsertTuple, c, Some(a)), Write(InsertTuple, d, Some(b))];
            var x := Indexed(Alone([], map[], Idle), {});
            CanDo(keys, x, WriteBatch(0, ws))
            && Do(keys, x, WriteBatch(0, ws))
               == Indexed(Alone(ws, map[c := Chain([Own(0, a)], None), d := Chain([Own(1, b)], None)], Idle),
                          {(keys.of(a), c), (keys.of(b), d)})
  {
    hide CanWriteAll, WrittenAll;
    var w, w' := Write(InsertTuple, c, Some(a)), Write(InsertTuple, d, Some(b));
    var ws, s := [w, w'], Alone([], map[], Idle);
    var s1 := Alone([w], map[c := Chain([Own(0, a)], None)], Idle);
    assert [] + [w] == [w] && [Own(0, a)] + [] == [Own(0, a)] && [Own(1, b)] + [] == [Own(1, b)];
    assert CanWrite(s, 0, w) && Written(s, 0, w) == s1;
    var s2 := Alone(ws, map[c := Chain([Own(0, a)], None), d := Chain([Own(1, b)], None)], Idle);
    assert [w] + [w'] == ws;
    assert CanWrite(s1, 0, w') && Written(s1, 0, w') == s2;
    WriteTwo(s, 0, w, w');
    assert ws[..1] == [w] && [w][..0] == [];
    assert Added(keys, [w]) == {(keys.of(a), c)};
  }

  function Two(c: Cell, d: Cell, ns: seq<Version>, ms: seq<Version>): map<Cell, Chain> {
    map[c := Chain(ns, None), d := Chain(ms, None)]
  }

  lemma UpdateTwo(keys: Keys, log: seq<Write>, c: Cell, d: Cell, a: Payload, b: Payload, e: Payload)
    requires |log| == 2 && c != d && !keys.isNull(b) && !keys.isNull(e)
    requires keys.of(a) != keys.of(b) && keys.of(a) != keys.of(e) && keys.of(b) != keys.of(e)
    ensures var ws := [Write(UpdateTuple, c, Some(b)), Write(UpdateTuple, d, Some(e))];
            var x := Indexed(Alone(log, Two(c, d, [Own(0, a)], [Own(1, b)]), Idle), {(keys.of(a), c), (keys.of(b), d)});
            CanDo(keys, x, WriteBatch(0, ws))
            && Do(keys, x, WriteBatch(0, ws)).s
               == Alone(log + ws, Two(c, d, [Own(2, b), Own(0, a)], [Own(3, e), Own(1, b)]), Idle)
  {
    hide CanWriteAll, WrittenAll;
    var w, w' := Write(UpdateTuple, c, Some(b)), Write(UpdateTuple, d, Some(e));
    var ws, s := [w, w'], Alone(log, Two(c, d, [Own(0, a)], [Own(1, b)]), Idle);
    var s1 := Alone(log + [w], Two(c, d, [Own(2, b), Own(0, a)], [Own(1, b)]), Idle);
    assert [Own(2, b)] + [Own(0, a)] == [Own(2, b), Own(0, a)] && [Own(3, e)] + [Own(1, b)] == [Own(3, e), Own(1, b)];
    assert CanWrite(s, 0, w) && Written(s, 0, w) == s1;
    var s2 := Alone(log + ws, Two(c, d, [Own(2, b), Own(0, a)], [Own(3, e), Own(1, b)]), Idle);
    assert log + [w] + [w'] == log + ws;
    assert CanWrite(s1, 0, w') && Written(s1, 0, w') == s2;
    WriteTwo(s, 0, w, w');
    assert ws[1].cell == d && Writes(ws, d);
    assert Upto([Own(1, b)], None, TRANSACTION_ID_START, 0) == [Some(b)];
  }

  /**
   The condition on rollbacks is needed: halfway through undoing a batch that
   moved keys between rows, the base table holds one key twice.
   */
  lemma RollbackShowsDuplicate(keys: Keys, c: Cell, d: Cell, a: Payload, b: Payload, e: Payload)
    returns (states: seq<Indexed>, steps: seq<IndexedStep>)
    requires c != d && !keys.isNull(a) && !keys.isNull(b) && !keys.isNull(e)
    requires keys.of(a) != keys.of(b) && keys.of(a) != keys.of(e) && keys.of(b) != keys.of(e)
    ensures |states| == 6 && IsIndexedRun(keys, states, steps) && states[5].s.phase.RollingBack?
    ensures SameKey(keys, Base(ChainAt(states[5].s, c)), Base(ChainAt(states[5].s, d)))
  {
    var ins := [Write(InsertTuple, c, Some(a)), Write(InsertTuple, d, Some(b))];
    var ups := [Write(UpdateTuple, c, Some(b)), Write(UpdateTuple, d, Some(e))];
    InsertTwo(keys, c, d, a, b);
    UpdateTwo(keys, ins, c, d, a, b, e);
    var x1 := Indexed(Alone([], map[], Idle), {});
    var x2 := Do(keys, x1, WriteBatch(0, ins));
    var x3 := Do(keys, x2, WriteBatch(0, ups));
    var x4 := Indexed(x3.s.(phase := RollingBack(0)), x3.index);
    var x5 := Indexed(OneUndone(x4.s), x4.index);
    steps := [Plain(Start), WriteBatch(0, ins), WriteBatch(0, ups), Plain(BeginRollback(0)), Plain(UndoOne)];
    states := [Indexed(Init, {}), x1, x2, x3, x4, x5];
    assert Do(keys, states[0], Plain(Start)) == x1 by { assert [] + [Txn(TRANSACTION_ID_START, 0, 0, [], 0, 0)] == [Txn(TRANSACTION_ID_START, 0, 0, [], 0, 0)]; }
    assert x5.s.cells[c] == Chain([Own(2, b), Own(0, a)], None);
    assert [Own(3, e), Own(1, b)][1..] == [Own(1, b)];
    assert x5.s.cells[d] == Chain([Own(1, b)], None);
  }
}
