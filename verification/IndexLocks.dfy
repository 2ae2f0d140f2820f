/**
 Key uniqueness when the index test and the writes of a batch are two steps: a
 batch holds the lock of the chunks it writes, the test takes a shared lock on
 the chunk of every row it meets, except for the last chunk of the table.
 */
module IndexLocks {
  import opened VersionChain
  import opened Mvcc
  import opened MvccInvariant
  import opened MvccSteps
  import MvccTheorems
  import opened UniqueKeys

  // ---------------------------------------------------------------- batches between test and write

  /** A batch of transaction `id` that has passed the test, with the chunks it holds the lock of. */
  datatype Batch = Batch(id: nat, ws: seq<Write>, chunks: set<nat>)

  /** `rows` are the rows of the table, and `tail` is its last chunk. */
  datatype LockedTable = LockedTable(s: State, index: KeyIndex, pending: seq<Batch>, rows: set<Cell>, tail: nat)

  datatype BatchStep =
    | Test(i: nat, ws: seq<Write>, chunks: set<nat>)
    | WriteOut(n: nat, i: nat)
    | Abort(n: nat)
    | Other(i: nat, w: Write)
    | Quiet(step: Step)
    | NewTail(tail: nat)

  /** The chunk of a row. */
  type Layout = Cell -> nat

  predicate Held(x: LockedTable, chunk: nat) {
    exists n :: 0 <= n < |x.pending| && chunk in x.pending[n].chunks
  }

  predicate Busy(x: LockedTable, id: nat) {
    exists n :: 0 <= n < |x.pending| && x.pending[n].id == id
  }

  /** The test of a batch comes across an index entry of this row. */
  ghost predicate Meets(keys: Keys, index: KeyIndex, ws: seq<Write>, d: Cell) {
    exists p :: 0 <= p < |ws| && HasKey(keys, ws[p].value) && (keys.of(ws[p].value.value), d) in index
  }

  /** The lock that the test takes: none for a row of the last chunk, else one that waits for a batch to be written. */
  ghost predicate MayRead(x: LockedTable, layout: Layout, d: Cell) {
    d in x.rows && (layout(d) == x.tail || !Held(x, layout(d)))
  }

  ghost predicate CanTest(keys: Keys, x: LockedTable, layout: Layout, i: nat, ws: seq<Write>, chunks: set<nat>) {
    && i < |x.s.active| && !Busy(x, x.s.active[i].id) && x.s.phase != RollingBack(i)
    && (forall k :: k in chunks ==> !Held(x, k))
    && (forall p :: 0 <= p < |ws| ==> layout(ws[p].cell) in chunks)
    && (forall d :: Meets(keys, x.index, ws, d) ==> MayRead(x, layout, d))
    && Passes(keys, x.s, x.index, i, ws)
  }

  /** A transaction does one thing at a time, and writes only under the lock of the chunk. */
  ghost predicate CanStep(keys: Keys, x: LockedTable, layout: Layout, step: BatchStep) {
    match step
    case Test(i, ws, chunks) => CanTest(keys, x, layout, i, ws, chunks)
    case WriteOut(n, i) =>
      && n < |x.pending| && i < |x.s.active| && x.s.active[i].id == x.pending[n].id
      && CanWriteAll(x.s, i, x.pending[n].ws)
    case Abort(n) => n < |x.pending|
    case Other(i, w) =>
      && CanWrite(x.s, i, w) && KeepsKey(keys, x.s, w)
      && !Busy(x, x.s.active[i].id) && !Held(x, layout(w.cell))
    case Quiet(step) =>
      && !step.DoWrite? && Enabled(x.s, step)
      && (step.BeginCommit? ==> !Busy(x, x.s.active[step.index].id))
      && (step.BeginRollback? ==> !Busy(x, x.s.active[step.index].id))
    case NewTail(tail) => !Held(x, x.tail)
  }

  function Without(pending: seq<Batch>, n: nat): seq<Batch>
    requires n < |pending|
  {
    pending[..n] + pending[n + 1..]
  }

  ghost function DoStep(keys: Keys, x: LockedTable, layout: Layout, step: BatchStep): LockedTable
    requires CanStep(keys, x, layout, step)
  {
    match step
    case Test(i, ws, chunks) =>
      x.(index := x.index + Added(keys, ws), pending := x.pending + [Batch(x.s.active[i].id, ws, chunks)])
    case WriteOut(n, i) =>
      var ws := x.pending[n].ws;
      x.(s := WrittenAll(x.s, i, ws), pending := Without(x.pending, n),
         rows := x.rows + set p | 0 <= p < |ws| :: ws[p].cell)
    case Abort(n) => x.(pending := Without(x.pending, n))
    case Other(i, w) => x.(s := Written(x.s, i, w))
    case Quiet(step) => x.(s := Next(x.s, step))
    case NewTail(tail) => x.(tail := tail)
  }

  // ---------------------------------------------------------------- what the table can become

  /** The batches of the transactions `ids` as if they were written already. */
  ghost function Over(pending: seq<Batch>, ids: set<nat>, c: Cell, base: Option<Payload>): Option<Payload> {
    if pending == [] then base
    else
      var b := pending[|pending| - 1];
      if b.id in ids && Writes(b.ws, c) then LastValue(b.ws, c) else Over(pending[..|pending| - 1], ids, c, base)
  }

  /** The row if exactly the transactions in `kept` commit, the batches of those in `written` included. */
  ghost function View(x: LockedTable, kept: set<nat>, written: set<nat>, c: Cell): Option<Payload> {
    Over(x.pending, kept * written, c, Lookup(DbKept(x.s, kept), c))
  }

  /** Whichever transactions commit, and whichever batches get written, no two rows share a key. */
  ghost predicate UniqueViews(keys: Keys, x: LockedTable) {
    forall kept, written, c, d :: Keepable(x.s, kept) && c != d ==>
      !SameKey(keys, View(x, kept, written, c), View(x, kept, written, d))
  }

  /** The batches belong to different running transactions, and no two hold the same chunk. */
  ghost predicate PendingOk(keys: Keys, x: LockedTable, layout: Layout) {
    && (forall n :: 0 <= n < |x.pending| ==> BatchOk(keys, x.s, x.index, layout, x.pending[n]))
    && (forall m, n :: 0 <= m < n < |x.pending| ==>
          x.pending[m].id != x.pending[n].id && x.pending[m].chunks !! x.pending[n].chunks)
  }

  ghost predicate BatchOk(keys: Keys, s: State, index: KeyIndex, layout: Layout, b: Batch) {
    && b.id < s.nextId && Added(keys, b.ws) <= index
    && (forall p :: 0 <= p < |b.ws| ==> layout(b.ws[p].cell) in b.chunks)
    && Keepable(s, {b.id})
  }

  ghost predicate TableInv(keys: Keys, x: LockedTable, layout: Layout) {
    Inv(x.s) && Covers(keys, x.s, x.index) && PendingOk(keys, x, layout)
  }

  // ---------------------------------------------------------------- one cell and the batches

  lemma {:induction false} OverNone(pending: seq<Batch>, ids: set<nat>, c: Cell, base: Option<Payload>)
    requires forall n :: 0 <= n < |pending| && pending[n].id in ids ==> !Writes(pending[n].ws, c)
    ensures Over(pending, ids, c, base) == base
  {
    if pending != [] {
      OverNone(pending[..|pending| - 1], ids, c, base);
    }
  }

  lemma {:induction false} OverOne(pending: seq<Batch>, ids: set<nat>, c: Cell, base: Option<Payload>, n: nat)
    requires n < |pending| && pending[n].id in ids && Writes(pending[n].ws, c)
    requires forall m :: 0 <= m < |pending| && m != n ==> !Writes(pending[m].ws, c)
    ensures Over(pending, ids, c, base) == LastValue(pending[n].ws, c)
  {
    if n < |pending| - 1 {
      OverOne(pending[..|pending| - 1], ids, c, base, n);
    }
  }

  /** At most one batch writes a cell, since it holds the chunk of the cell. */
  lemma SoleWriter(keys: Keys, x: LockedTable, layout: Layout, c: Cell, n: nat)
    requires PendingOk(keys, x, layout) && n < |x.pending| && Writes(x.pending[n].ws, c)
    ensures layout(c) in x.pending[n].chunks
    ensures forall m :: 0 <= m < |x.pending| && m != n ==> !Writes(x.pending[m].ws, c)
  {
    var b := x.pending[n];
    assert BatchOk(keys, x.s, x.index, layout, b);
    var p :| 0 <= p < |b.ws| && b.ws[p].cell == c;
    forall m | 0 <= m < |x.pending| && m != n ensures !Writes(x.pending[m].ws, c) {
      assert BatchOk(keys, x.s, x.index, layout, x.pending[m]);
      assert x.pending[m].chunks !! b.chunks;
    }
  }

  /** What the view of a cell is: the value of the one batch that writes it, or that of the table. */
  lemma ViewIs(keys: Keys, x: LockedTable, layout: Layout, kept: set<nat>, written: set<nat>, c: Cell, n: nat)
    requires PendingOk(keys, x, layout) && n < |x.pending| && Writes(x.pending[n].ws, c)
    ensures View(x, kept, written, c)
            == if x.pending[n].id in kept * written then LastValue(x.pending[n].ws, c) else Lookup(DbKept(x.s, kept), c)
  {
    SoleWriter(keys, x, layout, c, n);
    hide DbKept, Writes, LastValue;
    if x.pending[n].id in kept * written {
      OverOne(x.pending, kept * written, c, Lookup(DbKept(x.s, kept), c), n);
    } else {
      OverNone(x.pending, kept * written, c, Lookup(DbKept(x.s, kept), c));
    }
  }

  lemma ViewFree(x: LockedTable, kept: set<nat>, written: set<nat>, c: Cell)
    requires forall n :: 0 <= n < |x.pending| ==> !Writes(x.pending[n].ws, c)
    ensures View(x, kept, written, c) == Lookup(DbKept(x.s, kept), c)
  {
    hide DbKept, Writes;
    OverNone(x.pending, kept * written, c, Lookup(DbKept(x.s, kept), c));
  }

  // ---------------------------------------------------------------- the structure is kept

  lemma AddedHas(keys: Keys, ws: seq<Write>, p: nat)
    requires p < |ws| && HasKey(keys, ws[p].value)
    ensures (keys.of(ws[p].value.value), ws[p].cell) in Added(keys, ws)
    decreases |ws|
  {
    if p < |ws| - 1 {
      AddedHas(keys, ws[..|ws| - 1], p);
    }
  }

  lemma CoversMore(keys: Keys, s: State, index: KeyIndex, more: KeyIndex)
    requires Covers(keys, s, index) && index <= more
    ensures Covers(keys, s, more)
  {
  }

  lemma InvActive(s: State)
    requires Inv(s)
    ensures ActiveOk(s)
  {
  }

  /** The batches stay as they are while the state and the index change. */
  lemma PendingSame(keys: Keys, x: LockedTable, y: LockedTable, layout: Layout)
    requires PendingOk(keys, x, layout) && y.pending == x.pending && x.index <= y.index && x.s.nextId <= y.s.nextId
    requires forall n :: 0 <= n < |x.pending| && Keepable(x.s, {x.pending[n].id}) ==> Keepable(y.s, {x.pending[n].id})
    ensures PendingOk(keys, y, layout)
  {
    hide Added, Keepable;
  }

  lemma PendingPush(keys: Keys, x: LockedTable, layout: Layout, b: Batch)
    requires PendingOk(keys, x, layout) && BatchOk(keys, x.s, x.index, layout, b) && !Busy(x, b.id)
    requires forall k :: k in b.chunks ==> !Held(x, k)
    ensures PendingOk(keys, x.(pending := x.pending + [b]), layout)
  {
    hide BatchOk;
    forall n | 0 <= n < |x.pending| ensures x.pending[n].id != b.id && x.pending[n].chunks !! b.chunks {
    }
  }

  lemma PendingDrop(keys: Keys, x: LockedTable, layout: Layout, n: nat)
    requires PendingOk(keys, x, layout) && n < |x.pending|
    ensures PendingOk(keys, x.(pending := Without(x.pending, n)), layout)
  {
    hide BatchOk;
  }

  lemma TestInv(keys: Keys, x: LockedTable, layout: Layout, i: nat, ws: seq<Write>, chunks: set<nat>)
    requires TableInv(keys, x, layout) && CanTest(keys, x, layout, i, ws, chunks)
    ensures TableInv(keys, DoStep(keys, x, layout, Test(i, ws, chunks)), layout)
  {
    InvActive(x.s);
    hide Covers, Passes, Added, MayRead, Inv, PendingOk, Busy, Held, Meets;
    var y := x.(index := x.index + Added(keys, ws));
    CoversMore(keys, x.s, x.index, y.index);
    PendingSame(keys, x, y, layout);
    PendingPush(keys, y, layout, Batch(x.s.active[i].id, ws, chunks));
  }

  lemma WriteOutInv(keys: Keys, x: LockedTable, layout: Layout, n: nat, i: nat)
    requires TableInv(keys, x, layout) && CanStep(keys, x, layout, WriteOut(n, i))
    ensures TableInv(keys, DoStep(keys, x, layout, WriteOut(n, i)), layout)
    ensures forall kept :: Keepable(DoStep(keys, x, layout, WriteOut(n, i)).s, kept) <==> Keepable(x.s, kept)
  {
    hide Covers, Inv, PendingOk, CanWriteAll;
    var b, y := x.pending[n], DoStep(keys, x, layout, WriteOut(n, i));
    BatchKeeps(x.s, i, b.ws);
    BatchCovers(keys, x.s, x.index, i, b.ws);
    assert Added(keys, b.ws) <= x.index by { BatchAt(keys, x, layout, n); }
    assert x.index + Added(keys, b.ws) == x.index;
    BatchIds(x.s, i, b.ws);
    PendingSame(keys, x, x.(s := y.s), layout);
    PendingDrop(keys, x.(s := y.s), layout, n);
    PendingSame(keys, x.(s := y.s, pending := y.pending), y, layout);
  }

  lemma BatchAt(keys: Keys, x: LockedTable, layout: Layout, n: nat)
    requires PendingOk(keys, x, layout) && n < |x.pending|
    ensures BatchOk(keys, x.s, x.index, layout, x.pending[n])
  {
  }

  lemma {:induction false} BatchIds(s: State, i: nat, ws: seq<Write>)
    requires CanWriteAll(s, i, ws)
    ensures WrittenAll(s, i, ws).nextId == s.nextId
    decreases |ws|
  {
    if ws != [] {
      BatchIds(Written(s, i, ws[0]), i, ws[1..]);
    }
  }

  lemma OtherInv(keys: Keys, x: LockedTable, layout: Layout, i: nat, w: Write)
    requires TableInv(keys, x, layout) && CanStep(keys, x, layout, Other(i, w))
    ensures TableInv(keys, DoStep(keys, x, layout, Other(i, w)), layout)
  {
    hide Covers, Inv, PendingOk, KeepsKey, Busy, Held, Conflict, FlagFits, Base;
    WriteKeeps(x.s, i, w);
    OtherCovers(keys, x.s, x.index, i, w);
    PendingSame(keys, x, x.(s := Written(x.s, i, w)), layout);
  }

  lemma PlainInv(keys: Keys, x: LockedTable, layout: Layout, step: Step)
    requires TableInv(keys, x, layout) && CanStep(keys, x, layout, Quiet(step))
    ensures TableInv(keys, DoStep(keys, x, layout, Quiet(step)), layout)
  {
    hide Covers, Inv, PendingOk, Enabled, Next, Keepable;
    StepKeeps(x.s, step);
    StepCovers(keys, x.s, x.index, step);
    PlainKeepable(keys, x, layout, step);
    PendingSame(keys, x, x.(s := Next(x.s, step)), layout);
  }

  lemma PlainKeepable(keys: Keys, x: LockedTable, layout: Layout, step: Step)
    requires CanStep(keys, x, layout, Quiet(step)) && Inv(x.s)
    ensures x.s.nextId <= Next(x.s, step).nextId
    ensures forall n :: 0 <= n < |x.pending| && Keepable(x.s, {x.pending[n].id}) ==> Keepable(Next(x.s, step), {x.pending[n].id})
  {
    hide Inv, Stamp, Unlink, Undo, LowestStart;
    InvActive(x.s);
    forall n | 0 <= n < |x.pending| && Keepable(x.s, {x.pending[n].id}) ensures Keepable(Next(x.s, step), {x.pending[n].id}) {
      if step.BeginRollback? {
        assert x.pending[n].id != x.s.active[step.index].id;
      }
    }
  }

  // ---------------------------------------------------------------- the views after a step

  lemma TestView(x: LockedTable, b: Batch, kept: set<nat>, written: set<nat>, c: Cell)
    ensures View(x.(pending := x.pending + [b]), kept, written, c)
            == if b.id in kept * written && Writes(b.ws, c) then LastValue(b.ws, c) else View(x, kept, written, c)
  {
    hide DbKept, Writes, LastValue;
    assert (x.pending + [b])[..|x.pending|] == x.pending;
  }

  lemma WriteOutView(keys: Keys, x: LockedTable, layout: Layout, n: nat, i: nat, kept: set<nat>, written: set<nat>, c: Cell)
    requires TableInv(keys, x, layout) && CanStep(keys, x, layout, WriteOut(n, i))
    ensures View(DoStep(keys, x, layout, WriteOut(n, i)), kept, written, c) == View(x, kept, written + {x.pending[n].id}, c)
  {
    hide Inv, Covers, DbKept, Writes, LastValue, CanWriteAll, WrittenAll;
    var b, y := x.pending[n], DoStep(keys, x, layout, WriteOut(n, i));
    WriteOutInv(keys, x, layout, n, i);
    BatchKept(x.s, i, b.ws, kept, c);
    if m :| 0 <= m < |x.pending| && Writes(x.pending[m].ws, c) {
      ViewIs(keys, x, layout, kept, written + {b.id}, c, m);
      SoleWriter(keys, x, layout, c, m);
      if m == n {
        ViewFree(y, kept, written, c);
      } else {
        ViewIs(keys, y, layout, kept, written, c, if m < n then m else m - 1);
      }
    } else {
      ViewFree(x, kept, written + {b.id}, c);
      ViewFree(y, kept, written, c);
    }
  }

  lemma AbortView(keys: Keys, x: LockedTable, layout: Layout, n: nat, kept: set<nat>, written: set<nat>, c: Cell)
    requires PendingOk(keys, x, layout) && n < |x.pending|
    ensures View(x.(pending := Without(x.pending, n)), kept, written, c) == View(x, kept, written - {x.pending[n].id}, c)
  {
    hide DbKept, Writes, LastValue, BatchOk;
    var b, y := x.pending[n], x.(pending := Without(x.pending, n));
    PendingDrop(keys, x, layout, n);
    if m :| 0 <= m < |x.pending| && Writes(x.pending[m].ws, c) {
      ViewIs(keys, x, layout, kept, written - {b.id}, c, m);
      SoleWriter(keys, x, layout, c, m);
      if m == n {
        ViewFree(y, kept, written, c);
      } else {
        ViewIs(keys, y, layout, kept, written, c, if m < n then m else m - 1);
      }
    } else {
      ViewFree(x, kept, written - {b.id}, c);
      ViewFree(y, kept, written, c);
    }
  }

  lemma {:induction false} OverSame(pending: seq<Batch>, ids: set<nat>, others: set<nat>, c: Cell, base: Option<Payload>)
    requires forall n :: 0 <= n < |pending| ==> (pending[n].id in ids <==> pending[n].id in others)
    ensures Over(pending, ids, c, base) == Over(pending, others, c, base)
  {
    if pending != [] {
      OverSame(pending[..|pending| - 1], ids, others, c, base);
    }
  }

  lemma QuietIds(keys: Keys, x: LockedTable, layout: Layout, step: Step, kept: set<nat>)
    requires CanStep(keys, x, layout, Quiet(step)) && Keepable(Next(x.s, step), kept) && TableInv(keys, x, layout)
    ensures forall n :: 0 <= n < |x.pending| ==> (x.pending[n].id in kept <==> x.pending[n].id in KeptBefore(x.s, step, kept))
  {
    hide Inv, Covers, PendingOk;
    forall n | 0 <= n < |x.pending| ensures x.pending[n].id in kept <==> x.pending[n].id in KeptBefore(x.s, step, kept) {
      BatchAt(keys, x, layout, n);
    }
  }

  lemma QuietView(keys: Keys, x: LockedTable, layout: Layout, step: Step, kept: set<nat>, written: set<nat>, c: Cell)
    requires CanStep(keys, x, layout, Quiet(step)) && Keepable(Next(x.s, step), kept) && TableInv(keys, x, layout)
    ensures Keepable(x.s, KeptBefore(x.s, step, kept))
    ensures View(x.(s := Next(x.s, step)), kept, written, c) == View(x, KeptBefore(x.s, step, kept), written, c)
  {
    hide Inv, Covers, DbKept, Next, PendingOk, KeptBefore, Enabled, Keepable;
    StepKept(x.s, step, kept, c);
    var before, base := KeptBefore(x.s, step, kept), Lookup(DbKept(Next(x.s, step), kept), c);
    QuietIds(keys, x, layout, step, kept);
    OverSame(x.pending, kept * written, before * written, c, base);
  }

  lemma OtherView(x: LockedTable, layout: Layout, i: nat, w: Write, kept: set<nat>, written: set<nat>, c: Cell)
    requires Inv(x.s) && CanWrite(x.s, i, w)
    requires forall n :: 0 <= n < |x.pending| ==> !Writes(x.pending[n].ws, w.cell)
    ensures View(x.(s := Written(x.s, i, w)), kept, written, c)
            == if x.s.active[i].id in kept && c == w.cell then w.value else View(x, kept, written, c)
  {
    WriteKept(x.s, i, w, kept, c);
    hide Inv, DbKept, Writes, CanWrite;
    if c == w.cell {
      ViewFree(x, kept, written, c);
      ViewFree(x.(s := Written(x.s, i, w)), kept, written, c);
    }
  }

  // ---------------------------------------------------------------- uniqueness

  /** A batch between test and write leaves a row with the key of a row of this batch. */
  ghost predicate Hole(keys: Keys, x: LockedTable, ws: seq<Write>) {
    exists n, c, d :: 0 <= n < |x.pending| && HoleAt(keys, x.pending[n], ws, c, d)
  }

  ghost predicate HoleAt(keys: Keys, b: Batch, ws: seq<Write>, c: Cell, d: Cell) {
    Writes(b.ws, c) && Writes(ws, d) && SameKey(keys, LastValue(b.ws, c), LastValue(ws, d))
  }

  /** A row of the batch against a row that it does not write. */
  lemma ApartFrom(keys: Keys, x: LockedTable, layout: Layout, i: nat, ws: seq<Write>, chunks: set<nat>,
                  kept: set<nat>, written: set<nat>, c: Cell, d: Cell)
    requires TableInv(keys, x, layout) && CanTest(keys, x, layout, i, ws, chunks) && !Hole(keys, x, ws)
    requires x.s.active[i].id in kept && Writes(ws, c) && !Writes(ws, d)
    ensures !SameKey(keys, LastValue(ws, c), View(x, kept, written, d))
  {
    var p := LastIs(ws, c);
    BatchApart(keys, x.s, x.index, i, ws, p, kept, d);
    hide Inv, Covers, DbKept, Passes, Writes, LastValue, SameKey, Meets, MayRead, Busy, Held;
    if n :| 0 <= n < |x.pending| && Writes(x.pending[n].ws, d) {
      ViewIs(keys, x, layout, kept, written, d, n);
      assert !HoleAt(keys, x.pending[n], ws, d, c);
      SameKeyFlips(keys, LastValue(ws, c), LastValue(x.pending[n].ws, d));
    } else {
      ViewFree(x, kept, written, d);
    }
  }

  lemma SameKeyFlips(keys: Keys, u: Option<Payload>, v: Option<Payload>)
    ensures SameKey(keys, u, v) <==> SameKey(keys, v, u)
  {
  }

  /** Two rows of the batch. */
  lemma ApartInside(keys: Keys, s: State, index: KeyIndex, i: nat, ws: seq<Write>, c: Cell, d: Cell)
    requires i < |s.active| && Passes(keys, s, index, i, ws) && Writes(ws, c) && Writes(ws, d) && c != d
    ensures !SameKey(keys, LastValue(ws, c), LastValue(ws, d))
  {
    hide Writes, Clash;
    var p := LastIs(ws, c);
    var q := LastIs(ws, d);
  }

  /**
   After a test, what the table can become has no key twice if and only if no
   batch that is still to be written has a key of this one.
   */
  lemma TestExactly(keys: Keys, x: LockedTable, layout: Layout, i: nat, ws: seq<Write>, chunks: set<nat>)
    requires TableInv(keys, x, layout) && UniqueViews(keys, x) && CanTest(keys, x, layout, i, ws, chunks)
    ensures UniqueViews(keys, DoStep(keys, x, layout, Test(i, ws, chunks))) <==> !Hole(keys, x, ws)
  {
    var b, y := Batch(x.s.active[i].id, ws, chunks), DoStep(keys, x, layout, Test(i, ws, chunks));
    if n, c, d :| 0 <= n < |x.pending| && HoleAt(keys, x.pending[n], ws, c, d) {
      HoleShows(keys, x, layout, i, ws, chunks, n, c, d);
    } else {
      hide Inv, Covers, DbKept, Passes, Writes, LastValue, SameKey, View, PendingOk, Meets, MayRead, Busy, Held, HoleAt;
      forall kept, written, c, d | Keepable(y.s, kept) && c != d
        ensures !SameKey(keys, View(y, kept, written, c), View(y, kept, written, d))
      {
        TestApart(keys, x, layout, i, ws, chunks, kept, written, c, d);
      }
    }
  }

  lemma TestApart(keys: Keys, x: LockedTable, layout: Layout, i: nat, ws: seq<Write>, chunks: set<nat>,
                  kept: set<nat>, written: set<nat>, c: Cell, d: Cell)
    requires TableInv(keys, x, layout) && UniqueViews(keys, x) && CanTest(keys, x, layout, i, ws, chunks)
    requires !Hole(keys, x, ws) && Keepable(x.s, kept) && c != d
    ensures var y := DoStep(keys, x, layout, Test(i, ws, chunks));
            !SameKey(keys, View(y, kept, written, c), View(y, kept, written, d))
  {
    hide Inv, Covers, DbKept, Passes, Writes, LastValue, SameKey, View, PendingOk, Meets, MayRead, Busy, Held, Hole;
    var b, more := Batch(x.s.active[i].id, ws, chunks), x.(index := x.index + Added(keys, ws));
    TestView(more, b, kept, written, c);
    TestView(more, b, kept, written, d);
    ViewIndex(x, more, kept, written, c);
    ViewIndex(x, more, kept, written, d);
    assert !SameKey(keys, View(x, kept, written, c), View(x, kept, written, d));
    if b.id in kept * written {
      if Writes(ws, c) && Writes(ws, d) {
        ApartInside(keys, x.s, x.index, i, ws, c, d);
      } else if Writes(ws, c) {
        ApartFrom(keys, x, layout, i, ws, chunks, kept, written, c, d);
      } else if Writes(ws, d) {
        ApartFrom(keys, x, layout, i, ws, chunks, kept, written, d, c);
        SameKeyFlips(keys, LastValue(ws, d), View(x, kept, written, c));
      }
    }
  }

  lemma ViewIndex(x: LockedTable, y: LockedTable, kept: set<nat>, written: set<nat>, c: Cell)
    requires y.s == x.s && y.pending == x.pending
    ensures View(y, kept, written, c) == View(x, kept, written, c)
  {
  }

  /** Both batches get written, and both transactions commit. */
  lemma HoleShows(keys: Keys, x: LockedTable, layout: Layout, i: nat, ws: seq<Write>, chunks: set<nat>, n: nat, c: Cell, d: Cell)
    requires TableInv(keys, x, layout) && CanTest(keys, x, layout, i, ws, chunks)
    requires n < |x.pending| && HoleAt(keys, x.pending[n], ws, c, d)
    ensures !UniqueViews(keys, DoStep(keys, x, layout, Test(i, ws, chunks)))
  {
    var b, a, y := Batch(x.s.active[i].id, ws, chunks), x.pending[n], DoStep(keys, x, layout, Test(i, ws, chunks));
    BatchAt(keys, x, layout, n);
    SoleWriter(keys, x, layout, c, n);
    assert layout(d) in chunks && layout(c) !in chunks by {
      var q :| 0 <= q < |ws| && ws[q].cell == d;
      assert Held(x, layout(c));
    }
    assert !Writes(ws, c);
    InvActive(x.s);
    var both := {a.id, b.id};
    var more := x.(index := x.index + Added(keys, ws));
    assert Keepable(x.s, both);
    hide Inv, Covers, DbKept, Passes, Writes, LastValue, View, PendingOk, Meets, MayRead, Busy, Held, Added;
    TestView(more, b, both, both, c);
    TestView(more, b, both, both, d);
    ViewIndex(x, more, both, both, c);
    ViewIs(keys, x, layout, both, both, c, n);
    assert both * both == both;
  }

  lemma WriteOutUnique(keys: Keys, x: LockedTable, layout: Layout, n: nat, i: nat)
    requires TableInv(keys, x, layout) && UniqueViews(keys, x) && CanStep(keys, x, layout, WriteOut(n, i))
    ensures UniqueViews(keys, DoStep(keys, x, layout, WriteOut(n, i)))
  {
    hide TableInv, SameKey, View, Keepable, WrittenAll, CanWriteAll;
    var y := DoStep(keys, x, layout, WriteOut(n, i));
    WriteOutInv(keys, x, layout, n, i);
    forall kept, written, c, d | Keepable(y.s, kept) && c != d
      ensures !SameKey(keys, View(y, kept, written, c), View(y, kept, written, d))
    {
      WriteOutView(keys, x, layout, n, i, kept, written, c);
      WriteOutView(keys, x, layout, n, i, kept, written, d);
    }
  }

  lemma AbortUnique(keys: Keys, x: LockedTable, layout: Layout, n: nat)
    requires PendingOk(keys, x, layout) && UniqueViews(keys, x) && n < |x.pending|
    ensures UniqueViews(keys, x.(pending := Without(x.pending, n)))
  {
    hide PendingOk, SameKey, View, Keepable, Without;
    var y := x.(pending := Without(x.pending, n));
    forall kept, written, c, d | Keepable(y.s, kept) && c != d
      ensures !SameKey(keys, View(y, kept, written, c), View(y, kept, written, d))
    {
      AbortView(keys, x, layout, n, kept, written, c);
      AbortView(keys, x, layout, n, kept, written, d);
    }
  }

  lemma QuietUnique(keys: Keys, x: LockedTable, layout: Layout, step: Step)
    requires TableInv(keys, x, layout) && UniqueViews(keys, x) && CanStep(keys, x, layout, Quiet(step))
    ensures UniqueViews(keys, x.(s := Next(x.s, step)))
  {
    var y := x.(s := Next(x.s, step));
    hide TableInv, SameKey, View, Keepable, CanStep, Next, KeptBefore, Enabled;
    forall kept, written, c, d | Keepable(y.s, kept) && c != d
      ensures !SameKey(keys, View(y, kept, written, c), View(y, kept, written, d))
    {
      QuietView(keys, x, layout, step, kept, written, c);
      QuietView(keys, x, layout, step, kept, written, d);
    }
  }

  /** No batch writes a cell whose chunk is free. */
  lemma FreeCell(keys: Keys, x: LockedTable, layout: Layout, c: Cell)
    requires PendingOk(keys, x, layout) && !Held(x, layout(c))
    ensures forall n :: 0 <= n < |x.pending| ==> !Writes(x.pending[n].ws, c)
  {
    forall n | 0 <= n < |x.pending| ensures !Writes(x.pending[n].ws, c) {
      if Writes(x.pending[n].ws, c) {
        SoleWriter(keys, x, layout, c, n);
        assert false;
      }
    }
  }

  lemma OtherUniqueViews(keys: Keys, x: LockedTable, layout: Layout, i: nat, w: Write)
    requires TableInv(keys, x, layout) && UniqueViews(keys, x) && CanStep(keys, x, layout, Other(i, w))
    ensures UniqueViews(keys, x.(s := Written(x.s, i, w)))
  {
    hide Inv, Covers, PendingOk, View, Conflict, FlagFits, Base, Busy, Held, DbKept, Writes;
    var y := x.(s := Written(x.s, i, w));
    FreeCell(keys, x, layout, w.cell);
    forall kept, written, c, d | Keepable(y.s, kept) && c != d
      ensures !SameKey(keys, View(y, kept, written, c), View(y, kept, written, d))
    {
      OtherView(x, layout, i, w, kept, written, c);
      OtherView(x, layout, i, w, kept, written, d);
      if x.s.active[i].id in kept {
        KeptBase(x.s, i, kept, w.cell);
        ViewFree(x, kept, written, w.cell);
      }
      assert Keepable(x.s, kept) && !SameKey(keys, View(x, kept, written, c), View(x, kept, written, d));
    }
  }

  /** Every step keeps the structure. */
  lemma StepInv(keys: Keys, x: LockedTable, layout: Layout, step: BatchStep)
    requires TableInv(keys, x, layout) && CanStep(keys, x, layout, step)
    ensures TableInv(keys, DoStep(keys, x, layout, step), layout)
  {
    match step
    case Test(i, ws, chunks) => TestInv(keys, x, layout, i, ws, chunks);
    case WriteOut(n, i) => WriteOutInv(keys, x, layout, n, i);
    case Abort(n) => PendingDrop(keys, x, layout, n);
    case Other(i, w) => OtherInv(keys, x, layout, i, w);
    case Quiet(p) => PlainInv(keys, x, layout, p);
    case NewTail(_) => PendingSame(keys, x, DoStep(keys, x, layout, step), layout);
  }

  /** Every step but a test keeps uniqueness, and a test exactly without a hole. */
  lemma StepUnique(keys: Keys, x: LockedTable, layout: Layout, step: BatchStep)
    requires TableInv(keys, x, layout) && UniqueViews(keys, x) && CanStep(keys, x, layout, step)
    ensures UniqueViews(keys, DoStep(keys, x, layout, step)) <==> (step.Test? ==> !Hole(keys, x, step.ws))
  {
    hide UniqueViews, Hole, Inv, Covers, PendingOk;
    match step
    case Test(i, ws, chunks) => TestExactly(keys, x, layout, i, ws, chunks);
    case WriteOut(n, i) => WriteOutUnique(keys, x, layout, n, i);
    case Abort(n) => AbortUnique(keys, x, layout, n);
    case Other(i, w) => OtherUniqueViews(keys, x, layout, i, w);
    case Quiet(p) => QuietUnique(keys, x, layout, p);
    case NewTail(_) => TailUnique(keys, x, step.tail);
  }

  lemma TailUnique(keys: Keys, x: LockedTable, tail: nat)
    requires UniqueViews(keys, x)
    ensures UniqueViews(keys, x.(tail := tail))
  {
    hide SameKey, DbKept, Over;
    forall kept, written, c, d | Keepable(x.s, kept) && c != d
      ensures !SameKey(keys, View(x.(tail := tail), kept, written, c), View(x.(tail := tail), kept, written, d))
    {
      assert !SameKey(keys, View(x, kept, written, c), View(x, kept, written, d));
    }
  }

  // ---------------------------------------------------------------- over all runs

  ghost predicate IsBatchRun(keys: Keys, layout: Layout, states: seq<LockedTable>, steps: seq<BatchStep>) {
    && |states| == |steps| + 1
    && states[0].s == Init && states[0].index == {} && states[0].pending == []
    && forall k :: 0 <= k < |steps| ==>
         CanStep(keys, states[k], layout, steps[k]) && states[k + 1] == DoStep(keys, states[k], layout, steps[k])
  }

  lemma {:induction false} RunStructure(keys: Keys, layout: Layout, states: seq<LockedTable>, steps: seq<BatchStep>, n: nat)
    requires IsBatchRun(keys, layout, states, steps) && n < |states|
    ensures TableInv(keys, states[n], layout)
  {
    hide TableInv, CanStep, DoStep;
    if n == 0 {
      InitTable(keys, layout, states[0]);
    } else {
      RunStructure(keys, layout, states, steps, n - 1);
      assert states[n] == DoStep(keys, states[n - 1], layout, steps[n - 1]);
      StepInv(keys, states[n - 1], layout, steps[n - 1]);
    }
  }

  lemma InitTable(keys: Keys, layout: Layout, x: LockedTable)
    requires x.s == Init && x.index == {} && x.pending == []
    ensures TableInv(keys, x, layout) && UniqueViews(keys, x)
  {
    InitIndexed(keys);
    hide Inv, Covers, DbKept, SameKey;
    forall kept, written, c, d | c != d
      ensures !SameKey(keys, View(x, kept, written, c), View(x, kept, written, d))
    {
      ViewFree(x, kept, written, c);
      ViewFree(x, kept, written, d);
      InitKept(keys, kept);
    }
  }

  /**
   Over every run, no step leads to a table that can come to hold a key twice, if
   and only if no test passes while another batch with one of its keys has passed
   the test and is not written yet.
   */
  lemma {:induction false} UniqueExactly(keys: Keys, layout: Layout, states: seq<LockedTable>, steps: seq<BatchStep>, n: nat)
    requires IsBatchRun(keys, layout, states, steps) && n < |states|
    ensures (forall k :: 0 <= k <= n ==> UniqueViews(keys, states[k]))
            <==> forall k :: 0 <= k < n && steps[k].Test? ==> !Hole(keys, states[k], steps[k].ws)
  {
    hide TableInv, CanStep, DoStep, UniqueViews, Hole;
    if n == 0 {
      InitTable(keys, layout, states[0]);
    } else {
      UniqueExactly(keys, layout, states, steps, n - 1);
      RunStructure(keys, layout, states, steps, n - 1);
      assert states[n] == DoStep(keys, states[n - 1], layout, steps[n - 1]);
      if UniqueViews(keys, states[n - 1]) {
        StepUnique(keys, states[n - 1], layout, steps[n - 1]);
      }
    }
  }

  /**
   The locks exclude this when every row that a test meets lies outside the last
   chunk, and when the last chunk is free: in particular when the test holds its
   lock, as an append does.
   */
  lemma LocksExclude(keys: Keys, x: LockedTable, layout: Layout, i: nat, ws: seq<Write>, chunks: set<nat>)
    requires TableInv(keys, x, layout) && CanTest(keys, x, layout, i, ws, chunks)
    requires x.tail in chunks || !Held(x, x.tail) || forall d :: Meets(keys, x.index, ws, d) ==> layout(d) != x.tail
    ensures !Hole(keys, x, ws)
  {
    if n, c, d :| 0 <= n < |x.pending| && HoleAt(keys, x.pending[n], ws, c, d) {
      HoleIsMet(keys, x, layout, ws, n, c, d);
    }
  }

  /** The test meets the row with its key in the other batch, and the chunk of that row is held. */
  lemma HoleIsMet(keys: Keys, x: LockedTable, layout: Layout, ws: seq<Write>, n: nat, c: Cell, d: Cell)
    requires PendingOk(keys, x, layout) && n < |x.pending| && HoleAt(keys, x.pending[n], ws, c, d)
    ensures Meets(keys, x.index, ws, c) && Held(x, layout(c))
  {
    var b := x.pending[n];
    BatchAt(keys, x, layout, n);
    SoleWriter(keys, x, layout, c, n);
    var q := LastIs(b.ws, c);
    var p := LastIs(ws, d);
    AddedHas(keys, b.ws, q);
    assert HasKey(keys, ws[p].value) && (keys.of(ws[p].value.value), c) in x.index;
  }

  /** New rows that are not written yet exclude it too: the test of another batch finds no such row. */
  lemma NewRowsExclude(keys: Keys, x: LockedTable, layout: Layout, i: nat, ws: seq<Write>, chunks: set<nat>, n: nat, c: Cell, d: Cell)
    requires TableInv(keys, x, layout) && CanTest(keys, x, layout, i, ws, chunks)
    requires n < |x.pending| && forall q :: 0 <= q < |x.pending[n].ws| ==> x.pending[n].ws[q].cell !in x.rows
    ensures !HoleAt(keys, x.pending[n], ws, c, d)
  {
    if HoleAt(keys, x.pending[n], ws, c, d) {
      HoleIsMet(keys, x, layout, ws, n, c, d);
    }
  }

  /** With the locks of every test as in LocksExclude, no two rows of the base table share a key, except for rows being undone. */
  lemma BaseStaysUnique(keys: Keys, layout: Layout, states: seq<LockedTable>, steps: seq<BatchStep>, n: nat, c: Cell, d: Cell)
    requires IsBatchRun(keys, layout, states, steps) && n < |states| && c != d
    requires forall k :: 0 <= k < n && steps[k].Test? ==>
               || states[k].tail in steps[k].chunks || !Held(states[k], states[k].tail)
               || forall e :: Meets(keys, states[k].index, steps[k].ws, e) ==> layout(e) != states[k].tail
    requires !BeingUndone(states[n].s, c) && !BeingUndone(states[n].s, d)
    ensures !SameKey(keys, Base(ChainAt(states[n].s, c)), Base(ChainAt(states[n].s, d)))
  {
    forall k | 0 <= k < n && steps[k].Test? ensures !Hole(keys, states[k], steps[k].ws) {
      RunStructure(keys, layout, states, steps, k);
      LocksExclude(keys, states[k], layout, steps[k].i, steps[k].ws, steps[k].chunks);
    }
    UniqueExactly(keys, layout, states, steps, n);
    RunStructure(keys, layout, states, steps, n);
    var x := states[n];
    InvActive(x.s);
    StayingKeepable(x.s);
    hide Inv, Covers, DbKept, SameKey, Base, IsBatchRun, BeingUndone, Staying;
    BaseKept(x.s, c);
    BaseKept(x.s, d);
    var all := Staying(x.s);
    OverNone(x.pending, all * {}, c, Lookup(DbKept(x.s, all), c));
    OverNone(x.pending, all * {}, d, Lookup(DbKept(x.s, all), d));
    assert !SameKey(keys, View(x, all, {}, c), View(x, all, {}, d));
  }

  // ---------------------------------------------------------------- a schedule

  /** Two transactions that have written these logs into these cells. */
  ghost function Pair(logA: seq<Write>, logB: seq<Write>, cells: map<Cell, Chain>): State {
    State(2, TRANSACTION_ID_START + 2, cells,
          [Txn(TRANSACTION_ID_START, 0, 0, logA, 0, 0), Txn(TRANSACTION_ID_START + 1, 1, 0, logB, 0, 0)], Idle, [], [], map[], 0)
  }

  ghost function By(owner: nat, entry: nat, v: Payload): Version {
    Version(owner, owner, entry, Some(v))
  }

  lemma WriteOne(s: State, i: nat, w: Write)
    requires CanWrite(s, i, w)
    ensures CanWriteAll(s, i, [w]) && WrittenAll(s, i, [w]) == Written(s, i, w)
  {
    assert [w][1..] == [];
    assert CanWriteAll(Written(s, i, w), i, []);
  }

  lemma AddedOne(keys: Keys, w: Write)
    requires HasKey(keys, w.value)
    ensures Added(keys, [w]) == {(keys.of(w.value.value), w.cell)}
  {
    assert [w][..0] == [];
  }

  /** A batch of one row passes the test if no row of the index with its key clashes. */
  lemma TestOne(keys: Keys, x: LockedTable, layout: Layout, i: nat, w: Write)
    requires i < |x.s.active| && !Busy(x, x.s.active[i].id) && x.s.phase.Idle? && !Held(x, layout(w.cell))
    requires HasKey(keys, w.value)
    requires forall d :: (keys.of(w.value.value), d) in x.index ==>
               && MayRead(x, layout, d) && d != w.cell
               && !Clash(keys, ChainAt(x.s, d), keys.of(w.value.value), false, x.s.active[i].id, x.s.active[i].start)
    ensures CanStep(keys, x, layout, Test(i, [w], {layout(w.cell)}))
    ensures DoStep(keys, x, layout, Test(i, [w], {layout(w.cell)}))
            == x.(index := x.index + {(keys.of(w.value.value), w.cell)},
                  pending := x.pending + [Batch(x.s.active[i].id, [w], {layout(w.cell)})])
  {
    hide Clash, Busy, Held, MayRead;
    AddedOne(keys, w);
    assert forall d :: Writes([w], d) ==> d == w.cell;
  }

  lemma WriteOutOne(keys: Keys, x: LockedTable, layout: Layout, n: nat, i: nat, w: Write)
    requires n < |x.pending| && x.pending[n].ws == [w] && i < |x.s.active| && x.s.active[i].id == x.pending[n].id
    requires CanWrite(x.s, i, w)
    ensures CanStep(keys, x, layout, WriteOut(n, i))
    ensures DoStep(keys, x, layout, WriteOut(n, i))
            == x.(s := Written(x.s, i, w), pending := Without(x.pending, n), rows := x.rows + {w.cell})
  {
    hide Conflict, FlagFits;
    WriteOne(x.s, i, w);
    assert (set p | 0 <= p < |[w]| :: [w][p].cell) == {w.cell} by { assert [w][0].cell == w.cell; }
  }

  lemma Extend(keys: Keys, layout: Layout, states: seq<LockedTable>, steps: seq<BatchStep>, step: BatchStep)
    requires IsBatchRun(keys, layout, states, steps) && CanStep(keys, states[|states| - 1], layout, step)
    ensures IsBatchRun(keys, layout, states + [DoStep(keys, states[|states| - 1], layout, step)], steps + [step])
  {
    hide CanStep, DoStep;
    var more, all := states + [DoStep(keys, states[|states| - 1], layout, step)], steps + [step];
    forall k | 0 <= k < |all|
      ensures CanStep(keys, more[k], layout, all[k]) && more[k + 1] == DoStep(keys, more[k], layout, all[k])
    {
      if k < |steps| {
        assert more[k] == states[k] && more[k + 1] == states[k + 1] && all[k] == steps[k];
      }
    }
  }

  /** Both transactions run, and the table has no rows. */
  lemma BeginPair(keys: Keys, layout: Layout, tail: nat) returns (states: seq<LockedTable>, steps: seq<BatchStep>)
    ensures IsBatchRun(keys, layout, states, steps)
    ensures states[|states| - 1] == LockedTable(Pair([], [], map[]), {}, [], {}, tail)
  {
    var x0 := LockedTable(Init, {}, [], {}, tail);
    var x1 := x0.(s := Started(Init));
    var x2 := x1.(s := Started(x1.s));
    assert x2.s.active == Pair([], [], map[]).active;
    states, steps := [x0], [];
    Extend(keys, layout, states, steps, Quiet(Start));
    states, steps := states + [x1], steps + [Quiet(Start)];
    Extend(keys, layout, states, steps, Quiet(Start));
    states, steps := states + [x2], steps + [Quiet(Start)];
  }

  const A: nat := TRANSACTION_ID_START
  const B: nat := TRANSACTION_ID_START + 1

  /** B has inserted a row into the only chunk. */
  lemma InsertFirst(keys: Keys, layout: Layout, d: Cell, b: Payload, states: seq<LockedTable>, steps: seq<BatchStep>)
    returns (more: seq<LockedTable>, all: seq<BatchStep>)
    requires IsBatchRun(keys, layout, states, steps) && !keys.isNull(b)
    requires states[|states| - 1] == LockedTable(Pair([], [], map[]), {}, [], {}, layout(d))
    ensures IsBatchRun(keys, layout, more, all)
    ensures var ib := Write(InsertTuple, d, Some(b));
            more[|more| - 1]
            == LockedTable(Pair([], [ib], map[d := Chain([By(B, 0, b)], None)]), {(keys.of(b), d)}, [], {d}, layout(d))
  {
    hide CanStep, DoStep, Clash;
    var x, w := states[|states| - 1], Write(InsertTuple, d, Some(b));
    TestOne(keys, x, layout, 1, w);
    Extend(keys, layout, states, steps, Test(1, [w], {layout(d)}));
    var y := x.(index := x.index + {(keys.of(b), d)}, pending := x.pending + [Batch(B, [w], {layout(d)})]);
    more, all := states + [y], steps + [Test(1, [w], {layout(d)})];
    assert CanWrite(y.s, 1, w);
    WriteOutOne(keys, y, layout, 0, 1, w);
    Extend(keys, layout, more, all, WriteOut(0, 1));
    var z := y.(s := Written(y.s, 1, w), pending := Without(y.pending, 0), rows := y.rows + {d});
    more, all := more + [z], all + [WriteOut(0, 1)];
    assert [] + [w] == [w] && [By(B, 0, b)] + [] == [By(B, 0, b)];
    assert z.s.active == Pair([], [w], map[]).active;
    assert z.pending == [] && z.index == {(keys.of(b), d)} && z.rows == {d};
  }

  /** A has inserted a row into the chunk after it, which is the last one. */
  lemma InsertSecond(keys: Keys, layout: Layout, c: Cell, d: Cell, a: Payload, b: Payload, states: seq<LockedTable>, steps: seq<BatchStep>)
    returns (more: seq<LockedTable>, all: seq<BatchStep>)
    requires IsBatchRun(keys, layout, states, steps) && !keys.isNull(a) && keys.of(a) != keys.of(b) && c != d
    requires states[|states| - 1] == LockedTable(Pair([], [Write(InsertTuple, d, Some(b))], map[d := Chain([By(B, 0, b)], None)]),
                                                 {(keys.of(b), d)}, [], {d}, layout(d))
    ensures IsBatchRun(keys, layout, more, all)
    ensures more[|more| - 1] == Prepared(keys, layout, c, d, a, b)
  {
    hide CanStep, DoStep, Clash;
    var x, w := states[|states| - 1], Write(InsertTuple, c, Some(a));
    var x1 := x.(tail := layout(c));
    assert CanStep(keys, x, layout, NewTail(layout(c))) && DoStep(keys, x, layout, NewTail(layout(c))) == x1 by {
      TailStep(keys, x, layout, layout(c));
    }
    Extend(keys, layout, states, steps, NewTail(layout(c)));
    more, all := states + [x1], steps + [NewTail(layout(c))];
    TestOne(keys, x1, layout, 0, w);
    Extend(keys, layout, more, all, Test(0, [w], {layout(c)}));
    var y := x1.(index := x1.index + {(keys.of(a), c)}, pending := x1.pending + [Batch(A, [w], {layout(c)})]);
    more, all := more + [y], all + [Test(0, [w], {layout(c)})];
    assert CanWrite(y.s, 0, w);
    WriteOutOne(keys, y, layout, 0, 0, w);
    Extend(keys, layout, more, all, WriteOut(0, 0));
    var z := y.(s := Written(y.s, 0, w), pending := Without(y.pending, 0), rows := y.rows + {c});
    more, all := more + [z], all + [WriteOut(0, 0)];
    assert [] + [w] == [w] && [By(A, 0, a)] + [] == [By(A, 0, a)];
    assert z.s.active == Prepared(keys, layout, c, d, a, b).s.active;
    assert z.pending == [];
  }

  lemma TailStep(keys: Keys, x: LockedTable, layout: Layout, tail: nat)
    requires x.pending == []
    ensures CanStep(keys, x, layout, NewTail(tail)) && DoStep(keys, x, layout, NewTail(tail)) == x.(tail := tail)
  {
  }

  /** Row `c` of A lies in the last chunk, row `d` of B in another one. */
  ghost function Prepared(keys: Keys, layout: Layout, c: Cell, d: Cell, a: Payload, b: Payload): LockedTable {
    LockedTable(Pair([Write(InsertTuple, c, Some(a))], [Write(InsertTuple, d, Some(b))],
                     map[d := Chain([By(B, 0, b)], None), c := Chain([By(A, 0, a)], None)]),
                {(keys.of(b), d), (keys.of(a), c)}, [], {d, c}, layout(c))
  }

  /** A and then B pass the test for the same key. */
  lemma BothPass(keys: Keys, layout: Layout, c: Cell, d: Cell, a: Payload, b: Payload, e: Payload)
    requires layout(c) != layout(d) && !keys.isNull(e)
    requires keys.of(a) != keys.of(e) && keys.of(b) != keys.of(e)
    ensures var x, wa, wb := Prepared(keys, layout, c, d, a, b), Write(UpdateTuple, c, Some(e)), Write(UpdateTuple, d, Some(e));
            var y := x.(index := x.index + {(keys.of(e), c)}, pending := [Batch(A, [wa], {layout(c)})]);
            && CanStep(keys, x, layout, Test(0, [wa], {layout(c)})) && DoStep(keys, x, layout, Test(0, [wa], {layout(c)})) == y
            && CanStep(keys, y, layout, Test(1, [wb], {layout(d)}))
            && DoStep(keys, y, layout, Test(1, [wb], {layout(d)}))
               == y.(index := y.index + {(keys.of(e), d)}, pending := y.pending + [Batch(B, [wb], {layout(d)})])
  {
    hide CanStep, DoStep, Clash;
    var x, wa, wb := Prepared(keys, layout, c, d, a, b), Write(UpdateTuple, c, Some(e)), Write(UpdateTuple, d, Some(e));
    TestOne(keys, x, layout, 0, wa);
    var y := x.(index := x.index + {(keys.of(e), c)}, pending := [Batch(A, [wa], {layout(c)})]);
    assert [] + [Batch(A, [wa], {layout(c)})] == [Batch(A, [wa], {layout(c)})];
    assert !Clash(keys, ChainAt(y.s, c), keys.of(e), false, B, 1) by { NoClashWith(keys, a, keys.of(e)); }
    assert !Busy(y, B) && !Held(y, layout(d));
    TestOne(keys, y, layout, 1, wb);
  }

  /** B finds the row of A with its old key. */
  lemma NoClashWith(keys: Keys, a: Payload, key: int)
    requires keys.of(a) != key
    ensures !Clash(keys, Chain([By(A, 0, a)], None), key, false, B, 1)
  {
    assert [By(A, 0, a)][1..] == [];
    assert Upto([By(A, 0, a)], None, B, 1) == [Some(a)] + Upto([], None, B, 1);
  }

  /** Both batches are written. */
  lemma BothWrite(keys: Keys, layout: Layout, c: Cell, d: Cell, a: Payload, b: Payload, e: Payload, x: LockedTable)
    requires c != d && x.s == Prepared(keys, layout, c, d, a, b).s
    requires x.pending == [Batch(A, [Write(UpdateTuple, c, Some(e))], {layout(c)}), Batch(B, [Write(UpdateTuple, d, Some(e))], {layout(d)})]
    ensures CanStep(keys, x, layout, WriteOut(0, 0))
    ensures var y := DoStep(keys, x, layout, WriteOut(0, 0));
            && CanStep(keys, y, layout, WriteOut(0, 1))
            && var s := DoStep(keys, y, layout, WriteOut(0, 1)).s;
               s.phase.Idle? && Base(ChainAt(s, c)) == Some(e) && Base(ChainAt(s, d)) == Some(e)
  {
    hide CanStep, DoStep;
    var wa, wb := Write(UpdateTuple, c, Some(e)), Write(UpdateTuple, d, Some(e));
    assert CanWrite(x.s, 0, wa);
    WriteOutOne(keys, x, layout, 0, 0, wa);
    var y := x.(s := Written(x.s, 0, wa), pending := Without(x.pending, 0), rows := x.rows + {c});
    assert y.pending == [x.pending[1]];
    assert CanWrite(y.s, 1, wb);
    WriteOutOne(keys, y, layout, 0, 1, wb);
  }

  /**
   Transaction A updates a row of the last chunk to a key, B one of another chunk
   to the same key. A has passed the test but not written when B is tested: B
   meets the entry of A, reads the row without a lock, and passes. Both write,
   and the key is there twice.
   */
  lemma TailUpdateDuplicates(keys: Keys, layout: Layout, c: Cell, d: Cell, a: Payload, b: Payload, e: Payload)
    returns (states: seq<LockedTable>, steps: seq<BatchStep>)
    requires layout(c) != layout(d) && !keys.isNull(a) && !keys.isNull(b) && !keys.isNull(e)
    requires keys.of(a) != keys.of(b) && keys.of(a) != keys.of(e) && keys.of(b) != keys.of(e)
    ensures IsBatchRun(keys, layout, states, steps)
    ensures var s := states[|states| - 1].s;
            s.phase.Idle? && SameKey(keys, Base(ChainAt(s, c)), Base(ChainAt(s, d)))
  {
    hide CanStep, DoStep, Base;
    states, steps := BeginPair(keys, layout, layout(d));
    states, steps := InsertFirst(keys, layout, d, b, states, steps);
    states, steps := InsertSecond(keys, layout, c, d, a, b, states, steps);
    BothPass(keys, layout, c, d, a, b, e);
    var wa, wb := Write(UpdateTuple, c, Some(e)), Write(UpdateTuple, d, Some(e));
    states, steps := Take(keys, layout, states, steps, Test(0, [wa], {layout(c)}));
    states, steps := Take(keys, layout, states, steps, Test(1, [wb], {layout(d)}));
    BothWrite(keys, layout, c, d, a, b, e, states[|states| - 1]);
    states, steps := Take(keys, layout, states, steps, WriteOut(0, 0));
    states, steps := Take(keys, layout, states, steps, WriteOut(0, 1));
  }

  lemma Take(keys: Keys, layout: Layout, states: seq<LockedTable>, steps: seq<BatchStep>, step: BatchStep)
    returns (more: seq<LockedTable>, all: seq<BatchStep>)
    requires IsBatchRun(keys, layout, states, steps) && CanStep(keys, states[|states| - 1], layout, step)
    ensures IsBatchRun(keys, layout, more, all)
    ensures more[|more| - 1] == DoStep(keys, states[|states| - 1], layout, step)
  {
    Extend(keys, layout, states, steps, step);
    more, all := states + [DoStep(keys, states[|states| - 1], layout, step)], steps + [step];
  }
}
