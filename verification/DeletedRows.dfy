/**
 A deleted row that reappears: a run that leads to a row with a committed deletion,
 which a transaction with an older snapshot can still update.
 */
module DeletedRows {
  import opened VersionChain
  import opened StorageChunk
  import opened Mvcc
  import opened MvccTheorems

  // ---------------------------------------------------------------- a row is inserted

  ghost function Loader(c: Cell, before: Payload): Txn {
    Txn(TRANSACTION_ID_START, 0, 1, [Write(InsertTuple, c, Some(before))], 1, 1)
  }

  /** The row is there, and nobody runs. */
  ghost function Loaded(c: Cell, before: Payload): State {
    State(2, TRANSACTION_ID_START + 1, map[c := Chain([], Some(before))], [], Idle, [], [Loader(c, before)], map[c := before], 1)
  }

  ghost function Inserting(c: Cell, before: Payload): State {
    var id := TRANSACTION_ID_START;
    State(1, id + 1, map[c := Chain([Version(id, id, 0, Some(before))], None)],
          [Loader(c, before).(cid := 0, stamped := 0, cleaned := 0)], Idle, [], [], map[], 0)
  }

  lemma Insert(c: Cell, before: Payload) returns (states: seq<State>, steps: seq<Step>)
    ensures Reaches(states, steps, Inserting(c, before))
  {
    var w, t := Write(InsertTuple, c, Some(before)), Txn(TRANSACTION_ID_START, 0, 0, [], 0, 0);
    states, steps := [Init], [];
    states, steps := Take(states, steps, Init, Start);
    assert Started(Init).active == [t];
    states, steps := Take(states, steps, Started(Init), DoWrite(0, w));
    assert [] + [w] == [w];
    assert Written(Started(Init), 0, w).active == [t.(log := [w])];
    assert Push(Chain([], None), Version(t.id, t.id, 0, Some(before))) == Chain([Version(t.id, t.id, 0, Some(before))], None);
    assert Written(Started(Init), 0, w) == Inserting(c, before);
  }

  ghost function Finished(c: Cell, before: Payload): State {
    var t := Loader(c, before).(cleaned := 0);
    State(2, TRANSACTION_ID_START + 1, map[c := Chain([Version(1, t.id, 0, Some(before))], None)], [],
          Collecting(TRANSACTION_ID_START), [t], [], map[], 1)
  }

  lemma CommitInsert(c: Cell, before: Payload) returns (states: seq<State>, steps: seq<Step>)
    ensures Reaches(states, steps, Finished(c, before))
  {
    hide Reaches, LowestStart;
    states, steps := Insert(c, before);
    var s := Inserting(c, before);
    var s1 := CommitBegun(s, 0);
    states, steps := Take(states, steps, s, BeginCommit(0));
    assert s1.active == [];
    var s2 := OneCommitted(s1);
    states, steps := Take(states, steps, s1, CommitOne);
    StampSole(Version(TRANSACTION_ID_START, TRANSACTION_ID_START, 0, Some(before)), 1);
    states, steps := Take(states, steps, s2, EndCommit);
    NoneLowest();
    assert CommitEnded(s2) == Finished(c, before);
  }

  lemma NoneLowest()
    ensures LowestStart([]) == TRANSACTION_ID_START
  {
  }

  lemma StampSole(v: Version, cid: nat)
    ensures Stamp([v], v.owner, v.entry, cid) == [v.(stamp := cid)]
  {
    assert [v][1..] == [];
  }

  lemma Load(c: Cell, before: Payload) returns (states: seq<State>, steps: seq<Step>)
    ensures Reaches(states, steps, Loaded(c, before))
  {
    hide Reaches;
    states, steps := CommitInsert(c, before);
    var s := Finished(c, before);
    var t := s.recent[0];
    states, steps := Take(states, steps, s, CleanupOne);
    var s1 := OneCleaned(s);
    UnlinkLast([], Version(1, t.id, 0, Some(before)), None, t.id, 0);
    assert [] + [Version(1, t.id, 0, Some(before))] == [Version(1, t.id, 0, Some(before))];
    assert s1.recent == [Loader(c, before)];
    states, steps := Take(states, steps, s1, Retire);
    var s2 := Retired(s1);
    assert s2.recent == [] && s2.retired == [Loader(c, before)];
    states, steps := Take(states, steps, s2, Release);
    assert s2.(phase := Idle) == Loaded(c, before);
  }

  // ---------------------------------------------------------------- and deleted

  ghost function Updater(): Txn {
    Txn(TRANSACTION_ID_START + 1, 2, 0, [], 0, 0)
  }

  ghost function Deleter(c: Cell): Txn {
    Txn(TRANSACTION_ID_START + 2, 3, 0, [Write(DeleteTuple, c, None)], 0, 0)
  }

  ghost function Reader(): Txn {
    Txn(TRANSACTION_ID_START + 3, 5, 0, [], 0, 0)
  }

  /** The updater runs, and the row is deleted but not committed. */
  ghost function Deleting(c: Cell, before: Payload): State {
    var id := TRANSACTION_ID_START + 2;
    Loaded(c, before).(counter := 4, nextId := id + 1, active := [Updater(), Deleter(c)],
                       cells := map[c := Chain([Version(id, id, 0, None)], Some(before))])
  }

  lemma Delete(c: Cell, before: Payload) returns (states: seq<State>, steps: seq<Step>)
    ensures Reaches(states, steps, Deleting(c, before))
  {
    hide Reaches;
    states, steps := Load(c, before);
    var s := Loaded(c, before);
    states, steps := Take(states, steps, s, Start);
    var s1 := Started(s);
    assert s1.active == [Updater()];
    states, steps := Take(states, steps, s1, Start);
    var s2 := Started(s1);
    var b, w := Deleter(c).(log := []), Write(DeleteTuple, c, None);
    assert s2.active == [Updater(), b];
    states, steps := Take(states, steps, s2, DoWrite(1, w));
    assert [] + [w] == [w] && s2.active[1 := Deleter(c)] == [Updater(), Deleter(c)];
    assert Push(Chain([], Some(before)), Version(b.id, b.id, 0, None)) == Chain([Version(b.id, b.id, 0, None)], Some(before));
    assert Written(s2, 1, w) == Deleting(c, before);
  }

  /** The deletion is committed, and a reader has started. */
  ghost function Deleted(c: Cell, before: Payload): State {
    Deleting(c, before).(counter := 6, nextId := TRANSACTION_ID_START + 4, active := [Updater(), Reader()], cardinality := 0,
                         cells := map[c := Chain([Version(4, TRANSACTION_ID_START + 2, 0, None)], Some(before))],
                         recent := [Deleter(c).(cid := 4, stamped := 1)])
  }

  lemma CommitDelete(c: Cell, before: Payload) returns (states: seq<State>, steps: seq<Step>)
    ensures Reaches(states, steps, Deleted(c, before))
  {
    hide Reaches, LowestStart;
    states, steps := Delete(c, before);
    var s := Deleting(c, before);
    states, steps := Take(states, steps, s, BeginCommit(1));
    var s1 := CommitBegun(s, 1);
    assert s1.active == [Updater()];
    states, steps := Take(states, steps, s1, CommitOne);
    var s2 := OneCommitted(s1);
    StampSole(Version(TRANSACTION_ID_START + 2, TRANSACTION_ID_START + 2, 0, None), 4);
    states, steps := Take(states, steps, s2, EndCommit);
    var s3 := CommitEnded(s2);
    SoleLowest(Updater());
    assert s3.recent == [Deleter(c).(cid := 4, stamped := 1)];
    states, steps := Take(states, steps, s3, Release);
    var s4 := s3.(phase := Idle);
    states, steps := Take(states, steps, s4, Start);
    assert s4.active + [Reader()] == [Updater(), Reader()];
    assert Started(s4) == Deleted(c, before);
  }

  lemma SoleLowest(t: Txn)
    requires t.start <= TRANSACTION_ID_START
    ensures LowestStart([t]) == t.start
  {
    assert [t][..0] == [];
  }

  // ---------------------------------------------------------------- and updated

  /**
   At the end of this run a transaction that started before the deletion was
   committed still sees the row, and the conflict test lets it update the row. A
   reader that started after the deletion does not see the row before this update, and
   sees it as it was before the deletion after it.
   */
  lemma DeletedRowReappears(c: Cell, before: Payload, written: Payload) returns (states: seq<State>, steps: seq<Step>)
    ensures Reaches(states, steps, Deleted(c, before))
    ensures var s, a, r := Deleted(c, before), Updater(), Reader();
            var updated := WriteRow(ChainAt(s, c), before, Version(a.id, a.id, 0, Some(written)));
            && s.active == [a, r] && Read(s, a, c) == Some(before) && !Conflict(ChainAt(s, c), a.id)
            && Read(s, r, c) == None && Pick(updated.nodes, updated.origin, r.id, r.start) == Some(before)
  {
    states, steps := CommitDelete(c, before);
    hide Reaches, Pick;
    var a, r, u := Updater(), Reader(), Version(4, TRANSACTION_ID_START + 2, 0, None);
    var v, u' := Version(a.id, a.id, 0, Some(written)), u.(value := Some(before));
    PickSole(u, Some(before), a.id, a.start);
    PickSole(u, Some(before), r.id, r.start);
    PickBehind(v, u', Some(before), r.id, r.start);
    assert WriteRow(Chain([u], Some(before)), before, v).nodes == [v, u'];
  }

  lemma PickSole(v: Version, origin: Option<Payload>, id: nat, start: nat)
    ensures Pick([v], origin, id, start) == if Visible(v, id, start) then v.value else origin
  {
    assert [v][1..] == [];
  }

  lemma PickBehind(v: Version, u: Version, origin: Option<Payload>, id: nat, start: nat)
    requires !Visible(v, id, start) && Visible(u, id, start)
    ensures Pick([v, u], origin, id, start) == u.value
  {
    assert [v, u][1..] == [u];
  }
}
