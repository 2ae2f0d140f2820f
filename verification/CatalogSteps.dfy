/**
 The operations on a catalog set, each as a step of the transition system: a set
 that holds the names of a state holds those of the next state.
 */
module CatalogSteps {
  import opened VersionChain
  import opened CatalogSet
  import opened Mvcc
  import opened MvccInvariant
  import MvccTheorems
  import opened Snapshots
  import TableSteps

  /** No running or future transaction made the oldest version of a name. */
  ghost predicate OldestSettled(names: Set, s: State)
    reads names
  {
    forall name :: names.OldestOwner(name) < s.nextId && forall i :: 0 <= i < |s.active| ==> s.active[i].id != names.OldestOwner(name)
  }

  /** A valid set holds the names of a state, each in a cell of its own. */
  ghost predicate Holds(names: Set, cell: string -> Cell, s: State)
    reads names, names.repr
  {
    && names.Valid() && HoldsNames(names, cell, s) && OldestSettled(names, s)
    && (forall a, b :: a != b ==> cell(a) != cell(b))
  }

  /** One name has got the chain that its cell has in the next state, and all others are as they were. */
  lemma NameChanged(names: Set, name: string, cell: string -> Cell, s: State, s': State)
    requires names.Valid() && OldestSettled(names, s')
    requires forall a, b :: a != b ==> cell(a) != cell(b)
    requires forall other :: other != name ==> ChainAt(s, cell(other)) == names.NameChain(other)
    requires TableSteps.Changes(s, s', cell(name), names.NameChain(name))
    ensures Holds(names, cell, s')
  {
    hide Set.Valid, Set.NameChain, OldestSettled;
  }

  /** A new set holds the names of the initial state. */
  method NewSet(ghost cell: string -> Cell) returns (names: Set)
    requires forall a, b :: a != b ==> cell(a) != cell(b)
    ensures Holds(names, cell, Init) && fresh(names) && fresh(names.repr)
  {
    names := new Set();
  }

  /** The version at a position of a list, in the list and in the chain. */
  lemma NodeIs(names: Set, name: string, at: nat)
    requires names.Valid() && name in names.lists && at + 1 < |names.lists[name]|
    ensures |names.NameChain(name).nodes| == |names.lists[name]| - 1
    ensures names.NameChain(name).nodes[at] == VersionOf(names.lists[name][at])
  {
    VersionsAre(names.lists[name]);
  }

  /** Two versions of one undo entry are the same version. */
  lemma SameEntry(names: Set, name: string, a: nat, b: nat)
    requires names.Valid() && name in names.lists && a < |names.lists[name]| && b < |names.lists[name]|
    requires var es := names.lists[name]; es[a].owner == es[b].owner && es[a].entry == es[b].entry
    ensures a == b
  {
    assert Linked(name, names.lists[name]);
  }

  // ---------------------------------------------------------------- commit, rollback and collection

  /** Commit of one undo entry. */
  method CommitName(names: Set, e: CatalogEntry, commitId: nat, ghost at: nat, ghost cell: string -> Cell, ghost s: State)
    requires Holds(names, cell, s) && e.name in names.lists
    requires at + 1 < |names.lists[e.name]| && e == names.lists[e.name][at + 1]
    requires Enabled(s, CommitOne) && commitId == s.phase.txn.cid
    requires var v, t := names.lists[e.name][at], s.phase.txn;
             v.owner == t.id && v.entry == t.stamped && t.log[t.stamped].cell == cell(e.name)
    modifies names.repr`timestamp
    ensures Holds(names, cell, OneCommitted(s))
  {
    hide Set.Valid, Set.NameChain, Stamp;
    names.CommitEntry(e, commitId, at);
    NameChanged(names, e.name, cell, s, OneCommitted(s));
  }

  /** Rollback of one undo entry: its version is the newest one of the name. */
  method UndoName(names: Set, e: CatalogEntry, ghost at: nat, ghost cell: string -> Cell, ghost s: State)
    requires Holds(names, cell, s) && e.name in names.lists
    requires at + 1 < |names.lists[e.name]| && e == names.lists[e.name][at + 1]
    requires Enabled(s, UndoOne)
    requires var v, t := names.lists[e.name][at], s.active[s.phase.index];
             v.owner == t.id && v.entry == |t.log| - 1 && t.log[|t.log| - 1].cell == cell(e.name)
    requires Inv(s)
    modifies names, names.repr`child, names.repr`parent
    ensures Holds(names, cell, OneUndone(s))
  {
    hide Set.Valid, Set.NameChain, VersionChain.Undo, Inv;
    MvccTheorems.UndoneIsNewest(s);
    NodeIs(names, e.name, 0);
    SameEntry(names, e.name, 0, at);
    names.Undo(e, at);
    NameChanged(names, e.name, cell, s, OneUndone(s));
  }

  lemma CollectedIdIs(s: State)
    requires Inv(s) && s.recent != []
    ensures s.recent[0].id < s.nextId && forall i :: 0 <= i < |s.active| ==> s.active[i].id != s.recent[0].id
  {
    assert RecentOk(s);
  }

  /** Collection of one undo entry: the version it kept is the oldest one of the name. */
  method CollectName(names: Set, e: CatalogEntry, ghost at: nat, ghost cell: string -> Cell, ghost s: State)
    requires Holds(names, cell, s) && e.name in names.lists
    requires at + 1 < |names.lists[e.name]| && e == names.lists[e.name][at + 1]
    requires Enabled(s, CleanupOne)
    requires var v, t := names.lists[e.name][at], s.recent[0];
             v.owner == t.id && v.entry == t.cleaned && t.log[t.cleaned].cell == cell(e.name)
    requires Inv(s)
    modifies names`lists, names.repr`child
    ensures Holds(names, cell, OneCleaned(s)) && e.child == null
  {
    hide Set.Valid, Set.NameChain, VersionChain.Unlink, Inv;
    CollectedIdIs(s);
    MvccTheorems.CollectedIsOldest(s);
    NodeIs(names, e.name, |names.lists[e.name]| - 2);
    SameEntry(names, e.name, |names.lists[e.name]| - 2, at);
    ghost var v := names.lists[e.name][at];
    names.Cleanup(e, at);
    assert names.lists[e.name][at] == v;
    assert forall name :: names.OldestOwner(name) == if name == e.name then v.owner else old(names.OldestOwner(name));
    NameChanged(names, e.name, cell, s, OneCleaned(s));
  }

  // ---------------------------------------------------------------- writes

  /** The next undo entry of a running transaction is not in the list of a name yet. */
  lemma NextUnused(names: Set, name: string, cell: string -> Cell, s: State, i: nat)
    requires Holds(names, cell, s) && Inv(s) && i < |s.active|
    ensures names.Unused(name, s.active[i].id, |s.active[i].log|)
  {
    assert CellOk(s, cell(name)) && NumbersOk(s);
    hide Inv, Set.Valid, NumbersOk, Nodes, Set.NameChain;
    if name in names.lists {
      forall e | e in names.lists[name] && e.owner == s.active[i].id ensures e.entry < |s.active[i].log| {
        var at :| 0 <= at < |names.lists[name]| && names.lists[name][at] == e;
        assert at + 1 < |names.lists[name]| by {
          assert names.OldestOwner(name) != s.active[i].id;
        }
        NodeIs(names, name, at);
        TableSteps.OwnEntry(s, i, cell(name), at);
      }
    }
  }

  lemma IdIs(s: State, i: nat)
    requires Inv(s) && i < |s.active|
    ensures s.active[i].id >= TRANSACTION_ID_START
  {
    assert TxnOk(s, s.active[i]);
  }

  lemma UnknownIs(names: Set, name: string)
    requires names.Valid()
    ensures name !in names.data ==> Base(names.NameChain(name)).None?
  {
  }

  /** Creates a name: the write step, or nothing on a conflict or if the name exists. */
  method CreateName(names: Set, name: string, value: Payload, id: nat, entry: nat,
                    ghost cell: string -> Cell, ghost s: State, ghost i: nat) returns (done: bool)
    requires Holds(names, cell, s) && Inv(s)
    requires i < |s.active| && s.active[i].id == id && |s.active[i].log| == entry && s.phase != RollingBack(i)
    modifies names, names.repr`parent
    ensures done <==> CanWrite(s, i, Write(InsertTuple, cell(name), Some(value)))
    ensures Holds(names, cell, if done then Written(s, i, Write(InsertTuple, cell(name), Some(value))) else s)
  {
    hide Set.Valid, Set.NameChain, Inv, Base, Conflict, Push;
    NextUnused(names, name, cell, s, i);
    IdIs(s, i);
    var outcome := names.CreateEntry(name, value, id, entry);
    done := outcome.Done?;
    NameChanged(names, name, cell, s, if done then Written(s, i, Write(InsertTuple, cell(name), Some(value))) else s);
  }

  /** Alters a name: the write step, or nothing on a conflict, if the name does not exist or if `alter` refuses. */
  method AlterName(names: Set, name: string, alter: Payload -> Option<Payload>, id: nat, entry: nat,
                   ghost cell: string -> Cell, ghost s: State, ghost i: nat) returns (done: bool)
    requires Holds(names, cell, s) && Inv(s)
    requires i < |s.active| && s.active[i].id == id && |s.active[i].log| == entry && s.phase != RollingBack(i)
    modifies names, names.repr`parent
    ensures var was := Base(ChainAt(s, cell(name)));
            && (done <==> was.Some? && alter(was.value).Some? && CanWrite(s, i, Write(UpdateTuple, cell(name), alter(was.value))))
            && Holds(names, cell, if done then Written(s, i, Write(UpdateTuple, cell(name), alter(was.value))) else s)
  {
    hide Set.Valid, Set.NameChain, Inv, Base, Conflict, Push;
    NextUnused(names, name, cell, s, i);
    IdIs(s, i);
    UnknownIs(names, name);
    var outcome := names.AlterEntry(name, alter, id, entry);
    done := outcome.Done?;
    ghost var was := Base(ChainAt(s, cell(name)));
    NameChanged(names, name, cell, s, if done then Written(s, i, Write(UpdateTuple, cell(name), alter(was.value))) else s);
  }

  /** Drops a name: the write step, or nothing on a conflict, if the name does not exist or if something depends on it. */
  method DropName(names: Set, name: string, cascade: bool, hasDependents: bool, id: nat, entry: nat,
                  ghost cell: string -> Cell, ghost s: State, ghost i: nat) returns (done: bool)
    requires Holds(names, cell, s) && Inv(s)
    requires i < |s.active| && s.active[i].id == id && |s.active[i].log| == entry && s.phase != RollingBack(i)
    modifies names, names.repr`parent
    ensures done <==> CanWrite(s, i, Write(DeleteTuple, cell(name), None)) && (cascade || !hasDependents)
    ensures Holds(names, cell, if done then Written(s, i, Write(DeleteTuple, cell(name), None)) else s)
  {
    hide Set.Valid, Set.NameChain, Inv, Base, Conflict, Push;
    NextUnused(names, name, cell, s, i);
    IdIs(s, i);
    UnknownIs(names, name);
    var outcome := names.DropEntry(name, cascade, hasDependents, id, entry);
    done := outcome.Done?;
    NameChanged(names, name, cell, s, if done then Written(s, i, Write(DeleteTuple, cell(name), None)) else s);
  }

  // ---------------------------------------------------------------- all other steps

  /** The steps that concern no name leave the set with the names of the next state. */
  lemma ElsewhereKeeps(names: Set, cell: string -> Cell, s: State, step: Step)
    requires Holds(names, cell, s) && Enabled(s, step)
    requires forall name :: !TableSteps.Concerns(s, step, cell(name))
    ensures Holds(names, cell, Next(s, step))
  {
    hide Set.Valid, Set.NameChain;
    forall name ensures ChainAt(Next(s, step), cell(name)) == names.NameChain(name) {
      TableSteps.OthersUntouched(s, step, cell(name));
    }
  }
}
