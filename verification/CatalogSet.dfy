/**
 Catalog sets: the versions of every name, kept as doubly linked lists of
 entries, newest first, and the operations on them. Every operation is related
 to the version chain of its name.
 */
module CatalogSet {
  import opened VersionChain

  class CatalogEntry {
    const name: string
    /** The contents; None for a deleted entry. */
    const value: Option<Payload>
    /** The undo buffer and the position in it that recorded this version. */
    const owner: nat
    const entry: nat
    var timestamp: nat
    /** The version this one replaced, and the version that replaced it. */
    var child: CatalogEntry?
    var parent: CatalogEntry?

    constructor (name: string, value: Option<Payload>, timestamp: nat, owner: nat, entry: nat, child: CatalogEntry?)
      ensures this.name == name && this.value == value && this.timestamp == timestamp
      ensures this.owner == owner && this.entry == entry && this.child == child && this.parent == null
    {
      this.name, this.value, this.timestamp, this.owner, this.entry := name, value, timestamp, owner, entry;
      this.child, this.parent := child, null;
    }
  }

  // ---------------------------------------------------------------- chains of entries

  /** The chain of a list of versions, newest first: the oldest is visible to everybody. */
  function ChainOf(vs: seq<Version>): Chain
    requires vs != []
  {
    Chain(vs[..|vs| - 1], vs[|vs| - 1].value)
  }

  ghost function VersionOf(e: CatalogEntry): Version
    reads e`timestamp
  {
    Version(e.timestamp, e.owner, e.entry, e.value)
  }

  ghost function VersionsOf(es: seq<CatalogEntry>): seq<Version>
    reads (set e | e in es)`timestamp
  {
    if es == [] then [] else [VersionOf(es[0])] + VersionsOf(es[1..])
  }

  lemma {:induction false} VersionsAre(es: seq<CatalogEntry>)
    ensures |VersionsOf(es)| == |es| && forall i :: 0 <= i < |es| ==> VersionsOf(es)[i] == VersionOf(es[i])
  {
    if es != [] {
      VersionsAre(es[1..]);
    }
  }

  /** Distinct undo entries made the versions. */
  predicate Distinct(vs: seq<Version>) {
    forall i, j :: 0 <= i < j < |vs| ==> !IsEntry(vs[i], vs[j].owner, vs[j].entry)
  }

  /** A chain without the version of one undo entry. */
  function Without(nodes: seq<Version>, owner: nat, entry: nat): seq<Version> {
    if nodes == [] then []
    else if IsEntry(nodes[0], owner, entry) then nodes[1..]
    else [nodes[0]] + Without(nodes[1..], owner, entry)
  }

  lemma {:induction false} WithoutIs(nodes: seq<Version>, i: nat)
    requires Distinct(nodes) && i < |nodes|
    ensures Without(nodes, nodes[i].owner, nodes[i].entry) == nodes[..i] + nodes[i + 1..]
  {
    if i > 0 {
      WithoutIs(nodes[1..], i - 1);
    }
  }

  /** Undoing the newest version takes it out. */
  lemma WithoutNewest(chain: Chain)
    requires chain.nodes != []
    ensures var v := chain.nodes[0];
            Undo(chain, v.owner, v.entry) == chain.(nodes := Without(chain.nodes, v.owner, v.entry))
  {
  }

  lemma {:induction false} StampIs(nodes: seq<Version>, i: nat, cid: nat)
    requires Distinct(nodes) && i < |nodes|
    ensures Stamp(nodes, nodes[i].owner, nodes[i].entry, cid) == nodes[i := nodes[i].(stamp := cid)]
  {
    if i == 0 {
      StampMiss(nodes[1..], nodes[0].owner, nodes[0].entry, cid);
    } else {
      StampIs(nodes[1..], i - 1, cid);
    }
  }

  /** Dropping the oldest version of a list unlinks the version that replaced it. */
  lemma CleanupIs(vs: seq<Version>)
    requires Distinct(vs) && |vs| > 1
    ensures ChainOf(vs[..|vs| - 1]) == Unlink(ChainOf(vs), vs[|vs| - 2].owner, vs[|vs| - 2].entry)
  {
    var a, v := vs[..|vs| - 2], vs[|vs| - 2];
    assert vs[..|vs| - 1] == a + [v];
    UnlinkLast(a, v, vs[|vs| - 1].value, v.owner, v.entry);
  }

  datatype Outcome = Done | NotDone | WriteConflict | Unsupported | HasDependents

  /** The entries are linked in this order as the list of `name`. */
  ghost predicate Linked(name: string, es: seq<CatalogEntry>)
    reads (set e | e in es)`child, (set e | e in es)`parent
  {
    && es != []
    && (forall i :: 0 <= i < |es| ==> EntryOk(name, es, i))
    && DistinctEntries(es)
  }

  ghost predicate DistinctEntries(es: seq<CatalogEntry>) {
    forall i, j :: 0 <= i < j < |es| ==> !(es[i].owner == es[j].owner && es[i].entry == es[j].entry)
  }

  lemma DistinctWithout(es: seq<CatalogEntry>, at: nat)
    requires DistinctEntries(es) && at < |es|
    ensures DistinctEntries(es[..at] + es[at + 1..])
  {
  }

  lemma DistinctPush(e: CatalogEntry, es: seq<CatalogEntry>)
    requires DistinctEntries(es) && forall f :: f in es && f.owner == e.owner ==> f.entry < e.entry
    ensures DistinctEntries([e] + es)
  {
  }

  ghost predicate EntryOk(name: string, es: seq<CatalogEntry>, i: nat)
    requires i < |es|
    reads (set e | e in es)`child, (set e | e in es)`parent
  {
    && es[i].name == name
    && es[i].child == (if i + 1 < |es| then es[i + 1] else null)
    && es[i].parent == (if i == 0 then null else es[i - 1])
  }

  /** The pointers of entry `i` lead past the one at `at`. */
  ghost predicate Past(name: string, es: seq<CatalogEntry>, at: nat, i: nat)
    requires i < |es| && i != at
    reads (set e | e in es)`child, (set e | e in es)`parent
  {
    var next := if i + 1 == at then i + 2 else i + 1;
    var previous := if i == at + 1 then i - 2 else i - 1;
    && es[i].name == name
    && es[i].child == (if next < |es| then es[next] else null)
    && es[i].parent == (if previous >= 0 then es[previous] else null)
  }

  ghost predicate OldestCommitted(es: seq<CatalogEntry>)
    reads (set e | e in es)`timestamp
  {
    es != [] && es[|es| - 1].timestamp < TRANSACTION_ID_START
  }

  ghost function OldestIn(lists: map<string, seq<CatalogEntry>>, name: string): nat {
    if name in lists && lists[name] != [] then lists[name][|lists[name]| - 1].owner else 0
  }

  lemma OldestKept(lists: map<string, seq<CatalogEntry>>, name: string, es: seq<CatalogEntry>)
    requires es != [] && es[|es| - 1].owner == OldestIn(lists, name)
    ensures forall other :: OldestIn(lists[name := es], other) == OldestIn(lists, other)
  {
  }

  class Set {
    var data: map<string, CatalogEntry>
    /** The versions of every name, newest first. */
    ghost var lists: map<string, seq<CatalogEntry>>
    ghost var repr: set<CatalogEntry>

    ghost predicate Valid()
      reads this, repr
    {
      data.Keys == lists.Keys && Owned() && Settled() && Links() && Heads()
    }

    ghost predicate Links()
      requires Owned()
      reads this, repr`child, repr`parent
    {
      forall name :: name in lists ==> Linked(name, lists[name])
    }

    ghost predicate Heads()
      requires data.Keys == lists.Keys
      reads this
    {
      forall name :: name in lists ==> lists[name] != [] && data[name] == lists[name][0]
    }

    ghost predicate Owned()
      reads this
    {
      forall name, e :: name in lists && e in lists[name] ==> e in repr && e.name == name
    }

    /** The oldest version of every name is committed. */
    ghost predicate Settled()
      requires Owned()
      reads this, repr`timestamp
    {
      forall name :: name in lists ==> OldestCommitted(lists[name])
    }

    ghost function NameChain(name: string): Chain
      requires Valid()
      reads this, repr
    {
      if name in lists then ChainOf(NameVersions(name)) else Chain([], None)
    }

    ghost function NameVersions(name: string): seq<Version>
      requires Valid() && name in lists
      reads this, repr
      ensures |NameVersions(name)| == |lists[name]|
    {
      VersionsAre(lists[name]);
      VersionsOf(lists[name])
    }

    constructor ()
      ensures Valid() && forall name :: NameChain(name) == Chain([], None)
      ensures repr == {} && forall name :: OldestOwner(name) == 0
    {
      data, lists, repr := map[], map[], {};
    }

    /** All names but `name` keep their chains. */
    twostate predicate OthersSame(name: string)
      reads this, repr
      requires old(Valid()) && Valid()
    {
      forall other :: other != name ==> NameChain(other) == old(NameChain(other))
    }

    /** The undo buffer that recorded the oldest version of a name; 0 if there is none. */
    ghost function OldestOwner(name: string): nat
      reads this
    {
      OldestIn(lists, name)
    }

    twostate predicate OldestSame()
      reads this
    {
      forall name :: OldestOwner(name) == old(OldestOwner(name))
    }

    ghost predicate Unused(name: string, id: nat, entry: nat)
      reads this
    {
      name in lists ==> forall e :: e in lists[name] && e.owner == id ==> e.entry < entry
    }

    lemma Position(name: string, at: nat)
      requires Valid() && name in lists && at < |lists[name]|
      ensures lists[name][at].child == if at + 1 < |lists[name]| then lists[name][at + 1] else null
      ensures lists[name][at].parent == if at == 0 then null else lists[name][at - 1]
      ensures forall j :: 0 <= j < |lists[name]| && j != at ==> lists[name][j] != lists[name][at]
      ensures lists[name][at].name == name && data[name] == lists[name][0]
    {
      assert Linked(name, lists[name]) && EntryOk(name, lists[name], at);
    }

    /** All names but `name` have proper lists. */
    ghost predicate OthersOk(name: string)
      reads this, repr
    {
      Owned() && forall other :: other in lists && other != name ==>
        Linked(other, lists[other]) && OldestCommitted(lists[other]) && other in data && data[other] == lists[other][0]
    }

    lemma Opened(name: string)
      requires Valid()
      ensures OthersOk(name)
      ensures name in lists ==> && Linked(name, lists[name]) && OldestCommitted(lists[name]) && DistinctEntries(lists[name])
                                && name in data && data[name] == lists[name][0] && lists[name] != []
                                && forall e :: e in lists[name] ==> e in repr && e.name == name
    {
    }

    method SetHead(name: string, e: CatalogEntry)
      requires OthersOk(name)
      modifies this`data, this`repr
      ensures OthersOk(name) && data == old(data)[name := e] && repr == old(repr) + {e}
    {
      hide Linked, OldestCommitted;
      data := data[name := e];
      repr := repr + {e};
    }

    method SetChild(e: CatalogEntry, child: CatalogEntry?)
      requires OthersOk(e.name)
      modifies e`child
      ensures OthersOk(e.name) && e.child == child
    {
      e.child := child;
      forall other | other in lists && other != e.name ensures Linked(other, lists[other]) {
        assert old(Linked(other, lists[other]));
      }
    }

    method SetParent(e: CatalogEntry, parent: CatalogEntry?)
      requires OthersOk(e.name)
      modifies e`parent
      ensures OthersOk(e.name) && e.parent == parent
    {
      e.parent := parent;
      forall other | other in lists && other != e.name ensures Linked(other, lists[other]) {
        assert old(Linked(other, lists[other]));
      }
    }

    /** The list `es` becomes the list of `name`. */
    ghost method SetList(name: string, es: seq<CatalogEntry>)
      requires OthersOk(name) && data.Keys == lists.Keys + {name}
      requires Linked(name, es) && OldestCommitted(es) && data[name] == es[0]
      requires forall e :: e in es ==> e in repr && e.name == name
      modifies this`lists
      ensures Valid() && lists == old(lists)[name := es]
    {
      assert forall other :: other in lists && other != name ==> lists[other] != [];
      hide Linked, OldestCommitted;
      lists := lists[name := es];
    }

    /** Links a new entry in front of the list of a name. */
    method Link(name: string, value: Option<Payload>, id: nat, entry: nat) returns (e: CatalogEntry)
      requires Valid() && name in data && Unused(name, id, entry)
      modifies this, repr`parent
      ensures Valid() && fresh(e) && repr == old(repr) + {e}
      ensures lists == old(lists)[name := [e] + old(lists[name])]
      ensures e.timestamp == e.owner == id && e.entry == entry && e.value == value
    {
      hide OthersOk, Links, Heads, Settled, Owned, DistinctEntries;
      Opened(name);
      Position(name, 0);
      ghost var was := lists[name];
      e := new CatalogEntry(name, value, id, id, entry, data[name]);
      SetParent(e.child, e);
      SetHead(name, e);
      ghost var es := [e] + was;
      DistinctPush(e, was);
      assert Linked(name, es) by {
        forall i | 0 <= i < |es| ensures EntryOk(name, es, i) {
          assert i > 0 ==> es[i] == was[i - 1] && old(EntryOk(name, lists[name], i - 1));
        }
      }
      SetList(name, es);
    }

    /** Makes a version with `value` the newest one of a name that has versions. */
    method Replace(name: string, value: Option<Payload>, id: nat, entry: nat)
      requires Valid() && name in data && Unused(name, id, entry)
      modifies this, repr`parent
      ensures Valid() && fresh(repr - old(repr))
      ensures NameChain(name) == Push(old(NameChain(name)), Version(id, id, entry, value))
      ensures OthersSame(name) && OldestSame()
    {
      hide Valid, ChainOf, VersionsOf, OldestIn;
      Known(name);
      OldestPushed(name);
      VersionsAre(lists[name]);
      ghost var before := VersionsOf(lists[name]);
      var e := Link(name, value, id, entry);
      OldestKept(old(lists), name, lists[name]);
      VersionsAre(lists[name]);
      assert VersionsOf(lists[name]) == [Version(id, id, entry, value)] + before;
      PushIs(Version(id, id, entry, value), before);
    }

    /** What the walk and the conflict test see at the head of a list. */
    lemma HeadIs(name: string, id: nat)
      requires Valid() && name in lists
      ensures data[name].value == Base(NameChain(name))
      ensures Conflict(NameChain(name), id) <==> data[name].timestamp >= TRANSACTION_ID_START && data[name].timestamp != id
    {
      Position(name, 0);
      VersionsAre(lists[name]);
    }

    /** Creates a name that does not exist. */
    method CreateEntry(name: string, value: Payload, id: nat, entry: nat) returns (outcome: Outcome)
      requires Valid() && id >= TRANSACTION_ID_START && Unused(name, id, entry)
      modifies this, repr`parent
      ensures Valid() && fresh(repr - old(repr))
      ensures outcome == if Conflict(old(NameChain(name)), id) then WriteConflict
                         else if Base(old(NameChain(name))).Some? then NotDone else Done
      ensures NameChain(name) == if outcome.Done? then Push(old(NameChain(name)), Version(id, id, entry, Some(value)))
                                 else old(NameChain(name))
      ensures OthersSame(name) && OldestSame()
    {
      hide Links, Heads, Settled, ChainOf, VersionsOf;
      if name !in data {
        AddDummy(name);
      } else {
        HeadIs(name, id);
        var current := data[name];
        if current.timestamp >= TRANSACTION_ID_START && current.timestamp != id {
          return WriteConflict;
        }
        if current.value.Some? {
          return NotDone;
        }
      }
      Replace(name, Some(value), id, entry);
      return Done;
    }

    /** Gives an unknown name a deleted version that is older than every transaction. */
    method AddDummy(name: string)
      requires Valid() && name !in data
      modifies this
      ensures Valid() && fresh(repr - old(repr)) && name in data
      ensures forall e :: e in lists[name] ==> e.owner == 0
      ensures NameChain(name) == Chain([], None) && OthersSame(name) && OldestSame()
    {
      hide Linked, OldestCommitted, OthersOk, Links, Heads, Settled, Owned, ChainOf, VersionsOf, OldestIn;
      Opened(name);
      var dummy := new CatalogEntry(name, None, 0, 0, 0, null);
      NoOldest(name);
      SetHead(name, dummy);
      Sole(name, dummy);
      OldestKept(lists, name, [dummy]);
      SetList(name, [dummy]);
      SoleVersion(dummy);
    }

    lemma Known(name: string)
      requires Valid() && name in data
      ensures name in lists && lists[name] != []
    {
    }

    lemma OldestPushed(name: string)
      requires Valid() && name in lists && lists[name] != []
      ensures OldestOwner(name) == lists[name][|lists[name]| - 1].owner
    {
    }

    lemma NoOldest(name: string)
      requires Valid() && name !in data
      ensures name !in lists && OldestOwner(name) == 0
    {
    }

    /** Alters a name that exists; `alter` gives the altered contents or refuses. */
    method AlterEntry(name: string, alter: Payload -> Option<Payload>, id: nat, entry: nat) returns (outcome: Outcome)
      requires Valid() && id >= TRANSACTION_ID_START && Unused(name, id, entry)
      modifies this, repr`parent
      ensures Valid() && fresh(repr - old(repr))
      ensures var was := old(NameChain(name));
              && outcome == (if name !in old(data) then NotDone else if Conflict(was, id) then WriteConflict
                             else if Base(was).None? || alter(Base(was).value).None? then Unsupported else Done)
              && NameChain(name) == if outcome.Done? then Push(was, Version(id, id, entry, alter(Base(was).value))) else was
      ensures OthersSame(name) && OldestSame()
    {
      hide Links, Heads, Settled, ChainOf, VersionsOf;
      if name !in data {
        return NotDone;
      }
      HeadIs(name, id);
      var current := data[name];
      if current.timestamp >= TRANSACTION_ID_START && current.timestamp != id {
        return WriteConflict;
      }
      if current.value.None? || alter(current.value.value).None? {
        return Unsupported;
      }
      Replace(name, alter(current.value.value), id, entry);
      return Done;
    }

    /** Drops a name that exists, unless something depends on it and the drop does not cascade. */
    method DropEntry(name: string, cascade: bool, hasDependents: bool, id: nat, entry: nat) returns (outcome: Outcome)
      requires Valid() && id >= TRANSACTION_ID_START && Unused(name, id, entry)
      modifies this, repr`parent
      ensures Valid() && fresh(repr - old(repr))
      ensures outcome == if name !in old(data) then NotDone
                         else if Conflict(old(NameChain(name)), id) then WriteConflict
                         else if Base(old(NameChain(name))).None? then NotDone
                         else if !cascade && hasDependents then HasDependents else Done
      ensures NameChain(name) == if outcome.Done? then Push(old(NameChain(name)), Version(id, id, entry, None))
                                 else old(NameChain(name))
      ensures OthersSame(name) && OldestSame()
    {
      hide Links, Heads, Settled, ChainOf, VersionsOf;
      if name !in data {
        return NotDone;
      }
      HeadIs(name, id);
      var current := data[name];
      if current.timestamp >= TRANSACTION_ID_START && current.timestamp != id {
        return WriteConflict;
      }
      if current.value.None? {
        return NotDone;
      }
      if !cascade && hasDependents {
        return HasDependents;
      }
      Replace(name, None, id, entry);
      return Done;
    }

    /** The newest version of a name that a transaction can see. */
    method GetEntryForTransaction(name: string, id: nat, start: nat) returns (current: CatalogEntry)
      requires Valid() && name in data
      ensures current.value == Pick(NameChain(name).nodes, NameChain(name).origin, id, start)
    {
      hide Links, Heads, Settled, Owned, VersionsOf;
      Opened(name);
      Position(name, 0);
      VersionsAre(lists[name]);
      ghost var es, at, vs := lists[name], 0, VersionsOf(lists[name]);
      assert ChainOf(vs) == NameChain(name);
      current := data[name];
      assert vs[0..] == vs;
      while current.child != null
        invariant at < |es| && current == es[at]
        invariant Pick(NameChain(name).nodes, NameChain(name).origin, id, start) ==
                  Pick(ChainOf(vs[at..]).nodes, ChainOf(vs).origin, id, start)
        decreases |es| - at
      {
        Position(name, at);
        if current.timestamp == id {
          return;
        }
        if current.timestamp < start {
          return;
        }
        assert ChainOf(vs[at..]).nodes[1..] == ChainOf(vs[at + 1..]).nodes;
        current := current.child;
        at := at + 1;
      }
      Position(name, at);
    }

    /** What a transaction finds under a name. */
    method GetEntry(name: string, id: nat, start: nat) returns (found: CatalogEntry?)
      requires Valid()
      ensures var seen := Pick(NameChain(name).nodes, NameChain(name).origin, id, start);
              (found == null <==> seen.None?) && (found != null ==> found.value == seen)
    {
      if name !in data {
        return null;
      }
      var current := GetEntryForTransaction(name, id, start);
      if current.value.None? {
        return null;
      }
      return current;
    }

    method SetTimestamp(e: CatalogEntry, commitId: nat, ghost at: nat)
      requires Valid() && e.name in lists && at + 1 < |lists[e.name]| && e == lists[e.name][at + 1]
      requires e.parent == lists[e.name][at]
      modifies e.parent`timestamp
      ensures Valid() && lists[e.name][at].timestamp == commitId
    {
      hide Links, Heads;
      Position(e.name, at + 1);
      Position(e.name, |lists[e.name]| - 1);
      e.parent.timestamp := commitId;
    }

    /** Commit of one undo entry, which points to the version that was replaced. */
    method CommitEntry(e: CatalogEntry, commitId: nat, ghost at: nat)
      requires Valid() && e.name in lists && at + 1 < |lists[e.name]| && e == lists[e.name][at + 1]
      modifies repr`timestamp
      ensures Valid() && repr == old(repr) && lists == old(lists) && data == old(data)
      ensures var was, v := old(NameChain(e.name)), lists[e.name][at];
              NameChain(e.name) == was.(nodes := Stamp(was.nodes, v.owner, v.entry, commitId))
      ensures OthersSame(e.name)
    {
      hide Links, Heads, Settled, VersionsOf, Stamp, Distinct;
      ghost var name, es := e.name, lists[e.name];
      Position(name, at + 1);
      Position(name, at);
      VersionsAre(es);
      ghost var vs := VersionsOf(es);
      NodesDistinct(name);
      SetTimestamp(e, commitId, at);
      VersionsAre(es);
      assert VersionsOf(es) == vs[at := vs[at].(stamp := commitId)];
      StampIs(vs[..|vs| - 1], at, commitId);
      assert vs[at := vs[at].(stamp := commitId)][..|vs| - 1] == vs[..|vs| - 1][at := vs[at].(stamp := commitId)];
    }

    /** Rollback of one undo entry: the version that replaced `e` is taken out of the list. */
    method Undo(e: CatalogEntry, ghost at: nat)
      requires Valid() && e.name in lists && at + 1 < |lists[e.name]| && e == lists[e.name][at + 1]
      modifies this, repr`child, repr`parent
      ensures Valid() && repr == old(repr)
      ensures var was, v := old(NameChain(e.name)), old(lists[e.name])[at];
              && NameChain(e.name) == was.(nodes := Without(was.nodes, v.owner, v.entry))
              && (at == 0 ==> NameChain(e.name) == VersionChain.Undo(was, v.owner, v.entry))
      ensures OthersSame(e.name) && OldestSame()
    {
      hide Valid, VersionsOf, Without, OldestIn, VersionChain.Undo, Distinct;
      ghost var name, es := e.name, lists[e.name];
      OldestPushed(name);
      VersionsAre(es);
      ghost var vs := VersionsOf(es);
      NodesDistinct(name);
      Unlink(e, at);
      OldestKept(old(lists), name, lists[name]);
      VersionsAre(lists[name]);
      assert VersionsOf(lists[name]) == vs[..at] + vs[at + 1..];
      WithoutIs(vs[..|vs| - 1], at);
      WithoutNewest(old(NameChain(e.name)));
      assert ChainOf(vs[..at] + vs[at + 1..]).nodes == vs[..|vs| - 1][..at] + vs[..|vs| - 1][at + 1..];
    }

    method Unlink(e: CatalogEntry, ghost at: nat)
      requires Valid() && e.name in lists && at + 1 < |lists[e.name]| && e == lists[e.name][at + 1]
      modifies this, repr`child, repr`parent
      ensures Valid() && repr == old(repr)
      ensures lists == old(lists)[e.name := old(lists[e.name])[..at] + old(lists[e.name])[at + 1..]]
    {
      hide OthersOk, Links, Heads, Settled, Owned, DistinctEntries;
      Opened(e.name);
      Position(e.name, at);
      Position(e.name, at + 1);
      var removed := e.parent;
      if removed.parent != null {
        SetChild(removed.parent, removed.child);
        SetParent(e, removed.parent);
      } else {
        SetHead(e.name, e);
        SetParent(e, null);
      }
      forall i | 0 <= i < |lists[e.name]| && i != at ensures Past(e.name, lists[e.name], at, i) {
        assert old(EntryOk(e.name, lists[e.name], i));
        assert at > 0 ==> old(EntryOk(e.name, lists[e.name], at - 1));
      }
      Relist(e.name, at);
    }

    /** After the pointers around version `at` were moved past it, the rest is the list of the name. */
    ghost method Relist(name: string, at: nat)
      requires OthersOk(name) && data.Keys == lists.Keys && name in lists && at + 1 < |lists[name]|
      requires DistinctEntries(lists[name]) && OldestCommitted(lists[name])
      requires forall e :: e in lists[name] ==> e in repr && e.name == name
      requires forall i :: 0 <= i < |lists[name]| && i != at ==> Past(name, lists[name], at, i)
      requires data[name] == lists[name][if at == 0 then 1 else 0]
      modifies this`lists
      ensures Valid() && lists == old(lists)[name := old(lists[name])[..at] + old(lists[name])[at + 1..]]
    {
      hide OthersOk, Links, Heads, Settled, Owned, DistinctEntries;
      ghost var es := lists[name];
      ghost var rest := es[..at] + es[at + 1..];
      DistinctWithout(es, at);
      forall i | 0 <= i < |rest| ensures EntryOk(name, rest, i) {
        assert Past(name, es, at, if i < at then i else i + 1);
      }
      SetList(name, rest);
    }

    /** Collection of one undo entry: the version it kept, which nothing older follows, is dropped. */
    method Cleanup(e: CatalogEntry, ghost at: nat)
      requires Valid() && e.name in lists && at + 2 == |lists[e.name]| && e == lists[e.name][at + 1]
      requires lists[e.name][at].timestamp < TRANSACTION_ID_START
      modifies this`lists, repr`child
      ensures Valid() && repr == old(repr) && data == old(data)
      ensures e.child == null && lists == old(lists)[e.name := old(lists[e.name])[..at + 1]]
      ensures var v := lists[e.name][at];
              NameChain(e.name) == VersionChain.Unlink(old(NameChain(e.name)), v.owner, v.entry)
      ensures OthersSame(e.name)
    {
      hide Links, Heads, Settled, VersionsOf;
      ghost var name, vs := e.name, VersionsOf(lists[e.name]);
      VersionsAre(lists[name]);
      NodesDistinct(name);
      Detach(e, at);
      VersionsAre(lists[name]);
      assert VersionsOf(lists[name]) == vs[..|vs| - 1];
      CleanupIs(vs);
    }

    method Detach(e: CatalogEntry, ghost at: nat)
      requires Valid() && e.name in lists && at + 2 == |lists[e.name]| && e == lists[e.name][at + 1]
      requires lists[e.name][at].timestamp < TRANSACTION_ID_START
      modifies this`lists, repr`child
      ensures Valid() && e.child == null && lists == old(lists)[e.name := old(lists[e.name])[..at + 1]]
    {
      hide OthersOk, Links, Heads, Settled, Owned, DistinctEntries;
      ghost var name, es := e.name, lists[e.name];
      Opened(name);
      Position(name, at + 1);
      SetChild(e.parent, e.child);
      ghost var rest := es[..at + 1];
      assert DistinctEntries(rest) by { DistinctWithout(es, at + 1); assert rest == es[..at + 1] + es[at + 2..]; }
      assert Linked(name, rest) by {
        forall i | 0 <= i < |rest| ensures EntryOk(name, rest, i) {
          assert old(EntryOk(name, lists[name], i));
        }
      }
      SetList(name, rest);
    }

    lemma NodesDistinct(name: string)
      requires Valid() && name in lists
      ensures Distinct(NameVersions(name)) && Distinct(NameVersions(name)[..|lists[name]| - 1])
    {
      assert Linked(name, lists[name]);
      VersionsAre(lists[name]);
    }
  }

  lemma Sole(name: string, e: CatalogEntry)
    requires e.name == name && e.child == e.parent == null && e.timestamp < TRANSACTION_ID_START
    ensures Linked(name, [e]) && OldestCommitted([e])
  {
  }

  lemma SoleVersion(e: CatalogEntry)
    ensures VersionsOf([e]) == [VersionOf(e)] && ChainOf([VersionOf(e)]) == Chain([], e.value)
  {
  }

  /** A version in front of a list pushes it on the chain. */
  lemma PushIs(v: Version, vs: seq<Version>)
    requires vs != []
    ensures ChainOf([v] + vs) == Push(ChainOf(vs), v)
  {
    assert ([v] + vs)[..|vs|] == [v] + vs[..|vs| - 1];
  }
}
