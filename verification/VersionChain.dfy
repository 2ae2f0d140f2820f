/**
 Version chains: what a transaction sees of one row or one catalog name.

 A cell is one row of a table or one name of a catalog set. Its chain lists the
 writes that are still reachable, newest first; each node carries the value the
 cell had after that write, and `origin` is the oldest value still kept. DuckDB
 stores a table row as the newest value plus a list of pre-images and a catalog
 entry as a list of post-images; StorageChunk and CatalogSet relate both layouts
 to this one.
 */
module VersionChain {

  /** The contents of a row or of a catalog entry: only copied, never inspected. */
  type Payload(0, ==, !new)

  datatype Option<+T> = None | Some(value: T)

  /** Commit identifiers lie below this bound, transaction identifiers at or above it. */
  const TRANSACTION_ID_START: nat := 0x1_0000_0000

  /** One write: its version number, the undo entry that made it, and the value it left (None when deleted). */
  datatype Version = Version(stamp: nat, owner: nat, entry: nat, value: Option<Payload>)

  datatype Chain = Chain(nodes: seq<Version>, origin: Option<Payload>)

  predicate Visible(v: Version, id: nat, start: nat) {
    v.stamp == id || v.stamp < start
  }

  predicate IsEntry(v: Version, owner: nat, entry: nat) {
    v.owner == owner && v.entry == entry
  }

  /** The value in the base table. */
  function Base(chain: Chain): Option<Payload> {
    if chain.nodes == [] then chain.origin else chain.nodes[0].value
  }

  /** The visibility walk of transaction `id` that started at `start`. */
  function Pick(nodes: seq<Version>, origin: Option<Payload>, id: nat, start: nat): Option<Payload> {
    if nodes == [] then origin
    else if Visible(nodes[0], id, start) then nodes[0].value
    else Pick(nodes[1..], origin, id, start)
  }

  /** The write-write conflict test: the newest write belongs to another transaction that has not committed it. */
  predicate Conflict(chain: Chain, id: nat) {
    chain.nodes != [] && chain.nodes[0].stamp >= TRANSACTION_ID_START && chain.nodes[0].stamp != id
  }

  function Push(chain: Chain, v: Version): Chain {
    Chain([v] + chain.nodes, chain.origin)
  }

  /** Commit of one undo entry: its node gets the commit identifier. */
  function Stamp(nodes: seq<Version>, owner: nat, entry: nat, cid: nat): seq<Version> {
    if nodes == [] then []
    else [if IsEntry(nodes[0], owner, entry) then nodes[0].(stamp := cid) else nodes[0]]
         + Stamp(nodes[1..], owner, entry, cid)
  }

  /** Unlinking a node forgets its version number and the value that preceded its write. */
  function Unlink(chain: Chain, owner: nat, entry: nat): Chain
    decreases |chain.nodes|
  {
    var nodes := chain.nodes;
    if nodes == [] then chain
    else if IsEntry(nodes[0], owner, entry) then
      if |nodes| == 1 then Chain([], nodes[0].value)
      else Chain([nodes[1].(value := nodes[0].value)] + nodes[2..], chain.origin)
    else
      var rest := Unlink(Chain(nodes[1..], chain.origin), owner, entry);
      Chain([nodes[0]] + rest.nodes, rest.origin)
  }

  /** Rollback of one undo entry: at the head of its chain it restores the previous value, elsewhere it is unlinked. */
  function Undo(chain: Chain, owner: nat, entry: nat): Chain {
    if chain.nodes != [] && IsEntry(chain.nodes[0], owner, entry) then Chain(chain.nodes[1..], chain.origin)
    else Unlink(chain, owner, entry)
  }

  lemma {:induction false} PickSkip(a: seq<Version>, b: seq<Version>, origin: Option<Payload>, id: nat, start: nat)
    requires forall i :: 0 <= i < |a| ==> !Visible(a[i], id, start)
    ensures Pick(a + b, origin, id, start) == Pick(b, origin, id, start)
  {
    if a == [] {
      assert a + b == b;
    } else {
      assert (a + b)[1..] == a[1..] + b;
      PickSkip(a[1..], b, origin, id, start);
    }
  }

  lemma {:induction false} StampConcat(a: seq<Version>, b: seq<Version>, owner: nat, entry: nat, cid: nat)
    ensures Stamp(a + b, owner, entry, cid) == Stamp(a, owner, entry, cid) + Stamp(b, owner, entry, cid)
  {
    if a == [] {
      assert a + b == b;
    } else {
      assert (a + b)[1..] == a[1..] + b;
      StampConcat(a[1..], b, owner, entry, cid);
    }
  }

  lemma {:induction false} StampMiss(a: seq<Version>, owner: nat, entry: nat, cid: nat)
    requires forall i :: 0 <= i < |a| ==> !IsEntry(a[i], owner, entry)
    ensures Stamp(a, owner, entry, cid) == a
  {
    if a != [] {
      StampMiss(a[1..], owner, entry, cid);
    }
  }

  /** Unlinking the oldest node turns its value into the oldest value kept. */
  lemma {:induction false} UnlinkLast(a: seq<Version>, v: Version, origin: Option<Payload>, owner: nat, entry: nat)
    requires forall i :: 0 <= i < |a| ==> !IsEntry(a[i], owner, entry)
    requires IsEntry(v, owner, entry)
    ensures Unlink(Chain(a + [v], origin), owner, entry) == Chain(a, v.value)
  {
    if a == [] {
      assert a + [v] == [v];
    } else {
      assert (a + [v])[1..] == a[1..] + [v];
      UnlinkLast(a[1..], v, origin, owner, entry);
    }
  }
}
