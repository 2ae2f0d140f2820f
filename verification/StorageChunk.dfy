/**
 Storage chunks: the base rows of a table with their doubly linked lists of
 pre-images, and the pointer surgery that writing, undoing, stamping and
 collecting perform on them. Every operation is related to the version chain
 of its row.
 */
module StorageChunk {
  import opened VersionChain

  const STORAGE_CHUNK_SIZE: nat := 10240

  /** The back link of a node: the row at the head of a list, the newer neighbour elsewhere. */
  datatype Prev = Entry(offset: nat) | Pointer(node: VersionInformation)

  class VersionInformation {
    var chunk: Chunk?
    var prev: Prev
    var next: VersionInformation?
    var versionNumber: nat
    /** The row before the write; None marks an insertion. */
    const tupleData: Option<Payload>
    /** The undo buffer and the position in it that hold this node. */
    const owner: nat
    const entry: nat
    /** The row this node belongs to, for as long as it exists. */
    const row: nat

    constructor (chunk: Chunk, offset: nat, next: VersionInformation?, id: nat, entry: nat, tupleData: Option<Payload>)
      ensures this.chunk == chunk && this.prev == Entry(offset) && this.next == next && this.versionNumber == id
      ensures this.tupleData == tupleData && this.owner == id && this.entry == entry && this.row == offset
    {
      this.chunk, this.prev, this.next, this.versionNumber := chunk, Entry(offset), next, id;
      this.tupleData, this.owner, this.entry, this.row := tupleData, id, entry, offset;
    }
  }

  /** What a node contributes to the chain of its row. */
  datatype PreImage = PreImage(stamp: nat, owner: nat, entry: nat, before: Option<Payload>)

  /** The chain of a row with these pre-images, newest first, and this base value. */
  function ChainOf(ps: seq<PreImage>, base: Option<Payload>): Chain {
    if ps == [] then Chain([], base)
    else
      var rest := ChainOf(ps[1..], ps[0].before);
      Chain([Version(ps[0].stamp, ps[0].owner, ps[0].entry, base)] + rest.nodes, rest.origin)
  }

  ghost function PreImageOf(n: VersionInformation): PreImage
    reads n`versionNumber
  {
    PreImage(n.versionNumber, n.owner, n.entry, n.tupleData)
  }

  ghost function PreImages(ns: seq<VersionInformation>): seq<PreImage>
    reads (set n | n in ns)`versionNumber
  {
    if ns == [] then [] else [PreImageOf(ns[0])] + PreImages(ns[1..])
  }

  lemma {:induction false} PreImagesAre(ns: seq<VersionInformation>)
    ensures |PreImages(ns)| == |ns| && forall i :: 0 <= i < |ns| ==> PreImages(ns)[i] == PreImageOf(ns[i])
  {
    if ns != [] {
      PreImagesAre(ns[1..]);
    }
  }

  ghost predicate SameEntry(a: VersionInformation, b: VersionInformation) {
    a.owner == b.owner && a.entry == b.entry
  }

  /** The distinct nodes `ns` are linked in this order as the list of row `r`. */
  ghost predicate Linked(c: Chunk, r: nat, ns: seq<VersionInformation>)
    reads (set n | n in ns)`next, (set n | n in ns)`chunk, (set n | n in ns)`prev
  {
    && (forall i :: 0 <= i < |ns| ==> NodeOk(c, r, ns, i))
    && DistinctEntries(ns)
  }

  ghost predicate DistinctEntries(ns: seq<VersionInformation>) {
    forall i, j :: 0 <= i < j < |ns| ==> !SameEntry(ns[i], ns[j])
  }

  lemma DistinctSplice(ns: seq<VersionInformation>, at: nat)
    requires DistinctEntries(ns) && at < |ns|
    ensures DistinctEntries(ns[..at] + ns[at + 1..])
  {
  }

  ghost predicate NodeOk(c: Chunk, r: nat, ns: seq<VersionInformation>, i: nat)
    requires i < |ns|
    reads (set n | n in ns)`next, (set n | n in ns)`chunk, (set n | n in ns)`prev
  {
    && ns[i].next == (if i + 1 < |ns| then ns[i + 1] else null)
    && ns[i].chunk == (if i == 0 then c else null)
    && ns[i].prev == (if i == 0 then Entry(r) else Pointer(ns[i - 1]))
  }

  // ---------------------------------------------------------------- chains of lists

  predicate IsPreImage(p: PreImage, owner: nat, entry: nat) {
    p.owner == owner && p.entry == entry
  }

  /** A node in front pushes a version and makes its pre-image the value below it. */
  lemma LinkIs(p: PreImage, ps: seq<PreImage>, base: Option<Payload>)
    ensures ChainOf([p] + ps, base) == Push(ChainOf(ps, p.before), Version(p.stamp, p.owner, p.entry, base))
  {
    assert ([p] + ps)[1..] == ps;
  }

  lemma SpliceHead(ps: seq<PreImage>, base: Option<Payload>)
    requires ps != []
    ensures ChainOf(ps[1..], base) == Unlink(ChainOf(ps, base), ps[0].owner, ps[0].entry)
  {
    var chain := ChainOf(ps, base);
    if |ps| > 1 {
      var below := ChainOf(ps[2..], ps[1].before);
      assert ps[1..][1..] == ps[2..];
      var mid := ChainOf(ps[1..], ps[0].before);
      assert mid.nodes == [Version(ps[1].stamp, ps[1].owner, ps[1].entry, ps[0].before)] + below.nodes;
      assert chain.nodes == [chain.nodes[0]] + mid.nodes;
      assert chain.nodes[2..] == below.nodes;
    }
  }

  /** Taking a node out of a list unlinks its version. */
  lemma {:induction false} SpliceIs(ps: seq<PreImage>, i: nat, base: Option<Payload>)
    requires i < |ps| && forall j :: 0 <= j < i ==> !IsPreImage(ps[j], ps[i].owner, ps[i].entry)
    ensures ChainOf(ps[..i] + ps[i + 1..], base) == Unlink(ChainOf(ps, base), ps[i].owner, ps[i].entry)
  {
    if i == 0 {
      assert ps[..0] + ps[1..] == ps[1..];
      SpliceHead(ps, base);
    } else {
      var chain, rest := ChainOf(ps, base), ps[1..];
      var below := ChainOf(rest, ps[0].before);
      assert chain.nodes[1..] == below.nodes;
      assert rest[..i - 1] + rest[i..] == (ps[..i] + ps[i + 1..])[1..];
      SpliceIs(rest, i - 1, ps[0].before);
      assert Unlink(chain, ps[i].owner, ps[i].entry)
          == Push(Unlink(below, ps[i].owner, ps[i].entry), chain.nodes[0]);
    }
  }

  /** Undoing the newest node restores its pre-image as the base value. */
  lemma UndoIs(ps: seq<PreImage>, base: Option<Payload>)
    requires ps != []
    ensures ChainOf(ps[1..], ps[0].before) == Undo(ChainOf(ps, base), ps[0].owner, ps[0].entry)
  {
    assert ChainOf(ps, base).nodes[1..] == ChainOf(ps[1..], ps[0].before).nodes;
  }

  /** Writing a version number stamps that version. */
  lemma {:induction false} StampIs(ps: seq<PreImage>, i: nat, base: Option<Payload>, cid: nat)
    requires i < |ps| && forall j :: 0 <= j < |ps| && j != i ==> !IsPreImage(ps[j], ps[i].owner, ps[i].entry)
    ensures ChainOf(ps[i := ps[i].(stamp := cid)], base)
            == ChainOf(ps, base).(nodes := Stamp(ChainOf(ps, base).nodes, ps[i].owner, ps[i].entry, cid))
  {
    var chain, rest := ChainOf(ps, base), ps[1..];
    var below := ChainOf(rest, ps[0].before);
    assert chain.nodes[1..] == below.nodes;
    if i == 0 {
      OwnersOf(rest, ps[0].before, ps[0].owner, ps[0].entry);
      StampMiss(below.nodes, ps[0].owner, ps[0].entry, cid);
      assert ps[0 := ps[0].(stamp := cid)][1..] == rest;
    } else {
      StampIs(rest, i - 1, ps[0].before, cid);
      assert ps[i := ps[i].(stamp := cid)][1..] == rest[i - 1 := rest[i - 1].(stamp := cid)];
    }
  }

  lemma {:induction false} OwnersOf(ps: seq<PreImage>, base: Option<Payload>, owner: nat, entry: nat)
    requires forall j :: 0 <= j < |ps| ==> !IsPreImage(ps[j], owner, entry)
    ensures forall j :: 0 <= j < |ChainOf(ps, base).nodes| ==> !IsEntry(ChainOf(ps, base).nodes[j], owner, entry)
  {
    if ps != [] {
      OwnersOf(ps[1..], ps[0].before, owner, entry);
    }
  }

  /** A node's version carries the base value at the head, and the pre-image of the newer node elsewhere. */
  lemma {:induction false} NodeValue(ps: seq<PreImage>, base: Option<Payload>, at: nat)
    requires at < |ps|
    ensures |ChainOf(ps, base).nodes| == |ps|
    ensures ChainOf(ps, base).nodes[at]
            == Version(ps[at].stamp, ps[at].owner, ps[at].entry, if at == 0 then base else ps[at - 1].before)
  {
    if |ps| > 1 {
      NodeValue(ps[1..], ps[0].before, if at == 0 then 0 else at - 1);
    }
  }

  /** The value under a node is the pre-image it keeps. */
  lemma BeforeIs(ps: seq<PreImage>, base: Option<Payload>, at: nat)
    requires at < |ps|
    ensures |ChainOf(ps, base).nodes| == |ps|
    ensures ps[at].before
            == if at + 1 < |ps| then ChainOf(ps, base).nodes[at + 1].value else ChainOf(ps, base).origin
  {
    NodeValue(ps, base, at);
    if at + 1 < |ps| {
      NodeValue(ps, base, at + 1);
    } else {
      OriginIs(ps, base);
    }
  }

  lemma {:induction false} OriginIs(ps: seq<PreImage>, base: Option<Payload>)
    requires ps != []
    ensures ChainOf(ps, base).origin == ps[|ps| - 1].before
  {
    if |ps| > 1 {
      OriginIs(ps[1..], ps[0].before);
    }
  }

  /** The chain with another base value. */
  function WithBase(chain: Chain, base: Option<Payload>): Chain {
    if chain.nodes == [] then Chain([], base)
    else Chain([chain.nodes[0].(value := base)] + chain.nodes[1..], chain.origin)
  }

  lemma WithBaseIs(ps: seq<PreImage>, base: Option<Payload>, other: Option<Payload>)
    ensures ChainOf(ps, other) == WithBase(ChainOf(ps, base), other)
    ensures ChainOf(ps, base).nodes == [] <==> ps == []
    ensures ps != [] ==> ChainOf(ps, base).nodes[0].stamp == ps[0].stamp
  {
    if ps != [] {
      assert ChainOf(ps, base).nodes[1..] == ChainOf(ps[1..], ps[0].before).nodes;
    }
  }

  // ---------------------------------------------------------------- pre-images do not record deletion

  /** A write pushes its version on the chain in which the base row counts as present. */
  function WriteRow(chain: Chain, data: Payload, v: Version): Chain {
    Push(WithBase(chain, Some(data)), v)
  }

  predicate ReadsBase(chain: Chain, id: nat, start: nat) {
    chain.nodes == [] || Visible(chain.nodes[0], id, start)
  }

  /**
   An update or deletion stays invisible to another transaction if and only if
   the row was not deleted, or that transaction does not read the base row.
   */
  lemma WriteInvisibleExactly(chain: Chain, data: Payload, v: Version, id: nat, start: nat)
    requires Base(chain) == None || Base(chain) == Some(data)
    requires !Visible(v, id, start)
    ensures var after := WriteRow(chain, data, v);
            Pick(after.nodes, after.origin, id, start) == Pick(chain.nodes, chain.origin, id, start)
            <==> (Base(chain).Some? || !ReadsBase(chain, id, start))
  {
    var live := WithBase(chain, Some(data));
    assert WriteRow(chain, data, v).nodes[1..] == live.nodes;
    if chain.nodes != [] {
      assert live.nodes[1..] == chain.nodes[1..];
    }
  }

  /** Undoing a write gives the row back if and only if it was not deleted. */
  lemma UndoRestoresExactly(chain: Chain, data: Payload, v: Version)
    requires Base(chain) == None || Base(chain) == Some(data)
    ensures Undo(WriteRow(chain, data, v), v.owner, v.entry) == chain <==> Base(chain).Some?
  {
    var live := WithBase(chain, Some(data));
    assert WriteRow(chain, data, v).nodes[1..] == live.nodes;
    assert Base(live) == Some(data);
    if Base(chain).Some? && chain.nodes != [] {
      assert live.nodes == chain.nodes;
    }
  }

  class Chunk {
    var count: nat
    const deleted: array<bool>
    const versionPointers: array<VersionInformation?>
    const columns: array<Payload>
    /** The row identifier of the first row. */
    const start: nat
    /** The nodes of every row, newest first. */
    ghost var lists: seq<seq<VersionInformation>>
    ghost var repr: set<VersionInformation>

    ghost predicate Valid()
      reads this, deleted, versionPointers, repr`next, repr`chunk, repr`prev
    {
      Shape() && Owned() && Heads() && Links()
    }

    ghost predicate Shape()
      reads this, deleted
    {
      && deleted.Length == versionPointers.Length == columns.Length == |lists| == STORAGE_CHUNK_SIZE
      && count <= STORAGE_CHUNK_SIZE
      && (deleted as object) != versionPointers && (columns as object) != versionPointers && (deleted as object) != columns
      && (forall r :: count <= r < |lists| ==> lists[r] == [] && !deleted[r])
    }

    ghost predicate Owned()
      reads this
    {
      forall r, n :: 0 <= r < |lists| && n in lists[r] ==> n in repr && n.row == r
    }

    ghost predicate Heads()
      requires versionPointers.Length == |lists|
      reads this, versionPointers
    {
      forall r :: 0 <= r < |lists| ==> versionPointers[r] == (if lists[r] == [] then null else lists[r][0])
    }

    ghost predicate Links()
      requires Owned()
      reads this, repr`next, repr`chunk, repr`prev
    {
      forall r :: 0 <= r < |lists| ==> Linked(this, r, lists[r])
    }

    ghost function BaseRow(r: nat): Option<Payload>
      reads this, deleted, columns
      requires r < deleted.Length && r < columns.Length
    {
      if r >= count || deleted[r] then None else Some(columns[r])
    }

    /** The version chain of row `r`; rows beyond the count do not exist. */
    ghost function RowChain(r: nat): Chain
      reads this, deleted, versionPointers, columns, repr
      requires Valid() && r < STORAGE_CHUNK_SIZE
    {
      ChainOf(PreImages(lists[r]), BaseRow(r))
    }

    constructor (start: nat)
      ensures Valid() && count == 0 && this.start == start
      ensures fresh(deleted) && fresh(versionPointers) && fresh(columns) && repr == {}
      ensures forall r :: 0 <= r < STORAGE_CHUNK_SIZE ==> RowChain(r) == Chain([], None)
    {
      count := 0;
      this.start := start;
      deleted := new bool[STORAGE_CHUNK_SIZE](_ => false);
      versionPointers := new VersionInformation?[STORAGE_CHUNK_SIZE](_ => null);
      columns := new Payload[STORAGE_CHUNK_SIZE];
      lists := seq(STORAGE_CHUNK_SIZE, _ => []);
      repr := {};
    }

    /** No node of this row sits at this or a later position of the undo buffer. */
    ghost predicate Unused(r: nat, id: nat, entry: nat)
      reads this
      requires r < |lists|
    {
      forall n :: n in lists[r] && n.owner == id ==> n.entry < entry
    }

    ghost function Head(r: nat): set<VersionInformation>
      reads this
    {
      if r < |lists| && lists[r] != [] then {lists[r][0]} else {}
    }

    /** What a node's own fields say about its place. */
    lemma Position(r: nat, at: nat)
      requires Valid() && r < |lists| && at < |lists[r]|
      ensures lists[r][at].chunk != null <==> at == 0
      ensures lists[r][at].prev == if at == 0 then Entry(r) else Pointer(lists[r][at - 1])
      ensures lists[r][at].next == if at + 1 < |lists[r]| then lists[r][at + 1] else null
      ensures forall j :: 0 <= j < |lists[r]| && j != at ==>
                !SameEntry(lists[r][j], lists[r][at]) && lists[r][j] != lists[r][at]
    {
      assert Linked(this, r, lists[r]) && NodeOk(this, r, lists[r], at);
    }

    /** All rows but `row` are linked, and `ns` is now the list of `row`. */
    ghost method SetList(row: nat, ns: seq<VersionInformation>)
      requires Shape() && Owned() && row < |lists| && (row < count || ns == [])
      requires forall n :: n in ns ==> n in repr && n.row == row
      requires Linked(this, row, ns)
      requires forall r :: 0 <= r < |lists| && r != row ==> Linked(this, r, lists[r])
      requires forall r :: 0 <= r < |lists| && r != row ==>
                 versionPointers[r] == (if lists[r] == [] then null else lists[r][0])
      requires versionPointers[row] == (if ns == [] then null else ns[0])
      modifies this`lists
      ensures Valid() && lists == old(lists)[row := ns]
    {
      hide Linked;
      lists := lists[row := ns];
    }

    /** Links a new node in front of the list of a row. */
    method Link(offset: nat, id: nat, entry: nat, tupleData: Option<Payload>) returns (meta: VersionInformation)
      requires Valid() && offset < count && Unused(offset, id, entry)
      modifies this`lists, this`repr, versionPointers, Head(offset)`chunk, Head(offset)`prev
      ensures Valid() && fresh(meta)
      ensures meta.tupleData == tupleData && meta.versionNumber == meta.owner == id && meta.entry == entry
      ensures lists == old(lists)[offset := [meta] + old(lists[offset])]
      ensures repr == old(repr) + {meta}
    {
      ghost var was := lists[offset];
      meta := new VersionInformation(this, offset, versionPointers[offset], id, entry, tupleData);
      versionPointers[offset] := meta;
      if meta.next != null {
        meta.next.chunk := null;
        meta.next.prev := Pointer(meta);
      }
      ghost var ns := [meta] + was;
      repr := repr + {meta};
      assert Linked(this, offset, ns) by {
        assert old(Linked(this, offset, lists[offset]));
        forall i | 0 <= i < |ns| ensures NodeOk(this, offset, ns, i) {
          assert i > 0 ==> old(NodeOk(this, offset, lists[offset], i - 1));
        }
      }
      hide Linked;
      forall r | 0 <= r < |lists| && r != offset ensures Linked(this, r, lists[r]) {
        assert old(Linked(this, r, lists[r]));
        assert forall n :: n in lists[r] ==> n in old(repr) && n.row == r;
        assert was != [] ==> was[0] in was && was[0].row == offset;
      }
      SetList(offset, ns);
    }

    /** Takes the head of a list out of it. */
    method Cleanup(info: VersionInformation)
      requires Valid() && info.row < |lists| && lists[info.row] != [] && info == lists[info.row][0]
      modifies this`lists, versionPointers, repr`prev, repr`chunk
      ensures Valid() && repr == old(repr)
      ensures lists == old(lists)[info.row := old(lists[info.row])[1..]]
    {
      ghost var row, was := info.row, lists[info.row];
      Position(row, 0);
      var entry := info.prev.offset;
      versionPointers[entry] := info.next;
      if versionPointers[entry] != null {
        versionPointers[entry].prev := Entry(entry);
        versionPointers[entry].chunk := this;
      }
      ghost var ns := was[1..];
      assert Linked(this, row, ns) by {
        assert old(Linked(this, row, lists[row]));
        forall i | 0 <= i < |ns| ensures NodeOk(this, row, ns, i) {
          assert old(NodeOk(this, row, lists[row], i + 1));
        }
      }
      hide Linked;
      forall r | 0 <= r < |lists| && r != row ensures Linked(this, r, lists[r]) {
        assert old(Linked(this, r, lists[r]));
      }
      SetList(row, ns);
    }

    /** Takes a node out of the middle of its list. */
    method Splice(info: VersionInformation, ghost at: nat)
      requires Valid() && info.row < |lists| && 0 < at < |lists[info.row]| && info == lists[info.row][at]
      modifies this`lists, repr`prev, repr`next
      ensures Valid() && repr == old(repr)
      ensures lists == old(lists)[info.row := old(lists[info.row])[..at] + old(lists[info.row])[at + 1..]]
    {
      hide DistinctEntries, SameEntry;
      ghost var row, was := info.row, lists[info.row];
      Position(row, at);
      Position(row, at - 1);
      if at + 1 < |was| {
        Position(row, at + 1);
      }
      var parent := info.prev.node;
      parent.next := info.next;
      if parent.next != null {
        parent.next.prev := Pointer(parent);
      }
      ghost var ns := was[..at] + was[at + 1..];
      assert old(Linked(this, row, lists[row]));
      DistinctSplice(was, at);
      assert Linked(this, row, ns) by {
        forall i | 0 <= i < |ns| ensures NodeOk(this, row, ns, i) {
          if i < at {
            assert old(NodeOk(this, row, lists[row], i));
          } else {
            assert ns[i] == was[i + 1] && old(NodeOk(this, row, lists[row], i + 1));
          }
        }
      }
      hide Linked;
      forall r | 0 <= r < |lists| && r != row ensures Linked(this, r, lists[r]) {
        assert old(Linked(this, r, lists[r]));
      }
      SetList(row, ns);
    }

    /** All rows but `r` keep their chains. */
    twostate predicate OthersSame(r: nat)
      reads this, deleted, versionPointers, columns, repr
      requires old(Valid()) && Valid()
    {
      forall q :: 0 <= q < STORAGE_CHUNK_SIZE && q != r ==> RowChain(q) == old(RowChain(q))
    }

    /** Collection of one undo entry. */
    method Collect(info: VersionInformation, ghost at: nat)
      requires Valid() && info.row < |lists| && at < |lists[info.row]| && info == lists[info.row][at]
      modifies this`lists, versionPointers, repr`prev, repr`next, repr`chunk
      ensures Valid() && repr == old(repr)
      ensures RowChain(info.row) == Unlink(old(RowChain(info.row)), info.owner, info.entry)
      ensures OthersSame(info.row)
    {
      hide ChainOf, Heads, Links, Unlink, PreImages;
      ghost var row, ps := info.row, PreImages(lists[info.row]);
      Position(row, at);
      PreImagesAre(lists[row]);
      SpliceIs(ps, at, BaseRow(row));
      if info.chunk != null {
        Cleanup(info);
        PreImagesAre(lists[row]);
        assert PreImages(lists[row]) == ps[..0] + ps[1..];
      } else {
        Splice(info, at);
        PreImagesAre(lists[row]);
        assert PreImages(lists[row]) == ps[..at] + ps[at + 1..];
      }
    }

    /** Commit of one undo entry. */
    method StampEntry(info: VersionInformation, commitId: nat, ghost at: nat)
      requires Valid() && info.row < |lists| && at < |lists[info.row]| && info == lists[info.row][at]
      modifies info`versionNumber
      ensures Valid() && repr == old(repr) && lists == old(lists)
      ensures var was := old(RowChain(info.row));
              RowChain(info.row) == was.(nodes := Stamp(was.nodes, info.owner, info.entry, commitId))
      ensures OthersSame(info.row)
    {
      hide ChainOf, Heads, Links, Stamp, PreImages;
      ghost var row, ns, ps := info.row, lists[info.row], PreImages(lists[info.row]);
      Position(row, at);
      PreImagesAre(ns);
      StampIs(ps, at, BaseRow(row), commitId);
      info.versionNumber := commitId;
      PreImagesAre(ns);
      assert PreImages(ns) == ps[at := ps[at].(stamp := commitId)];
    }

    /** Rollback of the entry at the head of a list. */
    method Undo(info: VersionInformation)
      requires Valid() && info.row < count && lists[info.row] != [] && info == lists[info.row][0]
      modifies this`lists, versionPointers, deleted, columns, repr`prev, repr`chunk
      ensures Valid() && repr == old(repr)
      ensures RowChain(info.row) == VersionChain.Undo(old(RowChain(info.row)), info.owner, info.entry)
      ensures OthersSame(info.row)
    {
      hide ChainOf, Heads, Links, VersionChain.Undo, PreImages;
      ghost var row, ps := info.row, PreImages(lists[info.row]);
      Position(row, 0);
      var entry := info.prev.offset;
      PreImagesAre(lists[row]);
      UndoIs(ps, BaseRow(row));
      if info.tupleData.None? {
        deleted[entry] := true;
      } else {
        deleted[entry] := false;
        columns[entry] := info.tupleData.value;
      }
      Cleanup(info);
      PreImagesAre(lists[row]);
      assert PreImages(lists[row]) == ps[1..];
    }

    /** Deletes a row unless another running transaction wrote it. */
    method DeleteRow(id: nat, txn: nat, entry: nat) returns (ok: bool)
      requires Valid() && id < count && Unused(id, txn, entry)
      modifies this`lists, this`repr, versionPointers, deleted, Head(id)`chunk, Head(id)`prev
      ensures Valid() && fresh(repr - old(repr))
      ensures ok <==> !Conflict(old(RowChain(id)), txn)
      ensures RowChain(id) == if ok then WriteRow(old(RowChain(id)), old(columns[id]), Version(txn, txn, entry, None))
                              else old(RowChain(id))
      ensures OthersSame(id)
    {
      hide ChainOf, Heads, Links, PreImages;
      ghost var ps, base := PreImages(lists[id]), BaseRow(id);
      PreImagesAre(lists[id]);
      WithBaseIs(ps, base, Some(columns[id]));
      var version := versionPointers[id];
      assert version == if lists[id] == [] then null else lists[id][0] by { HeadIs(id); }
      if version != null && version.versionNumber >= TRANSACTION_ID_START && version.versionNumber != txn {
        return false;
      }
      var meta := Link(id, txn, entry, Some(columns[id]));
      PreImagesAre(lists[id]);
      assert PreImages(lists[id]) == [PreImageOf(meta)] + ps;
      LinkIs(PreImageOf(meta), ps, None);
      deleted[id] := true;
      ok := true;
    }

    /** Updates a row unless another running transaction wrote it. */
    method UpdateRow(id: nat, value: Payload, txn: nat, entry: nat) returns (ok: bool)
      requires Valid() && id < count && Unused(id, txn, entry)
      modifies this`lists, this`repr, versionPointers, columns, Head(id)`chunk, Head(id)`prev
      ensures Valid() && fresh(repr - old(repr))
      ensures ok <==> !Conflict(old(RowChain(id)), txn)
      ensures RowChain(id) == if ok then WriteRow(old(RowChain(id)), old(columns[id]),
                                                  Version(txn, txn, entry, if old(deleted[id]) then None else Some(value)))
                              else old(RowChain(id))
      ensures OthersSame(id)
    {
      hide ChainOf, Heads, Links, PreImages;
      ghost var ps, base := PreImages(lists[id]), BaseRow(id);
      PreImagesAre(lists[id]);
      WithBaseIs(ps, base, Some(columns[id]));
      var version := versionPointers[id];
      assert version == if lists[id] == [] then null else lists[id][0] by { HeadIs(id); }
      if version != null && version.versionNumber >= TRANSACTION_ID_START && version.versionNumber != txn {
        return false;
      }
      var meta := Link(id, txn, entry, Some(columns[id]));
      PreImagesAre(lists[id]);
      assert PreImages(lists[id]) == [PreImageOf(meta)] + ps;
      columns[id] := value;
      LinkIs(PreImageOf(meta), ps, BaseRow(id));
      ok := true;
    }

    lemma HeadIs(r: nat)
      requires Valid() && r < |lists|
      ensures versionPointers[r] == if lists[r] == [] then null else lists[r][0]
    {
    }

    /** Appends a row whose only version is an uncommitted insertion. */
    method AppendRow(value: Payload, txn: nat, entry: nat) returns (id: nat)
      requires Valid() && count < STORAGE_CHUNK_SIZE
      modifies this, versionPointers, columns
      ensures Valid() && fresh(repr - old(repr))
      ensures id == old(count) && count == old(count) + 1
      ensures RowChain(id) == Push(old(RowChain(id)), Version(txn, txn, entry, Some(value)))
      ensures OthersSame(id)
    {
      id := count;
      assert old(RowChain(id)) == Chain([], None);
      count := count + 1;
      var meta := Link(id, txn, entry, None);
      hide Heads, Links;
      columns[id] := value;
      assert lists[id] == [meta];
      PreImagesAre([meta]);
      assert PreImages(lists[id]) == [PreImageOf(meta)] + [];
      LinkIs(PreImageOf(meta), [], Some(value));
    }

    /** The chunk of a node that is not at the head of its list, found along the back links. */
    method FindChunk(info: VersionInformation, ghost at: nat) returns (chunk: Chunk)
      requires Valid() && info.row < |lists| && 0 < at < |lists[info.row]| && info == lists[info.row][at]
      ensures chunk == this
    {
      hide Heads, Links, Owned;
      ghost var row, k: nat := info.row, at - 1;
      Position(row, at);
      var prev := info.prev.node;
      Position(row, k);
      while prev.chunk == null
        invariant k < |lists[row]| && prev == lists[row][k] && (prev.chunk != null <==> k == 0)
        invariant k > 0 ==> prev.prev == Pointer(lists[row][k - 1])
        decreases k
      {
        k := k - 1;
        prev := prev.prev.node;
        Position(row, k);
      }
      LinkedRow(row);
      assert NodeOk(this, row, lists[row], 0);
      chunk := prev.chunk;
    }

    lemma LinkedRow(r: nat)
      requires Valid() && r < |lists|
      ensures Linked(this, r, lists[r])
    {
    }

    /**
     The row that an insertion logs: the base row, or the pre-image of the write
     that followed it. It is the value the insertion left, whatever the
     transaction did to the row later.
     */
    method InsertedRow(info: VersionInformation, ghost at: nat) returns (data: Payload)
      requires Valid() && info.row < |lists| && at < |lists[info.row]| && info == lists[info.row][at]
      requires at < |RowChain(info.row).nodes| && RowChain(info.row).nodes[at].value.Some?
      ensures data == RowChain(info.row).nodes[at].value.value
    {
      hide Heads, Links, Owned;
      ghost var row, ps := info.row, PreImages(lists[info.row]);
      Position(row, at);
      PreImagesAre(lists[row]);
      NodeValue(ps, BaseRow(row), at);
      if info.chunk != null {
        data := columns[info.prev.offset];
      } else {
        data := info.prev.node.tupleData.value;
      }
    }
  }
}
