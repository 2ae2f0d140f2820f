/**
 Unique indexes: a search tree of keys and row identifiers that is grown in
 place, and whose entries are checked against the version chains of their rows.
 */
module UniqueIndex {
  import opened VersionChain
  import opened StorageChunk
  import opened TableScan
  import opened Mvcc
  import opened Snapshots
  import opened UniqueKeys

  // ---------------------------------------------------------------- the test on one row

  /** The base value and the pre-images down to the visible version. */
  function UptoImage(ps: seq<PreImage>, base: Option<Payload>, id: nat, start: nat): seq<Option<Payload>> {
    [base] + if ps == [] || Sees(ps[0], id, start) then [] else UptoImage(ps[1..], ps[0].before, id, start)
  }

  lemma {:induction false} UptoImageIs(ps: seq<PreImage>, base: Option<Payload>, id: nat, start: nat)
    ensures var chain := ChainOf(ps, base);
            UptoImage(ps, base, id, start) == Upto(chain.nodes, chain.origin, id, start)
  {
    if ps != [] {
      UptoImageIs(ps[1..], ps[0].before, id, start);
      assert ChainOf(ps, base).nodes[1..] == ChainOf(ps[1..], ps[0].before).nodes;
    }
  }

  /** Past `n` invisible nodes, the values are the base value and their pre-images. */
  lemma {:induction false} UptoImageAt(ps: seq<PreImage>, base: Option<Payload>, id: nat, start: nat, n: nat)
    requires n <= |ps| && forall k :: 0 <= k < n ==> !Sees(ps[k], id, start)
    ensures var vs := UptoImage(ps, base, id, start);
            && |vs| > n && vs[0] == base && (forall k :: 0 <= k < n ==> vs[k + 1] == ps[k].before)
            && (n == |ps| || Sees(ps[n], id, start) ==> |vs| == n + 1)
  {
    if n > 0 {
      UptoImageAt(ps[1..], ps[0].before, id, start, n - 1);
    }
  }

  /** Tests one row for a key, reading the base row and following the list of pre-images. */
  method RowConflicts(c: Chunk, offset: nat, keys: Keys, key: int, ignored: bool, id: nat, start: nat)
    returns (conflict: bool)
    requires c.Valid() && offset < c.count
    ensures conflict == Clash(keys, c.RowChain(offset), key, ignored, id, start)
  {
    hide Chunk.Heads, Chunk.Links, Chunk.Owned, ChainOf, Upto, UptoImage;
    ghost var ns, ps, base := c.lists[offset], PreImages(c.lists[offset]), c.BaseRow(offset);
    ghost var vs := UptoImage(ps, base, id, start);
    c.HeadIs(offset);
    PreImagesAre(ns);
    UptoImageIs(ps, base, id, start);
    UptoImageAt(ps, base, id, start, 0);
    conflict := !ignored && !c.deleted[offset] && keys.of(c.columns[offset]) == key;
    assert !ignored ==> conflict == KeyIs(keys, vs[0], key);
    var version := c.versionPointers[offset];
    if version != null && !conflict && !(version.versionNumber == id || version.versionNumber < start) {
      ghost var at := 0;
      while true
        invariant at < |ns| && version == ns[at] && !conflict
        invariant forall k :: 0 <= k <= at ==> !Sees(ps[k], id, start)
        invariant forall k :: (if ignored then 1 else 0) <= k <= at && k < |vs| ==> !KeyIs(keys, vs[k], key)
        decreases |ns| - at
      {
        c.Position(offset, at);
        UptoImageAt(ps, base, id, start, at + 1);
        if version.tupleData.Some? {
          conflict := keys.of(version.tupleData.value) == key;
          if conflict {
            assert KeyIs(keys, vs[at + 1], key);
            break;
          }
        }
        var next := version.next;
        if next == null || next.versionNumber == id || next.versionNumber < start {
          break;
        }
        version := next;
        at := at + 1;
      }
    }
  }

  // ---------------------------------------------------------------- the search tree

  class UniqueIndexNode {
    const key: int
    const row: nat
    /** The nodes from the root down to this one, without it. */
    ghost const path: seq<UniqueIndexNode>
    var left: UniqueIndexNode?
    var right: UniqueIndexNode?
    var parent: UniqueIndexNode?

    constructor (key: int, row: nat, parent: UniqueIndexNode?, ghost path: seq<UniqueIndexNode>)
      ensures this.key == key && this.row == row && this.parent == parent && this.path == path
      ensures left == right == null
    {
      this.key, this.row, this.parent, this.path := key, row, parent, path;
      left, right := null, null;
    }
  }

  /** Where the search for a key goes: left of smaller nodes, right of all others. */
  function Child(n: UniqueIndexNode, key: int): UniqueIndexNode?
    reads n
  {
    if n.key < key then n.left else n.right
  }

  /** A search for `key` from the root visits exactly these nodes so far. */
  ghost predicate Search(root: UniqueIndexNode?, visited: seq<UniqueIndexNode>, key: int)
    reads visited
  {
    && (visited != [] ==> root == visited[0])
    && (forall k, l :: 0 <= k < l < |visited| && l == k + 1 ==> Child(visited[k], key) == visited[l])
  }

  /** Where the search goes on. */
  ghost function Frontier(root: UniqueIndexNode?, visited: seq<UniqueIndexNode>, key: int): UniqueIndexNode?
    reads visited
  {
    if visited == [] then root else Child(visited[|visited| - 1], key)
  }

  /** Two searches for one key visit the same nodes. */
  lemma {:induction false} SearchesAgree(root: UniqueIndexNode?, a: seq<UniqueIndexNode>, b: seq<UniqueIndexNode>, key: int, k: nat)
    requires Search(root, a, key) && Search(root, b, key) && k < |a| && k < |b|
    ensures a[k] == b[k]
  {
    if k > 0 {
      SearchesAgree(root, a, b, key, k - 1);
      assert Child(a[k - 1], key) == a[k] && Child(b[k - 1], key) == b[k];
    }
  }

  /** A search that has ended has visited every node with its key. */
  lemma SearchComplete(root: UniqueIndexNode?, visited: seq<UniqueIndexNode>, m: UniqueIndexNode)
    requires Search(root, visited, m.key) && Frontier(root, visited, m.key) == null
    requires Search(root, m.path + [m], m.key)
    ensures m in visited
  {
    var steps, n := m.path + [m], |visited|;
    if |steps| <= n {
      SearchesAgree(root, steps, visited, m.key, |steps| - 1);
    } else if n > 0 {
      assert Child(steps[n - 1], m.key) == steps[n];
      SearchesAgree(root, steps, visited, m.key, n - 1);
    }
  }

  datatype AddOutcome = Added | Duplicate | NoSuchRow

  class Index {
    var root: UniqueIndexNode?
    ghost var nodes: set<UniqueIndexNode>
    /** A bound on the depth of the tree. */
    ghost var height: nat

    ghost predicate Valid()
      reads this, nodes
    {
      && PathsInside() && ChildrenInside()
      && (root != null ==> root in nodes && root.path == [])
      && (forall m :: m in nodes ==> Search(root, m.path + [m], m.key))
    }

    ghost predicate PathsInside()
      reads this
    {
      forall n :: n in nodes ==> |n.path| < height && forall k :: 0 <= k < |n.path| ==> n.path[k] in nodes
    }

    ghost predicate ChildrenInside()
      reads this, nodes
    {
      forall n :: n in nodes ==> ChildOk(n, n.left) && ChildOk(n, n.right)
    }

    ghost predicate ChildOk(n: UniqueIndexNode, child: UniqueIndexNode?)
      reads this
    {
      child != null ==> child in nodes && child.path == n.path + [n]
    }

    ghost function Entries(): set<(int, nat)>
      reads this
    {
      set n | n in nodes :: (n.key, n.row)
    }

    constructor ()
      ensures Valid() && Entries() == {} && nodes == {}
    {
      root, nodes, height := null, {}, 0;
    }

    /** A row of an index entry lets a key pass. */
    ghost predicate Admits(table: DataTable, row: nat, keys: Keys, key: int, ignored: set<nat>, id: nat, start: nat)
      requires table.Valid()
      reads table, table.chunks, table.repr
    {
      row < table.End(|table.chunks|) && !Clash(keys, table.ChainOfRow(row), key, row in ignored, id, start)
    }

    /** All rows that are indexed under the key let it pass. */
    ghost predicate AllAdmit(table: DataTable, entries: set<(int, nat)>, keys: Keys, key: int, ignored: set<nat>, id: nat, start: nat)
      requires table.Valid()
      reads table, table.chunks, table.repr
    {
      forall row :: (key, row) in entries ==> Admits(table, row, keys, key, ignored, id, start)
    }

    ghost predicate Apart(table: DataTable)
      reads this, table
    {
      this !in table.repr && forall n :: n in nodes ==> n !in table.repr
    }

    lemma RowIn(table: DataTable, row: nat, i: nat)
      requires table.Valid() && row < table.End(|table.chunks|) && i == table.Locate(|table.chunks|, row)
      ensures i < |table.chunks| && table.chunks[i].Valid() && 0 <= row - table.chunks[i].start < table.chunks[i].count
      ensures row - table.chunks[i].start < STORAGE_CHUNK_SIZE == |table.chunks[i].lists|
      ensures table.ChainOfRow(row) == table.chunks[i].RowChain(row - table.chunks[i].start)
    {
      hide DataTable.Consecutive;
    }

    /** Tests the row of an index entry. */
    method TestRow(table: DataTable, row: nat, keys: Keys, key: int, ignored: set<nat>, id: nat, start: nat)
      returns (outcome: AddOutcome)
      requires table.Valid()
      ensures outcome.Added? <==> Admits(table, row, keys, key, ignored, id, start)
    {
      hide DataTable.Valid, Chunk.Valid, Chunk.RowChain, DataTable.ChainOfRow, Clash, DataTable.End;
      var found := table.GetChunk(row);
      if found.OutOfRange? {
        return NoSuchRow;
      }
      RowIn(table, row, found.value);
      var chunk := table.chunks[found.value];
      var conflict := RowConflicts(chunk, row - chunk.start, keys, key, row in ignored, id, start);
      return if conflict then Duplicate else Added;
    }

    /** A node below which a search for its key ended gets it as a child. */
    method Attach(prev: UniqueIndexNode, node: UniqueIndexNode)
      modifies prev`left, prev`right
      ensures prev.left == if prev.key < node.key then node else old(prev.left)
      ensures prev.right == if prev.key < node.key then old(prev.right) else node
    {
      if prev.key < node.key {
        prev.left := node;
      } else {
        prev.right := node;
      }
    }

    /** Makes a new node the root of an empty tree. */
    method Plant(key: int, row: nat)
      requires Valid() && root == null
      modifies this
      ensures old(nodes) == {}
      ensures Valid() && Entries() == old(Entries()) + {(key, row)} && fresh(nodes - old(nodes)) && old(nodes) <= nodes
    {
      assert nodes == {} by {
        if m :| m in nodes {
          assert Search(root, m.path + [m], m.key);
        }
      }
      root := new UniqueIndexNode(key, row, null, []);
      nodes, height := {root}, 1;
    }

    /** The tree takes in a node that hangs below one of its nodes. */
    ghost method Grow(node: UniqueIndexNode, prev: UniqueIndexNode)
      requires PathsInside() && root != null && root in nodes && root.path == []
      requires prev in nodes && node !in nodes && node.path == prev.path + [prev] && node.left == node.right == null
      requires forall n :: n in nodes ==> (n.left == node || ChildOk(n, n.left)) && (n.right == node || ChildOk(n, n.right))
      requires forall n :: n in nodes && (n.left == node || n.right == node) ==> n == prev
      requires forall m :: m in nodes ==> Search(root, m.path + [m], m.key)
      requires Search(root, node.path + [node], node.key)
      modifies this`nodes, this`height
      ensures Valid() && nodes == old(nodes) + {node}
    {
      hide Search;
      height := if |node.path| < height then height else |node.path| + 1;
      nodes := nodes + {node};
    }

    /** Hangs a new node below the node where a search for its key ended. */
    method Hang(key: int, row: nat, prev: UniqueIndexNode, ghost visited: seq<UniqueIndexNode>)
      requires Valid() && prev in nodes && visited == prev.path + [prev]
      requires Search(root, visited, key) && Frontier(root, visited, key) == null
      modifies this, nodes
      ensures Valid() && Entries() == old(Entries()) + {(key, row)} && fresh(nodes - old(nodes)) && old(nodes) <= nodes
    {
      var node := new UniqueIndexNode(key, row, prev, visited);
      Attach(prev, node);
      forall m | m in nodes ensures Search(root, m.path + [m], m.key) {
        ghost var steps := m.path + [m];
        assert old(Search(root, steps, m.key));
        forall k, l | 0 <= k < l < |steps| && l == k + 1 ensures Child(steps[k], m.key) == steps[l] {
          assert steps[k] in old(nodes) && old(Child(steps[k], m.key)) == steps[l];
        }
      }
      forall k, l | 0 <= k < l < |visited| && l == k + 1 ensures Child(visited[k], key) == visited[l] {
        assert visited[k] in old(nodes) && old(Child(visited[k], key)) == visited[l];
      }
      SearchPush(root, visited, key, node);
      Grow(node, prev);
    }

    /** What the search for a key finds one step further down. */
    lemma Descend(visited: seq<UniqueIndexNode>, entry: UniqueIndexNode, key: int)
      requires Valid() && entry in nodes && entry.path == visited
      requires Search(root, visited, key) && Frontier(root, visited, key) == entry
      ensures Search(root, visited + [entry], key) && |visited| < height
      ensures var next := Child(entry, key);
              && Frontier(root, visited + [entry], key) == next
              && (next != null ==> next in nodes && next.path == visited + [entry])
    {
      SearchPush(root, visited, key, entry);
    }

    /** Every node with the key was visited, so every indexed row was tested. */
    lemma AllTested(visited: seq<UniqueIndexNode>, key: int, row: nat)
      requires Valid() && Search(root, visited, key) && Frontier(root, visited, key) == null && (key, row) in Entries()
      ensures exists k :: 0 <= k < |visited| && visited[k].key == key && visited[k].row == row
    {
      var m :| m in nodes && m.key == key && m.row == row;
      SearchComplete(root, visited, m);
    }

    /** Searches for a key, testing the rows that are indexed under it, down to an empty place. */
    method Traverse(table: DataTable, keys: Keys, key: int, ignored: set<nat>, id: nat, start: nat)
      returns (outcome: AddOutcome, prev: UniqueIndexNode?, ghost visited: seq<UniqueIndexNode>)
      requires Valid() && table.Valid() && root != null
      ensures table.Valid() && (outcome.Added? <==> AllAdmit(table, Entries(), keys, key, ignored, id, start))
      ensures outcome.Added? ==> prev != null && prev in nodes && visited == prev.path + [prev]
      ensures outcome.Added? ==> Search(root, visited, key) && Frontier(root, visited, key) == null
    {
      hide Clash, Search, Frontier, DataTable.Valid, DataTable.ChainOfRow, Admits, PathsInside, ChildrenInside;
      prev, visited, outcome := null, [], Added;
      var entry := root;
      SearchNone(root, key);
      while entry != null
        invariant outcome.Added? && (visited != [] <==> prev != null)
        invariant visited == [] ==> entry != null
        invariant prev != null ==> prev in nodes && visited == prev.path + [prev]
        invariant entry != null ==> entry in nodes && entry.path == visited
        invariant Search(root, visited, key) && Frontier(root, visited, key) == entry
        invariant table.Valid()
        invariant forall k :: 0 <= k < |visited| && visited[k].key == key ==>
                    Admits(table, visited[k].row, keys, key, ignored, id, start)
        decreases height - |visited|
      {
        if entry.key == key {
          outcome := TestRow(table, entry.row, keys, key, ignored, id, start);
          if !outcome.Added? {
            assert (key, entry.row) in Entries();
            return;
          }
        }
        Descend(visited, entry, key);
        visited := visited + [entry];
        prev := entry;
        entry := Child(entry, key);
      }
      forall r | (key, r) in Entries() ensures Admits(table, r, keys, key, ignored, id, start) {
        AllTested(visited, key, r);
      }
    }

    /**
     Adds an entry for a key, if every row that is indexed under the key lets it
     pass. The search meets all of them, since equal keys lie on one path.
     */
    method AddEntry(table: DataTable, keys: Keys, key: int, row: nat, ignored: set<nat>, id: nat, start: nat)
      returns (outcome: AddOutcome)
      requires Valid() && table.Valid() && Apart(table)
      modifies this, nodes
      ensures Valid() && table.Valid() && Apart(table) && fresh(nodes - old(nodes))
      ensures outcome.Added? <==> AllAdmit(table, old(Entries()), keys, key, ignored, id, start)
      ensures Entries() == old(Entries()) + if outcome.Added? then {(key, row)} else {}
    {
      hide Admits, Search, Frontier, DataTable.Valid, PathsInside, ChildrenInside;
      if root == null {
        Plant(key, row);
        return Added;
      }
      var prev: UniqueIndexNode?;
      ghost var visited: seq<UniqueIndexNode>;
      outcome, prev, visited := Traverse(table, keys, key, ignored, id, start);
      if outcome.Added? {
        Hang(key, row, prev, visited);
      }
    }

    /** The entries of the first `n` values of a batch. */
    ghost function BatchEntries(keys: Keys, values: seq<Payload>, nulls: seq<bool>, rowIds: seq<nat>, n: nat): set<(int, nat)>
      requires n <= |values| == |rowIds| == |nulls|
    {
      set p | 0 <= p < n && !nulls[p] :: (keys.of(values[p]), rowIds[p])
    }

    /** Value `p` of a batch passes, after the values before it were added. */
    ghost predicate ValuePasses(table: DataTable, entries: set<(int, nat)>, keys: Keys, values: seq<Payload>, nulls: seq<bool>,
                                rowIds: seq<nat>, p: nat, allowNulls: bool, ignored: set<nat>, id: nat, start: nat)
      requires table.Valid() && p < |values| == |rowIds| == |nulls|
      reads table, table.chunks, table.repr
    {
      if nulls[p] then allowNulls
      else AllAdmit(table, entries + BatchEntries(keys, values, nulls, rowIds, p), keys, keys.of(values[p]), ignored, id, start)
    }

    /** Adds a batch of keys, except for those that count as NULL; the first that does not pass ends it. */
    method AddEntries(table: DataTable, keys: Keys, values: seq<Payload>, nulls: seq<bool>, rowIds: seq<nat>, allowNulls: bool,
                      ignored: set<nat>, id: nat, start: nat) returns (ok: bool)
      requires Valid() && table.Valid() && Apart(table) && |values| == |rowIds| == |nulls|
      modifies this, nodes
      ensures Valid() && table.Valid() && Apart(table) && fresh(nodes - old(nodes))
      ensures ok <==> forall p :: 0 <= p < |values| ==>
                        ValuePasses(table, old(Entries()), keys, values, nulls, rowIds, p, allowNulls, ignored, id, start)
      ensures ok ==> Entries() == old(Entries()) + BatchEntries(keys, values, nulls, rowIds, |values|)
      ensures old(Entries()) <= Entries()
    {
      hide AllAdmit, DataTable.Valid, Valid;
      for i := 0 to |values|
        invariant Valid() && table.Valid() && Apart(table) && fresh(nodes - old(nodes))
        invariant forall p :: 0 <= p < i ==>
                    ValuePasses(table, old(Entries()), keys, values, nulls, rowIds, p, allowNulls, ignored, id, start)
        invariant Entries() == old(Entries()) + BatchEntries(keys, values, nulls, rowIds, i)
      {
        BatchPush(keys, values, nulls, rowIds, i);
        if nulls[i] {
          if !allowNulls {
            assert !ValuePasses(table, old(Entries()), keys, values, nulls, rowIds, i, allowNulls, ignored, id, start);
            return false;
          }
        } else {
          var outcome := AddEntry(table, keys, keys.of(values[i]), rowIds[i], ignored, id, start);
          if !outcome.Added? {
            assert !ValuePasses(table, old(Entries()), keys, values, nulls, rowIds, i, allowNulls, ignored, id, start);
            return false;
          }
        }
      }
      ok := true;
    }

    /** All values pass against the entries that were there before the batch. */
    ghost predicate RowsAdmit(table: DataTable, entries: set<(int, nat)>, keys: Keys, values: seq<Payload>, nulls: seq<bool>,
                              ignored: set<nat>, id: nat, start: nat)
      requires table.Valid() && |nulls| == |values|
      reads table, table.chunks, table.repr
    {
      forall p :: 0 <= p < |values| && !nulls[p] ==>
        AllAdmit(table, entries, keys, keys.of(values[p]), ignored, id, start)
    }

    /**
     Checks and indexes the keys of new rows: they pass if and only if no key is
     NULL where NULL is not allowed, no two of the keys are equal, and no indexed
     row clashes. Equal keys in a batch meet a row that does not exist yet.
     */
    method Append(table: DataTable, keys: Keys, values: seq<Payload>, allowNulls: bool, id: nat, start: nat)
      returns (ok: bool)
      requires Valid() && table.Valid() && Apart(table)
      modifies this, nodes
      ensures Valid() && table.Valid() && Apart(table) && fresh(nodes - old(nodes))
      ensures ok <==> NullsOk(NullsOf(keys, values), allowNulls) && KeysApart(keys, values)
                      && RowsAdmit(table, old(Entries()), keys, values, NullsOf(keys, values), {}, id, start)
      ensures ok <==> && (allowNulls || forall p :: 0 <= p < |values| ==> !keys.isNull(values[p]))
                      && (forall p, q :: 0 <= p < q < |values| && !keys.isNull(values[p]) && !keys.isNull(values[q]) ==>
                            keys.of(values[p]) != keys.of(values[q]))
                      && RowsAdmit(table, old(Entries()), keys, values, NullsOf(keys, values), {}, id, start)
      ensures old(Entries()) <= Entries()
      ensures ok ==> forall p :: 0 <= p < |values| && !keys.isNull(values[p]) ==>
                       (keys.of(values[p]), table.End(|table.chunks|) + p) in Entries()
    {
      hide DataTable.Valid, Valid, AllAdmit;
      ghost var entries := Entries();
      var first := table.Count();
      var rowIds := seq(|values|, p => first + p);
      var nulls := NullsOf(keys, values);
      ok := AddEntries(table, keys, values, nulls, rowIds, allowNulls, {}, id, start);
      forall p | 0 <= p < |values|
        ensures ValuePasses(table, entries, keys, values, nulls, rowIds, p, allowNulls, {}, id, start)
                <==> if keys.isNull(values[p]) then allowNulls
                     else AllAdmit(table, entries, keys, keys.of(values[p]), {}, id, start)
                          && forall q :: 0 <= q < p ==> !SameKey(keys, Some(values[q]), Some(values[p]))
      {
        NewRowPasses(table, entries, keys, values, rowIds, p, allowNulls, id, start);
      }
    }

    lemma NewRowPasses(table: DataTable, entries: set<(int, nat)>, keys: Keys, values: seq<Payload>, rowIds: seq<nat>,
                       p: nat, allowNulls: bool, id: nat, start: nat)
      requires table.Valid() && p < |values| == |rowIds|
      requires forall q :: 0 <= q < |rowIds| ==> rowIds[q] >= table.End(|table.chunks|)
      ensures ValuePasses(table, entries, keys, values, NullsOf(keys, values), rowIds, p, allowNulls, {}, id, start)
              <==> if keys.isNull(values[p]) then allowNulls
                   else AllAdmit(table, entries, keys, keys.of(values[p]), {}, id, start)
                        && forall q :: 0 <= q < p ==> !SameKey(keys, Some(values[q]), Some(values[p]))
    {
      hide DataTable.Valid, Clash, DataTable.ChainOfRow;
      if !keys.isNull(values[p]) {
        var key, batch := keys.of(values[p]), BatchEntries(keys, values, NullsOf(keys, values), rowIds, p);
        if q :| 0 <= q < p && SameKey(keys, Some(values[q]), Some(values[p])) {
          assert (key, rowIds[q]) in entries + batch && !Admits(table, rowIds[q], keys, key, {}, id, start);
        } else {
          assert forall row :: (key, row) !in batch;
        }
      }
    }

    /**
     Checks and indexes the new keys of updated rows, whose base rows do not
     count. A key counts as NULL only if one of its updated columns is: `nulls`. The
     keys pass if and only if none counts as NULL where NULL is not allowed, no two
     tuples are equal, and no other indexed row clashes.
     */
    method Update(table: DataTable, keys: Keys, values: seq<Payload>, nulls: seq<bool>, rowIds: seq<nat>, allowNulls: bool,
                  id: nat, start: nat) returns (ok: bool)
      requires Valid() && table.Valid() && Apart(table) && |values| == |rowIds| == |nulls|
      requires forall p :: 0 <= p < |values| && nulls[p] ==> keys.isNull(values[p])
      modifies this, nodes
      ensures Valid() && table.Valid() && Apart(table) && fresh(nodes - old(nodes))
      ensures ok <==> NullsOk(nulls, allowNulls) && TuplesApart(keys, values)
                      && RowsAdmit(table, old(Entries()), keys, values, nulls, (set r | r in rowIds), id, start)
      ensures old(Entries()) <= Entries()
      ensures ok ==> Entries() == old(Entries()) + BatchEntries(keys, values, nulls, rowIds, |values|)
      ensures ok <==> && (allowNulls || forall p :: 0 <= p < |values| ==> !nulls[p])
                      && (forall p, q :: 0 <= p < q < |values| ==> keys.of(values[p]) != keys.of(values[q]))
                      && RowsAdmit(table, old(Entries()), keys, values, nulls, (set r | r in rowIds), id, start)
      ensures ok ==> forall e :: e in Entries() <==>
                       e in old(Entries()) || exists p :: 0 <= p < |values| && !nulls[p] && e == (keys.of(values[p]), rowIds[p])
    {
      hide DataTable.Valid, Valid, Admits;
      ghost var entries := Entries();
      var ignored := set r | r in rowIds;
      var seen: set<int> := {};
      for i := 0 to |values|
        invariant seen == set p | 0 <= p < i :: keys.of(values[p])
        invariant forall p, q :: 0 <= p < q < i ==> keys.of(values[p]) != keys.of(values[q])
        modifies {}
      {
        if keys.of(values[i]) in seen {
          return false;
        }
        seen := seen + {keys.of(values[i])};
      }
      ok := AddEntries(table, keys, values, nulls, rowIds, allowNulls, ignored, id, start);
      forall p | 0 <= p < |values|
        ensures ValuePasses(table, entries, keys, values, nulls, rowIds, p, allowNulls, ignored, id, start)
                <==> if nulls[p] then allowNulls
                     else AllAdmit(table, entries, keys, keys.of(values[p]), ignored, id, start)
      {
        assert forall row :: (keys.of(values[p]), row) !in BatchEntries(keys, values, nulls, rowIds, p);
      }
    }

    lemma BatchPush(keys: Keys, values: seq<Payload>, nulls: seq<bool>, rowIds: seq<nat>, n: nat)
      requires n < |values| == |rowIds| == |nulls|
      ensures BatchEntries(keys, values, nulls, rowIds, n + 1)
              == BatchEntries(keys, values, nulls, rowIds, n) + if nulls[n] then {} else {(keys.of(values[n]), rowIds[n])}
    {
    }
  }

  /** The values with a NULL in their key. */
  function NullsOf(keys: Keys, values: seq<Payload>): seq<bool> {
    seq(|values|, p requires 0 <= p < |values| => keys.isNull(values[p]))
  }

  predicate NullsOk(nulls: seq<bool>, allowNulls: bool) {
    allowNulls || forall p :: 0 <= p < |nulls| ==> !nulls[p]
  }

  /** No two keys of a batch are equal. */
  predicate KeysApart(keys: Keys, values: seq<Payload>) {
    forall p, q :: 0 <= p < q < |values| ==> !SameKey(keys, Some(values[p]), Some(values[q]))
  }

  /** No two tuples of a batch are equal; here NULL counts as a value. */
  predicate TuplesApart(keys: Keys, values: seq<Payload>) {
    forall p, q :: 0 <= p < q < |values| ==> keys.of(values[p]) != keys.of(values[q])
  }

  lemma SearchNone(root: UniqueIndexNode?, key: int)
    ensures Search(root, [], key) && Frontier(root, [], key) == root
  {
  }

  lemma SearchPush(root: UniqueIndexNode?, visited: seq<UniqueIndexNode>, key: int, node: UniqueIndexNode)
    requires Search(root, visited, key) && Frontier(root, visited, key) == node
    ensures Search(root, visited + [node], key)
  {
  }

  // ---------------------------------------------------------------- the test against the transition system

  /** The entries of the tree are those of the index of a state, and all of them are for rows of the table. */
  ghost predicate SameEntries(table: DataTable, entries: set<(int, nat)>, cell: nat -> Cell, index: KeyIndex)
    requires table.Valid()
    reads table, table.chunks, table.repr
  {
    && (forall e :: e in entries ==> e.1 < table.End(|table.chunks|) && (e.0, cell(e.1)) in index)
    && (forall f :: f in index ==> exists e :: e in entries && f == (e.0, cell(e.1)))
  }

  /** Writes of these values to these rows. */
  ghost predicate WritesRows(ws: seq<Write>, values: seq<Payload>, rowIds: seq<nat>, cell: nat -> Cell) {
    && |ws| == |values| == |rowIds|
    && (forall p :: 0 <= p < |ws| ==> ws[p].cell == cell(rowIds[p]) && ws[p].value == Some(values[p]))
  }

  lemma WritesRow(table: DataTable, ws: seq<Write>, values: seq<Payload>, rowIds: seq<nat>, cell: nat -> Cell, s: State, r: nat)
    requires table.Valid() && HoldsRows(table, cell, s) && WritesRows(ws, values, rowIds, cell)
    ensures Writes(ws, cell(r)) <==> r in rowIds
  {
    if r in rowIds {
      var p :| 0 <= p < |rowIds| && rowIds[p] == r;
      assert ws[p].cell == cell(r);
    }
  }

  /** One entry: its row clashes in the table exactly if its cell clashes in the state. */
  lemma EntryAgrees(idx: Index, table: DataTable, keys: Keys, ws: seq<Write>, values: seq<Payload>, rowIds: seq<nat>,
                    cell: nat -> Cell, s: State, i: nat, ignored: set<nat>, p: nat, r: nat)
    requires table.Valid() && HoldsRows(table, cell, s) && WritesRows(ws, values, rowIds, cell) && i < |s.active|
    requires p < |ws| && r < table.End(|table.chunks|) && (r in ignored <==> r in rowIds)
    ensures idx.Admits(table, r, keys, keys.of(values[p]), ignored, s.active[i].id, s.active[i].start)
            <==> !Clash(keys, ChainAt(s, cell(r)), keys.of(values[p]), Writes(ws, cell(r)), s.active[i].id, s.active[i].start)
  {
    hide DataTable.Valid, Clash;
    WritesRow(table, ws, values, rowIds, cell, s, r);
  }

  /**
   The test that the index makes on the pointers of the table is the condition
   under which the transition system admits the batch: for new rows, where no row
   is ignored, and for updates, where exactly the updated rows are.
   */
  lemma TestIsPasses(idx: Index, table: DataTable, entries: set<(int, nat)>, keys: Keys, ws: seq<Write>, values: seq<Payload>,
                     rowIds: seq<nat>, cell: nat -> Cell, s: State, index: KeyIndex, i: nat, ignored: set<nat>)
    requires table.Valid() && HoldsRows(table, cell, s) && SameEntries(table, entries, cell, index)
    requires WritesRows(ws, values, rowIds, cell) && i < |s.active|
    requires forall r: nat :: r < table.End(|table.chunks|) ==> (r in ignored <==> r in rowIds)
    ensures Passes(keys, s, index, i, ws)
            <==> && KeysApart(keys, values)
                 && idx.RowsAdmit(table, entries, keys, values, NullsOf(keys, values), ignored, s.active[i].id, s.active[i].start)
  {
    hide DataTable.Valid, Clash, Index.Admits, HoldsRows, SameKey;
    assert (forall p, q :: 0 <= p < q < |ws| ==> !SameKey(keys, ws[p].value, ws[q].value)) <==> KeysApart(keys, values) by {
      forall p, q | 0 <= p < q < |ws|
        ensures SameKey(keys, ws[p].value, ws[q].value) <==> SameKey(keys, Some(values[p]), Some(values[q]))
      {
        assert ws[p].value == Some(values[p]) && ws[q].value == Some(values[q]);
      }
    }
    forall p, r: nat | 0 <= p < |ws| && (keys.of(values[p]), r) in entries
      ensures idx.Admits(table, r, keys, keys.of(values[p]), ignored, s.active[i].id, s.active[i].start)
              <==> !Clash(keys, ChainAt(s, cell(r)), keys.of(values[p]), Writes(ws, cell(r)), s.active[i].id, s.active[i].start)
    {
      EntryAgrees(idx, table, keys, ws, values, rowIds, cell, s, i, ignored, p, r);
    }
  }

  /** An update tests at least the keys without NULL, so what passes is admitted. */
  lemma UpdatePasses(idx: Index, table: DataTable, entries: set<(int, nat)>, keys: Keys, ws: seq<Write>, values: seq<Payload>,
                     nulls: seq<bool>, rowIds: seq<nat>, cell: nat -> Cell, s: State, index: KeyIndex, i: nat)
    requires table.Valid() && HoldsRows(table, cell, s) && SameEntries(table, entries, cell, index)
    requires WritesRows(ws, values, rowIds, cell) && i < |s.active| && |nulls| == |values|
    requires forall p :: 0 <= p < |values| && nulls[p] ==> keys.isNull(values[p])
    requires TuplesApart(keys, values)
    requires idx.RowsAdmit(table, entries, keys, values, nulls, (set r | r in rowIds), s.active[i].id, s.active[i].start)
    ensures Passes(keys, s, index, i, ws)
  {
    hide DataTable.Valid, HoldsRows, SameEntries, Index.AllAdmit, WritesRows, Passes;
    TestIsPasses(idx, table, entries, keys, ws, values, rowIds, cell, s, index, i, set r | r in rowIds);
  }
}
