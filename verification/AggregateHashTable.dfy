/**
 The linear-probing hash table of groups, with resizing and scanning, as a map
 from groups to aggregates.
 */
module AggregateHashTable {
  import opened VersionChain
  import opened Vectors

  datatype Cell<G, P> = EmptyCell | FullCell(group: G, payload: P)

  // ---------------------------------------------------------------- cells in probing order

  /** How many steps of linear probing lead from one cell to another. */
  function Distance(from: nat, to: nat, capacity: nat): nat
    requires from < capacity && to < capacity
  {
    if from <= to then to - from else to + capacity - from
  }

  lemma DistanceInjective(from: nat, a: nat, b: nat, capacity: nat)
    requires from < capacity && a < capacity && b < capacity && a != b
    ensures Distance(from, a, capacity) != Distance(from, b, capacity)
  {
  }

  function Slot<G(!new)>(hash: G -> nat, g: G, capacity: nat): nat
    requires capacity > 0
  {
    hash(g) % capacity
  }

  /** Between the slot of its hash and its cell, a group meets only full cells. */
  ghost predicate Probing<G(!new), P(!new)>(hash: G -> nat, cells: seq<Cell<G, P>>) {
    forall c, k :: 0 <= c < |cells| && cells[c].FullCell? && Before(hash, cells[c].group, k, c, |cells|) ==>
      cells[k].FullCell?
  }

  /** A probe for the group comes to cell `k` before cell `c`. */
  predicate Before<G(!new)>(hash: G -> nat, g: G, k: int, c: nat, capacity: nat)
    requires c < capacity
  {
    0 <= k < capacity && Distance(Slot(hash, g, capacity), k, capacity) < Distance(Slot(hash, g, capacity), c, capacity)
  }

  ghost predicate HasGroup<G, P>(cells: seq<Cell<G, P>>, g: G) {
    exists c :: 0 <= c < |cells| && cells[c].FullCell? && cells[c].group == g
  }

  /** The full cells hold exactly these groups, each once. */
  ghost predicate Stores<G(!new), P(!new)>(cells: seq<Cell<G, P>>, contents: map<G, P>) {
    && (forall c :: 0 <= c < |cells| && cells[c].FullCell? ==>
          cells[c].group in contents && contents[cells[c].group] == cells[c].payload)
    && (forall g :: g in contents ==> HasGroup(cells, g))
    && (forall c, d :: 0 <= c < d < |cells| && cells[c].FullCell? && cells[d].FullCell? ==> cells[c].group != cells[d].group)
  }

  ghost function GroupsOf<G, P>(cells: seq<Cell<G, P>>, n: nat): set<G>
    requires n <= |cells|
  {
    if n == 0 then {} else GroupsOf(cells, n - 1) + if cells[n - 1].FullCell? then {cells[n - 1].group} else {}
  }

  lemma {:induction false} GroupsAre<G, P>(cells: seq<Cell<G, P>>, n: nat, g: G)
    requires n <= |cells|
    ensures g in GroupsOf(cells, n) <==> exists c :: 0 <= c < n && cells[c].FullCell? && cells[c].group == g
  {
    if n > 0 {
      GroupsAre(cells, n - 1, g);
    }
  }

  lemma {:induction false} FullCount<G(!new), P(!new)>(cells: seq<Cell<G, P>>, contents: map<G, P>, n: nat)
    requires Stores(cells, contents) && n <= |cells| && forall c :: 0 <= c < n ==> cells[c].FullCell?
    ensures |GroupsOf(cells, n)| == n && GroupsOf(cells, n) <= contents.Keys
  {
    if n > 0 {
      FullCount(cells, contents, n - 1);
      GroupsAre(cells, n - 1, cells[n - 1].group);
    }
  }

  /** A table with fewer groups than cells has an empty cell. */
  lemma SomeEmpty<G(!new), P(!new)>(cells: seq<Cell<G, P>>, contents: map<G, P>)
    requires Stores(cells, contents) && |contents| < |cells|
    ensures exists c :: 0 <= c < |cells| && cells[c].EmptyCell?
  {
    if forall c :: 0 <= c < |cells| ==> cells[c].FullCell? {
      FullCount(cells, contents, |cells|);
      SubsetSmaller(GroupsOf(cells, |cells|), contents.Keys);
    }
  }

  lemma {:induction false} SubsetSmaller<G>(a: set<G>, b: set<G>)
    requires a <= b
    ensures |a| <= |b|
  {
    if a != {} {
      var x :| x in a;
      SubsetSmaller(a - {x}, b - {x});
    }
  }

  /** Everything a probe for a group has passed is full and holds other groups. */
  ghost predicate Passed<G(!new), P(!new)>(hash: G -> nat, cells: seq<Cell<G, P>>, g: G, steps: nat)
    requires |cells| > 0
  {
    forall k :: 0 <= k < |cells| && Distance(Slot(hash, g, |cells|), k, |cells|) < steps ==>
      cells[k].FullCell? && cells[k].group != g
  }

  /** An empty cell at the end of a probe means that the group is not stored. */
  lemma EmptyMeansAbsent<G(!new), P(!new)>(hash: G -> nat, cells: seq<Cell<G, P>>, contents: map<G, P>, g: G, pos: nat)
    requires |cells| > 0 && Probing(hash, cells) && Stores(cells, contents) && pos < |cells| && cells[pos].EmptyCell?
    requires Passed(hash, cells, g, Distance(Slot(hash, g, |cells|), pos, |cells|))
    ensures g !in contents
  {
    if g in contents {
      var c :| 0 <= c < |cells| && cells[c].FullCell? && cells[c].group == g;
      DistanceInjective(Slot(hash, g, |cells|), c, pos, |cells|);
    }
  }

  /** Filling the cell at the end of a probe stores the group. */
  lemma FillStores<G(!new), P(!new)>(hash: G -> nat, cells: seq<Cell<G, P>>, contents: map<G, P>, g: G, p: P, pos: nat)
    requires |cells| > 0 && Probing(hash, cells) && Stores(cells, contents) && pos < |cells| && cells[pos].EmptyCell?
    requires Passed(hash, cells, g, Distance(Slot(hash, g, |cells|), pos, |cells|)) && g !in contents
    ensures Probing(hash, cells[pos := FullCell(g, p)]) && Stores(cells[pos := FullCell(g, p)], contents[g := p])
  {
    var after := cells[pos := FullCell(g, p)];
    forall h | h in contents[g := p] ensures HasGroup(after, h) {
      if h == g {
        assert after[pos].group == g;
      } else {
        var c :| 0 <= c < |cells| && cells[c].FullCell? && cells[c].group == h;
        assert after[c].group == h;
      }
    }
  }

  // ---------------------------------------------------------------- the table

  class Table<G(==, !new), P(!new)> {
    const hash: G -> nat
    /** The aggregates of a new group. */
    const empty: P
    var cells: array<Cell<G, P>>
    var entries: nat
    ghost var contents: map<G, P>

    ghost predicate Valid()
      reads this, cells
    {
      && STANDARD_VECTOR_SIZE <= cells.Length && entries == |contents| < cells.Length
      && Probing(hash, cells[..]) && Stores(cells[..], contents)
    }

    constructor (hash: G -> nat, empty: P, capacity: nat)
      requires capacity >= STANDARD_VECTOR_SIZE
      ensures Valid() && contents == map[] && entries == 0 && cells.Length == capacity && fresh(cells)
      ensures this.hash == hash && this.empty == empty
    {
      this.hash, this.empty, entries, contents := hash, empty, 0, map[];
      cells := new Cell<G, P>[capacity](_ => EmptyCell);
    }

    /** Probes for a group, up to its cell or the first empty one. */
    method Probe(g: G) returns (pos: nat)
      requires Valid()
      ensures pos < cells.Length
      ensures cells[pos].FullCell? ==> cells[pos].group == g
      ensures cells[pos].EmptyCell? ==> Passed(hash, cells[..], g, Distance(Slot(hash, g, cells.Length), pos, cells.Length))
    {
      hide Probing, Stores, Passed, Distance, Slot;
      ghost var table := cells[..];
      var capacity := cells.Length;
      pos := SlotOf(g);
      ghost var steps := 0;
      SomeEmpty(table, contents);
      ghost var gap :| 0 <= gap < capacity && table[gap].EmptyCell?;
      PassedNone(hash, table, g);
      while cells[pos].FullCell? && cells[pos].group != g
        invariant pos < capacity && steps < capacity && Distance(Slot(hash, g, capacity), pos, capacity) == steps
        invariant Passed(hash, table, g, steps)
        decreases capacity - steps
      {
        PassedMore(hash, table, g, pos, gap);
        steps := steps + 1;
        pos := pos + 1;
        if pos >= capacity {
          pos := 0;
        }
      }
    }

    function SlotOf(g: G): (pos: nat)
      requires cells.Length > 0
      reads this
      ensures pos == Slot(hash, g, cells.Length) < cells.Length
    {
      hash(g) % cells.Length
    }

    /** Finds the cell of a group, taking the first empty one for a new group. */
    method FindOrCreateGroup(g: G) returns (pos: nat, isNew: bool)
      requires Valid() && entries + 1 < cells.Length
      modifies this`entries, this`contents, cells
      ensures Valid() && pos < cells.Length && cells[pos].FullCell? && cells[pos].group == g
      ensures isNew <==> g !in old(contents)
      ensures contents == if isNew then old(contents)[g := empty] else old(contents)
      ensures entries <= old(entries) + 1
      ensures forall k :: 0 <= k < cells.Length && old(cells[k]).FullCell? ==> cells[k] == old(cells[k])
    {
      hide Probing, Stores, Passed, Distance, Slot;
      ghost var table := cells[..];
      pos := Probe(g);
      if cells[pos].EmptyCell? {
        EmptyMeansAbsent(hash, table, contents, g, pos);
        FillStores(hash, table, contents, g, empty, pos);
        cells[pos] := FullCell(g, empty);
        assert cells[..] == table[pos := FullCell(g, empty)];
        entries, contents := entries + 1, contents[g := empty];
        isNew := true;
      } else {
        StoredAt(table, contents, pos);
        isNew := false;
      }
    }

    predicate NeedsResize()
      reads this
      requires entries <= cells.Length
    {
      entries > cells.Length / 2 || cells.Length - entries <= STANDARD_VECTOR_SIZE
    }

    /** Finds or creates the groups of a chunk that fits. */
    method Place(groups: seq<G>) returns (addresses: seq<nat>, isNew: seq<bool>)
      requires Valid() && entries + |groups| < cells.Length
      modifies this`entries, this`contents, cells
      ensures Valid() && contents == Created(old(contents), groups, empty)
      ensures |addresses| == |isNew| == |groups|
      ensures forall i :: 0 <= i < |groups| ==> Holds(addresses[i], groups[i])
      ensures forall i :: 0 <= i < |groups| ==> (isNew[i] <==> groups[i] !in old(contents) && groups[i] !in groups[..i])
    {
      hide Probing, Stores, Created;
      addresses, isNew := [], [];
      assert Created(contents, groups[..0], empty) == contents by { CreatedNone(contents, groups, empty); }
      for i := 0 to |groups|
        invariant Valid() && contents == Created(old(contents), groups[..i], empty) && entries <= old(entries) + i
        invariant |addresses| == |isNew| == i
        invariant forall j :: 0 <= j < i ==> Holds(addresses[j], groups[j])
        invariant forall j :: 0 <= j < i ==> (isNew[j] <==> groups[j] !in old(contents) && groups[j] !in groups[..j])
      {
        CreatedKey(old(contents), groups[..i], empty, groups[i]);
        CreatedPush(old(contents), groups, i, empty);
        var pos, created := FindOrCreateGroup(groups[i]);
        addresses, isNew := addresses + [pos], isNew + [created];
      }
      assert groups[..|groups|] == groups;
    }

    ghost predicate Holds(pos: nat, g: G)
      reads this, cells
    {
      pos < cells.Length && cells[pos].FullCell? && cells[pos].group == g
    }

    /** The aggregates in a full cell. */
    method PayloadAt(pos: nat) returns (p: P)
      requires Valid() && pos < cells.Length && cells[pos].FullCell?
      ensures cells[pos].group in contents && p == contents[cells[pos].group]
    {
      StoredAt(cells[..], contents, pos);
      p := cells[pos].payload;
    }

    /** Changes the aggregates in a full cell. */
    method SetPayload(pos: nat, p: P)
      requires Valid() && pos < cells.Length && cells[pos].FullCell?
      modifies this`contents, cells
      ensures Valid() && contents == old(contents)[old(cells[pos].group) := p]
      ensures forall k :: 0 <= k < cells.Length ==>
                cells[k] == if k == pos then FullCell(old(cells[pos].group), p) else old(cells[k])
    {
      ghost var before := cells[..];
      var g := cells[pos].group;
      PayloadStores(hash, before, contents, pos, p);
      hide Probing, Stores;
      cells[pos] := FullCell(g, p);
      assert cells[..] == before[pos := FullCell(g, p)];
      contents := contents[g := p];
    }

    /** The groups and aggregates of the next full cells, at most a vector of them. */
    method Collect(start: nat) returns (position: nat, found: seq<(G, P)>)
      requires Valid() && start <= cells.Length
      ensures start <= position <= cells.Length && |found| <= STANDARD_VECTOR_SIZE
      ensures found == FullIn(cells[..], start, position)
      ensures |found| < STANDARD_VECTOR_SIZE ==> position == cells.Length
    {
      position, found := start, [];
      while position < cells.Length && |found| < STANDARD_VECTOR_SIZE
        invariant start <= position <= cells.Length && |found| <= STANDARD_VECTOR_SIZE
        invariant found == FullIn(cells[..], start, position)
      {
        if cells[position].FullCell? {
          found := found + [(cells[position].group, cells[position].payload)];
        }
        position := position + 1;
      }
    }

    /** Moves a block of groups with their aggregates into this table. */
    method Absorb(found: seq<(G, P)>)
      requires Valid() && entries + |found| < cells.Length && Apart(found)
      modifies this`entries, this`contents, cells
      ensures Valid() && contents == AddAll(old(contents), found)
    {
      hide Probing, Stores, Created, AddAll;
      var groups := GroupsIn(found);
      var addresses, _ := Place(groups);
      ghost var placed := contents;
      assert AddAll(placed, found[..0]) == placed by { AddAllNone(placed, found); }
      for i := 0 to |found|
        invariant Valid() && contents == AddAll(placed, found[..i])
        invariant forall j :: 0 <= j < |found| ==> Holds(addresses[j], groups[j])
      {
        AddAllPush(placed, found, i);
        SetPayload(addresses[i], found[i].1);
      }
      assert found[..|found|] == found;
      AddAllOver(old(contents), found, empty);
    }

    /** Moves all groups into a larger table; that table never has to grow meanwhile. */
    method Resize(size: nat)
      requires Valid() && size == cells.Length * 2
      modifies this`cells
      ensures Valid() && cells.Length == size && fresh(cells)
    {
      hide Probing, Stores, AddAll, Prefix;
      ghost var table := cells[..];
      var next := new Table<G, P>(hash, empty, size);
      var position := 0;
      assert Prefix(table, 0) == map[] by { PrefixNone(table); }
      while true
        invariant fresh(next) && fresh(next.cells) && next.Valid() && next.cells.Length == size
        invariant cells == old(cells) && position <= cells.Length && table == cells[..]
        invariant next.contents == Prefix(table, position)
        decreases cells.Length - position
      {
        var to, found := Collect(position);
        PrefixAdd(table, position, to);
        PrefixIs(table, contents, position);
        PrefixIs(table, contents, to);
        if |found| == 0 {
          assert next.contents == Prefix(table, to) by { AddAllEmpty(next.contents); }
          position := to;
          break;
        }
        FoundApart(table, contents, position, to);
        assert !next.NeedsResize();
        next.Absorb(found);
        position := to;
      }
      PrefixAll(table, contents);
      cells := next.cells;
    }

    /**
     Finds or creates the groups of a chunk, growing the table first if it is half
     full or has no room for a chunk. A flag is set exactly on the first
     occurrence of a new group.
     */
    method FindOrCreateGroups(groups: seq<G>) returns (addresses: seq<nat>, isNew: seq<bool>)
      requires Valid() && |groups| <= STANDARD_VECTOR_SIZE
      modifies this`cells, this`entries, this`contents, cells
      ensures Valid() && contents == Created(old(contents), groups, empty)
      ensures cells == old(cells) || fresh(cells)
      ensures |addresses| == |isNew| == |groups|
      ensures forall i :: 0 <= i < |groups| ==> Holds(addresses[i], groups[i])
      ensures forall i :: 0 <= i < |groups| ==> (isNew[i] <==> groups[i] !in old(contents) && groups[i] !in groups[..i])
    {
      hide Probing, Stores, Created;
      if NeedsResize() {
        Resize(cells.Length * 2);
      }
      assert cells.Length - entries > STANDARD_VECTOR_SIZE;
      addresses, isNew := Place(groups);
    }

    /** The next groups of a scan; none at the end. */
    method Scan(scanPosition: nat) returns (position: nat, found: seq<(G, P)>)
      requires Valid() && scanPosition <= cells.Length
      ensures scanPosition <= position <= cells.Length && |found| <= STANDARD_VECTOR_SIZE
      ensures found == [] ==> position == scanPosition && FullIn(cells[..], scanPosition, cells.Length) == []
      ensures found != [] ==> found == FullIn(cells[..], scanPosition, position) && scanPosition < position
    {
      if scanPosition >= cells.Length {
        return scanPosition, [];
      }
      position, found := Collect(scanPosition);
      if |found| == 0 {
        position := scanPosition;
      }
    }

    /** Scanning until nothing comes lists every group once, with its aggregates. */
    method ScanAll() returns (listing: seq<(G, P)>)
      requires Valid()
      ensures Lists(listing, contents)
    {
      hide Probing, Stores;
      ghost var table := cells[..];
      listing := [];
      var position := 0;
      while true
        invariant position <= cells.Length && Valid() && table == cells[..]
        invariant listing == FullIn(table, 0, position)
        decreases cells.Length - position
      {
        var to, found := Scan(position);
        if |found| == 0 {
          break;
        }
        FullInSplit(table, 0, position, to);
        listing, position := listing + found, to;
      }
      FullInSplit(table, 0, position, |table|);
      assert listing == FullIn(table, 0, |table|);
      FoundApart(table, contents, 0, |table|);
      PrefixIs(table, contents, |table|);
      PrefixAll(table, contents);
    }
  }

  predicate Apart<G(==), P>(found: seq<(G, P)>) {
    forall i, j :: 0 <= i < j < |found| ==> found[i].0 != found[j].0
  }

  function AddAll<G, P>(m: map<G, P>, found: seq<(G, P)>): map<G, P> {
    if found == [] then m else AddAll(m, found[..|found| - 1])[found[|found| - 1].0 := found[|found| - 1].1]
  }

  lemma AddAllNone<G, P>(m: map<G, P>, found: seq<(G, P)>)
    ensures AddAll(m, found[..0]) == m
  {
  }

  lemma AddAllEmpty<G, P>(m: map<G, P>)
    ensures AddAll(m, []) == m
  {
  }

  lemma AddAllPush<G, P>(m: map<G, P>, found: seq<(G, P)>, i: nat)
    requires i < |found|
    ensures AddAll(m, found[..i + 1]) == AddAll(m, found[..i])[found[i].0 := found[i].1]
  {
    assert found[..i + 1][..i] == found[..i];
  }

  lemma {:induction false} AddAllIs<G(!new), P(!new)>(m: map<G, P>, found: seq<(G, P)>)
    requires Apart(found)
    ensures forall i :: 0 <= i < |found| ==> found[i].0 in AddAll(m, found) && AddAll(m, found)[found[i].0] == found[i].1
    ensures forall g :: g !in GroupsIn(found) ==> (g in AddAll(m, found) <==> g in m)
    ensures forall g :: g !in GroupsIn(found) && g in m ==> AddAll(m, found)[g] == m[g]
  {
    if found != [] {
      var init, last := found[..|found| - 1], found[|found| - 1];
      AddAllIs(m, init);
      assert GroupsIn(found) == GroupsIn(init) + [last.0];
    }
  }

  lemma AddAllOver<G(!new), P(!new)>(m: map<G, P>, found: seq<(G, P)>, empty: P)
    requires Apart(found)
    ensures AddAll(Created(m, GroupsIn(found), empty), found) == AddAll(m, found)
  {
    var groups := GroupsIn(found);
    var m' := Created(m, groups, empty);
    CreatedKeeps(m, groups, empty);
    AddAllIs(m, found);
    AddAllIs(m', found);
    hide AddAll, Created;
    forall g ensures g in AddAll(m', found) <==> g in AddAll(m, found) {
      CreatedKey(m, groups, empty, g);
      if g in groups {
        var i :| 0 <= i < |groups| && groups[i] == g;
        assert found[i].0 == g;
      }
    }
    forall g | g in AddAll(m, found) ensures AddAll(m', found)[g] == AddAll(m, found)[g] {
      CreatedKey(m, groups, empty, g);
      if g in groups {
        var i :| 0 <= i < |groups| && groups[i] == g;
        assert found[i].0 == g;
      }
    }
  }

  lemma {:induction false} CreatedKeeps<G(!new), P(!new)>(m: map<G, P>, groups: seq<G>, empty: P)
    ensures forall g :: g in m ==> g in Created(m, groups, empty) && Created(m, groups, empty)[g] == m[g]
  {
    if groups != [] {
      CreatedKeeps(m, groups[..|groups| - 1], empty);
    }
  }

  lemma {:induction false} CreatedFresh<G(!new), P(!new)>(m: map<G, P>, groups: seq<G>, empty: P, g: G)
    requires g !in m && g in Created(m, groups, empty)
    ensures Created(m, groups, empty)[g] == empty
  {
    if groups != [] && g in Created(m, groups[..|groups| - 1], empty) {
      CreatedFresh(m, groups[..|groups| - 1], empty, g);
    }
  }

  lemma PrefixNone<G, P>(cells: seq<Cell<G, P>>)
    ensures Prefix(cells, 0) == map[]
  {
  }

  lemma {:induction false} PrefixAdd<G, P>(cells: seq<Cell<G, P>>, lo: nat, hi: nat)
    requires lo <= hi <= |cells|
    ensures Prefix(cells, hi) == AddAll(Prefix(cells, lo), FullIn(cells, lo, hi))
  {
    if lo < hi {
      PrefixAdd(cells, lo, hi - 1);
      var init := FullIn(cells, lo, hi - 1);
      if cells[hi - 1].FullCell? {
        assert FullIn(cells, lo, hi)[..|init|] == init;
      } else {
        assert FullIn(cells, lo, hi) == init;
      }
    }
  }

  lemma PrefixAll<G(!new), P(!new)>(cells: seq<Cell<G, P>>, contents: map<G, P>)
    requires Stores(cells, contents)
    ensures Prefix(cells, |cells|) == contents
  {
    PrefixIs(cells, contents, |cells|);
    forall g | g in contents ensures g in Prefix(cells, |cells|) {
      var c :| 0 <= c < |cells| && cells[c].FullCell? && cells[c].group == g;
    }
  }

  lemma {:induction false} FoundFrom<G, P>(cells: seq<Cell<G, P>>, lo: nat, hi: nat, i: nat) returns (c: nat)
    requires lo <= hi <= |cells| && i < |FullIn(cells, lo, hi)|
    ensures lo <= c < hi && cells[c].FullCell? && FullIn(cells, lo, hi)[i] == (cells[c].group, cells[c].payload)
    ensures i == |FullIn(cells, lo, c)|
  {
    if i < |FullIn(cells, lo, hi - 1)| {
      c := FoundFrom(cells, lo, hi - 1, i);
    } else {
      c := hi - 1;
    }
  }

  lemma FoundApart<G(!new), P(!new)>(cells: seq<Cell<G, P>>, contents: map<G, P>, lo: nat, hi: nat)
    requires Stores(cells, contents) && lo <= hi <= |cells|
    ensures Apart(FullIn(cells, lo, hi))
    ensures forall i :: 0 <= i < |FullIn(cells, lo, hi)| ==>
              var (g, p) := FullIn(cells, lo, hi)[i]; g in contents && contents[g] == p
  {
    var found := FullIn(cells, lo, hi);
    forall i, j | 0 <= i < j < |found| ensures found[i].0 != found[j].0 {
      var c := FoundFrom(cells, lo, hi, i);
      var d := FoundFrom(cells, lo, hi, j);
      assert c != d;
    }
    forall i | 0 <= i < |found| ensures found[i].0 in contents && contents[found[i].0] == found[i].1 {
      var c := FoundFrom(cells, lo, hi, i);
    }
  }

  lemma PayloadStores<G(!new), P(!new)>(hash: G -> nat, cells: seq<Cell<G, P>>, contents: map<G, P>, pos: nat, p: P)
    requires Probing(hash, cells) && Stores(cells, contents) && pos < |cells| && cells[pos].FullCell?
    ensures Probing(hash, cells[pos := FullCell(cells[pos].group, p)])
    ensures Stores(cells[pos := FullCell(cells[pos].group, p)], contents[cells[pos].group := p])
    ensures |contents[cells[pos].group := p]| == |contents|
  {
    var g, after := cells[pos].group, cells[pos := FullCell(cells[pos].group, p)];
    assert contents[g := p].Keys == contents.Keys;
    forall h | h in contents[g := p] ensures HasGroup(after, h) {
      var c :| 0 <= c < |cells| && cells[c].FullCell? && cells[c].group == h;
      assert after[c].group == h;
    }
  }

  /** The full cells between two positions, in order. */
  function FullIn<G, P>(cells: seq<Cell<G, P>>, lo: nat, hi: nat): seq<(G, P)>
    requires lo <= hi <= |cells|
  {
    if lo == hi then []
    else FullIn(cells, lo, hi - 1) + if cells[hi - 1].FullCell? then [(cells[hi - 1].group, cells[hi - 1].payload)] else []
  }

  lemma {:induction false} FullInSplit<G, P>(cells: seq<Cell<G, P>>, lo: nat, mid: nat, hi: nat)
    requires lo <= mid <= hi <= |cells|
    ensures FullIn(cells, lo, hi) == FullIn(cells, lo, mid) + FullIn(cells, mid, hi)
  {
    if mid < hi {
      FullInSplit(cells, lo, mid, hi - 1);
    }
  }

  function GroupsIn<G, P>(found: seq<(G, P)>): seq<G> {
    seq(|found|, i requires 0 <= i < |found| => found[i].0)
  }

  /** A listing gives every group once, with its aggregates. */
  ghost predicate Lists<G(!new), P(!new)>(found: seq<(G, P)>, contents: map<G, P>) {
    && (forall i :: 0 <= i < |found| ==> found[i].0 in contents && contents[found[i].0] == found[i].1)
    && (forall i, j :: 0 <= i < j < |found| ==> found[i].0 != found[j].0)
    && |found| == |contents|
  }

  /** The groups among the first `n` cells. */
  ghost function Prefix<G, P>(cells: seq<Cell<G, P>>, n: nat): map<G, P>
    requires n <= |cells|
  {
    if n == 0 then map[]
    else if cells[n - 1].FullCell? then Prefix(cells, n - 1)[cells[n - 1].group := cells[n - 1].payload]
    else Prefix(cells, n - 1)
  }

  lemma {:induction false} PrefixIs<G(!new), P(!new)>(cells: seq<Cell<G, P>>, contents: map<G, P>, n: nat)
    requires Stores(cells, contents) && n <= |cells|
    ensures forall g :: g in Prefix(cells, n) <==> exists c :: 0 <= c < n && cells[c].FullCell? && cells[c].group == g
    ensures forall g :: g in Prefix(cells, n) ==> g in contents && Prefix(cells, n)[g] == contents[g]
    ensures |Prefix(cells, n)| <= n && |Prefix(cells, n)| <= |contents|
    ensures |FullIn(cells, 0, n)| == |Prefix(cells, n)|
  {
    if n > 0 {
      PrefixIs(cells, contents, n - 1);
    }
    SubsetSmaller(Prefix(cells, n).Keys, contents.Keys);
  }

  /** The map after groups were found or created in it. */
  function Created<G(==), P>(contents: map<G, P>, groups: seq<G>, empty: P): map<G, P> {
    if groups == [] then contents
    else
      var before := Created(contents, groups[..|groups| - 1], empty);
      var g := groups[|groups| - 1];
      if g in before then before else before[g := empty]
  }

  lemma CreatedNone<G, P>(contents: map<G, P>, groups: seq<G>, empty: P)
    ensures Created(contents, groups[..0], empty) == contents
  {
  }

  lemma {:induction false} CreatedKey<G, P>(contents: map<G, P>, groups: seq<G>, empty: P, g: G)
    ensures g in Created(contents, groups, empty) <==> g in contents || g in groups
  {
    if groups != [] {
      CreatedKey(contents, groups[..|groups| - 1], empty, g);
    }
  }

  lemma CreatedPush<G, P>(contents: map<G, P>, groups: seq<G>, n: nat, empty: P)
    requires n < |groups|
    ensures var before := Created(contents, groups[..n], empty);
            Created(contents, groups[..n + 1], empty) == if groups[n] in before then before else before[groups[n] := empty]
  {
    assert groups[..n + 1][..n] == groups[..n];
  }

  lemma StoredAt<G(!new), P(!new)>(cells: seq<Cell<G, P>>, contents: map<G, P>, pos: nat)
    requires Stores(cells, contents) && pos < |cells| && cells[pos].FullCell?
    ensures cells[pos].group in contents && contents[cells[pos].group] == cells[pos].payload
  {
  }

  lemma PassedNone<G(!new), P(!new)>(hash: G -> nat, cells: seq<Cell<G, P>>, g: G)
    requires |cells| > 0
    ensures Passed(hash, cells, g, 0) && Distance(Slot(hash, g, |cells|), Slot(hash, g, |cells|), |cells|) == 0
  {
  }

  lemma PassedMore<G(!new), P(!new)>(hash: G -> nat, cells: seq<Cell<G, P>>, g: G, pos: nat, gap: nat)
    requires pos < |cells| && gap < |cells| && cells[gap].EmptyCell? && cells[pos].FullCell? && cells[pos].group != g
    requires Passed(hash, cells, g, Distance(Slot(hash, g, |cells|), pos, |cells|))
    ensures var next := if pos + 1 < |cells| then pos + 1 else 0;
            var steps := Distance(Slot(hash, g, |cells|), pos, |cells|) + 1;
            steps < |cells| && Distance(Slot(hash, g, |cells|), next, |cells|) == steps && Passed(hash, cells, g, steps)
  {
    var slot, steps := Slot(hash, g, |cells|), Distance(Slot(hash, g, |cells|), pos, |cells|) + 1;
    DistanceInjective(slot, gap, pos, |cells|);
    forall k | 0 <= k < |cells| && Distance(slot, k, |cells|) < steps ensures cells[k].FullCell? && cells[k].group != g {
      if k != pos {
        DistanceInjective(slot, k, pos, |cells|);
      }
    }
  }
}
