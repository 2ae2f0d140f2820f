/**
 The chained join hash table: building it with resizes, and draining a probe
 step by step, against the relational definition of the joins.
 */
module JoinHashTable {
  import opened VersionChain
  import opened Comparisons
  import opened Vectors

  // ---------------------------------------------------------------- keys

  /** A key as it comes in. */
  type Key = seq<Datum>

  /** A stored row. */
  datatype Row = Row(key: seq<int>, payload: Payload)

  predicate HasNull(key: Key) {
    exists c :: 0 <= c < |key| && key[c].isNull
  }

  function Data(key: Key): seq<int> {
    seq(|key|, c requires 0 <= c < |key| => key[c].data)
  }

  /** What is hashed: NULL counts as the NULL value of its type, whatever the data holds. */
  function Hashed(key: Key, nullValue: int): seq<int> {
    seq(|key|, c requires 0 <= c < |key| => if key[c].isNull then nullValue else key[c].data)
  }

  /** Where NULL equals NULL, it becomes an ordinary value. */
  function Fill(key: Key, nullsEqual: seq<bool>, nullValue: int): Key {
    seq(|key|, c requires 0 <= c < |key| =>
          if c < |nullsEqual| && nullsEqual[c] && key[c].isNull then Datum(nullValue, false) else key[c])
  }

  function FillAll(keys: seq<Key>, nullsEqual: seq<bool>, nullValue: int): seq<Key> {
    seq(|keys|, i requires 0 <= i < |keys| => Fill(keys[i], nullsEqual, nullValue))
  }

  /** All conditions hold between the data of a probe key and a stored key; the NULL mask is not looked at. */
  predicate Matches(predicates: seq<Comparison>, probe: Key, key: seq<int>)
    requires |probe| == |key| == |predicates|
  {
    forall c :: 0 <= c < |predicates| ==> Holds(predicates[c], probe[c].data, key[c])
  }

  // ---------------------------------------------------------------- the table

  /** The list of row numbers starting at `first` and continued by `next`. */
  ghost predicate Linked(first: Option<nat>, next: seq<Option<nat>>, chain: seq<nat>) {
    && first == (if chain == [] then None else Some(chain[0]))
    && (forall k :: 0 <= k < |chain| ==> chain[k] < |next|)
    && (forall j, k :: 0 <= j < k < |chain| && k == j + 1 ==> next[chain[j]] == Some(chain[k]))
    && (chain != [] ==> next[chain[|chain| - 1]] == None)
  }

  /** The first `n` row numbers. */
  ghost function Upto(n: nat): (s: set<nat>)
    ensures forall r: nat :: r in s <==> r < n
  {
    if n == 0 then {} else Upto(n - 1) + {n - 1}
  }

  ghost function RowsOf(nodes: seq<seq<nat>>): set<nat> {
    if nodes == [] then {} else (set r | r in nodes[0]) + RowsOf(nodes[1..])
  }

  /** Every row is in one node, once. */
  ghost predicate NodesApart(nodes: seq<seq<nat>>) {
    nodes != [] ==>
      && Distinct(nodes[0]) && (forall r :: r in nodes[0] ==> r !in RowsOf(nodes[1..]))
      && NodesApart(nodes[1..])
  }

  class HashTable {
    const predicates: seq<Comparison>
    /** The equality conditions come first; only they are hashed. */
    const equalities: nat
    const hash: seq<int> -> nat
    /** The columns in which NULL equals NULL, all of them compared for equality. */
    const nullsEqual: seq<bool>
    const nullValue: int

    var capacity: nat
    var buckets: seq<Option<nat>>
    var rows: seq<Row>
    var next: seq<Option<nat>>
    /** The rows of every build call, newest call first. */
    var nodes: seq<seq<nat>>
    var count: nat
    var hasNull: bool
    ghost var chains: seq<seq<nat>>

    function Slot(key: seq<int>): nat
      requires capacity > 0 && equalities <= |key|
      reads this`capacity
    {
      hash(key[..equalities]) % capacity
    }

    function ProbeSlot(key: Key): nat
      requires capacity > 0 && equalities <= |key|
      reads this`capacity
    {
      Slot(Hashed(key, nullValue))
    }

    ghost predicate Shape()
      reads this`capacity, this`buckets, this`chains, this`rows, this`next
    {
      && capacity > 0 && |buckets| == |chains| == capacity && |rows| == |next|
      && 0 < equalities <= |predicates| && (forall c :: 0 <= c < equalities ==> predicates[c].Equal?)
      && |nullsEqual| == |predicates|
      && (forall r :: 0 <= r < |rows| ==> |rows[r].key| == |predicates|)
    }

    ghost predicate LinkedChains()
      requires |buckets| == |chains|
      reads this`buckets, this`chains, this`next
    {
      forall b :: 0 <= b < |chains| ==> Linked(buckets[b], next, chains[b])
    }

    /** The chains hold exactly these rows, each once, in the bucket of its hash. */
    ghost predicate Holds(placed: set<nat>)
      requires Shape()
      reads this`capacity, this`buckets, this`chains, this`rows, this`next
    {
      && (forall b :: 0 <= b < |chains| ==> Distinct(chains[b]))
      && (forall r :: r in placed ==> r < |rows|)
      && (forall b, r :: 0 <= b < |chains| ==> (r in chains[b] <==> r in placed && Slot(rows[r].key) == b))
    }

    ghost predicate Nodes()
      reads this`nodes, this`rows
    {
      RowsOf(nodes) == Upto(|rows|) && NodesApart(nodes)
    }

    ghost predicate Valid()
      reads this`capacity, this`buckets, this`chains, this`rows, this`next, this`nodes
    {
      Shape() && LinkedChains() && Nodes() && Holds(Upto(|rows|))
    }

    constructor (predicates: seq<Comparison>, equalities: nat, nullsEqual: seq<bool>, nullValue: int,
                 hash: seq<int> -> nat, capacity: nat)
      requires capacity > 0 && 0 < equalities <= |predicates| && forall c :: 0 <= c < equalities ==> predicates[c].Equal?
      requires |nullsEqual| == |predicates| && forall c :: 0 <= c < |predicates| && nullsEqual[c] ==> predicates[c].Equal?
      ensures Valid() && rows == [] && count == 0 && !hasNull
      ensures this.predicates == predicates && this.equalities == equalities && this.hash == hash
      ensures this.nullsEqual == nullsEqual && this.nullValue == nullValue
    {
      this.predicates, this.equalities, this.hash, this.capacity := predicates, equalities, hash, capacity;
      this.nullsEqual, this.nullValue := nullsEqual, nullValue;
      buckets := seq(capacity, _ => None);
      chains := seq(capacity, _ => []);
      rows, next, nodes, count, hasNull := [], [], [], 0, false;
    }

    /** Puts one row in front of the chain of its bucket. */
    method Insert(r: nat, ghost placed: set<nat>)
      requires Shape() && LinkedChains() && Holds(placed) && r < |rows| && r !in placed
      modifies this`next, this`buckets, this`chains
      ensures Shape() && LinkedChains() && Holds(placed + {r})
    {
      hide Linked, Distinct;
      var index := Slot(rows[r].key);
      forall b | 0 <= b < |chains|
        ensures Linked(buckets[b], next[r := buckets[index]], chains[b])
        ensures Linked(Some(r), next[r := buckets[b]], [r] + chains[b]) && Distinct([r] + chains[b])
      {
        assert r !in chains[b] && Linked(buckets[b], next, chains[b]);
        LinkPush(buckets[b], next, chains[b], r);
        LinkFrame(buckets[b], next, chains[b], r, buckets[index]);
        DistinctPush(r, chains[b]);
      }
      next := next[r := buckets[index]];
      buckets := buckets[index := Some(r)];
      chains := chains[index := [r] + chains[index]];
    }

    /** Inserts the rows of one node. */
    method InsertHashes(locations: seq<nat>, ghost placed: set<nat>)
      requires Shape() && LinkedChains() && Holds(placed) && Distinct(locations)
      requires forall k :: 0 <= k < |locations| ==> locations[k] < |rows| && locations[k] !in placed
      modifies this`next, this`buckets, this`chains
      ensures Shape() && LinkedChains() && Holds(placed + set r | r in locations)
    {
      ghost var now := placed;
      for i := 0 to |locations|
        invariant Shape() && LinkedChains() && Holds(now)
        invariant now == placed + set r | r in locations[..i]
      {
        assert locations[i] !in locations[..i];
        Insert(locations[i], now);
        now := now + {locations[i]};
        assert locations[..i + 1] == locations[..i] + [locations[i]];
      }
      assert locations[..|locations|] == locations;
    }

    /** Gives the table more buckets and inserts all rows again, node by node. */
    method Resize(size: nat)
      requires Valid() && size > capacity
      modifies this`capacity, this`next, this`buckets, this`chains
      ensures Valid() && capacity == size
    {
      capacity := size;
      buckets := seq(capacity, _ => None);
      next := seq(|rows|, _ => None);
      chains := seq(capacity, _ => []);
      ghost var done: set<nat> := {};
      assert nodes[0..] == nodes;
      for i := 0 to |nodes|
        invariant Shape() && LinkedChains() && Holds(done) && capacity == size
        invariant done == RowsOf(nodes) - RowsOf(nodes[i..]) && NodesApart(nodes[i..])
        invariant forall r :: r in RowsOf(nodes[i..]) ==> r < |rows|
      {
        hide Holds, LinkedChains;
        assert nodes[i..][0] == nodes[i] && nodes[i..][1..] == nodes[i + 1..];
        forall k | 0 <= k < |nodes[i]| ensures nodes[i][k] < |rows| && nodes[i][k] !in done {
          assert nodes[i][k] in RowsOf(nodes[i..]);
        }
        InsertHashes(nodes[i], done);
        done := done + set r | r in nodes[i];
        assert done == RowsOf(nodes) - RowsOf(nodes[i + 1..]) by { RowsSplit(nodes, i); }
      }
      assert nodes[|nodes|..] == [] && done == Upto(|rows|);
    }

    lemma Roomy()
      requires Valid()
      ensures capacity > 0
    {
    }

    /** NULL as an ordinary value in the columns in which it equals NULL. */
    function Filled(keys: seq<Key>): (filled: seq<Key>)
      ensures |filled| == |keys|
    {
      FillAll(keys, nullsEqual, nullValue)
    }

    /** Stores the rows of one chunk of the build side; rows with any other NULL in the key are only noted. */
    method Build(keys: seq<Key>, payload: seq<Payload>)
      requires Valid() && |keys| == |payload| && forall i :: 0 <= i < |keys| ==> |keys[i]| == |predicates|
      modifies this
      ensures Valid() && rows == old(rows) + Stored(Filled(keys), payload)
      ensures count == old(count) + |keys|
      ensures hasNull <==> old(hasNull) || exists i :: 0 <= i < |keys| && HasNull(Filled(keys)[i])
    {
      hide Shape, LinkedChains, Nodes, Holds, HasNull;
      if |keys| == 0 {
        return;
      }
      assert capacity > 0 by { Roomy(); }
      if count + |keys| > capacity / 2 {
        Resize(capacity * 2);
      }
      count := count + |keys|;
      var kept := StoredRows(Filled(keys), payload);
      if |kept| != |keys| {
        hasNull := true;
      }
      StoredCount(Filled(keys), payload, |predicates|);
      if kept == [] {
        return;
      }
      Append(kept);
    }

    /** The first row of the bucket of every probe key, and the keys with such a row. */
    method FirstPointers(keys: seq<Key>) returns (ptrs: seq<Option<nat>>, selected: seq<nat>, ghost first: seq<seq<nat>>)
      requires Valid() && forall i :: 0 <= i < |keys| ==> |keys[i]| == |predicates|
      ensures |ptrs| == |first| == |keys| && Distinct(selected) && Indices(selected, |keys|)
      ensures forall i :: 0 <= i < |keys| ==> Linked(ptrs[i], next, first[i]) && first[i] == chains[ProbeSlot(keys[i])]
      ensures forall i: nat :: i < |keys| ==> (i in selected <==> first[i] != [])
    {
      hide Linked, Nodes, Holds;
      ptrs, selected, first := [], [], [];
      for i := 0 to |keys|
        invariant |ptrs| == |first| == i && Distinct(selected) && Indices(selected, i)
        invariant forall j :: 0 <= j < i ==> Linked(ptrs[j], next, first[j]) && first[j] == chains[ProbeSlot(keys[j])]
        invariant forall j: nat :: j < i ==> (j in selected <==> first[j] != [])
      {
        var index := ProbeSlot(keys[i]);
        assert Linked(buckets[index], next, chains[index]);
        LinkSome(buckets[index], next, chains[index]);
        ptrs, first := ptrs + [buckets[index]], first + [chains[index]];
        if ptrs[i].Some? {
          selected := selected + [i];
        }
      }
    }

    /** A new node with these rows. */
    method Append(kept: seq<Row>)
      requires Valid() && forall i :: 0 <= i < |kept| ==> |kept[i].key| == |predicates|
      modifies this`rows, this`next, this`buckets, this`chains, this`nodes
      ensures Valid() && rows == old(rows) + kept
    {
      hide Linked, Distinct, NodesApart, RowsOf;
      var n := |rows|;
      var locations := seq(|kept|, i => n + i);
      rows := rows + kept;
      next := next + seq(|kept|, _ => None);
      forall b | 0 <= b < |chains| ensures Linked(buckets[b], next, chains[b]) {
        assert Linked(old(buckets)[b], old(next), chains[b]);
        LinkGrow(buckets[b], old(next), chains[b], next);
      }
      assert Holds(Upto(n));
      LocationsAre(n, locations);
      InsertHashes(locations, Upto(n));
      NodesPush(locations, nodes, n);
      nodes := [locations] + nodes;
    }
  }

  lemma LinkGrow(first: Option<nat>, next: seq<Option<nat>>, chain: seq<nat>, longer: seq<Option<nat>>)
    requires Linked(first, next, chain) && next <= longer
    ensures Linked(first, longer, chain)
  {
  }

  lemma LocationsAre(n: nat, locations: seq<nat>)
    requires forall i :: 0 <= i < |locations| ==> locations[i] == n + i
    ensures Upto(n) + (set r | r in locations) == Upto(n + |locations|) && Distinct(locations)
  {
    forall r: nat | n <= r < n + |locations| ensures r in locations {
      assert locations[r - n] == r;
    }
  }

  lemma NodesPush(locations: seq<nat>, nodes: seq<seq<nat>>, n: nat)
    requires NodesApart(nodes) && RowsOf(nodes) == Upto(n) && Distinct(locations)
    requires forall i :: 0 <= i < |locations| ==> locations[i] == n + i
    ensures NodesApart([locations] + nodes) && RowsOf([locations] + nodes) == Upto(n + |locations|)
  {
    assert ([locations] + nodes)[1..] == nodes;
    LocationsAre(n, locations);
  }

  lemma {:induction false} RowsSplit(nodes: seq<seq<nat>>, i: nat)
    requires i < |nodes| && NodesApart(nodes[i..])
    ensures RowsOf(nodes[i..]) - RowsOf(nodes[i + 1..]) == set r | r in nodes[i]
    ensures RowsOf(nodes[i..]) <= RowsOf(nodes)
  {
    assert nodes[i..][0] == nodes[i] && nodes[i..][1..] == nodes[i + 1..];
    RowsSuffix(nodes, i);
  }

  lemma {:induction false} RowsSuffix(nodes: seq<seq<nat>>, i: nat)
    requires i <= |nodes|
    ensures RowsOf(nodes[i..]) <= RowsOf(nodes)
  {
    if i == 0 {
      assert nodes[0..] == nodes;
    } else {
      assert nodes[1..][i - 1..] == nodes[i..];
      RowsSuffix(nodes[1..], i - 1);
    }
  }

  /** The rows of a chunk without NULL in their keys. */
  function Stored(keys: seq<Key>, payload: seq<Payload>): seq<Row>
    requires |keys| == |payload|
  {
    if keys == [] then []
    else Stored(keys[..|keys| - 1], payload[..|keys| - 1])
         + if HasNull(keys[|keys| - 1]) then [] else [Row(Data(keys[|keys| - 1]), payload[|keys| - 1])]
  }

  method StoredRows(keys: seq<Key>, payload: seq<Payload>) returns (kept: seq<Row>)
    requires |keys| == |payload|
    ensures kept == Stored(keys, payload)
  {
    kept := [];
    for i := 0 to |keys|
      invariant kept == Stored(keys[..i], payload[..i])
    {
      assert keys[..i + 1][..i] == keys[..i] && payload[..i + 1][..i] == payload[..i];
      if !HasNull(keys[i]) {
        kept := kept + [Row(Data(keys[i]), payload[i])];
      }
    }
    assert keys[..|keys|] == keys && payload[..|keys|] == payload;
  }

  lemma {:induction false} StoredCount(keys: seq<Key>, payload: seq<Payload>, width: nat)
    requires |keys| == |payload| && forall i :: 0 <= i < |keys| ==> |keys[i]| == width
    ensures |Stored(keys, payload)| <= |keys|
    ensures |Stored(keys, payload)| != |keys| <==> exists i :: 0 <= i < |keys| && HasNull(keys[i])
    ensures forall j :: 0 <= j < |Stored(keys, payload)| ==> |Stored(keys, payload)[j].key| == width
  {
    hide HasNull;
    if keys != [] {
      var n := |keys| - 1;
      StoredCount(keys[..n], payload[..n], width);
      assert forall i :: 0 <= i < n ==> keys[..n][i] == keys[i];
    }
  }

  lemma LinkPush(first: Option<nat>, next: seq<Option<nat>>, chain: seq<nat>, r: nat)
    requires Linked(first, next, chain) && r < |next| && r !in chain
    ensures Linked(Some(r), next[r := first], [r] + chain)
  {
    var longer, next' := [r] + chain, next[r := first];
    forall j, k | 0 <= j < k < |longer| && k == j + 1 ensures next'[longer[j]] == Some(longer[k]) {
      if j > 0 {
        assert longer[j] == chain[j - 1] && chain[j - 1] in chain && longer[k] == chain[k - 1];
      }
    }
  }

  lemma LinkFrame(first: Option<nat>, next: seq<Option<nat>>, chain: seq<nat>, r: nat, v: Option<nat>)
    requires Linked(first, next, chain) && r < |next| && r !in chain
    ensures Linked(first, next[r := v], chain)
  {
  }

  lemma DistinctPush(r: nat, rs: seq<nat>)
    requires Distinct(rs) && r !in rs
    ensures Distinct([r] + rs)
  {
  }

  predicate Distinct(rs: seq<nat>) {
    forall j, k :: 0 <= j < k < |rs| ==> rs[j] != rs[k]
  }

  // ---------------------------------------------------------------- probing

  /** A chunk of probe keys against the stored rows. */
  datatype Probe = Probe(predicates: seq<Comparison>, keys: seq<Key>, rows: seq<Row>)

  ghost predicate ProbeOk(p: Probe) {
    && p.predicates != []
    && (forall i :: 0 <= i < |p.keys| ==> |p.keys[i]| == |p.predicates|)
    && (forall r :: 0 <= r < |p.rows| ==> |p.rows[r].key| == |p.predicates|)
  }

  predicate MatchAt(p: Probe, i: nat, r: nat)
    requires ProbeOk(p) && i < |p.keys| && r < |p.rows|
  {
    Matches(p.predicates, p.keys[i], p.rows[r].key)
  }

  predicate InRange(p: Probe, chain: seq<nat>) {
    forall k :: 0 <= k < |chain| ==> chain[k] < |p.rows|
  }

  /** The pairs of a probe row with the rows of a chain that match it. */
  ghost function PairsIn(p: Probe, i: nat, chain: seq<nat>): multiset<(nat, nat)>
    requires ProbeOk(p) && i < |p.keys| && InRange(p, chain)
  {
    if chain == [] then multiset{}
    else (if MatchAt(p, i, chain[0]) then multiset{(i, chain[0])} else multiset{}) + PairsIn(p, i, chain[1..])
  }

  ghost predicate AllInRange(p: Probe, rest: seq<seq<nat>>) {
    |rest| == |p.keys| && forall i :: 0 <= i < |rest| ==> InRange(p, rest[i])
  }

  /** The pairs still to come for the first `n` probe rows. */
  ghost function Total(p: Probe, rest: seq<seq<nat>>, n: nat): multiset<(nat, nat)>
    requires ProbeOk(p) && AllInRange(p, rest) && n <= |rest|
  {
    if n == 0 then multiset{} else Total(p, rest, n - 1) + PairsIn(p, n - 1, rest[n - 1])
  }

  ghost function Steps(rest: seq<seq<nat>>, n: nat): nat
    requires n <= |rest|
  {
    if n == 0 then 0 else Steps(rest, n - 1) + |rest[n - 1]|
  }

  /** The pair at the head of a chain, if it matches. */
  ghost function Head(p: Probe, rest: seq<seq<nat>>, i: nat): multiset<(nat, nat)>
    requires ProbeOk(p) && AllInRange(p, rest) && i < |rest|
  {
    if rest[i] != [] && MatchAt(p, i, rest[i][0]) then multiset{(i, rest[i][0])} else multiset{}
  }

  function Advance(rest: seq<seq<nat>>, i: nat): seq<seq<nat>>
    requires i < |rest|
  {
    if rest[i] == [] then rest else rest[i := rest[i][1..]]
  }

  lemma AdvanceInRange(p: Probe, rest: seq<seq<nat>>, i: nat)
    requires AllInRange(p, rest) && i < |rest|
    ensures AllInRange(p, Advance(rest, i))
  {
  }

  lemma PairsStep(p: Probe, rest: seq<seq<nat>>, i: nat)
    requires ProbeOk(p) && i < |rest| && AllInRange(p, rest) && AllInRange(p, Advance(rest, i))
    ensures PairsIn(p, i, rest[i]) == Head(p, rest, i) + PairsIn(p, i, Advance(rest, i)[i])
  {
  }

  lemma Regroup(a: multiset<(nat, nat)>, b: multiset<(nat, nat)>, c: multiset<(nat, nat)>)
    ensures a + (b + c) == (a + c) + b && (a + b) + c == (a + c) + b
  {
  }

  /** Moving one probe row along its chain takes its head pair out of the pairs to come. */
  lemma {:induction false} AdvanceOne(p: Probe, rest: seq<seq<nat>>, i: nat, n: nat)
    requires ProbeOk(p) && i < |rest| && AllInRange(p, rest) && AllInRange(p, Advance(rest, i)) && n <= |rest|
    ensures Total(p, rest, n) == Total(p, Advance(rest, i), n) + if i < n then Head(p, rest, i) else multiset{}
    ensures Steps(rest, n) == Steps(Advance(rest, i), n) + if i < n && rest[i] != [] then 1 else 0
  {
    hide PairsIn, MatchAt, Head, InRange, ProbeOk;
    if n > 0 {
      AdvanceOne(p, rest, i, n - 1);
      var rest' := Advance(rest, i);
      if i == n - 1 {
        PairsStep(p, rest, i);
        Regroup(Total(p, rest', n - 1), Head(p, rest, i), PairsIn(p, i, rest'[i]));
      } else if i < n - 1 {
        Regroup(Total(p, rest', n - 1), Head(p, rest, i), PairsIn(p, n - 1, rest'[n - 1]));
      }
    }
  }

  ghost predicate Indices(sel: seq<nat>, n: nat) {
    forall k :: 0 <= k < |sel| ==> sel[k] < n
  }

  /** The matching head pairs of the selected probe rows. */
  ghost function Heads(p: Probe, rest: seq<seq<nat>>, sel: seq<nat>): multiset<(nat, nat)>
    requires ProbeOk(p) && AllInRange(p, rest) && Indices(sel, |rest|)
  {
    if sel == [] then multiset{} else Heads(p, rest, sel[..|sel| - 1]) + Head(p, rest, sel[|sel| - 1])
  }

  lemma HeadsNone(p: Probe, rest: seq<seq<nat>>)
    requires ProbeOk(p) && AllInRange(p, rest)
    ensures Heads(p, rest, []) == multiset{}
  {
  }

  lemma HeadsPush(p: Probe, rest: seq<seq<nat>>, sel: seq<nat>, k: nat)
    requires ProbeOk(p) && AllInRange(p, rest) && Indices(sel, |rest|) && k < |sel|
    ensures Heads(p, rest, sel[..k + 1]) == Heads(p, rest, sel[..k]) + Head(p, rest, sel[k])
  {
    assert sel[..k + 1][..k] == sel[..k];
  }

  /** The first `c` conditions hold. */
  ghost predicate PrefixMatch(p: Probe, i: nat, r: nat, c: nat)
    requires ProbeOk(p) && i < |p.keys| && r < |p.rows| && c <= |p.predicates|
  {
    forall d :: 0 <= d < c ==> Holds(p.predicates[d], p.keys[i][d].data, p.rows[r].key[d])
  }

  lemma ChainInRange(ht: HashTable, b: nat)
    requires ht.Valid() && b < |ht.chains|
    ensures forall k :: 0 <= k < |ht.chains[b]| ==> ht.chains[b][k] < |ht.rows|
  {
    forall k | 0 <= k < |ht.chains[b]| ensures ht.chains[b][k] < |ht.rows| {
      assert ht.chains[b][k] in ht.chains[b];
    }
  }

  class Scan {
    const ht: HashTable
    /** The probe keys, with NULL as an ordinary value where it equals NULL. */
    const keys: seq<Key>
    /** The row each probe row has reached, and the probe rows that have reached one. */
    var pointers: seq<Option<nat>>
    var sel: seq<nat>
    var found: seq<bool>
    var finished: bool
    /** The chain each probe row still has to follow. */
    ghost var rest: seq<seq<nat>>

    ghost function Inputs(): Probe
      reads ht
    {
      Probe(ht.predicates, keys, ht.rows)
    }

    ghost predicate Valid()
      reads this, ht
    {
      && ht.Valid() && ProbeOk(Inputs())
      && |pointers| == |found| == |rest| == |keys|
      && AllInRange(Inputs(), rest)
      && Distinct(sel) && Indices(sel, |rest|) && SelLinked(pointers, ht.next, rest, sel)
      && (forall i: nat :: i < |rest| ==> (i in sel <==> rest[i] != []))
    }

    /** The pairs still to come, and the steps. */
    ghost function Pending(): multiset<(nat, nat)>
      requires Valid()
      reads this, ht
    {
      Total(Inputs(), rest, |keys|)
    }

    ghost function Work(): nat
      requires Valid()
      reads this, ht
    {
      Steps(rest, |keys|)
    }

    /** Starts at the head of the chain of every probe row. */
    constructor (ht: HashTable, keys: seq<Key>)
      requires ht.Valid() && forall i :: 0 <= i < |keys| ==> |keys[i]| == |ht.predicates|
      ensures Valid() && this.ht == ht && this.keys == ht.Filled(keys) && !finished
      ensures Fresh()
    {
      var filled := ht.Filled(keys);
      this.ht, this.keys, finished := ht, filled, false;
      var ptrs, selected;
      ghost var chains;
      ptrs, selected, chains := ht.FirstPointers(filled);
      pointers, sel, rest, found := ptrs, selected, chains, seq(|keys|, _ => false);
      new;
      forall i | 0 <= i < |rest| ensures InRange(Inputs(), rest[i]) {
        ChainInRange(ht, ht.ProbeSlot(filled[i]));
      }
    }

    /** Nothing was probed yet. */
    ghost predicate Fresh()
      requires Valid()
      reads this, ht
    {
      forall i :: 0 <= i < |keys| ==> rest[i] == ht.chains[ht.ProbeSlot(keys[i])] && !found[i]
    }

    /** Tests all conditions for the selected probe rows, each on those that passed the ones before. */
    method ResolvePredicates() returns (result: seq<bool>)
      requires Valid()
      ensures |result| == |keys|
      ensures forall i: nat :: i in sel ==> i < |keys| && rest[i] != [] && result[i] == MatchAt(Inputs(), i, rest[i][0])
    {
      ghost var p := Inputs();
      result := seq(|keys|, _ => false);
      var current := sel;
      for c := 0 to |ht.predicates|
        invariant |result| == |keys| && Distinct(current)
        invariant forall i: nat :: i in current <==> i in sel && PrefixMatch(p, i, rest[i][0], c)
        invariant c > 0 ==> forall i: nat :: i in sel ==> result[i] == PrefixMatch(p, i, rest[i][0], c)
      {
        result, current := ResolveOne(c, current, result);
      }
    }

    /** Tests one condition on the probe rows in `current`. */
    method ResolveOne(c: nat, current: seq<nat>, before: seq<bool>) returns (result: seq<bool>, passed: seq<nat>)
      requires Valid() && c < |ht.predicates| && |before| == |keys| && Distinct(current)
      requires forall i :: i in current ==> i in sel
      ensures |result| == |keys| && Distinct(passed)
      ensures forall i: nat :: i < |keys| ==> result[i] == if i in current then Tested(c, i) else before[i]
      ensures forall i :: i in passed <==> i in current && Tested(c, i)
    {
      result, passed := before, [];
      for k := 0 to |current|
        invariant |result| == |keys| && Distinct(passed)
        invariant forall i: nat :: i < |keys| ==> result[i] == if i in current[..k] then Tested(c, i) else before[i]
        invariant forall i :: i in passed <==> i in current[..k] && Tested(c, i)
      {
        var i := current[k];
        assert i in current && i in sel && i !in current[..k];
        assert current[..k + 1] == current[..k] + [i];
        var key := ht.rows[pointers[i].value].key;
        var holds := Comparisons.Holds(ht.predicates[c], keys[i][c].data, key[c]);
        result := result[i := holds];
        if holds {
          passed := passed + [i];
        }
      }
      assert current[..|current|] == current;
    }

    ghost predicate Tested(c: nat, i: nat)
      requires Valid() && c < |ht.predicates|
      reads this, ht
    {
      i in sel && Comparisons.Holds(ht.predicates[c], keys[i][c].data, ht.rows[rest[i][0]].key[c])
    }

    /** Pairs the selected probe rows with the rows they have reached, where they match. */
    method Emit(comparison: seq<bool>) returns (pairs: seq<(nat, nat)>)
      requires Valid() && |comparison| == |keys|
      requires forall i: nat :: i in sel ==> comparison[i] == MatchAt(Inputs(), i, rest[i][0])
      modifies this`found
      ensures Valid() && multiset(pairs) == Heads(Inputs(), rest, sel)
      ensures Pending() == old(Pending()) && Work() == old(Work())
      ensures forall i: nat :: i < |keys| ==> (found[i] <==> old(found[i]) || Head(Inputs(), rest, i) != multiset{})
    {
      hide HashTable.Valid, ProbeOk, MatchAt, Heads, Linked;
      assert sel[..0] == [] && Heads(Inputs(), rest, []) == multiset{} by { HeadsNone(Inputs(), rest); }
      pairs := [];
      for k := 0 to |sel|
        invariant Valid()
        invariant multiset(pairs) == Heads(Inputs(), rest, sel[..k])
        invariant forall i: nat :: i < |keys| ==>
                    (found[i] <==> old(found[i]) || (i in sel[..k] && Head(Inputs(), rest, i) != multiset{}))
      {
        var i := sel[k];
        assert i in sel;
        HeadsPush(Inputs(), rest, sel, k);
        LinkNext(pointers[i], ht.next, rest[i]);
        assert sel[..k + 1] == sel[..k] + [i];
        if comparison[i] {
          found := found[i := true];
          pairs := pairs + [(i, pointers[i].value)];
        }
      }
      assert sel[..|sel|] == sel;
    }

    /** Moves the selected probe rows to the next row of their chains. */
    method Chase()
      requires Valid()
      modifies this`pointers, this`sel, this`rest
      ensures Valid() && Moved(old(rest), old(sel), rest)
      ensures old(Pending()) == Heads(Inputs(), old(rest), old(sel)) + Pending()
      ensures old(Work()) == Work() + |old(sel)|
    {
      hide HashTable.Valid, ProbeOk, MatchAt, Heads, Head, Total, Steps, Linked, InRange;
      pointers, sel, rest := ChasePointers(ht.next, sel, pointers, rest, Inputs());
    }

    /** Probe row `i` has matched or will. */
    ghost predicate Hit(i: nat)
      requires Valid() && i < |keys|
      reads this, ht
    {
      found[i] || AnyMatch(Inputs(), i, rest[i])
    }

    /** One step of all selected probe rows. */
    method ScanOnce() returns (pairs: seq<(nat, nat)>)
      requires Valid()
      modifies this`pointers, this`sel, this`rest, this`found
      ensures Valid()
      ensures old(Pending()) == multiset(pairs) + Pending() && old(Work()) == Work() + |old(sel)|
      ensures forall i: nat :: i < |keys| ==> (Hit(i) <==> old(Hit(i)))
    {
      hide Pending, Work, HashTable.Valid, ProbeOk, MatchAt, Heads, Head, Linked, AnyMatch, InRange, Distinct;
      ghost var p, before := Inputs(), rest;
      var comparison := ResolvePredicates();
      pairs := Emit(comparison);
      Chase();
      forall i: nat | i < |keys| ensures Hit(i) <==> old(Hit(i)) {
        if before[i] != [] {
          AnyStep(p, before, i);
        } else {
          NoHead(p, before, i);
        }
      }
    }

    /** Steps until something matches or all chains end. */
    method ScanInnerJoin() returns (pairs: seq<(nat, nat)>)
      requires Valid() && sel != []
      modifies this`pointers, this`sel, this`rest, this`found
      ensures Valid() && (pairs == [] ==> sel == [])
      ensures old(Pending()) == multiset(pairs) + Pending() && Work() < old(Work())
      ensures forall i: nat :: i < |keys| ==> (Hit(i) <==> old(Hit(i)))
    {
      hide Valid, Pending, Work, Hit;
      pairs := ScanOnce();
      while |sel| > 0 && pairs == []
        invariant Valid() && Work() < old(Work())
        invariant old(Pending()) == multiset(pairs) + Pending()
        invariant forall i: nat :: i < |keys| ==> (Hit(i) <==> old(Hit(i)))
        decreases Work()
      {
        pairs := ScanOnce();
      }
    }

    lemma NothingLeft()
      requires Valid() && sel == []
      ensures Pending() == multiset{} && |found| == |keys|
      ensures forall i: nat :: i < |keys| ==> (Hit(i) <==> found[i])
    {
      NoneLeft(Inputs(), rest, |keys|);
    }

    /** The next matching pairs; none at the end. */
    method NextInnerJoin() returns (pairs: seq<(nat, nat)>)
      requires Valid()
      modifies this`pointers, this`sel, this`rest, this`found
      ensures Valid() && (pairs == [] ==> sel == []) && (pairs != [] ==> Work() < old(Work()))
      ensures old(Pending()) == multiset(pairs) + Pending()
      ensures forall i: nat :: i < |keys| ==> (Hit(i) <==> old(Hit(i)))
    {
      hide Valid, Pending, Work, Hit;
      if |sel| == 0 {
        return [];
      }
      pairs := ScanInnerJoin();
    }

    /** The next matching pairs; when there are none left, the probe rows that matched nothing. */
    method NextLeftJoin() returns (pairs: seq<(nat, nat)>, unmatched: seq<nat>)
      requires Valid() && !finished
      modifies this
      ensures Valid() && (finished <==> pairs == []) && (!finished ==> unmatched == [] && Work() < old(Work()))
      ensures old(Pending()) == multiset(pairs) + Pending() && (finished ==> Pending() == multiset{})
      ensures forall i: nat :: i < |keys| ==> (Hit(i) <==> old(Hit(i)))
      ensures Distinct(unmatched)
      ensures finished ==> forall i: nat :: i in unmatched <==> i < |keys| && !Hit(i)
    {
      pairs := NextInnerJoin();
      unmatched := [];
      if |pairs| == 0 {
        NothingLeft();
        unmatched := WithFlag(false);
        finished := true;
      }
    }

    /** The probe rows with this match flag. */
    method WithFlag(flag: bool) returns (chosen: seq<nat>)
      requires Valid()
      ensures Distinct(chosen) && forall i: nat :: i in chosen <==> i < |keys| && found[i] == flag
    {
      chosen := [];
      for i := 0 to |keys|
        invariant Distinct(chosen) && forall j: nat :: j in chosen <==> j < i && found[j] == flag
      {
        if found[i] == flag {
          chosen := chosen + [i];
        }
      }
    }

    /** Follows every chain to its first match. */
    method ScanKeyMatches()
      requires Valid()
      modifies this`pointers, this`sel, this`rest, this`found
      ensures Valid() && sel == [] && |found| == |keys|
      ensures forall i: nat :: i < |keys| ==> (found[i] <==> old(Hit(i)))
    {
      hide Valid, Work, Hit;
      while |sel| > 0
        invariant Valid() && forall i: nat :: i < |keys| ==> (Hit(i) <==> old(Hit(i)))
        decreases Work()
      {
        MatchOnce();
      }
      NothingLeft();
    }

    /** One step of ScanKeyMatches: a match ends the search of its probe row. */
    method MatchOnce()
      requires Valid() && sel != []
      modifies this`pointers, this`sel, this`rest, this`found
      ensures Valid() && Work() < old(Work())
      ensures forall i: nat :: i < |keys| ==> (Hit(i) <==> old(Hit(i)))
    {
      hide HashTable.Valid, ProbeOk, MatchAt, Linked, AnyMatch, InRange, Steps, Distinct;
      var comparison := ResolvePredicates();
      pointers, sel, found, rest := MatchPointers(ht.next, sel, comparison, pointers, found, rest, Inputs());
    }
  }

  /** Each probe row has matched or will, as before. */
  ghost predicate SameHits(p: Probe, before: seq<bool>, rest: seq<seq<nat>>, after: seq<bool>, now: seq<seq<nat>>)
    requires ProbeOk(p) && AllInRange(p, rest) && AllInRange(p, now) && |before| == |after| == |rest|
  {
    forall i: nat :: i < |rest| ==> (after[i] || AnyMatch(p, i, now[i]) <==> before[i] || AnyMatch(p, i, rest[i]))
  }

  method MatchPointers(next: seq<Option<nat>>, chosen: seq<nat>, comparison: seq<bool>, pointers: seq<Option<nat>>,
                       found: seq<bool>, ghost rest: seq<seq<nat>>, ghost p: Probe)
    returns (ptrs: seq<Option<nat>>, left: seq<nat>, hits: seq<bool>, ghost now: seq<seq<nat>>)
    requires ProbeOk(p) && AllInRange(p, rest) && SelLinked(pointers, next, rest, chosen)
    requires |comparison| == |found| == |rest| && Distinct(chosen) && Indices(chosen, |rest|)
    requires forall i: nat :: i in chosen ==> rest[i] != [] && comparison[i] == MatchAt(p, i, rest[i][0])
    ensures AllInRange(p, now) && SelLinked(ptrs, next, now, left) && |hits| == |rest|
    ensures Distinct(left) && Indices(left, |rest|)
    ensures forall i: nat :: i < |rest| ==> if i in chosen then i in left <==> now[i] != [] else i !in left && now[i] == rest[i]
    ensures SameHits(p, found, rest, hits, now)
    ensures Steps(now, |rest|) + |chosen| <= Steps(rest, |rest|)
  {
    hide ProbeOk, MatchAt, Linked, AnyMatch, InRange, Steps;
    ptrs, left, hits, now := pointers, [], found, rest;
    for k := 0 to |chosen|
      invariant AllInRange(p, now) && SelLinked(ptrs, next, now, left) && SelLinked(ptrs, next, now, chosen[k..])
      invariant |hits| == |rest| && Distinct(left) && Indices(left, |rest|)
      invariant forall i: nat :: i < |rest| ==>
                  if i in chosen[..k] then i in left <==> now[i] != [] else i !in left && now[i] == rest[i] && hits[i] == found[i]
      invariant SameHits(p, found, rest, hits, now)
      invariant Steps(now, |rest|) + k <= Steps(rest, |rest|)
    {
      var i := chosen[k];
      assert i in chosen && i !in chosen[..k] && i in chosen[k..] && i !in chosen[k + 1..] && i !in left;
      assert chosen[..k + 1] == chosen[..k] + [i];
      LinkNext(ptrs[i], next, now[i]);
      if comparison[i] {
        FirstMatches(p, now, i);
        StepsDrop(now, i, [], |rest|);
        hits, now := hits[i := true], now[i := []];
      } else {
        FirstFails(p, now, i);
        StepsDrop(now, i, now[i][1..], |rest|);
        ptrs := ptrs[i := next[ptrs[i].value]];
        LinkSome(ptrs[i], next, now[i][1..]);
        now := now[i := now[i][1..]];
        if ptrs[i].Some? {
          left := left + [i];
        }
      }
    }
    assert chosen[..|chosen|] == chosen;
  }

  lemma FirstMatches(p: Probe, rest: seq<seq<nat>>, i: nat)
    requires ProbeOk(p) && AllInRange(p, rest) && i < |rest| && rest[i] != [] && MatchAt(p, i, rest[i][0])
    ensures AnyMatch(p, i, rest[i]) && AllInRange(p, rest[i := []]) && InRange(p, [])
  {
  }

  lemma FirstFails(p: Probe, rest: seq<seq<nat>>, i: nat)
    requires ProbeOk(p) && AllInRange(p, rest) && i < |rest| && rest[i] != [] && !MatchAt(p, i, rest[i][0])
    ensures AllInRange(p, rest[i := rest[i][1..]]) && InRange(p, rest[i][1..])
    ensures AnyMatch(p, i, rest[i]) <==> AnyMatch(p, i, rest[i][1..])
  {
    AnyStep(p, rest, i);
  }

  lemma {:induction false} StepsDrop(rest: seq<seq<nat>>, i: nat, shorter: seq<nat>, n: nat)
    requires i < |rest| && |shorter| < |rest[i]| && n <= |rest|
    ensures Steps(rest[i := shorter], n) + (if i < n then 1 else 0) <= Steps(rest, n)
  {
    if n > 0 {
      StepsDrop(rest, i, shorter, n - 1);
    }
  }

  lemma {:induction false} NoneLeft(p: Probe, rest: seq<seq<nat>>, n: nat)
    requires ProbeOk(p) && AllInRange(p, rest) && n <= |rest| && forall i :: 0 <= i < |rest| ==> rest[i] == []
    ensures Total(p, rest, n) == multiset{}
  {
    if n > 0 {
      NoneLeft(p, rest, n - 1);
    }
  }

  lemma NoHead(p: Probe, rest: seq<seq<nat>>, i: nat)
    requires ProbeOk(p) && AllInRange(p, rest) && i < |rest| && rest[i] == []
    ensures Head(p, rest, i) == multiset{}
  {
  }

  ghost predicate AnyMatch(p: Probe, i: nat, chain: seq<nat>)
    requires ProbeOk(p) && i < |p.keys| && InRange(p, chain)
  {
    exists k :: 0 <= k < |chain| && MatchAt(p, i, chain[k])
  }

  lemma AnyStep(p: Probe, rest: seq<seq<nat>>, i: nat)
    requires ProbeOk(p) && AllInRange(p, rest) && i < |rest| && rest[i] != []
    ensures InRange(p, rest[i][1..])
    ensures AnyMatch(p, i, rest[i]) <==> Head(p, rest, i) != multiset{} || AnyMatch(p, i, rest[i][1..])
  {
    var chain := rest[i];
    if k :| 0 <= k < |chain| && MatchAt(p, i, chain[k]) {
      if k > 0 {
        assert chain[1..][k - 1] == chain[k];
      }
    }
    if k :| 0 <= k < |chain[1..]| && MatchAt(p, i, chain[1..][k]) {
      assert chain[k + 1] == chain[1..][k];
    }
  }

  /** The selected pointers lead to their chains. */
  ghost predicate SelLinked(ptrs: seq<Option<nat>>, next: seq<Option<nat>>, rest: seq<seq<nat>>, sel: seq<nat>) {
    |ptrs| == |rest| && forall i :: i in sel && i < |rest| ==> Linked(ptrs[i], next, rest[i])
  }

  /** The chains after the chosen probe rows have moved on. */
  ghost predicate Moved(before: seq<seq<nat>>, chosen: seq<nat>, after: seq<seq<nat>>) {
    |before| == |after| && forall i: nat :: i < |after| ==>
      if i in chosen then before[i] != [] && after[i] == before[i][1..] else after[i] == before[i]
  }

  method ChasePointers(next: seq<Option<nat>>, chosen: seq<nat>, pointers: seq<Option<nat>>, ghost rest: seq<seq<nat>>, ghost p: Probe)
    returns (ptrs: seq<Option<nat>>, left: seq<nat>, ghost now: seq<seq<nat>>)
    requires ProbeOk(p) && AllInRange(p, rest) && SelLinked(pointers, next, rest, chosen)
    requires Distinct(chosen) && Indices(chosen, |rest|) && forall i :: i in chosen ==> rest[i] != []
    ensures AllInRange(p, now) && SelLinked(ptrs, next, now, left) && Moved(rest, chosen, now)
    ensures Distinct(left) && Indices(left, |rest|) && forall i: nat :: i in left <==> i in chosen && now[i] != []
    ensures Total(p, rest, |rest|) == Heads(p, rest, chosen) + Total(p, now, |rest|)
    ensures Steps(rest, |rest|) == Steps(now, |rest|) + |chosen|
  {
    hide ProbeOk, MatchAt, Heads, Head, Total, Steps, Linked, InRange;
    assert chosen[..0] == [] && chosen[..|chosen|] == chosen;
    HeadsNone(p, rest);
    ptrs, left, now := pointers, [], rest;
    for k := 0 to |chosen|
      invariant AllInRange(p, now) && SelLinked(ptrs, next, now, left) && Moved(rest, chosen[..k], now)
      invariant SelLinked(ptrs, next, now, chosen[k..])
      invariant Distinct(left) && Indices(left, |rest|) && forall i: nat :: i in left <==> i in chosen[..k] && now[i] != []
      invariant Total(p, rest, |rest|) == Heads(p, rest, chosen[..k]) + Total(p, now, |rest|)
      invariant Steps(rest, |rest|) == Steps(now, |rest|) + k
    {
      var i := chosen[k];
      assert i in chosen && i !in chosen[..k] && i in chosen[k..] && i !in chosen[k + 1..];
      assert chosen[..k + 1] == chosen[..k] + [i];
      AdvanceInRange(p, now, i);
      AdvanceOne(p, now, i, |rest|);
      HeadSame(p, rest, now, i);
      HeadsPush(p, rest, chosen, k);
      LinkNext(ptrs[i], next, now[i]);
      Regroup(Heads(p, rest, chosen[..k]), Head(p, rest, i), Total(p, Advance(now, i), |rest|));
      now := Advance(now, i);
      ptrs := ptrs[i := next[ptrs[i].value]];
      LinkSome(ptrs[i], next, now[i]);
      if ptrs[i].Some? {
        left := left + [i];
      }
    }
  }

  lemma HeadSame(p: Probe, rest: seq<seq<nat>>, now: seq<seq<nat>>, i: nat)
    requires ProbeOk(p) && AllInRange(p, rest) && AllInRange(p, now) && i < |rest| == |now| && rest[i] == now[i]
    ensures Head(p, rest, i) == Head(p, now, i)
  {
  }

  lemma LinkSome(first: Option<nat>, next: seq<Option<nat>>, chain: seq<nat>)
    requires Linked(first, next, chain)
    ensures first.Some? <==> chain != []
  {
  }

  lemma LinkNext(first: Option<nat>, next: seq<Option<nat>>, chain: seq<nat>)
    requires Linked(first, next, chain) && chain != []
    ensures first.Some? && first.value == chain[0] < |next| && Linked(next[first.value], next, chain[1..])
  {
  }

  // ---------------------------------------------------------------- the joins

  ghost function ProbeOf(ht: HashTable, keys: seq<Key>): Probe
    reads ht
  {
    Probe(ht.predicates, ht.Filled(keys), ht.rows)
  }

  /** Probe row `i` and stored row `r` satisfy all conditions: none of the values is NULL, and all comparisons hold. */
  ghost predicate Joins(p: Probe, i: nat, r: nat)
    requires ProbeOk(p)
  {
    i < |p.keys| && r < |p.rows| && !HasNull(p.keys[i]) && MatchAt(p, i, r)
  }

  /** Probe row `i` joins some stored row. */
  ghost predicate JoinsSome(p: Probe, i: nat)
    requires ProbeOk(p)
  {
    exists r: nat :: Joins(p, i, r)
  }

  /** What a probe emits: the rows in the bucket of the hashed key whose comparisons with the data hold. */
  ghost predicate Emitted(ht: HashTable, keys: seq<Key>, i: nat, r: nat)
    requires ht.Valid() && ProbeOk(ProbeOf(ht, keys))
    reads ht
  {
    var p := ProbeOf(ht, keys);
    i < |p.keys| && r < |p.rows| && ht.ProbeSlot(p.keys[i]) == ht.Slot(p.rows[r].key) && MatchAt(p, i, r)
  }

  ghost predicate EmitsSome(ht: HashTable, keys: seq<Key>, i: nat)
    requires ht.Valid() && ProbeOk(ProbeOf(ht, keys))
    reads ht
  {
    exists r: nat :: Emitted(ht, keys, i, r)
  }

  lemma {:induction false} PairsCount(p: Probe, i: nat, chain: seq<nat>, j: nat, r: nat)
    requires ProbeOk(p) && i < |p.keys| && InRange(p, chain) && Distinct(chain)
    ensures PairsIn(p, i, chain)[(j, r)] == if j == i && r in chain && MatchAt(p, i, r) then 1 else 0
  {
    hide MatchAt;
    if chain != [] {
      PairsCount(p, i, chain[1..], j, r);
      assert chain[0] !in chain[1..];
    }
  }

  lemma {:induction false} TotalCount(p: Probe, rest: seq<seq<nat>>, n: nat, j: nat, r: nat)
    requires ProbeOk(p) && AllInRange(p, rest) && n <= |rest| && forall i :: 0 <= i < |rest| ==> Distinct(rest[i])
    ensures Total(p, rest, n)[(j, r)] == if j < n && r in rest[j] && MatchAt(p, j, r) then 1 else 0
  {
    hide MatchAt, PairsIn;
    if n > 0 {
      TotalCount(p, rest, n - 1, j, r);
      PairsCount(p, n - 1, rest[n - 1], j, r);
    }
  }

  lemma ChainDistinct(ht: HashTable, b: nat)
    requires ht.Valid() && b < |ht.chains|
    ensures Distinct(ht.chains[b])
  {
  }

  lemma FreshChain(scan: Scan, keys: seq<Key>, i: nat, r: nat)
    requires scan.Valid() && scan.Fresh() && scan.keys == scan.ht.Filled(keys)
    ensures ProbeOf(scan.ht, keys) == scan.Inputs()
    ensures Emitted(scan.ht, keys, i, r) <==>
            i < |scan.keys| && r in scan.rest[i] && r < |scan.ht.rows| && MatchAt(scan.Inputs(), i, r)
  {
  }

  /** At the start of a probe, the pairs to come are exactly the emitted ones, each once. */
  lemma FreshExact(scan: Scan, keys: seq<Key>)
    requires scan.Valid() && scan.Fresh() && scan.keys == scan.ht.Filled(keys)
    ensures ProbeOf(scan.ht, keys) == scan.Inputs()
    ensures forall i: nat, r: nat :: scan.Pending()[(i, r)] == if Emitted(scan.ht, keys, i, r) then 1 else 0
    ensures forall i: nat :: i < |scan.keys| ==> (scan.Hit(i) <==> EmitsSome(scan.ht, keys, i))
  {
    var p, ht := scan.Inputs(), scan.ht;
    forall i | 0 <= i < |scan.rest| ensures Distinct(scan.rest[i]) {
      ChainDistinct(ht, ht.ProbeSlot(scan.keys[i]));
    }
    hide HashTable.Valid, Total, Linked, Distinct;
    forall i: nat, r: nat ensures scan.Pending()[(i, r)] == if Emitted(ht, keys, i, r) then 1 else 0 {
      TotalCount(p, scan.rest, |scan.keys|, i, r);
      FreshChain(scan, keys, i, r);
    }
    forall i: nat | i < |scan.keys| ensures scan.Hit(i) <==> EmitsSome(ht, keys, i) {
      if k :| 0 <= k < |scan.rest[i]| && MatchAt(p, i, scan.rest[i][k]) {
        FreshChain(scan, keys, i, scan.rest[i][k]);
        assert Emitted(ht, keys, i, scan.rest[i][k]);
      }
      if r: nat :| Emitted(ht, keys, i, r) {
        FreshChain(scan, keys, i, r);
        var k :| 0 <= k < |scan.rest[i]| && scan.rest[i][k] == r;
        assert MatchAt(p, i, scan.rest[i][k]);
      }
    }
  }

  /** The inner join of a chunk of probe keys: every emitted pair once, in batches until one is empty. */
  method InnerJoin(ht: HashTable, keys: seq<Key>) returns (pairs: seq<(nat, nat)>)
    requires ht.Valid() && ProbeOk(ProbeOf(ht, keys))
    ensures forall i: nat, r: nat :: multiset(pairs)[(i, r)] == if Emitted(ht, keys, i, r) then 1 else 0
  {
    hide Scan.Valid, Scan.Pending, Scan.Work, Scan.Hit, HashTable.Valid, Emitted, EmitsSome, Scan.Fresh;
    WidthsAre(ht, keys);
    var scan := new Scan(ht, keys);
    FreshExact(scan, keys);
    ghost var total := scan.Pending();
    pairs := [];
    while true
      invariant scan.Valid() && fresh(scan) && total == multiset(pairs) + scan.Pending()
      decreases scan.Work()
    {
      var batch := scan.NextInnerJoin();
      pairs := pairs + batch;
      if |batch| == 0 {
        break;
      }
    }
    scan.NothingLeft();
  }

  lemma WidthsAre(ht: HashTable, keys: seq<Key>)
    requires ProbeOk(ProbeOf(ht, keys))
    ensures forall i :: 0 <= i < |keys| ==> |keys[i]| == |ht.predicates|
  {
    forall i | 0 <= i < |keys| ensures |keys[i]| == |ht.predicates| {
      assert |ht.Filled(keys)[i]| == |keys[i]|;
    }
  }

  /** The left outer join: every emitted pair once, and every probe row without one once. */
  method LeftJoin(ht: HashTable, keys: seq<Key>) returns (pairs: seq<(nat, nat)>, unmatched: seq<nat>)
    requires ht.Valid() && ProbeOk(ProbeOf(ht, keys))
    ensures forall i: nat, r: nat :: multiset(pairs)[(i, r)] == if Emitted(ht, keys, i, r) then 1 else 0
    ensures Distinct(unmatched)
    ensures forall i: nat :: i in unmatched <==> i < |keys| && !EmitsSome(ht, keys, i)
  {
    hide Scan.Valid, Scan.Pending, Scan.Work, Scan.Hit, HashTable.Valid, Emitted, EmitsSome, Distinct, Scan.Fresh;
    WidthsAre(ht, keys);
    var scan := new Scan(ht, keys);
    FreshExact(scan, keys);
    ghost var total := scan.Pending();
    pairs, unmatched := [], [];
    label L:
    while !scan.finished
      invariant scan.Valid() && fresh(scan) && total == multiset(pairs) + scan.Pending()
      invariant forall i: nat :: i < |keys| ==> (scan.Hit(i) <==> old@L(scan.Hit(i)))
      invariant scan.finished ==> Distinct(unmatched) && scan.Pending() == multiset{}
                                  && forall i: nat :: i in unmatched <==> i < |keys| && !scan.Hit(i)
      decreases !scan.finished, scan.Work()
    {
      var batch: seq<(nat, nat)>;
      batch, unmatched := scan.NextLeftJoin();
      pairs := pairs + batch;
    }
  }

  /** The semi join keeps the probe rows for which a pair is emitted, the anti join the others. */
  method SemiOrAntiJoin(ht: HashTable, keys: seq<Key>, semi: bool) returns (chosen: seq<nat>)
    requires ht.Valid() && ProbeOk(ProbeOf(ht, keys))
    ensures Distinct(chosen)
    ensures forall i: nat :: i in chosen <==> i < |keys| && EmitsSome(ht, keys, i) == semi
  {
    hide Scan.Valid, Scan.Pending, Scan.Work, Scan.Hit, HashTable.Valid, Emitted, EmitsSome, Distinct, Scan.Fresh;
    WidthsAre(ht, keys);
    var scan := new Scan(ht, keys);
    FreshExact(scan, keys);
    scan.ScanKeyMatches();
    chosen := scan.WithFlag(semi);
  }

  // ---------------------------------------------------------------- NULL in probe keys

  /** Keys without NULL: the hash of a matching key is that of the stored row. */
  lemma MatchHashes(ht: HashTable, p: Probe, i: nat, r: nat)
    requires ht.Valid() && ProbeOk(p) && p.predicates == ht.predicates && i < |p.keys| && r < |p.rows| && MatchAt(p, i, r)
    requires forall c :: 0 <= c < ht.equalities ==> !p.keys[i][c].isNull
    ensures ht.ProbeSlot(p.keys[i]) == ht.Slot(p.rows[r].key)
  {
    forall c | 0 <= c < ht.equalities ensures Hashed(p.keys[i], ht.nullValue)[c] == p.rows[r].key[c] {
      assert Holds(ht.predicates[c], p.keys[i][c].data, p.rows[r].key[c]);
    }
    assert Hashed(p.keys[i], ht.nullValue)[..ht.equalities] == p.rows[r].key[..ht.equalities];
  }

  /** Of a probe row without NULL exactly the joining pairs are emitted, and of one with NULL no pair joins. */
  lemma EmittedIs(ht: HashTable, keys: seq<Key>, i: nat, r: nat)
    requires ht.Valid() && ProbeOk(ProbeOf(ht, keys))
    ensures Joins(ProbeOf(ht, keys), i, r) <==> Emitted(ht, keys, i, r) && !HasNull(ProbeOf(ht, keys).keys[i])
  {
    var p := ProbeOf(ht, keys);
    if Joins(p, i, r) {
      MatchHashes(ht, p, i, r);
    }
  }

  /** The emitted pairs are the joining ones if and only if none is emitted for a probe row with NULL. */
  lemma JoinExactly(ht: HashTable, keys: seq<Key>)
    requires ht.Valid() && ProbeOk(ProbeOf(ht, keys))
    ensures (forall i: nat, r: nat :: Emitted(ht, keys, i, r) <==> Joins(ProbeOf(ht, keys), i, r))
            <==> forall i: nat, r: nat :: Emitted(ht, keys, i, r) ==> !HasNull(ProbeOf(ht, keys).keys[i])
    ensures (forall i: nat :: EmitsSome(ht, keys, i) <==> JoinsSome(ProbeOf(ht, keys), i))
            <==> forall i: nat, r: nat :: Emitted(ht, keys, i, r) ==> !HasNull(ProbeOf(ht, keys).keys[i])
  {
    hide HasNull, HashTable.Valid, MatchAt, ProbeOk;
    var p := ProbeOf(ht, keys);
    forall i: nat, r: nat
      ensures Joins(p, i, r) <==> Emitted(ht, keys, i, r) && !HasNull(p.keys[i])
    {
      EmittedIs(ht, keys, i, r);
    }
    forall i: nat
      ensures JoinsSome(p, i) <==> i < |p.keys| && !HasNull(p.keys[i]) && EmitsSome(ht, keys, i)
    {
      if r: nat :| Joins(p, i, r) {
        assert Emitted(ht, keys, i, r);
      }
      if r: nat :| Emitted(ht, keys, i, r) && !HasNull(p.keys[i]) {
        assert Joins(p, i, r);
      }
    }
    if i: nat, r: nat :| Emitted(ht, keys, i, r) && HasNull(p.keys[i]) {
      assert EmitsSome(ht, keys, i) && !JoinsSome(p, i) && !Joins(p, i, r);
    } else {
      forall i: nat ensures EmitsSome(ht, keys, i) <==> JoinsSome(p, i) {
        if r: nat :| Emitted(ht, keys, i, r) {
          assert Joins(p, i, r);
        }
      }
    }
  }

  /** NULL carries the NULL value of its type, as it does when it comes from storage. */
  predicate CarriesNull(key: Key, nullValue: int) {
    forall c :: 0 <= c < |key| && key[c].isNull ==> key[c].data == nullValue
  }

  /** Stored keys lie above the NULL value, except where NULL is stored. */
  ghost predicate AboveNull(ht: HashTable)
    requires ht.Valid()
    reads ht
  {
    forall r, c :: 0 <= r < |ht.rows| && 0 <= c < |ht.predicates| && !ht.nullsEqual[c] ==> ht.rows[r].key[c] > ht.nullValue
  }

  /** Probe row `i` has NULL, under `<>`, `<` or `<=` only, and all other conditions hold. */
  ghost predicate Spurious(p: Probe, i: nat, r: nat)
    requires ProbeOk(p)
  {
    && i < |p.keys| && r < |p.rows| && HasNull(p.keys[i])
    && (forall c :: 0 <= c < |p.predicates| ==> SpuriousAt(p.predicates[c], p.keys[i][c], p.rows[r].key[c]))
  }

  predicate SpuriousAt(op: Comparison, probe: Datum, key: int) {
    if probe.isNull then op.NotEqual? || op.Less? || op.LessEq? else Holds(op, probe.data, key)
  }

  /** A filled key has NULL only where NULL does not equal NULL, and still carries the NULL value there. */
  lemma FilledAt(ht: HashTable, keys: seq<Key>, i: nat, c: nat)
    requires i < |keys| && c < |keys[i]| <= |ht.nullsEqual| && CarriesNull(keys[i], ht.nullValue)
    ensures ht.Filled(keys)[i][c].isNull ==> !ht.nullsEqual[c] && ht.Filled(keys)[i][c].data == ht.nullValue
  {
  }

  lemma SpuriousIs(ht: HashTable, keys: seq<Key>, i: nat, r: nat)
    requires ht.Valid() && ProbeOk(ProbeOf(ht, keys)) && AboveNull(ht)
    requires forall j :: 0 <= j < |keys| ==> CarriesNull(keys[j], ht.nullValue)
    ensures Spurious(ProbeOf(ht, keys), i, r) <==> Emitted(ht, keys, i, r) && HasNull(ProbeOf(ht, keys).keys[i])
  {
    var p := ProbeOf(ht, keys);
    WidthsAre(ht, keys);
    if i < |p.keys| && r < |p.rows| {
      forall c | 0 <= c < |p.predicates|
        ensures Holds(p.predicates[c], p.keys[i][c].data, p.rows[r].key[c])
                <==> SpuriousAt(p.predicates[c], p.keys[i][c], p.rows[r].key[c])
      {
        FilledAt(ht, keys, i, c);
      }
      if Spurious(p, i, r) {
        forall c | 0 <= c < ht.equalities ensures !p.keys[i][c].isNull {
          assert SpuriousAt(p.predicates[c], p.keys[i][c], p.rows[r].key[c]);
        }
        assert MatchAt(p, i, r);
        MatchHashes(ht, p, i, r);
      }
    }
  }

  /**
   With NULL as it comes from storage: the result of draining a probe is the
   join if and only if no probe row has NULL under `<>`, `<` or `<=` only and
   satisfies its other conditions with some stored row. For outer, semi and anti
   joins the same holds of the probe rows that find a partner.
   */
  lemma DrainExactly(ht: HashTable, keys: seq<Key>)
    requires ht.Valid() && ProbeOk(ProbeOf(ht, keys)) && AboveNull(ht)
    requires forall j :: 0 <= j < |keys| ==> CarriesNull(keys[j], ht.nullValue)
    ensures (forall i: nat, r: nat :: Emitted(ht, keys, i, r) <==> Joins(ProbeOf(ht, keys), i, r))
            <==> forall i: nat, r: nat :: !Spurious(ProbeOf(ht, keys), i, r)
    ensures (forall i: nat :: EmitsSome(ht, keys, i) <==> JoinsSome(ProbeOf(ht, keys), i))
            <==> forall i: nat, r: nat :: !Spurious(ProbeOf(ht, keys), i, r)
  {
    JoinExactly(ht, keys);
    forall i: nat, r: nat
      ensures Spurious(ProbeOf(ht, keys), i, r) <==> Emitted(ht, keys, i, r) && HasNull(ProbeOf(ht, keys).keys[i])
    {
      SpuriousIs(ht, keys, i, r);
    }
    hide Spurious, Emitted, HasNull, HashTable.Valid, Joins, JoinsSome, EmitsSome, AboveNull;
  }

  /** a.x = b.x AND a.y < b.y: the probe row (1, NULL) is joined with the stored row (1, v). */
  method NullProbeIsJoined(v: int, nullValue: int, hash: seq<int> -> nat, capacity: nat, payload: Payload)
    returns (pairs: seq<(nat, nat)>)
    requires capacity > 0 && nullValue < v
    ensures multiset(pairs)[(0, 0)] == 1
  {
    hide HashTable.Valid;
    var ht := new HashTable([Equal, Less], 1, [false, false], nullValue, hash, capacity);
    var built: Key, key: Key := [Datum(1, false), Datum(v, false)], [Datum(1, false), Datum(nullValue, true)];
    ht.Build([built], [payload]);
    assert Fill(built, [false, false], nullValue) == built && Fill(key, [false, false], nullValue) == key;
    assert ht.Filled([built]) == [built] && ht.Filled([key]) == [key];
    assert Stored([built], [payload]) == [Row(Data(built), payload)] by { assert [built][..0] == []; }
    assert Data(built) == [1, v];
    assert ht.rows == [Row([1, v], payload)];
    pairs := InnerJoin(ht, [key]);
    MatchHashes(ht, ProbeOf(ht, [key]), 0, 0);
    assert Emitted(ht, [key], 0, 0);
  }
}
