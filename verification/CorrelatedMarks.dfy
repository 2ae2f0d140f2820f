/**
 Correlated mark joins: the mark of every probe row is decided within its group,
 from a hash table of the group columns with the value, and from a table of
 counts per group.
 */
module CorrelatedMarks {
  import opened VersionChain
  import opened Comparisons
  import opened Vectors
  import opened JoinHashTable
  import opened AggregateHashTable
  import opened MarkJoin

  // ---------------------------------------------------------------- groups

  /** The group columns, in which NULL is an ordinary value. */
  type Group = seq<int>

  /** The values of a group, NULL included. */
  function GroupValues(rows: seq<(Group, Option<int>)>, g: Group): seq<Option<int>> {
    if rows == [] then []
    else GroupValues(rows[..|rows| - 1], g) + if rows[|rows| - 1].0 == g then [rows[|rows| - 1].1] else []
  }

  lemma {:induction false} GroupValuesAre(rows: seq<(Group, Option<int>)>, g: Group, v: Option<int>)
    ensures v in GroupValues(rows, g) <==> (g, v) in rows
  {
    if rows != [] {
      GroupValuesAre(rows[..|rows| - 1], g, v);
      assert rows == rows[..|rows| - 1] + [rows[|rows| - 1]];
    }
  }

  lemma GroupValuesPush(rows: seq<(Group, Option<int>)>, h: Group, v: Option<int>, g: Group)
    ensures GroupValues(rows + [(h, v)], g) == if h == g then GroupValues(rows, g) + [v] else GroupValues(rows, g)
  {
    assert (rows + [(h, v)])[..|rows|] == rows;
  }

  function NonNulls(vs: seq<Option<int>>): nat {
    if vs == [] then 0 else NonNulls(vs[..|vs| - 1]) + if vs[|vs| - 1].Some? then 1 else 0
  }

  lemma {:induction false} NonNullsIs(vs: seq<Option<int>>)
    ensures NonNulls(vs) <= |vs| && (NonNulls(vs) < |vs| <==> None in vs)
  {
    if vs != [] {
      NonNullsIs(vs[..|vs| - 1]);
    }
  }

  /** COUNT(*) and COUNT(value). */
  datatype Counts = Counts(star: nat, some: nat)

  function CountsOf(vs: seq<Option<int>>): Counts {
    Counts(|vs|, NonNulls(vs))
  }

  lemma CountsPush(vs: seq<Option<int>>, v: Option<int>)
    ensures CountsOf(vs + [v]) == Counts(CountsOf(vs).star + 1, CountsOf(vs).some + if v.Some? then 1 else 0)
  {
    assert (vs + [v])[..|vs|] == vs;
  }

  // ---------------------------------------------------------------- the mark of one key

  /** The mark of a key from its match flag and the counts of its group. */
  function CorrelatedMark(isNull: bool, found: bool, counts: Counts): Truth {
    var undecided := isNull || (!found && counts.star > counts.some);
    if counts.star > 0 && undecided then Unknown else if found then True else False
  }

  /** The mark is the membership of the key in the values of its group, also if there are none. */
  lemma CorrelatedMarkIsIn(x: Option<int>, vs: seq<Option<int>>, found: bool)
    requires (x.Some? ==> (found <==> x in vs)) && (found ==> vs != [])
    ensures CorrelatedMark(x.None?, found, CountsOf(vs)) == In(x, vs)
  {
    InIs(x, vs);
    NonNullsIs(vs);
  }

  // ---------------------------------------------------------------- the counts of every group

  /** The table has the counts of all groups of these rows; groups without rows may be there too. */
  ghost predicate Counted(contents: map<Group, Counts>, rows: seq<(Group, Option<int>)>) {
    && (forall g :: g in contents ==> contents[g] == CountsOf(GroupValues(rows, g)))
    && (forall g :: GroupValues(rows, g) != [] ==> g in contents)
  }

  const NO_COUNTS := Counts(0, 0)

  /** Creating groups keeps the counts: a new one has no rows. */
  lemma CountedCreated(contents: map<Group, Counts>, rows: seq<(Group, Option<int>)>, groups: seq<Group>)
    requires Counted(contents, rows)
    ensures Counted(Created(contents, groups, NO_COUNTS), rows)
    ensures forall g :: g in groups ==> g in Created(contents, groups, NO_COUNTS)
  {
    hide GroupValues, Created;
    forall g ensures g in Created(contents, groups, NO_COUNTS) <==> g in contents || g in groups {
      CreatedKey(contents, groups, NO_COUNTS, g);
    }
    forall g | g in Created(contents, groups, NO_COUNTS)
      ensures Created(contents, groups, NO_COUNTS)[g] == CountsOf(GroupValues(rows, g))
    {
      if g in contents {
        CreatedKeeps(contents, groups, NO_COUNTS);
      } else {
        CreatedFresh(contents, groups, NO_COUNTS, g);
      }
    }
  }

  lemma CountedPush(contents: map<Group, Counts>, rows: seq<(Group, Option<int>)>, h: Group, v: Option<int>)
    requires Counted(contents, rows) && h in contents
    ensures var was := contents[h];
            Counted(contents[h := Counts(was.star + 1, was.some + if v.Some? then 1 else 0)], rows + [(h, v)])
  {
    hide GroupValues, CountsOf;
    forall g ensures GroupValues(rows + [(h, v)], g) == if h == g then GroupValues(rows, g) + [v] else GroupValues(rows, g) {
      GroupValuesPush(rows, h, v, g);
    }
    CountsPush(GroupValues(rows, h), v);
  }

  /** Counts the rows of a chunk. */
  method AddCounts(table: Table<Group, Counts>, groups: seq<Group>, values: seq<Option<int>>,
                   ghost rows: seq<(Group, Option<int>)>)
    requires table.Valid() && table.empty == NO_COUNTS && Counted(table.contents, rows)
    requires |groups| == |values| <= STANDARD_VECTOR_SIZE
    modifies table, table.cells
    ensures table.Valid() && (table.cells == old(table.cells) || fresh(table.cells))
    ensures Counted(table.contents, rows + Zip(groups, values))
  {
    hide Table.Valid, Counted, Created;
    CountedCreated(table.contents, rows, groups);
    ghost var more := Zip(groups, values);
    var addresses, _ := table.FindOrCreateGroups(groups);
    assert rows + more[..0] == rows;
    for i := 0 to |groups|
      invariant table.Valid() && (table.cells == old(table.cells) || fresh(table.cells))
      invariant forall j :: 0 <= j < |groups| ==> table.Holds(addresses[j], groups[j])
      invariant Counted(table.contents, rows + more[..i])
    {
      assert rows + more[..i + 1] == rows + more[..i] + [(groups[i], values[i])];
      var was := table.PayloadAt(addresses[i]);
      CountedPush(table.contents, rows + more[..i], groups[i], values[i]);
      table.SetPayload(addresses[i], Counts(was.star + 1, was.some + if values[i].Some? then 1 else 0));
    }
    assert more[..|groups|] == more;
  }

  function Zip(groups: seq<Group>, values: seq<Option<int>>): seq<(Group, Option<int>)>
    requires |groups| == |values|
  {
    seq(|groups|, i requires 0 <= i < |groups| => (groups[i], values[i]))
  }

  /** The counts of the groups of a chunk; groups that are not there are created. */
  method FetchCounts(table: Table<Group, Counts>, groups: seq<Group>, ghost rows: seq<(Group, Option<int>)>)
    returns (counts: seq<Counts>)
    requires table.Valid() && table.empty == NO_COUNTS && Counted(table.contents, rows) && |groups| <= STANDARD_VECTOR_SIZE
    modifies table, table.cells
    ensures table.Valid() && (table.cells == old(table.cells) || fresh(table.cells)) && Counted(table.contents, rows)
    ensures |counts| == |groups| && forall i :: 0 <= i < |groups| ==> counts[i] == CountsOf(GroupValues(rows, groups[i]))
  {
    hide Table.Valid, Created, GroupValues, CountsOf;
    CountedCreated(table.contents, rows, groups);
    var addresses, _ := table.FindOrCreateGroups(groups);
    counts := [];
    for i := 0 to |groups|
      invariant |counts| == i && forall j :: 0 <= j < i ==> counts[j] == CountsOf(GroupValues(rows, groups[j]))
      modifies {}
    {
      var c := table.PayloadAt(addresses[i]);
      counts := counts + [c];
    }
  }

  // ---------------------------------------------------------------- the join

  /** The group of a key with `width` group columns. */
  function GroupOf(key: Key, width: nat, nullValue: int): Group
    requires width < |key|
  {
    Hashed(key, nullValue)[..width]
  }

  function KeyGroups(keys: seq<Key>, width: nat, nullValue: int): seq<Group>
    requires forall i :: 0 <= i < |keys| ==> |keys[i]| == width + 1
  {
    seq(|keys|, i requires 0 <= i < |keys| => GroupOf(keys[i], width, nullValue))
  }

  function KeyValues(keys: seq<Key>, width: nat): seq<Option<int>>
    requires forall i :: 0 <= i < |keys| ==> |keys[i]| == width + 1
  {
    seq(|keys|, i requires 0 <= i < |keys| => keys[i][width].Value())
  }

  /** Filling makes the data of the group columns the group, and leaves the value alone. */
  lemma FilledIs(key: Key, width: nat, nullValue: int)
    requires |key| == width + 1
    ensures var f := Fill(key, NullsEqual(width), nullValue);
            && |f| == width + 1 && f[width] == key[width] && Data(f)[..width] == GroupOf(key, width, nullValue)
            && (forall c :: 0 <= c < width ==> !f[c].isNull && f[c].data == GroupOf(key, width, nullValue)[c])
            && (HasNull(f) <==> key[width].isNull)
            && Hashed(f, nullValue)[..width] == GroupOf(key, width, nullValue)
  {
    var f := Fill(key, NullsEqual(width), nullValue);
    if HasNull(f) {
      var c :| 0 <= c < |f| && f[c].isNull;
      assert c == width;
    }
  }

  function NullsEqual(width: nat): seq<bool> {
    seq(width, _ => true) + [false]
  }

  /** These are the rows whose value is not NULL. */
  ghost predicate Contains(stored: seq<Row>, rows: seq<(Group, Option<int>)>, width: nat) {
    && (forall r :: 0 <= r < |stored| ==> IsRow(stored[r].key, rows, width))
    && (forall e :: e in rows && e.1.Some? ==> exists r :: 0 <= r < |stored| && stored[r].key == e.0 + [e.1.value])
  }

  ghost predicate IsRow(key: seq<int>, rows: seq<(Group, Option<int>)>, width: nat) {
    |key| == width + 1 && (key[..width], Some(key[width])) in rows
  }

  lemma ContainsConcat(a: seq<Row>, b: seq<Row>, us: seq<(Group, Option<int>)>, vs: seq<(Group, Option<int>)>, width: nat)
    requires Contains(a, us, width) && Contains(b, vs, width)
    ensures Contains(a + b, us + vs, width)
  {
    forall e | e in us + vs && e.1.Some? ensures exists r :: 0 <= r < |a + b| && (a + b)[r].key == e.0 + [e.1.value] {
      if e in us {
        var r :| 0 <= r < |a| && a[r].key == e.0 + [e.1.value];
        assert (a + b)[r].key == e.0 + [e.1.value];
      } else {
        var r :| 0 <= r < |b| && b[r].key == e.0 + [e.1.value];
        assert (a + b)[|a| + r].key == e.0 + [e.1.value];
      }
    }
  }

  /** The hash table holds the rows whose value is not NULL. */
  ghost predicate HoldsRows(ht: HashTable, rows: seq<(Group, Option<int>)>, width: nat)
    reads ht
  {
    && ht.Valid() && ht.predicates == seq(width + 1, _ => Equal) && ht.equalities == width + 1
    && ht.nullsEqual == NullsEqual(width) && ht.count == |rows|
    && Contains(ht.rows, rows, width)
  }

  /** The rows of a chunk. */
  function KeyRows(keys: seq<Key>, width: nat, nullValue: int): seq<(Group, Option<int>)>
    requires forall i :: 0 <= i < |keys| ==> |keys[i]| == width + 1
  {
    Zip(KeyGroups(keys, width, nullValue), KeyValues(keys, width))
  }

  lemma {:induction false} StoredContain(keys: seq<Key>, payload: seq<Payload>, width: nat, nullValue: int)
    requires |payload| == |keys| && forall i :: 0 <= i < |keys| ==> |keys[i]| == width + 1
    ensures var all, rows := Stored(FillAll(keys, NullsEqual(width), nullValue), payload), KeyRows(keys, width, nullValue);
            Contains(all, rows, width)
  {
    if keys != [] {
      hide Fill, Stored, HasNull, Contains;
      var n := |keys| - 1;
      var init, last := keys[..n], keys[n];
      StoredContain(init, payload[..n], width, nullValue);
      FilledIs(last, width, nullValue);
      var f := Fill(last, NullsEqual(width), nullValue);
      var filled := FillAll(keys, NullsEqual(width), nullValue);
      assert filled[..n] == FillAll(init, NullsEqual(width), nullValue);
      var e := (GroupOf(last, width, nullValue), last[width].Value());
      assert KeyRows(keys, width, nullValue) == KeyRows(init, width, nullValue) + [e];
      StoredLast(filled, payload);
      assert !last[width].isNull ==> Data(f) == e.0 + [e.1.value];
      var one := if last[width].isNull then [] else [Row(Data(f), payload[n])];
      ContainsOne(e, payload[n], width);
      ContainsConcat(Stored(filled[..n], payload[..n]), one, KeyRows(init, width, nullValue), [e], width);
    }
  }

  lemma ContainsOne(e: (Group, Option<int>), payload: Payload, width: nat)
    requires |e.0| == width
    ensures Contains(if e.1.None? then [] else [Row(e.0 + [e.1.value], payload)], [e], width)
  {
    if e.1.Some? {
      var key := e.0 + [e.1.value];
      assert key[..width] == e.0 && key[width] == e.1.value;
      assert [Row(key, payload)][0].key == key;
    }
  }

  lemma StoredLast(keys: seq<Key>, payload: seq<Payload>)
    requires |payload| == |keys| > 0
    ensures var n := |keys| - 1;
            Stored(keys, payload)
            == Stored(keys[..n], payload[..n]) + if HasNull(keys[n]) then [] else [Row(Data(keys[n]), payload[n])]
  {
  }

  /** A hash table for a correlated mark join, with its counts. */
  class MarkTable {
    const width: nat
    const ht: HashTable
    const counts: Table<Group, Counts>
    /** The rows of the build side. */
    ghost var rows: seq<(Group, Option<int>)>

    ghost predicate Valid()
      reads this, ht, counts, counts.cells
    {
      && HoldsRows(ht, rows, width)
      && counts.Valid() && counts.empty == NO_COUNTS && Counted(counts.contents, rows)
    }

    constructor (width: nat, nullValue: int, hash: seq<int> -> nat, capacity: nat)
      requires width > 0 && capacity > 0
      ensures Valid() && rows == [] && this.width == width && ht.nullValue == nullValue
      ensures fresh(ht) && fresh(counts) && fresh(counts.cells)
    {
      this.width := width;
      ht := new HashTable(seq(width + 1, _ => Equal), width + 1, NullsEqual(width), nullValue, hash, capacity);
      counts := new Table(hash, NO_COUNTS, STANDARD_VECTOR_SIZE);
      rows := [];
    }

    /** Adds a chunk of the build side: to the counts all of it, to the hash table what is not NULL. */
    method Build(keys: seq<Key>, payload: seq<Payload>)
      requires Valid() && |keys| == |payload| <= STANDARD_VECTOR_SIZE
      requires forall i :: 0 <= i < |keys| ==> |keys[i]| == width + 1
      modifies this`rows, ht, counts, counts.cells
      ensures Valid() && (counts.cells == old(counts.cells) || fresh(counts.cells))
      ensures rows == old(rows) + KeyRows(keys, width, ht.nullValue)
    {
      hide HashTable.Valid, Table.Valid, Counted, Contains;
      ghost var more, stored := KeyRows(keys, width, ht.nullValue), Stored(ht.Filled(keys), payload);
      StoredContain(keys, payload, width, ht.nullValue);
      ContainsConcat(ht.rows, stored, rows, more, width);
      AddCounts(counts, KeyGroups(keys, width, ht.nullValue), KeyValues(keys, width), rows);
      ht.Build(keys, payload);
      rows := rows + more;
    }

    /**
     The marks of a chunk of keys: each is the membership of its value among the
     values of its group, also if the group is empty or has NULLs.
     */
    method Marks(keys: seq<Key>) returns (marks: seq<Truth>)
      requires Valid() && |keys| <= STANDARD_VECTOR_SIZE && forall i :: 0 <= i < |keys| ==> |keys[i]| == width + 1
      modifies counts, counts.cells
      ensures Valid() && rows == old(rows)
      ensures |marks| == |keys| && forall i :: 0 <= i < |keys| ==>
                marks[i] == In(keys[i][width].Value(), GroupValues(rows, GroupOf(keys[i], width, ht.nullValue)))
    {
      hide HashTable.Valid, Table.Valid, Counted, Contains, In, GroupValues, Emitted, HashTable.Filled, Hashed;
      if ht.count == 0 {
        marks := seq(|keys|, _ => False);
        NoRows();
        return;
      }
      var scan := new Scan(ht, keys);
      FreshExact(scan, keys);
      scan.ScanKeyMatches();
      var groups := KeyGroups(keys, width, ht.nullValue);
      var fetched := FetchCounts(counts, groups, rows);
      marks := [];
      for i := 0 to |keys|
        invariant |marks| == i && forall j :: 0 <= j < i ==>
                    marks[j] == In(keys[j][width].Value(), GroupValues(rows, GroupOf(keys[j], width, ht.nullValue)))
        modifies {}
      {
        var count := fetched[i];
        var isNull := keys[i][width].isNull;
        if !scan.found[i] && count.star > count.some {
          isNull := true;
        }
        if count.star == 0 {
          isNull := false;
        }
        FoundIs(keys, i);
        CorrelatedMarkIsIn(keys[i][width].Value(), GroupValues(rows, groups[i]), scan.found[i]);
        marks := marks + [if isNull then Unknown else if scan.found[i] then True else False];
      }
    }

    lemma NoRows()
      requires HoldsRows(ht, rows, width) && ht.count == 0
      ensures forall x, g :: In(x, GroupValues(rows, g)) == False
    {
    }

    /** A probe finds a row exactly if its group has its value; what it finds for NULL is in its group too. */
    lemma FoundIs(keys: seq<Key>, i: nat)
      requires HoldsRows(ht, rows, width) && i < |keys| && forall j :: 0 <= j < |keys| ==> |keys[j]| == width + 1
      ensures ProbeOk(ProbeOf(ht, keys))
      ensures var vs, x := GroupValues(rows, GroupOf(keys[i], width, ht.nullValue)), keys[i][width].Value();
              && (EmitsSome(ht, keys, i) ==> vs != [])
              && (x.Some? ==> (EmitsSome(ht, keys, i) <==> x in vs))
    {
      hide GroupValues, Fill, HashTable.Valid, Emitted, Contains, Hashed;
      ProbesOk(keys);
      var g, x := GroupOf(keys[i], width, ht.nullValue), keys[i][width].Value();
      GroupValuesAre(rows, g, x);
      if r: nat :| Emitted(ht, keys, i, r) {
        EmittedInGroup(keys, i, r);
        GroupValuesAre(rows, g, Some(ht.rows[r].key[width]));
      }
      if x.Some? && (g, x) in rows {
        var r := InGroupEmitted(keys, i);
      }
    }

    lemma ProbesOk(keys: seq<Key>)
      requires HoldsRows(ht, rows, width) && forall j :: 0 <= j < |keys| ==> |keys[j]| == width + 1
      ensures ProbeOk(ProbeOf(ht, keys))
    {
      hide Fill;
      forall j | 0 <= j < |keys| ensures |Fill(keys[j], NullsEqual(width), ht.nullValue)| == width + 1 {
        FilledIs(keys[j], width, ht.nullValue);
      }
    }

    lemma EmittedInGroup(keys: seq<Key>, i: nat, r: nat)
      requires HoldsRows(ht, rows, width) && i < |keys| && forall j :: 0 <= j < |keys| ==> |keys[j]| == width + 1
      requires Emitted(ht, keys, i, r)
      ensures r < |ht.rows| && |ht.rows[r].key| == width + 1
      ensures (GroupOf(keys[i], width, ht.nullValue), Some(ht.rows[r].key[width])) in rows
      ensures !keys[i][width].isNull ==> keys[i][width].data == ht.rows[r].key[width]
    {
      hide Fill, HashTable.Valid;
      var g, p := GroupOf(keys[i], width, ht.nullValue), ProbeOf(ht, keys);
      FilledIs(keys[i], width, ht.nullValue);
      var key := p.rows[r].key;
      assert IsRow(key, rows, width);
      forall c | 0 <= c < width + 1 ensures p.keys[i][c].data == key[c] {
        assert Holds(p.predicates[c], p.keys[i][c].data, key[c]);
      }
      assert key[..width] == g;
    }

    lemma InGroupEmitted(keys: seq<Key>, i: nat) returns (r: nat)
      requires HoldsRows(ht, rows, width) && i < |keys| && forall j :: 0 <= j < |keys| ==> |keys[j]| == width + 1
      requires keys[i][width].Value().Some? && (GroupOf(keys[i], width, ht.nullValue), keys[i][width].Value()) in rows
      ensures Emitted(ht, keys, i, r)
    {
      hide Fill;
      var g, x, p := GroupOf(keys[i], width, ht.nullValue), keys[i][width].Value(), ProbeOf(ht, keys);
      FilledIs(keys[i], width, ht.nullValue);
      ProbesOk(keys);
      r :| 0 <= r < |ht.rows| && ht.rows[r].key == g + [x.value];
      assert Matches(p.predicates, p.keys[i], p.rows[r].key);
      MatchHashes(ht, p, i, r);
    }
  }
}
