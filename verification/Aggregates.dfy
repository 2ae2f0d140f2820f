/**
 Aggregates that are kept up to date row by row: the moments behind STDDEV_SAMP
 and COUNT(DISTINCT), against their definitions on all rows of a group.
 */
module Aggregates {
  import opened VersionChain
  import opened AggregateHashTable
  import opened Vectors

  // ---------------------------------------------------------------- Welford's method

  /** The running count, mean and sum of squared deviations. */
  datatype Moments = Moments(count: nat, mean: real, dsquared: real)

  const NO_MOMENTS: Moments := Moments(0, 0.0, 0.0)

  function Moved(mean: real, x: real, n: nat): real
    requires n > 0
  {
    mean + (x - mean) / n as real
  }

  function Gain(mean: real, before: real, x: real): real {
    (x - mean) * (x - before)
  }

  function Welford(m: Moments, x: real): Moments {
    var n := m.count + 1;
    var mean := Moved(m.mean, x, n);
    Moments(n, mean, m.dsquared + Gain(mean, m.mean, x))
  }

  function Sum(vs: seq<real>): real {
    if vs == [] then 0.0 else Sum(vs[..|vs| - 1]) + vs[|vs| - 1]
  }

  function Mean(vs: seq<real>): real {
    if vs == [] then 0.0 else Sum(vs) / |vs| as real
  }

  function Square(x: real): real {
    x * x
  }

  /** The sum of squared deviations from `c`. */
  function Deviations(vs: seq<real>, c: real): real {
    if vs == [] then 0.0 else Deviations(vs[..|vs| - 1], c) + Square(vs[|vs| - 1] - c)
  }

  function MomentsOf(vs: seq<real>): Moments {
    Moments(|vs|, Mean(vs), Deviations(vs, Mean(vs)))
  }

  lemma SquareOfSum(w: real, e: real)
    ensures Square(w + e) == Square(w) + 2.0 * (e * w) + Square(e)
  {
    assert (w + e) * (w + e) == w * (w + e) + e * (w + e);
    assert w * (w + e) == w * w + w * e && e * (w + e) == e * w + e * e;
  }

  lemma Distribute(e: real, a: real, b: real)
    ensures e * (a + b) == e * a + e * b
  {
  }

  /** What moving the centre from `c` to `d` adds to the sum of squares of `n` values. */
  function Shift(c: real, d: real, n: real, sum: real): real {
    2.0 * ((c - d) * (sum - n * c)) + n * Square(c - d)
  }

  lemma ShiftStep(c: real, d: real, v: real, n: real, sum: real)
    ensures Shift(c, d, n, sum) + Square(v - d) == Square(v - c) + Shift(c, d, n + 1.0, sum + v)
  {
    var e, w := c - d, v - c;
    assert v - d == w + e;
    SquareOfSum(w, e);
    assert sum + v - (n + 1.0) * c == (sum - n * c) + w by { assert (n + 1.0) * c == n * c + c; }
    Distribute(e, sum - n * c, w);
    assert (n + 1.0) * Square(e) == n * Square(e) + Square(e);
  }

  lemma ShiftNone(c: real, d: real)
    ensures Shift(c, d, 0.0, 0.0) == 0.0
  {
  }

  /** Moving the centre changes the sum of squares by the sum and the count only. */
  lemma {:induction false} DeviationsShift(vs: seq<real>, c: real, d: real)
    ensures Deviations(vs, d) == Deviations(vs, c) + Shift(c, d, |vs| as real, Sum(vs))
  {
    hide Shift, Square;
    if vs == [] {
      ShiftNone(c, d);
    } else {
      var init, v, n := vs[..|vs| - 1], vs[|vs| - 1], (|vs| - 1) as real;
      DeviationsShift(init, c, d);
      ShiftStep(c, d, v, n, Sum(init));
      assert |vs| as real == n + 1.0;
    }
  }

  /** What the moments are: the number of values, a mean that times the number is their sum, and the squares of the deviations. */
  lemma MomentsAre(vs: seq<real>, x: real)
    ensures MomentsOf(vs).count == |vs| && MomentsOf(vs).count as real * MomentsOf(vs).mean == Sum(vs)
    ensures Sum([]) == 0.0 && Sum(vs + [x]) == Sum(vs) + x
    ensures var m := MomentsOf(vs + [x]).mean;
            MomentsOf(vs + [x]).dsquared == Deviations(vs, m) + Square(x - m) && Deviations([], m) == 0.0
  {
    hide Mean, Square, Sum, Deviations;
    SumIs(vs);
    SumPush(vs, x);
    DeviationsPush(vs, x, Mean(vs + [x]));
    NoDeviations(Mean(vs + [x]));
  }

  lemma SumPush(vs: seq<real>, x: real)
    ensures Sum([]) == 0.0 && Sum(vs + [x]) == Sum(vs) + x
  {
    assert (vs + [x])[..|vs|] == vs;
  }

  lemma NoDeviations(c: real)
    ensures Deviations([], c) == 0.0
  {
  }

  /** One step of Welford's method on the moments of some values gives the moments of one more. */
  lemma WelfordStep(vs: seq<real>, x: real)
    ensures Welford(MomentsOf(vs), x) == MomentsOf(vs + [x])
  {
    hide Mean, Deviations, Moved, Gain;
    MeanStep(vs, x);
    DeviationsStep(vs, x);
  }

  lemma DeviationsStep(vs: seq<real>, x: real)
    ensures Deviations(vs + [x], Mean(vs + [x])) == Deviations(vs, Mean(vs)) + Gain(Mean(vs + [x]), Mean(vs), x)
  {
    hide Square, Shift, Mean, Moved, Gain, Deviations;
    var n, m, m' := |vs| as real, Mean(vs), Mean(vs + [x]);
    SumIs(vs);
    MeanStep(vs, x);
    DeviationsPush(vs, x, m');
    DeviationsShift(vs, m, m');
    ShiftAtMean(m, m', n, Sum(vs));
    MovedIs(m, x, |vs|);
    StepIdentity(m, m', x, n);
  }

  lemma DeviationsPush(vs: seq<real>, x: real, c: real)
    ensures Deviations(vs + [x], c) == Deviations(vs, c) + Square(x - c)
  {
    hide Square;
    assert (vs + [x])[..|vs|] == vs;
  }

  lemma MovedIs(mean: real, x: real, n: nat)
    ensures Moved(mean, x, n + 1) == mean + (x - mean) / (n as real + 1.0)
  {
    assert (n + 1) as real == n as real + 1.0;
  }

  lemma ShiftAtMean(m: real, m': real, n: real, sum: real)
    requires sum == n * m
    ensures Shift(m, m', n, sum) == n * Square(m - m')
  {
  }

  lemma MeanStep(vs: seq<real>, x: real)
    ensures Mean(vs + [x]) == Moved(Mean(vs), x, |vs| + 1)
  {
    hide Mean;
    var all, n, m := vs + [x], |vs| as real, Mean(vs);
    assert all[..|vs|] == vs;
    SumIs(vs);
    MeanIs(all);
    assert |all| as real == n + 1.0;
    MeanUpdate(Sum(all), |all| as real, n, m, x);
  }

  lemma SumIs(vs: seq<real>)
    ensures Sum(vs) == |vs| as real * Mean(vs)
  {
    if vs != [] {
      Cancel(Sum(vs), |vs| as real);
    }
  }

  lemma MeanIs(vs: seq<real>)
    requires vs != []
    ensures Mean(vs) == Sum(vs) / |vs| as real
  {
  }

  lemma Cancel(s: real, n: real)
    requires n != 0.0
    ensures s == n * (s / n)
  {
  }

  lemma MeanUpdate(total: real, k: real, n: real, m: real, x: real)
    requires n >= 0.0 && k == n + 1.0 && total == n * m + x
    ensures total / k == m + (x - m) / k
  {
    assert total == k * m + (x - m) by { assert k * m == n * m + m; }
    assert (k * m + (x - m)) / k == (k * m) / k + (x - m) / k;
    assert (k * m) / k == m;
  }

  lemma StepIdentity(m: real, m': real, x: real, n: real)
    requires n >= 0.0 && m' == m + (x - m) / (n + 1.0)
    ensures n * Square(m - m') + Square(x - m') == Gain(m', m, x)
  {
    var e := m' - m;
    assert (n + 1.0) * e == x - m;
    assert x - m' == n * e;
    assert Square(m - m') == Square(e);
    assert n * Square(e) == n * e * e;
    assert (n * e) * (x - m) == (n * e) * ((n * e) + e);
    Distribute(n * e, n * e, e);
  }

  // ---------------------------------------------------------------- the moments of every group

  type Group(==, !new)

  predicate Occurs<V>(rows: seq<(Group, Option<V>)>, g: Group) {
    exists i :: 0 <= i < |rows| && rows[i].0 == g
  }

  /** The values of a group that are not NULL, in order. */
  function ValuesOf<V>(rows: seq<(Group, Option<V>)>, g: Group): seq<V> {
    if rows == [] then []
    else
      var (h, v) := rows[|rows| - 1];
      ValuesOf(rows[..|rows| - 1], g) + if h == g && v.Some? then [v.value] else []
  }

  function Zip<V>(groups: seq<Group>, values: seq<Option<V>>): seq<(Group, Option<V>)>
    requires |groups| == |values|
  {
    seq(|groups|, i requires 0 <= i < |groups| => (groups[i], values[i]))
  }

  lemma ValuesPush<V>(rows: seq<(Group, Option<V>)>, more: seq<(Group, Option<V>)>, i: nat, g: Group)
    requires i < |more|
    ensures ValuesOf(rows + more[..i + 1], g)
            == if more[i].0 == g && more[i].1.Some? then ValuesOf(rows + more[..i], g) + [more[i].1.value]
               else ValuesOf(rows + more[..i], g)
  {
    var all := rows + more[..i + 1];
    assert all[..|all| - 1] == rows + more[..i] && all[|all| - 1] == more[i];
  }

  lemma {:induction false} NoValues<V>(rows: seq<(Group, Option<V>)>, g: Group)
    requires forall i :: 0 <= i < |rows| ==> rows[i].0 != g
    ensures ValuesOf(rows, g) == []
  {
    if rows != [] {
      NoValues(rows[..|rows| - 1], g);
    }
  }

  lemma OccursConcat<V>(rows: seq<(Group, Option<V>)>, groups: seq<Group>, values: seq<Option<V>>, g: Group)
    requires |groups| == |values|
    ensures Occurs(rows + Zip(groups, values), g) <==> Occurs(rows, g) || g in groups
  {
    var more := Zip(groups, values);
    if i :| 0 <= i < |rows + more| && (rows + more)[i].0 == g {
      if i >= |rows| {
        assert groups[i - |rows|] == g;
      } else {
        assert rows[i].0 == g;
      }
    }
    if i :| 0 <= i < |rows| && rows[i].0 == g {
      assert (rows + more)[i].0 == g;
    }
    if i :| 0 <= i < |groups| && groups[i] == g {
      assert (rows + more)[|rows| + i].0 == g;
    }
  }

  /** The table holds the groups of these rows, each with the moments of its values. */
  ghost predicate Describes(contents: map<Group, Moments>, rows: seq<(Group, Option<real>)>) {
    forall g :: (g in contents <==> Occurs(rows, g)) && (g in contents ==> contents[g] == MomentsOf(ValuesOf(rows, g)))
  }

  /** The groups stored have the moments of their values in `rows` and the first `i` of `more`. */
  ghost predicate Reached(contents: map<Group, Moments>, rows: seq<(Group, Option<real>)>, more: seq<(Group, Option<real>)>, i: nat)
    requires i <= |more|
  {
    forall g :: g in contents ==> contents[g] == MomentsOf(ValuesOf(rows + more[..i], g))
  }

  lemma ReachedStep(contents: map<Group, Moments>, rows: seq<(Group, Option<real>)>, more: seq<(Group, Option<real>)>, i: nat)
    requires i < |more| && Reached(contents, rows, more, i) && more[i].0 in contents
    ensures var (g, v) := more[i];
            Reached(if v.Some? then contents[g := Welford(contents[g], v.value)] else contents, rows, more, i + 1)
  {
    hide MomentsOf, Welford, ValuesOf;
    var (h, v) := more[i];
    forall g ensures ValuesOf(rows + more[..i + 1], g)
                     == if h == g && v.Some? then ValuesOf(rows + more[..i], g) + [v.value] else ValuesOf(rows + more[..i], g) {
      ValuesPush(rows, more, i, g);
    }
    if v.Some? {
      WelfordStep(ValuesOf(rows + more[..i], h), v.value);
    }
  }

  lemma ReachedNone(before: map<Group, Moments>, groups: seq<Group>, rows: seq<(Group, Option<real>)>, more: seq<(Group, Option<real>)>)
    requires Describes(before, rows)
    ensures Reached(Created(before, groups, NO_MOMENTS), rows, more, 0)
  {
    assert rows + more[..0] == rows;
    forall g | g in Created(before, groups, NO_MOMENTS)
      ensures Created(before, groups, NO_MOMENTS)[g] == MomentsOf(ValuesOf(rows, g))
    {
      CreatedMoments(before, groups, rows, g);
    }
  }

  lemma ReachedAll(before: map<Group, Moments>, after: map<Group, Moments>, rows: seq<(Group, Option<real>)>,
                   groups: seq<Group>, values: seq<Option<real>>)
    requires |groups| == |values| && Describes(before, rows) && Reached(after, rows, Zip(groups, values), |groups|)
    requires after.Keys == Created(before, groups, NO_MOMENTS).Keys
    ensures Describes(after, rows + Zip(groups, values))
  {
    hide MomentsOf, ValuesOf, Created, Occurs;
    assert Zip(groups, values)[..|groups|] == Zip(groups, values);
    forall g ensures g in after <==> Occurs(rows + Zip(groups, values), g) {
      OccursConcat(rows, groups, values, g);
      CreatedKey(before, groups, NO_MOMENTS, g);
      assert g in after.Keys <==> g in Created(before, groups, NO_MOMENTS).Keys;
    }
  }

  /** Adds a chunk of rows: every value that is not NULL updates the moments of its group. */
  method AddMoments(table: Table<Group, Moments>, groups: seq<Group>, values: seq<Option<real>>,
                    ghost rows: seq<(Group, Option<real>)>)
    requires table.Valid() && table.empty == NO_MOMENTS && Describes(table.contents, rows)
    requires |groups| == |values| <= STANDARD_VECTOR_SIZE
    modifies table, table.cells
    ensures table.Valid() && Describes(table.contents, rows + Zip(groups, values))
  {
    hide Table.Valid, Describes, Reached, Welford, Created;
    ghost var before, more := table.contents, Zip(groups, values);
    var addresses, _ := table.FindOrCreateGroups(groups);
    ReachedNone(before, groups, rows, more);
    for i := 0 to |groups|
      invariant table.Valid() && table.contents.Keys == Created(before, groups, NO_MOMENTS).Keys
      invariant table.cells == old(table.cells) || fresh(table.cells)
      invariant forall j :: 0 <= j < |groups| ==> table.Holds(addresses[j], groups[j])
      invariant Reached(table.contents, rows, more, i)
    {
      var m := table.PayloadAt(addresses[i]);
      ReachedStep(table.contents, rows, more, i);
      if values[i].Some? {
        table.SetPayload(addresses[i], Welford(m, values[i].value));
      }
    }
    ReachedAll(before, table.contents, rows, groups, values);
  }

  lemma CreatedMoments(before: map<Group, Moments>, groups: seq<Group>, rows: seq<(Group, Option<real>)>, g: Group)
    requires Describes(before, rows) && g in Created(before, groups, NO_MOMENTS)
    ensures Created(before, groups, NO_MOMENTS)[g] == MomentsOf(ValuesOf(rows, g))
  {
    if g in before {
      CreatedKeeps(before, groups, NO_MOMENTS);
    } else {
      CreatedFresh(before, groups, NO_MOMENTS, g);
      assert !Occurs(rows, g);
      NoValues(rows, g);
    }
  }

  // ---------------------------------------------------------------- distinct counts

  type Value(==, !new)

  /** The distinct values of a group that are not NULL. */
  ghost function DistinctOf(rows: seq<(Group, Option<Value>)>, g: Group): set<Value> {
    set v | v in ValuesOf(rows, g)
  }

  lemma {:induction false} ValuesAre(rows: seq<(Group, Option<Value>)>, g: Group, v: Value)
    ensures v in ValuesOf(rows, g) <==> (g, Some(v)) in rows
  {
    if rows != [] {
      var init, last := rows[..|rows| - 1], rows[|rows| - 1];
      ValuesAre(init, g, v);
      assert rows == init + [last];
      assert (g, Some(v)) in rows <==> (g, Some(v)) in init || last == (g, Some(v));
      assert ValuesOf(rows, g) == ValuesOf(init, g) + if last.0 == g && last.1.Some? then [last.1.value] else [];
    }
  }

  /** The groups stored have the number of their distinct values in `rows` and the first `i` of `more`. */
  ghost predicate Counted(contents: map<Group, nat>, rows: seq<(Group, Option<Value>)>, more: seq<(Group, Option<Value>)>, i: nat)
    requires i <= |more|
  {
    forall g :: g in contents ==> contents[g] == |DistinctOf(rows + more[..i], g)|
  }

  /** A value counts when its row is the first with this group and value. */
  lemma CountedStep(contents: map<Group, nat>, rows: seq<(Group, Option<Value>)>, more: seq<(Group, Option<Value>)>, i: nat)
    requires i < |more| && Counted(contents, rows, more, i) && more[i].0 in contents
    ensures var (g, v) := more[i];
            Counted(if v.Some? && more[i] !in rows + more[..i] then contents[g := contents[g] + 1] else contents, rows, more, i + 1)
  {
    hide ValuesOf;
    var (h, v) := more[i];
    forall g ensures DistinctOf(rows + more[..i + 1], g)
                     == if h == g && v.Some? then DistinctOf(rows + more[..i], g) + {v.value} else DistinctOf(rows + more[..i], g) {
      ValuesPush(rows, more, i, g);
    }
    if v.Some? {
      ValuesAre(rows + more[..i], h, v.value);
    }
  }

  /** The tables hold the groups with their distinct counts, and the pairs of group and value seen. */
  ghost predicate CountsDistinct(contents: map<Group, nat>, seen: map<(Group, Option<Value>), ()>, rows: seq<(Group, Option<Value>)>) {
    && (forall g :: (g in contents <==> Occurs(rows, g)) && (g in contents ==> contents[g] == |DistinctOf(rows, g)|))
    && (forall p :: p in seen <==> p in rows)
  }

  lemma CountedNone(before: map<Group, nat>, seen: map<(Group, Option<Value>), ()>, groups: seq<Group>,
                    rows: seq<(Group, Option<Value>)>, more: seq<(Group, Option<Value>)>)
    requires CountsDistinct(before, seen, rows)
    ensures Counted(Created(before, groups, 0), rows, more, 0)
  {
    assert rows + more[..0] == rows;
    CreatedKeeps(before, groups, 0);
    forall g | g in Created(before, groups, 0) ensures Created(before, groups, 0)[g] == |DistinctOf(rows, g)| {
      if g !in before {
        CreatedFresh(before, groups, 0, g);
        assert !Occurs(rows, g);
        NoValues(rows, g);
      }
    }
  }

  lemma CountedAll(before: map<Group, nat>, after: map<Group, nat>, seen: map<(Group, Option<Value>), ()>,
                   rows: seq<(Group, Option<Value>)>, groups: seq<Group>, values: seq<Option<Value>>)
    requires |groups| == |values| && CountsDistinct(before, seen, rows) && Counted(after, rows, Zip(groups, values), |groups|)
    requires after.Keys == Created(before, groups, 0).Keys
    ensures CountsDistinct(after, Created(seen, Zip(groups, values), ()), rows + Zip(groups, values))
  {
    hide DistinctOf, Created, Occurs;
    assert Zip(groups, values)[..|groups|] == Zip(groups, values);
    forall g ensures g in after <==> Occurs(rows + Zip(groups, values), g) {
      OccursConcat(rows, groups, values, g);
      CreatedKey(before, groups, 0, g);
      assert g in after.Keys <==> g in Created(before, groups, 0).Keys;
    }
    forall p ensures p in Created(seen, Zip(groups, values), ()) <==> p in rows + Zip(groups, values) {
      CreatedKey(seen, Zip(groups, values), (), p);
    }
  }

  /** Adds a chunk of rows to COUNT(DISTINCT), through a second table of groups with values. */
  method AddDistinct(table: Table<Group, nat>, seen: Table<(Group, Option<Value>), ()>, groups: seq<Group>,
                     values: seq<Option<Value>>, ghost rows: seq<(Group, Option<Value>)>)
    requires table.Valid() && seen.Valid() && table.empty == 0 && seen.empty == ()
    requires (table as object) != seen && (table.cells as object) != seen.cells
    requires CountsDistinct(table.contents, seen.contents, rows) && |groups| == |values| <= STANDARD_VECTOR_SIZE
    modifies table, table.cells, seen, seen.cells
    ensures table.Valid() && seen.Valid() && CountsDistinct(table.contents, seen.contents, rows + Zip(groups, values))
  {
    hide Table.Valid, CountsDistinct, Counted, Created;
    ghost var before, known, more := table.contents, seen.contents, Zip(groups, values);
    var addresses, _ := table.FindOrCreateGroups(groups);
    var _, firsts := seen.FindOrCreateGroups(Zip(groups, values));
    CountedNone(before, known, groups, rows, more);
    forall i | 0 <= i < |groups| ensures firsts[i] <==> more[i] !in rows + more[..i] {
      FirstIs(before, known, rows, more, i);
    }
    CountFirsts(table, addresses, firsts, groups, values, rows);
    CountedAll(before, table.contents, known, rows, groups, values);
  }

  /** Adds one for every first occurrence of a value that is not NULL. */
  method CountFirsts(table: Table<Group, nat>, addresses: seq<nat>, firsts: seq<bool>, groups: seq<Group>,
                     values: seq<Option<Value>>, ghost rows: seq<(Group, Option<Value>)>)
    requires table.Valid() && |addresses| == |firsts| == |groups| == |values|
    requires forall i :: 0 <= i < |groups| ==> table.Holds(addresses[i], groups[i])
    requires forall i :: 0 <= i < |groups| ==> (firsts[i] <==> Zip(groups, values)[i] !in rows + Zip(groups, values)[..i])
    requires Counted(table.contents, rows, Zip(groups, values), 0)
    modifies table`contents, table.cells
    ensures table.Valid() && table.contents.Keys == old(table.contents.Keys)
    ensures Counted(table.contents, rows, Zip(groups, values), |groups|)
  {
    hide Table.Valid, Counted;
    ghost var more := Zip(groups, values);
    for i := 0 to |groups|
      invariant table.Valid() && table.contents.Keys == old(table.contents.Keys)
      invariant forall j :: 0 <= j < |groups| ==> table.Holds(addresses[j], groups[j])
      invariant Counted(table.contents, rows, more, i)
    {
      var n := table.PayloadAt(addresses[i]);
      CountedStep(table.contents, rows, more, i);
      if firsts[i] && values[i].Some? {
        table.SetPayload(addresses[i], n + 1);
      }
    }
  }

  lemma FirstIs(before: map<Group, nat>, seen: map<(Group, Option<Value>), ()>, rows: seq<(Group, Option<Value>)>,
                more: seq<(Group, Option<Value>)>, i: nat)
    requires CountsDistinct(before, seen, rows) && i < |more|
    ensures more[i] !in seen && more[i] !in more[..i] <==> more[i] !in rows + more[..i]
  {
  }
}
