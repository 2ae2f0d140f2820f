/**
 The window segment tree: aggregates of groups of values, level by level in one
 flat array, and the aggregate of any window from few of them.
 */
module SegmentTree {
  import opened VersionChain
  import opened Vectors

  const TREE_FANOUT: nat := 64

  datatype Kind = Sum | Min | Max

  /** An aggregate over a type with the given MinimumValue and MaximumValue. */
  datatype Aggregate = Aggregate(kind: Kind, minimum: real, maximum: real) {
    function Op(x: real, y: real): real {
      match kind
      case Sum => x + y
      case Min => if x > y then y else x
      case Max => if x < y then y else x
    }

    function Unit(): real {
      match kind
      case Sum => 0.0
      case Min => maximum
      case Max => minimum
    }

    /** The minimum of a vector is taken to be NULL when it is the maximum of the type. */
    predicate Good(v: real) {
      kind == Min ==> v < maximum
    }

    /** A value that already accounts for the value aggregates start from. */
    predicate Seeded(x: real) {
      Op(Unit(), x) == x
    }

    /** Two values where NULL is the smallest one. */
    function Combine(aggregate: Option<real>, val: Option<real>): Option<real> {
      match kind
      case Sum => if aggregate.Some? && val.Some? then Some(aggregate.value + val.value) else None
      case Min => if Greater(aggregate, val) then val else aggregate
      case Max => if Greater(val, aggregate) then val else aggregate
    }
  }

  predicate Greater(x: Option<real>, y: Option<real>) {
    x.Some? && (y.None? || x.value > y.value)
  }

  /** The aggregate of some values, from the value aggregates start from. */
  function Fold(g: Aggregate, vs: seq<real>): real {
    if vs == [] then g.Unit() else g.Op(Fold(g, vs[..|vs| - 1]), vs[|vs| - 1])
  }

  ghost predicate AllGood(g: Aggregate, vs: seq<real>) {
    forall i :: 0 <= i < |vs| ==> g.Good(vs[i])
  }

  ghost predicate SomeGood(g: Aggregate, vs: seq<real>) {
    exists i :: 0 <= i < |vs| && g.Good(vs[i])
  }

  // ---------------------------------------------------------------- folds

  lemma {:induction false} FoldConcat(g: Aggregate, us: seq<real>, vs: seq<real>)
    ensures Fold(g, us + vs) == g.Op(Fold(g, us), Fold(g, vs))
  {
    FoldSeeded(g, us);
    if vs == [] {
      assert us + vs == us;
    } else {
      var init, last := vs[..|vs| - 1], vs[|vs| - 1];
      assert (us + vs)[..|us + vs| - 1] == us + init && (us + vs)[|us + vs| - 1] == last;
      FoldConcat(g, us, init);
    }
  }

  lemma {:induction false} FoldSeeded(g: Aggregate, vs: seq<real>)
    ensures g.Seeded(Fold(g, vs))
  {
    if vs != [] {
      FoldSeeded(g, vs[..|vs| - 1]);
    }
  }

  lemma UnitSeeded(g: Aggregate, vs: seq<real>)
    ensures g.Seeded(g.Unit()) && g.Op(g.Unit(), Fold(g, vs)) == Fold(g, vs)
  {
    FoldSeeded(g, vs);
  }

  /** The minimum lies below the maximum of the type exactly if some value does. */
  lemma {:induction false} FoldGood(g: Aggregate, vs: seq<real>)
    requires vs != []
    ensures g.Good(Fold(g, vs)) <==> SomeGood(g, vs)
  {
    var init, last := vs[..|vs| - 1], vs[|vs| - 1];
    assert vs == init + [last];
    if init == [] {
      assert vs[0] == last;
    } else {
      FoldGood(g, init);
      if SomeGood(g, vs) && !g.Good(last) {
        var i :| 0 <= i < |vs| && g.Good(vs[i]);
        assert init[i] == vs[i];
      }
    }
  }

  lemma FoldPush(g: Aggregate, vs: seq<real>, a: nat, b: nat)
    requires a < b <= |vs|
    ensures Fold(g, vs[a..b]) == g.Op(Fold(g, vs[a..b - 1]), vs[b - 1])
  {
    assert vs[a..b][..b - a - 1] == vs[a..b - 1];
  }

  ghost predicate IsLeast(vs: seq<real>, m: real) {
    m in vs && forall v :: v in vs ==> m <= v
  }

  ghost predicate IsGreatest(vs: seq<real>, m: real) {
    m in vs && forall v :: v in vs ==> v <= m
  }

  /** The sum of some values, and the sum of no values. */
  function Total(vs: seq<real>): real {
    if vs == [] then 0.0 else vs[0] + Total(vs[1..])
  }

  lemma {:induction false} TotalConcat(us: seq<real>, vs: seq<real>)
    ensures Total(us + vs) == Total(us) + Total(vs)
  {
    if us == [] {
      assert us + vs == vs;
    } else {
      assert (us + vs)[1..] == us[1..] + vs;
      TotalConcat(us[1..], vs);
    }
  }

  /** SUM is the sum. */
  lemma {:induction false} FoldSum(g: Aggregate, vs: seq<real>)
    requires g.kind == Sum
    ensures Fold(g, vs) == Total(vs)
  {
    if vs != [] {
      var init, last := vs[..|vs| - 1], vs[|vs| - 1];
      assert vs == init + [last] && [last][1..] == [];
      FoldSum(g, init);
      TotalConcat(init, [last]);
    }
  }

  /** The laws that make it the sum: nothing adds nothing, one value is itself, and parts add up. */
  lemma SumLaws(g: Aggregate, us: seq<real>, vs: seq<real>, v: real)
    requires g.kind == Sum
    ensures Fold(g, []) == 0.0 && Fold(g, [v]) == v && Fold(g, us + vs) == Fold(g, us) + Fold(g, vs)
  {
    FoldSum(g, [v]);
    FoldSum(g, us);
    FoldSum(g, vs);
    FoldSum(g, us + vs);
    TotalConcat(us, vs);
    assert [v][1..] == [];
  }

  lemma {:induction false} FoldMin(g: Aggregate, vs: seq<real>)
    requires g.kind == Min
    ensures Fold(g, vs) == g.maximum || Fold(g, vs) in vs
    ensures Fold(g, vs) <= g.maximum && forall v :: v in vs ==> Fold(g, vs) <= v
  {
    if vs != [] {
      var init, last := vs[..|vs| - 1], vs[|vs| - 1];
      assert vs == init + [last];
      FoldMin(g, init);
    }
  }

  lemma {:induction false} FoldMax(g: Aggregate, vs: seq<real>)
    requires g.kind == Max
    ensures Fold(g, vs) == g.minimum || Fold(g, vs) in vs
    ensures Fold(g, vs) >= g.minimum && forall v :: v in vs ==> v <= Fold(g, vs)
  {
    if vs != [] {
      var init, last := vs[..|vs| - 1], vs[|vs| - 1];
      assert vs == init + [last];
      FoldMax(g, init);
    }
  }

  /** MIN is the least value exactly when one is not above the MaximumValue. */
  lemma FoldMinExactly(g: Aggregate, vs: seq<real>)
    requires g.kind == Min
    ensures IsLeast(vs, Fold(g, vs)) <==> exists v :: v in vs && v <= g.maximum
  {
    FoldMin(g, vs);
  }

  /** MAX is the greatest value exactly when one is not below the MinimumValue, which for DOUBLE is positive. */
  lemma FoldMaxExactly(g: Aggregate, vs: seq<real>)
    requires g.kind == Max
    ensures IsGreatest(vs, Fold(g, vs)) <==> exists v :: v in vs && v >= g.minimum
  {
    FoldMax(g, vs);
  }

  lemma NegativesHaveNoMax(minimum: real, maximum: real, v: real)
    requires v < 0.0 < minimum
    ensures Fold(Aggregate(Max, minimum, maximum), [v]) == minimum
  {
    assert [v][..0] == [];
  }

  // ---------------------------------------------------------------- levels

  function Groups(n: nat): nat {
    (n + TREE_FANOUT - 1) / TREE_FANOUT
  }

  function Smaller(x: nat, y: nat): nat {
    if x < y then x else y
  }

  /** The values of group `j`. */
  function GroupOf(level: seq<real>, j: nat): seq<real>
    requires j < Groups(|level|)
  {
    level[j * TREE_FANOUT..Smaller(|level|, (j + 1) * TREE_FANOUT)]
  }

  ghost predicate AggregateOf(g: Aggregate, vs: seq<real>, x: real) {
    SomeGood(g, vs) ==> x == Fold(g, vs)
  }

  function Larger(x: nat, y: nat): nat {
    if x < y then y else x
  }

  /** The part of group `j` that lies in a window. */
  function PartOf(level: seq<real>, begin: nat, end: nat, j: nat): seq<real>
    requires begin <= end <= |level|
  {
    var lo, hi := Larger(begin, j * TREE_FANOUT), Smaller(end, (j + 1) * TREE_FANOUT);
    if lo < hi then level[lo..hi] else []
  }

  /** Every part of a group in the window has a good value. */
  ghost predicate Lively(g: Aggregate, level: seq<real>, begin: nat, end: nat)
    requires begin <= end <= |level|
  {
    forall j: nat :: PartOf(level, begin, end, j) != [] ==> SomeGood(g, PartOf(level, begin, end, j))
  }

  /** A part at an end of the window that is not a whole group has no good value. */
  ghost predicate Broken(g: Aggregate, level: seq<real>, begin: nat, end: nat)
    requires begin <= end <= |level|
  {
    Dead(g, PartOf(level, begin, end, begin / TREE_FANOUT)) || Dead(g, PartOf(level, begin, end, end / TREE_FANOUT))
  }

  ghost predicate Dead(g: Aggregate, part: seq<real>) {
    0 < |part| < TREE_FANOUT && !SomeGood(g, part)
  }

  /** All windows of an input are lively if and only if all of its values are good; a bad value alone is broken. */
  lemma LivelyExactly(g: Aggregate, input: seq<real>)
    ensures (forall begin: nat, end: nat | begin < end <= |input| :: Lively(g, input, begin, end)) <==> AllGood(g, input)
    ensures forall i: nat | i < |input| && !g.Good(input[i]) :: Broken(g, input, i, i + 1)
  {
    forall i: nat | i < |input| ensures Lively(g, input, i, i + 1) ==> g.Good(input[i])
                                ensures !g.Good(input[i]) ==> Broken(g, input, i, i + 1) {
      var j := i / TREE_FANOUT;
      assert PartOf(input, i, i + 1, j) == [input[i]];
      assert SomeGood(g, [input[i]]) <==> g.Good(input[i]) by { assert [input[i]][0] == input[i]; }
    }
    if AllGood(g, input) {
      forall begin: nat, end: nat, j: nat | begin < end <= |input| && PartOf(input, begin, end, j) != []
        ensures SomeGood(g, PartOf(input, begin, end, j))
      {
        assert PartOf(input, begin, end, j)[0] == input[Larger(begin, j * TREE_FANOUT)];
      }
    } else {
      var i :| 0 <= i < |input| && !g.Good(input[i]);
      assert !Lively(g, input, i, i + 1);
    }
  }

  /** Values that are all good make a lively window. */
  lemma GoodIsLively(g: Aggregate, level: seq<real>, begin: nat, end: nat)
    requires begin <= end <= |level| && AllGood(g, level[begin..end])
    ensures Lively(g, level, begin, end)
  {
    forall j: nat | PartOf(level, begin, end, j) != [] ensures SomeGood(g, PartOf(level, begin, end, j)) {
      var lo := Larger(begin, j * TREE_FANOUT);
      assert PartOf(level, begin, end, j)[0] == level[lo] == level[begin..end][lo - begin];
    }
  }

  /** `up` holds the aggregates of the first groups of a level. */
  ghost predicate Aggregated(g: Aggregate, level: seq<real>, up: seq<real>) {
    |up| <= Groups(|level|) && forall j :: 0 <= j < |up| ==> AggregateOf(g, GroupOf(level, j), up[j])
  }

  /** `up` is the level above `level`. */
  ghost predicate IsUp(g: Aggregate, level: seq<real>, up: seq<real>) {
    |up| == Groups(|level|) && Aggregated(g, level, up)
  }

  /** Full groups stand for their values. */
  lemma {:induction false} FoldUp(g: Aggregate, level: seq<real>, up: seq<real>, a: nat, b: nat)
    requires IsUp(g, level, up) && a <= b && b * TREE_FANOUT <= |level|
    requires forall j :: a <= j < b ==> SomeGood(g, Whole(level, j))
    ensures b <= |up| && AllGood(g, up[a..b])
    ensures Fold(g, up[a..b]) == Fold(g, level[a * TREE_FANOUT..b * TREE_FANOUT])
  {
    hide Fold, IsUp, AllGood, SomeGood;
    UpSize(g, level, up);
    if a < b {
      var c := b - 1;
      var front, back := level[a * TREE_FANOUT..c * TREE_FANOUT], level[c * TREE_FANOUT..b * TREE_FANOUT];
      assert level[a * TREE_FANOUT..b * TREE_FANOUT] == front + back;
      assert back == Whole(level, c);
      FoldUp(g, level, up, a, c);
      UpAt(g, level, up, c);
      FoldGood(g, back);
      GoodPush(g, up, a, b);
      FoldPush(g, up, a, b);
      FoldConcat(g, front, back);
    } else {
      GoodNone(g);
      assert up[a..b] == [] && level[a * TREE_FANOUT..b * TREE_FANOUT] == [];
    }
  }

  lemma GoodNone(g: Aggregate)
    ensures AllGood(g, [])
  {}

  /** A group that is full. */
  function Whole(level: seq<real>, j: nat): seq<real>
    requires (j + 1) * TREE_FANOUT <= |level|
  {
    level[j * TREE_FANOUT..(j + 1) * TREE_FANOUT]
  }

  lemma GoodPush(g: Aggregate, vs: seq<real>, a: nat, b: nat)
    requires a < b <= |vs| && AllGood(g, vs[a..b - 1]) && g.Good(vs[b - 1])
    ensures AllGood(g, vs[a..b])
  {
    forall i | 0 <= i < b - a
      ensures g.Good(vs[a..b][i])
    {
      if i < b - a - 1 {
        assert vs[a..b - 1][i] == vs[a..b][i];
      }
    }
  }

  lemma AggregatedNone(g: Aggregate, level: seq<real>)
    ensures Aggregated(g, level, [])
  {
  }

  lemma AggregatedPush(g: Aggregate, level: seq<real>, up: seq<real>, x: real)
    requires Aggregated(g, level, up) && |up| < Groups(|level|) && AggregateOf(g, GroupOf(level, |up|), x)
    ensures Aggregated(g, level, up + [x])
  {}

  lemma UpSize(g: Aggregate, level: seq<real>, up: seq<real>)
    requires IsUp(g, level, up)
    ensures |up| == Groups(|level|)
  {}

  lemma UpAt(g: Aggregate, level: seq<real>, up: seq<real>, j: nat)
    requires IsUp(g, level, up) && (j + 1) * TREE_FANOUT <= |level|
    ensures j < |up| && AggregateOf(g, level[j * TREE_FANOUT..(j + 1) * TREE_FANOUT], up[j])
  {
    assert GroupOf(level, j) == level[j * TREE_FANOUT..(j + 1) * TREE_FANOUT];
  }

  ghost predicate Readable(g: Aggregate, vs: seq<real>) {
    vs == [] || SomeGood(g, vs)
  }

  /** The two partial groups and the full ones of a lively window. */
  lemma LivelyParts(g: Aggregate, level: seq<real>, begin: nat, end: nat, a: nat, b: nat)
    requires begin <= a * TREE_FANOUT <= b * TREE_FANOUT <= end <= |level|
    requires a * TREE_FANOUT < begin + TREE_FANOUT && end < (b + 1) * TREE_FANOUT && Lively(g, level, begin, end)
    ensures Readable(g, level[begin..a * TREE_FANOUT]) && Readable(g, level[b * TREE_FANOUT..end])
    ensures forall j :: a <= j < b ==> SomeGood(g, Whole(level, j))
  {
    hide SomeGood;
    if begin < a * TREE_FANOUT {
      assert PartOf(level, begin, end, a - 1) == level[begin..a * TREE_FANOUT];
    }
    assert PartOf(level, begin, end, b) == level[b * TREE_FANOUT..end];
    forall j | a <= j < b ensures SomeGood(g, Whole(level, j)) {
      assert PartOf(level, begin, end, j) == Whole(level, j);
    }
  }

  /** Two partial groups and the groups between them make a window of a level. */
  lemma Climb(g: Aggregate, level: seq<real>, up: seq<real>, begin: nat, end: nat, a: nat, b: nat, agg: real)
    requires IsUp(g, level, up) && begin <= a * TREE_FANOUT <= b * TREE_FANOUT <= end <= |level|
    requires a * TREE_FANOUT < begin + TREE_FANOUT && end < (b + 1) * TREE_FANOUT && Lively(g, level, begin, end)
    ensures b <= |up| && Lively(g, up, a, b)
    ensures Readable(g, level[begin..a * TREE_FANOUT]) && Readable(g, level[b * TREE_FANOUT..end])
    ensures
      g.Op(g.Op(g.Op(agg, Fold(g, level[begin..a * TREE_FANOUT])), Fold(g, level[b * TREE_FANOUT..end])),
           Fold(g, up[a..b]))
      == g.Op(agg, Fold(g, level[begin..end]))
  {
    LivelyParts(g, level, begin, end, a, b);
    hide Fold, IsUp, AllGood, SomeGood, Lively, PartOf;
    FoldUp(g, level, up, a, b);
    GoodIsLively(g, up, a, b);
    FoldThree(g, level, begin, a * TREE_FANOUT, b * TREE_FANOUT, end);
  }

  lemma FoldThree(g: Aggregate, vs: seq<real>, i: nat, j: nat, k: nat, l: nat)
    requires i <= j <= k <= l <= |vs|
    ensures Fold(g, vs[i..l]) == g.Op(Fold(g, vs[i..j]), g.Op(Fold(g, vs[j..k]), Fold(g, vs[k..l])))
  {
    hide Fold;
    assert vs[j..l] == vs[j..k] + vs[k..l];
    assert vs[i..l] == vs[i..j] + vs[j..l];
    FoldConcat(g, vs[j..k], vs[k..l]);
    FoldConcat(g, vs[i..j], vs[j..l]);
  }

  /** The number of aggregates above `n` values. */
  function Nodes(n: nat): nat {
    if n <= 1 then 0 else Groups(n) + Nodes(Groups(n))
  }

  /** The space for them. */
  method InternalNodes(n: nat) returns (nodes: nat)
    ensures nodes == if n <= 1 then n else Nodes(n)
  {
    var level := Groups(n);
    nodes := level;
    while level > 1
      invariant nodes + Nodes(level) == if n <= 1 then n else Nodes(n)
    {
      level := Groups(level);
      nodes := nodes + level;
    }
  }

  /** Every level above the first aggregates the groups of the level below it. */
  ghost predicate Tower(g: Aggregate, levels: seq<seq<real>>) {
    forall l, k | 0 <= l && k == l + 1 && k < |levels| :: |levels[l]| > 1 && IsUp(g, levels[l], levels[k])
  }

  lemma TowerPush(g: Aggregate, levels: seq<seq<real>>, up: seq<real>)
    requires Tower(g, levels) && |levels| > 0 && |levels[|levels| - 1]| > 1 && IsUp(g, levels[|levels| - 1], up)
    ensures Tower(g, levels + [up])
  {
    hide IsUp;
    var more := levels + [up];
    forall l, k | 0 <= l && k == l + 1 && k < |more|
      ensures |more[l]| > 1 && IsUp(g, more[l], more[k])
    {
      if k < |levels| {
        assert more[l] == levels[l] && more[k] == levels[k];
      }
    }
  }

  /** A level of more than one value is not the last one. */
  lemma Above(g: Aggregate, levels: seq<seq<real>>, l: nat)
    requires Tower(g, levels) && l < |levels| && |levels[l]| > 1 && |levels[|levels| - 1]| <= 1
    ensures l + 1 < |levels| && IsUp(g, levels[l], levels[l + 1])
  {
    var k := l + 1;
    assert k < |levels|;
  }

  /** The levels above the first, one after the other. */
  ghost predicate Laid(levels: seq<seq<real>>, starts: seq<nat>, stored: seq<real>) {
    && |levels| == |starts| > 0
    && starts[0] == 0
    && starts[|starts| - 1] == |stored|
    && (forall l, k | 0 <= l && k == l + 1 && k < |starts| :: LaidAt(levels[k], starts[l], starts[k], stored))
  }

  ghost predicate LaidAt(level: seq<real>, start: nat, end: nat, stored: seq<real>) {
    start <= end <= |stored| && level == stored[start..end]
  }

  lemma LaidPush(levels: seq<seq<real>>, starts: seq<nat>, stored: seq<real>, up: seq<real>)
    requires Laid(levels, starts, stored)
    ensures Laid(levels + [up], starts + [|stored| + |up|], stored + up)
  {
    var more, ends, all := levels + [up], starts + [|stored| + |up|], stored + up;
    forall l, k | 0 <= l && k == l + 1 && k < |ends|
      ensures LaidAt(more[k], ends[l], ends[k], all)
    {
      if k < |starts| {
        assert LaidAt(levels[k], starts[l], starts[k], stored);
        assert all[ends[l]..ends[k]] == stored[starts[l]..starts[k]];
      } else {
        assert l == |starts| - 1 && ends[l] == |stored| && ends[k] == |all| && more[k] == up;
        assert all[|stored|..|all|] == up;
      }
    }
  }

  lemma LaidSizes(levels: seq<seq<real>>, starts: seq<nat>, stored: seq<real>)
    requires Laid(levels, starts, stored)
    ensures |starts| > 1 ==> |levels[|levels| - 1]| == starts[|starts| - 1] - starts[|starts| - 2]
  {
    if |starts| > 1 {
      var l, k := |starts| - 2, |starts| - 1;
      assert LaidAt(levels[k], starts[l], starts[k], stored);
    }
  }

  lemma LaidRead(levels: seq<seq<real>>, starts: seq<nat>, stored: seq<real>, l: nat, begin: nat, end: nat)
    requires Laid(levels, starts, stored) && 0 < l < |starts| && begin <= end <= |levels[l]|
    ensures end + starts[l - 1] <= |stored|
    ensures stored[begin + starts[l - 1]..end + starts[l - 1]] == levels[l][begin..end]
  {
    var k := l - 1;
    assert LaidAt(levels[l], starts[k], starts[l], stored);
    forall i | 0 <= i < end - begin
      ensures stored[begin + starts[k]..end + starts[k]][i] == levels[l][begin..end][i]
    {
      assert levels[l][begin + i] == stored[starts[k] + (begin + i)];
    }
  }

  // ------------------------------------------------------------ the segment tree

  /** Sum, Min and Max of VectorOperations: for the last two, NULL when the value is still the initial one. */
  ghost function VectorValue(g: Aggregate, vs: seq<real>): Option<real> {
    if g.kind != Sum && Fold(g, vs) == g.Unit() then None else Some(Fold(g, vs))
  }

  /** The sum, or the least or the greatest value, unless for the last two no value differs from where they start. */
  method AggregateVector(g: Aggregate, vs: seq<real>) returns (r: Option<real>)
    ensures r == VectorValue(g, vs)
    ensures g.kind == Sum ==> r == Some(Total(vs))
    ensures g.kind == Min ==> (r.Some? <==> exists v :: v in vs && v < g.maximum) && (r.Some? ==> IsLeast(vs, r.value))
    ensures g.kind == Max ==> (r.Some? <==> exists v :: v in vs && v > g.minimum) && (r.Some? ==> IsGreatest(vs, r.value))
  {
    if g.kind == Sum {
      FoldSum(g, vs);
    } else if g.kind == Min {
      FoldMin(g, vs);
    } else {
      FoldMax(g, vs);
    }
    var result := g.Unit();
    for i := 0 to |vs|
      invariant result == Fold(g, vs[..i])
    {
      assert vs[..i + 1][..i] == vs[..i];
      result := g.Op(result, vs[i]);
    }
    assert vs[..|vs|] == vs;
    r := if g.kind != Sum && result == g.Unit() then None else Some(result);
  }

  lemma CombineGood(g: Aggregate, agg: real, vs: seq<real>)
    requires g.Seeded(agg) && vs != [] && SomeGood(g, vs)
    ensures g.Combine(Some(agg), VectorValue(g, vs)) == Some(g.Op(agg, Fold(g, vs)))
    ensures g.Seeded(g.Op(agg, Fold(g, vs)))
  {
    hide Fold;
    FoldGood(g, vs);
    FoldSeeded(g, vs);
  }

  /** A part without a good value makes the minimum NULL, and it stays NULL. */
  lemma CombineBad(g: Aggregate, agg: Option<real>, vs: seq<real>)
    requires vs != [] && !SomeGood(g, vs)
    ensures g.kind == Min && g.Combine(agg, VectorValue(g, vs)) == None
  {
    assert !g.Good(vs[0]);
    FoldGood(g, vs);
    FoldMin(g, vs);
  }

  /** The minimum is NULL, or at most what it was and all values. */
  ghost predicate AtMost(aggregate: Option<real>, before: Option<real>, vs: seq<real>) {
    aggregate.None? || (before.Some? && aggregate.value <= before.value && forall v :: v in vs ==> aggregate.value <= v)
  }

  lemma CombineMin(g: Aggregate, agg: Option<real>, vs: seq<real>)
    requires g.kind == Min
    ensures AtMost(g.Combine(agg, VectorValue(g, vs)), agg, vs)
  {
    FoldMin(g, vs);
  }

  /** The minimum so far, or a good value of the window that is left, is at most `v`. */
  ghost predicate Covered(g: Aggregate, aggregate: Option<real>, level: seq<real>, begin: nat, end: nat, v: real)
    requires begin <= end <= |level|
  {
    aggregate.None? || aggregate.value <= v || exists i :: begin <= i < end && g.Good(level[i]) && level[i] <= v
  }

  /** What was covered stays covered when the ends are read and the groups between them are left to the level above. */
  lemma CoveredUp(g: Aggregate, level: seq<real>, up: seq<real>, begin: nat, end: nat, a: nat, b: nat,
                  before: Option<real>, middle: Option<real>, after: Option<real>, v: real)
    requires g.kind == Min && IsUp(g, level, up) && begin <= a * TREE_FANOUT <= b * TREE_FANOUT <= end <= |level| && b <= |up|
    requires AtMost(middle, before, level[begin..a * TREE_FANOUT]) && AtMost(after, middle, level[b * TREE_FANOUT..end])
    requires Covered(g, before, level, begin, end, v)
    ensures Covered(g, after, up, a, b, v)
  {
    hide IsUp;
    if after.Some? && before.value > v {
      var i :| begin <= i < end && g.Good(level[i]) && level[i] <= v;
      if i < a * TREE_FANOUT {
        assert level[begin..a * TREE_FANOUT][i - begin] == level[i] && level[i] in level[begin..a * TREE_FANOUT];
      } else if i >= b * TREE_FANOUT {
        assert level[b * TREE_FANOUT..end][i - b * TREE_FANOUT] == level[i] && level[i] in level[b * TREE_FANOUT..end];
      } else {
        NodeBelow(g, level, up, i);
        assert a <= i / TREE_FANOUT < b;
      }
    }
  }

  lemma NodeBelow(g: Aggregate, level: seq<real>, up: seq<real>, i: nat)
    requires g.kind == Min && IsUp(g, level, up) && (i / TREE_FANOUT + 1) * TREE_FANOUT <= |level| && g.Good(level[i])
    ensures i / TREE_FANOUT < |up| && g.Good(up[i / TREE_FANOUT]) && up[i / TREE_FANOUT] <= level[i]
  {
    hide IsUp, Fold;
    var j := i / TREE_FANOUT;
    var vs := level[j * TREE_FANOUT..(j + 1) * TREE_FANOUT];
    assert vs[i - j * TREE_FANOUT] == level[i] && level[i] in vs;
    UpAt(g, level, up, j);
    FoldGood(g, vs);
    FoldMin(g, vs);
  }

  /** All good values of a part of `source` are covered. */
  ghost predicate AllCovered(g: Aggregate, aggregate: Option<real>, level: seq<real>, begin: nat, end: nat,
                             source: seq<real>, lo: nat, hi: nat)
    requires begin <= end <= |level| && hi <= |source|
  {
    forall i :: lo <= i < hi && g.Good(source[i]) ==> Covered(g, aggregate, level, begin, end, source[i])
  }

  /** The minimum is NULL or at most every good value of a part of a level. */
  ghost predicate NotAbove(g: Aggregate, r: Option<real>, level: seq<real>, lo: nat, hi: nat)
    requires hi <= |level|
  {
    r.None? || forall i :: lo <= i < hi && g.Good(level[i]) ==> r.value <= level[i]
  }

  lemma NotAboveNone(g: Aggregate, level: seq<real>, lo: nat, hi: nat)
    requires hi <= |level|
    ensures NotAbove(g, None, level, lo, hi)
  {
  }

  lemma NotAboveNothing(g: Aggregate, r: Option<real>, level: seq<real>, lo: nat, hi: nat)
    requires hi <= |level| && hi <= lo
    ensures NotAbove(g, r, level, lo, hi)
  {
  }

  lemma CoversItself(g: Aggregate, aggregate: Option<real>, level: seq<real>, begin: nat, end: nat)
    requires begin <= end <= |level|
    ensures AllCovered(g, aggregate, level, begin, end, level, begin, end)
  {
  }

  lemma CoveredOn(g: Aggregate, before: Option<real>, level: seq<real>, begin: nat, end: nat, after: Option<real>, up: seq<real>,
                  a: nat, b: nat, source: seq<real>, lo: nat, hi: nat)
    requires begin <= end <= |level| && a <= b <= |up| && hi <= |source|
    requires AllCovered(g, before, level, begin, end, source, lo, hi)
    requires forall v :: Covered(g, before, level, begin, end, v) ==> Covered(g, after, up, a, b, v)
    ensures AllCovered(g, after, up, a, b, source, lo, hi)
  {
    hide Covered;
  }

  lemma CoveredDone(g: Aggregate, before: Option<real>, after: Option<real>, level: seq<real>, begin: nat, end: nat,
                    source: seq<real>, lo: nat, hi: nat)
    requires begin <= end <= |level| && hi <= |source| && AllCovered(g, before, level, begin, end, source, lo, hi)
    requires AtMost(after, before, level[begin..end])
    ensures NotAbove(g, after, source, lo, hi)
  {
    forall i | lo <= i < hi && g.Good(source[i]) && after.Some? ensures after.value <= source[i] {
      assert Covered(g, before, level, begin, end, source[i]);
      if before.value > source[i] {
        var k :| begin <= k < end && g.Good(level[k]) && level[k] <= source[i];
        assert level[begin..end][k - begin] == level[k] && level[k] in level[begin..end];
      }
    }
  }

  lemma SeededNone(g: Aggregate, agg: real)
    requires g.Seeded(agg)
    ensures g.Op(agg, Fold(g, [])) == agg
  {}

  /** A group lies in one vector of the input. */
  lemma OneVector(begin: nat, end: nat)
    requires begin < end && begin / TREE_FANOUT == (end - 1) / TREE_FANOUT
    ensures begin % STANDARD_VECTOR_SIZE + (end - begin) <= STANDARD_VECTOR_SIZE
    ensures end - begin < STANDARD_VECTOR_SIZE
  {
    var j, i := begin / TREE_FANOUT, begin / STANDARD_VECTOR_SIZE;
    assert i == j / 16;
    assert end <= (j + 1) * TREE_FANOUT;
  }

  class WindowSegmentTree {
    const g: Aggregate
    const input: seq<real>
    var flat: array<real>
    var starts: seq<nat>
    ghost var levels: seq<seq<real>>
    var aggregate: Option<real>
    var nAggregated: nat

    ghost predicate Growing()
      reads this`flat, this`starts, this`levels, flat
    {
      && |levels| == |starts| > 0 && starts[|starts| - 1] <= flat.Length
      && Laid(levels, starts, flat[..starts[|starts| - 1]])
      && levels[0] == input
      && Tower(g, levels)
    }

    ghost predicate Valid()
      reads this`flat, this`starts, this`levels, flat
    {
      Growing() && |levels[|levels| - 1]| <= 1
    }

    constructor (g: Aggregate, input: seq<real>)
      ensures Valid() && fresh(flat) && this.g == g && this.input == input
    {
      this.g, this.input := g, input;
      aggregate, nAggregated := Some(g.Unit()), 0;
      var nodes := InternalNodes(|input|);
      flat := new real[nodes];
      starts, levels := [0], [input];
      new;
      ConstructTree();
    }

    lemma Levels()
      requires Growing()
      ensures |levels| == |starts| > 0 && levels[0] == input
    {
    }

    method AggregateInit()
      modifies this`aggregate, this`nAggregated
      ensures aggregate == Some(g.Unit()) && nAggregated == 0
    {
      aggregate, nAggregated := Some(g.Unit()), 0;
    }

    /** NULL when nothing was aggregated. */
    function AggregateFinal(): Option<real>
      reads this`aggregate, this`nAggregated
    {
      if nAggregated == 0 then None else aggregate
    }

    /** The values read lie in one group, so in one vector of the input. */
    method WindowSegmentValue(l: nat, begin: nat, end: nat)
      requires Growing() && l < |levels| && begin <= end <= |levels[l]|
      requires begin < end ==> begin / TREE_FANOUT == (end - 1) / TREE_FANOUT
      modifies this`aggregate, this`nAggregated
      ensures nAggregated == old(nAggregated) + (end - begin)
      ensures aggregate == if begin == end then old(aggregate)
                           else g.Combine(old(aggregate), VectorValue(g, levels[l][begin..end]))
    {
      hide Laid, Tower, VectorValue;
      if begin == end {
        return;
      }
      OneVector(begin, end);
      var v: seq<real>;
      if l == 0 {
        assert begin % STANDARD_VECTOR_SIZE + (end - begin) <= STANDARD_VECTOR_SIZE;
        v := input[begin..end];
      } else {
        assert end - begin < STANDARD_VECTOR_SIZE;
        LaidRead(levels, starts, flat[..starts[|starts| - 1]], l, begin, end);
        v := flat[begin + starts[l - 1]..end + starts[l - 1]];
        assert v == flat[..starts[|starts| - 1]][begin + starts[l - 1]..end + starts[l - 1]];
      }
      var val := AggregateVector(g, v);
      aggregate := g.Combine(aggregate, val);
      nAggregated := nAggregated + (end - begin);
    }

    /** Writes the aggregate of a group; nothing is written for NULL. */
    method WriteGroup(l: nat, size: nat, pos: nat, offset: nat)
      requires Growing() && l < |levels| && pos % TREE_FANOUT == 0 && pos < size == |levels[l]|
      requires starts[|starts| - 1] <= offset < flat.Length
      modifies this`aggregate, this`nAggregated, flat
      ensures AggregateOf(g, GroupOf(levels[l], pos / TREE_FANOUT), flat[offset])
      ensures !SomeGood(g, GroupOf(levels[l], pos / TREE_FANOUT)) ==> flat[offset] == old(flat[offset])
      ensures forall i :: 0 <= i < flat.Length && i != offset ==> flat[i] == old(flat[i])
    {
      hide Laid, Tower, VectorValue, Fold, SomeGood;
      ghost var vs := GroupOf(levels[l], pos / TREE_FANOUT);
      AggregateInit();
      WindowSegmentValue(l, pos, Smaller(size, pos + TREE_FANOUT));
      assert vs == levels[l][pos..Smaller(size, pos + TREE_FANOUT)];
      if SomeGood(g, vs) {
        FoldSeeded(g, []);
        CombineGood(g, g.Unit(), vs);
        FoldSeeded(g, vs);
      } else {
        CombineBad(g, Some(g.Unit()), vs);
      }
      var result := AggregateFinal();
      if result.Some? {
        flat[offset] := result.value;
      }
    }

    /** Writes the aggregates of the groups of the last level after it. */
    method WriteGroups(size: nat)
      requires Growing() && size == |levels[|levels| - 1]|
      requires starts[|starts| - 1] + Groups(size) <= flat.Length
      modifies this`aggregate, this`nAggregated, flat
      ensures flat[..starts[|starts| - 1]] == old(flat[..starts[|starts| - 1]])
      ensures IsUp(g, levels[|levels| - 1], flat[starts[|starts| - 1]..starts[|starts| - 1] + Groups(size)])
    {
      hide Tower, Laid, AggregateOf, Aggregated, GroupOf;
      var l, top := |starts| - 1, starts[|starts| - 1];
      ghost var level, stored := levels[l], flat[..top];
      AggregatedNone(g, level);
      assert flat[top..top] == [];
      var pos, offset := 0, top;
      while pos < size
        invariant top <= offset <= top + Groups(size)
        invariant pos == (offset - top) * TREE_FANOUT
        invariant flat[..top] == stored && Growing()
        invariant Aggregated(g, level, flat[top..offset])
        modifies this`aggregate, this`nAggregated, flat
        decreases size - pos
      {
        ghost var up := flat[top..offset];
        WriteGroup(l, size, pos, offset);
        assert flat[..top] == stored;
        assert flat[top..offset + 1] == up + [flat[offset]];
        AggregatedPush(g, level, up, flat[offset]);
        pos, offset := pos + TREE_FANOUT, offset + 1;
      }
    }

    /** Adds the level of their aggregates. */
    method AddLevel(size: nat)
      requires Growing() && size == |levels[|levels| - 1]| > 1
      requires starts[|starts| - 1] + Groups(size) <= flat.Length
      modifies this`aggregate, this`nAggregated, this`starts, this`levels, flat
      ensures Growing() && flat == old(flat)
      ensures |levels| == old(|levels|) + 1 && |levels[|levels| - 1]| == Groups(size)
      ensures starts == old(starts) + [old(starts[|starts| - 1]) + Groups(size)]
    {
      hide Tower, Laid, IsUp;
      var l, top := |starts| - 1, starts[|starts| - 1];
      ghost var stored := flat[..top];
      WriteGroups(size);
      ghost var up := flat[top..top + Groups(size)];
      assert flat[..top + Groups(size)] == stored + up;
      LaidPush(levels, starts, stored, up);
      TowerPush(g, levels, up);
      starts, levels := starts + [top + Groups(size)], levels + [up];
    }

    method ConstructTree()
      requires Growing() && starts == [0] && levels == [input]
      requires flat.Length == if |input| <= 1 then |input| else Nodes(|input|)
      modifies this`aggregate, this`nAggregated, this`starts, this`levels, flat
      ensures Valid() && flat == old(flat)
    {
      hide Tower, Laid;
      while true
        invariant Growing() && flat == old(flat)
        invariant starts[|starts| - 1] + Nodes(|levels[|levels| - 1]|) <= flat.Length
        decreases |levels[|levels| - 1]|
      {
        var l := |starts| - 1;
        LaidSizes(levels, starts, flat[..starts[l]]);
        var size := if l == 0 then |input| else starts[l] - starts[l - 1];
        if size <= 1 {
          break;
        }
        AddLevel(size);
      }
    }

    /** Reads a part of a group: its aggregate, or for MIN without a good value NULL, which stays. */
    method Read(l: nat, begin: nat, end: nat)
      requires Growing() && l < |levels| && begin <= end <= |levels[l]|
      requires begin < end ==> begin / TREE_FANOUT == (end - 1) / TREE_FANOUT
      modifies this`aggregate, this`nAggregated
      ensures nAggregated == old(nAggregated) + (end - begin)
      ensures old(aggregate.Some? && g.Seeded(aggregate.value)) && Readable(g, levels[l][begin..end]) ==>
                && aggregate == Some(g.Op(old(aggregate).value, Fold(g, levels[l][begin..end])))
                && g.Seeded(aggregate.value)
      ensures !Readable(g, levels[l][begin..end]) ==> aggregate == None
      ensures old(aggregate) == None && g.kind == Min ==> aggregate == None
      ensures g.kind == Min ==> AtMost(aggregate, old(aggregate), levels[l][begin..end])
    {
      hide Laid, Tower, Fold, SomeGood, VectorValue;
      ghost var before, vs := aggregate, levels[l][begin..end];
      WindowSegmentValue(l, begin, end);
      if g.kind == Min {
        CombineMin(g, before, vs);
      }
      if !Readable(g, vs) {
        CombineBad(g, before, vs);
      } else if before.Some? && g.Seeded(before.value) {
        if begin == end {
          assert vs == [];
          SeededNone(g, before.value);
        } else {
          CombineGood(g, before.value, vs);
        }
      }
    }

    /** Reads the partial groups at the ends of a window that spans groups; the groups between them are left to the next level. */
    method ReadEnds(l: nat, begin: nat, end: nat) returns (parentBegin: nat, parentEnd: nat)
      requires Valid() && l < |levels| && begin <= end <= |levels[l]| && begin / TREE_FANOUT < end / TREE_FANOUT
      modifies this`aggregate, this`nAggregated
      ensures l + 1 < |levels| && parentBegin <= parentEnd <= |levels[l + 1]|
      ensures parentBegin < parentEnd || nAggregated > old(nAggregated)
      ensures old(nAggregated) <= nAggregated <= old(nAggregated) + 2 * (TREE_FANOUT - 1)
      ensures old(aggregate.Some? && g.Seeded(aggregate.value)) && Lively(g, levels[l], begin, end) ==>
                && aggregate.Some? && g.Seeded(aggregate.value) && Lively(g, levels[l + 1], parentBegin, parentEnd)
                && g.Op(aggregate.value, Fold(g, levels[l + 1][parentBegin..parentEnd]))
                   == g.Op(old(aggregate).value, Fold(g, levels[l][begin..end]))
      ensures Broken(g, levels[l], begin, end) ==> aggregate == None && g.kind == Min
      ensures old(aggregate) == None && g.kind == Min ==> aggregate == None
      ensures begin <= parentBegin * TREE_FANOUT < begin + TREE_FANOUT && parentEnd == end / TREE_FANOUT
      ensures g.kind == Min ==> forall v :: Covered(g, old(aggregate), levels[l], begin, end, v) ==>
                                             Covered(g, aggregate, levels[l + 1], parentBegin, parentEnd, v)
    {
      hide Fold, IsUp, Laid, Tower, Aggregate.Op, Lively, SomeGood, PartOf, Broken, Covered, AtMost;
      parentBegin, parentEnd := begin / TREE_FANOUT, end / TREE_FANOUT;
      Above(g, levels, l);
      UpSize(g, levels[l], levels[l + 1]);
      var groupBegin := parentBegin * TREE_FANOUT;
      if begin != groupBegin {
        parentBegin := parentBegin + 1;
      }
      if Broken(g, levels[l], begin, end) {
        BrokenIsMin(g, levels[l], begin, end);
        BrokenEnds(g, levels[l], begin, end, parentBegin, parentEnd);
      }
      if aggregate.Some? && Lively(g, levels[l], begin, end) {
        Climb(g, levels[l], levels[l + 1], begin, end, parentBegin, parentEnd, aggregate.value);
      }
      ghost var before := aggregate;
      Read(l, begin, parentBegin * TREE_FANOUT);
      ghost var middle := aggregate;
      Read(l, parentEnd * TREE_FANOUT, end);
      if g.kind == Min {
        forall v | Covered(g, before, levels[l], begin, end, v) ensures Covered(g, aggregate, levels[l + 1], parentBegin, parentEnd, v) {
          CoveredUp(g, levels[l], levels[l + 1], begin, end, parentBegin, parentEnd, before, middle, aggregate, v);
        }
      }
    }

    /** What is left of a window at a level still bounds the minimum as the window does, and as the nodes of its whole groups do. */
    ghost predicate Left(l: nat, b: nat, e: nat, begin: nat, end: nat)
      reads this`levels, this`aggregate
    {
      && l < |levels| && b <= e <= |levels[l]| && begin <= end <= |input|
      && (l > 0 ==> |levels| > 1 && end / TREE_FANOUT <= |levels[1]|)
      && (g.kind == Min ==> AllCovered(g, aggregate, levels[l], b, e, input, begin, end))
      && (g.kind == Min && l > 0 ==> AllCovered(g, aggregate, levels[l], b, e, levels[1], Groups(begin), end / TREE_FANOUT))
    }

    /** The minimum is NULL or at most the good values of a window, and at most what the nodes of its whole groups hold. */
    ghost predicate Bounded(r: Option<real>, begin: nat, end: nat)
      requires begin <= end <= |input|
      reads this`levels
    {
      g.kind == Min ==>
        && NotAbove(g, r, input, begin, end)
        && (|levels| > 1 && end / TREE_FANOUT <= |levels[1]| ==>
              NotAbove(g, r, levels[1], Groups(begin), end / TREE_FANOUT))
    }

    /** Reads what is left of a window when it lies in one group. */
    method ReadLast(l: nat, b: nat, e: nat, ghost begin: nat, ghost end: nat)
      requires Growing() && Left(l, b, e, begin, end) && b / TREE_FANOUT == e / TREE_FANOUT
      requires l == 0 ==> b == begin && e == end
      modifies this`aggregate, this`nAggregated
      ensures nAggregated == old(nAggregated) + (e - b)
      ensures old(aggregate.Some? && g.Seeded(aggregate.value)) && Readable(g, levels[l][b..e]) ==>
                aggregate == Some(g.Op(old(aggregate).value, Fold(g, levels[l][b..e])))
      ensures !Readable(g, levels[l][b..e]) ==> aggregate == None
      ensures old(aggregate) == None && g.kind == Min ==> aggregate == None
      ensures Bounded(aggregate, begin, end)
    {
      hide Growing, AllCovered, AtMost, NotAbove, Readable, Aggregate.Op, Aggregate.Seeded, Fold;
      ghost var before, lo, hi := aggregate, Groups(begin), end / TREE_FANOUT;
      Read(l, b, e);
      if g.kind == Min {
        CoveredDone(g, before, aggregate, levels[l], b, e, input, begin, end);
        if l > 0 {
          CoveredDone(g, before, aggregate, levels[l], b, e, levels[1], lo, hi);
        } else if |levels| > 1 && hi <= |levels[1]| {
          NotAboveNothing(g, aggregate, levels[1], lo, hi);
        }
      }
    }

    /** Reads the ends of what is left, and goes on with the level above. */
    method Ascend(l: nat, b: nat, e: nat, ghost begin: nat, ghost end: nat) returns (pb: nat, pe: nat)
      requires Valid() && Left(l, b, e, begin, end) && b / TREE_FANOUT < e / TREE_FANOUT
      requires l == 0 ==> b == begin && e == end
      modifies this`aggregate, this`nAggregated
      ensures Left(l + 1, pb, pe, begin, end)
      ensures pb < pe || nAggregated > old(nAggregated)
      ensures old(nAggregated) <= nAggregated <= old(nAggregated) + 2 * (TREE_FANOUT - 1)
      ensures old(aggregate.Some? && g.Seeded(aggregate.value)) && Lively(g, levels[l], b, e) ==>
                && aggregate.Some? && g.Seeded(aggregate.value) && Lively(g, levels[l + 1], pb, pe)
                && g.Op(aggregate.value, Fold(g, levels[l + 1][pb..pe])) == g.Op(old(aggregate).value, Fold(g, levels[l][b..e]))
      ensures Broken(g, levels[l], b, e) ==> aggregate == None && g.kind == Min
      ensures old(aggregate) == None && g.kind == Min ==> aggregate == None
    {
      hide Growing, Covered, AllCovered, Lively, Broken, Aggregate.Op, Aggregate.Seeded, Fold;
      ghost var before, lo, hi := aggregate, Groups(begin), end / TREE_FANOUT;
      pb, pe := ReadEnds(l, b, e);
      if g.kind == Min {
        CoveredOn(g, before, levels[l], b, e, aggregate, levels[l + 1], pb, pe, input, begin, end);
        if l > 0 {
          CoveredOn(g, before, levels[l], b, e, aggregate, levels[l + 1], pb, pe, levels[1], lo, hi);
        } else {
          CoversItself(g, aggregate, levels[1], pb, pe);
        }
      }
    }

    lemma LeftAtFirst(begin: nat, end: nat)
      requires Growing() && begin <= end <= |input|
      ensures Left(0, begin, end, begin, end)
    {
      hide Laid, Tower, AllCovered;
      CoversItself(g, aggregate, input, begin, end);
    }

    lemma NoneBounded(begin: nat, end: nat)
      requires begin <= end <= |input|
      ensures Bounded(None, begin, end)
    {
    }

    /**
     The aggregate of a window, from at most two partial groups of each level, if every
     part of a group in it has a good value; NULL for the empty window, and if a
     part at an end that is not a whole group has none. In all cases the minimum is
     NULL or at most the good values of the window, and at most what the nodes of
     its whole groups hold: for a group without a good value, whatever was in memory.
     */
    method Compute(begin: nat, end: nat) returns (r: Option<real>)
      requires Valid() && begin <= end <= |input|
      modifies this`aggregate, this`nAggregated
      ensures begin == end ==> r == None
      ensures begin < end && Lively(g, input, begin, end) ==> r == Some(Fold(g, input[begin..end]))
      ensures Broken(g, input, begin, end) ==> r == None
      ensures begin < end && g.kind == Sum ==> r.Some? && Total(input[..begin]) + r.value == Total(input[..end])
      ensures begin < end && g.kind == Min && Lively(g, input, begin, end) ==> r.Some? && IsLeast(input[begin..end], r.value)
      ensures begin < end && g.kind == Max && (exists v :: v in input[begin..end] && v >= g.minimum) ==>
                r.Some? && IsGreatest(input[begin..end], r.value)
      ensures Bounded(r, begin, end)
      ensures nAggregated <= 2 * (TREE_FANOUT - 1) * |starts|
    {
      hide Fold, Growing, Aggregate.Op, Aggregate.Seeded, Lively, Readable, Broken, Left, Bounded;
      Levels();
      AggregateInit();
      ghost var lively, broken := Lively(g, input, begin, end), Broken(g, input, begin, end);
      UnitSeeded(g, input[begin..end]);
      if broken {
        BrokenIsMin(g, input, begin, end);
      }
      LeftAtFirst(begin, end);
      NoneBounded(begin, end);
      WindowIs(g, input, begin, end);
      var b: nat, e: nat, l: nat := begin, end, 0;
      while l < |starts| + 1
        invariant l < |starts| && b <= e <= |levels[l]| && Left(l, b, e, begin, end)
        invariant lively ==>
                    && aggregate.Some? && g.Seeded(aggregate.value) && Lively(g, levels[l], b, e)
                    && g.Op(aggregate.value, Fold(g, levels[l][b..e])) == Fold(g, input[begin..end])
        invariant l == 0 ==> b == begin && e == end
        invariant broken && l > 0 ==> aggregate == None
        invariant begin == end ==> b == e && nAggregated == 0
        invariant begin < end ==> b < e || nAggregated > 0
        invariant nAggregated <= 2 * (TREE_FANOUT - 1) * l
      {
        if b / TREE_FANOUT == e / TREE_FANOUT {
          if lively {
            LivelyWithin(g, levels[l], b, e);
          }
          if broken && l == 0 {
            BrokenWithin(g, input, begin, end);
          }
          ReadLast(l, b, e, begin, end);
          return AggregateFinal();
        }
        b, e := Ascend(l, b, e, begin, end);
        LeftIs(l + 1, b, e, begin, end);
        l := l + 1;
      }
      assert false;
    }

    lemma LeftIs(l: nat, b: nat, e: nat, begin: nat, end: nat)
      requires Left(l, b, e, begin, end)
      ensures l < |levels| && b <= e <= |levels[l]|
    {
    }
  }

  /** What the aggregate of a window is, kind by kind. */
  lemma WindowIs(g: Aggregate, input: seq<real>, begin: nat, end: nat)
    requires begin <= end <= |input|
    ensures g.kind != Min ==> Lively(g, input, begin, end)
    ensures g.kind == Sum ==> Total(input[..begin]) + Fold(g, input[begin..end]) == Total(input[..end])
    ensures begin < end && g.kind == Min && Lively(g, input, begin, end) ==> IsLeast(input[begin..end], Fold(g, input[begin..end]))
    ensures g.kind == Max && (exists v :: v in input[begin..end] && v >= g.minimum) ==>
              IsGreatest(input[begin..end], Fold(g, input[begin..end]))
  {
    hide Fold, Lively, Total;
    var vs := input[begin..end];
    if g.kind != Min {
      GoodIsLively(g, input, begin, end);
    }
    if g.kind == Sum {
      FoldSum(g, vs);
      assert input[..end] == input[..begin] + vs;
      TotalConcat(input[..begin], vs);
    } else if g.kind == Max {
      FoldMaxExactly(g, vs);
    } else if begin < end && Lively(g, input, begin, end) {
      LivelyHasGood(g, input, begin, end);
      FoldMinExactly(g, vs);
    }
  }

  lemma LivelyHasGood(g: Aggregate, input: seq<real>, begin: nat, end: nat)
    requires begin < end <= |input| && g.kind == Min && Lively(g, input, begin, end)
    ensures exists v :: v in input[begin..end] && v <= g.maximum
  {
    var j := begin / TREE_FANOUT;
    var part := PartOf(input, begin, end, j);
    assert part != [] && SomeGood(g, part);
    var i :| 0 <= i < |part| && g.Good(part[i]);
    assert part[i] == input[begin + i] == input[begin..end][i];
    assert part[i] in input[begin..end] && part[i] <= g.maximum;
  }

  /** A window inside a group is one part. */
  lemma LivelyWithin(g: Aggregate, level: seq<real>, begin: nat, end: nat)
    requires begin <= end <= |level| && begin / TREE_FANOUT == end / TREE_FANOUT && Lively(g, level, begin, end)
    ensures Readable(g, level[begin..end])
  {
    hide SomeGood;
    if begin < end {
      assert PartOf(level, begin, end, begin / TREE_FANOUT) == level[begin..end];
    }
  }

  /** A broken window inside a group has no good value. */
  lemma BrokenWithin(g: Aggregate, level: seq<real>, begin: nat, end: nat)
    requires begin <= end <= |level| && begin / TREE_FANOUT == end / TREE_FANOUT && Broken(g, level, begin, end)
    ensures !Readable(g, level[begin..end])
  {
    hide SomeGood;
    if begin < end {
      assert PartOf(level, begin, end, begin / TREE_FANOUT) == level[begin..end];
    }
  }

  /** Across groups, the part that makes a window broken is one of the partial groups at its ends. */
  lemma BrokenEnds(g: Aggregate, level: seq<real>, begin: nat, end: nat, a: nat, b: nat)
    requires begin <= a * TREE_FANOUT <= b * TREE_FANOUT <= end <= |level|
    requires a * TREE_FANOUT < begin + TREE_FANOUT && end < (b + 1) * TREE_FANOUT && begin / TREE_FANOUT < b
    requires Broken(g, level, begin, end)
    ensures !Readable(g, level[begin..a * TREE_FANOUT]) || !Readable(g, level[b * TREE_FANOUT..end])
  {
    hide SomeGood;
    var j := begin / TREE_FANOUT;
    assert end / TREE_FANOUT == b && j * TREE_FANOUT <= begin < (j + 1) * TREE_FANOUT;
    assert PartOf(level, begin, end, b) == level[b * TREE_FANOUT..end];
    if begin == a * TREE_FANOUT {
      assert |PartOf(level, begin, end, j)| == TREE_FANOUT;
    } else {
      assert a == j + 1;
      assert PartOf(level, begin, end, j) == level[begin..a * TREE_FANOUT];
    }
  }

  /** Only the minimum has values that are not good. */
  lemma BrokenIsMin(g: Aggregate, level: seq<real>, begin: nat, end: nat)
    requires begin <= end <= |level| && Broken(g, level, begin, end)
    ensures g.kind == Min
  {
    hide PartOf;
    var first, last := PartOf(level, begin, end, begin / TREE_FANOUT), PartOf(level, begin, end, end / TREE_FANOUT);
    assert if Dead(g, first) then !g.Good(first[0]) else !g.Good(last[0]);
  }
}
