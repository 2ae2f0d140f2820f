/**
 Join reordering: rebuilding a plan from a join tree and a shared list of
 filters, against the combinations of rows that satisfy all filters.
 */
module JoinOrder {
  import opened VersionChain
  import opened Comparisons

  // ---------------------------------------------------------------- rows, expressions, filters

  /** A combination picks one row of every relation, by its number. */
  type Combination = map<nat, nat>

  function Restrict(a: Combination, rels: set<nat>): Combination {
    map r | r in a && r in rels :: a[r]
  }

  /** An expression and the relations it refers to. */
  datatype Term = Term(id: nat, rels: set<nat>)

  /** The number of rows of each relation and the value of every expression on a combination. */
  datatype Env = Env(rows: nat -> nat, value: (nat, Combination) -> Option<int>, truth: (nat, Combination) -> bool)

  function Value(env: Env, t: Term, a: Combination): Option<int> {
    env.value(t.id, Restrict(a, t.rels))
  }

  datatype JoinFilter = Compare(op: Comparison, left: Term, right: Term) | Condition(term: Term)

  function FilterRels(f: JoinFilter): set<nat> {
    match f
    case Compare(_, left, right) => left.rels + right.rels
    case Condition(term) => term.rels
  }

  predicate FilterHolds(env: Env, f: JoinFilter, a: Combination) {
    match f
    case Compare(op, left, right) => IsTrue(op, Value(env, left, a), Value(env, right, a))
    case Condition(term) => env.truth(term.id, Restrict(a, term.rels))
  }

  predicate AllHold(env: Env, fs: seq<JoinFilter>, a: Combination) {
    forall k :: 0 <= k < |fs| ==> FilterHolds(env, fs[k], a)
  }

  // ---------------------------------------------------------------- plans

  /** A join condition; its left side is computed from the left child. */
  datatype JoinCondition = JoinCondition(left: Term, op: Comparison, right: Term)

  datatype Plan =
    | Leaf(relation: nat)
    | Cross(left: Plan, right: Plan)
    | Join(left: Plan, right: Plan, conditions: seq<JoinCondition>)
    | Select(child: Plan, filters: seq<JoinFilter>)

  function Rels(p: Plan): set<nat> {
    match p
    case Leaf(r) => {r}
    case Cross(l, r) => Rels(l) + Rels(r)
    case Join(l, r, _) => Rels(l) + Rels(r)
    case Select(c, _) => Rels(c)
  }

  predicate ConditionsHold(env: Env, conds: seq<JoinCondition>, a: Combination) {
    forall k :: 0 <= k < |conds| ==> IsTrue(conds[k].op, Value(env, conds[k].left, a), Value(env, conds[k].right, a))
  }

  /** How often a plan emits a combination. */
  function Count(env: Env, p: Plan, a: Combination): nat {
    match p
    case Leaf(r) => if a.Keys == {r} && a[r] < env.rows(r) then 1 else 0
    case Cross(l, r) =>
      if a.Keys == Rels(l) + Rels(r) then Count(env, l, Restrict(a, Rels(l))) * Count(env, r, Restrict(a, Rels(r))) else 0
    case Join(l, r, conds) =>
      if a.Keys == Rels(l) + Rels(r) && ConditionsHold(env, conds, a)
      then Count(env, l, Restrict(a, Rels(l))) * Count(env, r, Restrict(a, Rels(r))) else 0
    case Select(c, fs) => if AllHold(env, fs, a) then Count(env, c, a) else 0
  }

  /** Every join condition takes its sides from the children. */
  predicate WellFormed(p: Plan) {
    match p
    case Leaf(_) => true
    case Cross(l, r) => WellFormed(l) && WellFormed(r) && Rels(l) !! Rels(r)
    case Join(l, r, conds) =>
      && WellFormed(l) && WellFormed(r) && Rels(l) !! Rels(r)
      && forall k :: 0 <= k < |conds| ==> conds[k].left.rels <= Rels(l) && conds[k].right.rels <= Rels(r)
    case Select(c, _) => WellFormed(c)
  }

  /** One row of each relation. */
  predicate Legal(env: Env, a: Combination, rels: set<nat>) {
    a.Keys == rels && forall r :: r in a ==> a[r] < env.rows(r)
  }

  /** The plan emits each combination that satisfies the filters once, and nothing else. */
  ghost predicate Emits(env: Env, p: Plan, fs: seq<JoinFilter>) {
    && WellFormed(p)
    && forall a :: Count(env, p, a) == if Legal(env, a, Rels(p)) && AllHold(env, fs, a) then 1 else 0
  }

  /** The filters refer to these relations only. */
  predicate Within(fs: seq<JoinFilter>, rels: set<nat>) {
    forall k :: 0 <= k < |fs| ==> FilterRels(fs[k]) <= rels
  }

  lemma RestrictTwice(a: Combination, small: set<nat>, big: set<nat>)
    requires small <= big
    ensures Restrict(Restrict(a, big), small) == Restrict(a, small)
  {
  }

  lemma HoldsLocally(env: Env, f: JoinFilter, a: Combination, rels: set<nat>)
    requires FilterRels(f) <= rels
    ensures FilterHolds(env, f, Restrict(a, rels)) <==> FilterHolds(env, f, a)
  {
    match f
    case Compare(_, left, right) =>
      RestrictTwice(a, left.rels, rels);
      RestrictTwice(a, right.rels, rels);
    case Condition(term) =>
      RestrictTwice(a, term.rels, rels);
  }

  lemma AllHoldLocally(env: Env, fs: seq<JoinFilter>, a: Combination, rels: set<nat>)
    requires Within(fs, rels)
    ensures AllHold(env, fs, Restrict(a, rels)) <==> AllHold(env, fs, a)
  {
    forall k | 0 <= k < |fs| ensures FilterHolds(env, fs[k], Restrict(a, rels)) <==> FilterHolds(env, fs[k], a) {
      HoldsLocally(env, fs[k], a, rels);
    }
  }

  lemma HoldConcat(env: Env, fs: seq<JoinFilter>, gs: seq<JoinFilter>, a: Combination)
    ensures AllHold(env, fs + gs, a) <==> AllHold(env, fs, a) && AllHold(env, gs, a)
  {
    var all := fs + gs;
    if AllHold(env, all, a) {
      assert forall k :: 0 <= k < |fs| ==> fs[k] == all[k];
      assert forall k :: 0 <= k < |gs| ==> gs[k] == all[|fs| + k];
    }
  }

  lemma LegalSplits(env: Env, a: Combination, ls: set<nat>, rs: set<nat>)
    requires a.Keys == ls + rs
    ensures Legal(env, a, ls + rs) <==> Legal(env, Restrict(a, ls), ls) && Legal(env, Restrict(a, rs), rs)
  {
    assert Restrict(a, ls).Keys == ls && Restrict(a, rs).Keys == rs;
    if Legal(env, Restrict(a, ls), ls) && Legal(env, Restrict(a, rs), rs) {
      forall r | r in a ensures a[r] < env.rows(r) {
        assert r in ls ==> r in Restrict(a, ls);
        assert r in rs ==> r in Restrict(a, rs);
      }
    }
  }

  lemma LeafEmits(env: Env, r: nat)
    ensures Emits(env, Leaf(r), [])
  {
  }

  lemma CrossEmits(env: Env, l: Plan, r: Plan, fs: seq<JoinFilter>, gs: seq<JoinFilter>)
    requires Emits(env, l, fs) && Emits(env, r, gs) && Within(fs, Rels(l)) && Within(gs, Rels(r)) && Rels(l) !! Rels(r)
    ensures Emits(env, Cross(l, r), fs + gs)
  {
    hide AllHold, Legal;
    forall a ensures Count(env, Cross(l, r), a) == if Legal(env, a, Rels(l) + Rels(r)) && AllHold(env, fs + gs, a) then 1 else 0 {
      HoldConcat(env, fs, gs, a);
      AllHoldLocally(env, fs, a, Rels(l));
      AllHoldLocally(env, gs, a, Rels(r));
      if a.Keys == Rels(l) + Rels(r) {
        LegalSplits(env, a, Rels(l), Rels(r));
      } else {
        assert !Legal(env, a, Rels(l) + Rels(r)) by { NotLegal(env, a, Rels(l) + Rels(r)); }
      }
    }
  }

  lemma NotLegal(env: Env, a: Combination, rels: set<nat>)
    requires a.Keys != rels
    ensures !Legal(env, a, rels)
  {
  }

  // ---------------------------------------------------------------- pushing filters

  function PushFilter(p: Plan, f: JoinFilter): Plan {
    match p
    case Select(c, fs) => Select(c, fs + [f])
    case _ => Select(p, [f])
  }

  lemma HoldOne(env: Env, f: JoinFilter, a: Combination)
    ensures AllHold(env, [f], a) <==> FilterHolds(env, f, a)
  {
    assert [f][0] == f;
  }

  lemma PushEmits(env: Env, p: Plan, fs: seq<JoinFilter>, f: JoinFilter)
    requires Emits(env, p, fs)
    ensures Emits(env, PushFilter(p, f), fs + [f]) && Rels(PushFilter(p, f)) == Rels(p)
  {
    hide AllHold, Legal;
    forall a ensures Count(env, PushFilter(p, f), a) == if FilterHolds(env, f, a) then Count(env, p, a) else 0 {
      HoldOne(env, f, a);
      if p.Select? {
        HoldConcat(env, p.filters, [f], a);
      }
    }
    forall a ensures AllHold(env, fs + [f], a) <==> AllHold(env, fs, a) && FilterHolds(env, f, a) {
      HoldConcat(env, fs, [f], a);
      HoldOne(env, f, a);
    }
  }

  /** A comparison as a join condition, with its sides exchanged if they come from the other children. */
  function ConditionOf(f: JoinFilter, invert: bool): JoinCondition
    requires f.Compare?
  {
    if invert then JoinCondition(f.right, Flip(f.op), f.left) else JoinCondition(f.left, f.op, f.right)
  }

  lemma ConditionIs(env: Env, f: JoinFilter, invert: bool, a: Combination)
    requires f.Compare?
    ensures var c := ConditionOf(f, invert);
            IsTrue(c.op, Value(env, c.left, a), Value(env, c.right, a)) <==> FilterHolds(env, f, a)
  {
  }

  /** The join at the top, possibly below a selection. */
  predicate HasJoin(p: Plan) {
    p.Join? || (p.Select? && p.child.Join?)
  }

  function JoinOf(p: Plan): Plan
    requires HasJoin(p)
  {
    if p.Join? then p else p.child
  }

  function PushCondition(p: Plan, c: JoinCondition): Plan
    requires HasJoin(p)
  {
    if p.Join? then p.(conditions := p.conditions + [c])
    else Select(p.child.(conditions := p.child.conditions + [c]), p.filters)
  }

  predicate Splits(c: JoinCondition, ls: set<nat>, rs: set<nat>) {
    c.left.rels <= ls && c.right.rels <= rs
  }

  lemma PushConditionEmits(env: Env, p: Plan, fs: seq<JoinFilter>, f: JoinFilter, invert: bool)
    requires Emits(env, p, fs) && HasJoin(p) && f.Compare?
    requires Splits(ConditionOf(f, invert), Rels(JoinOf(p).left), Rels(JoinOf(p).right))
    ensures var q := PushCondition(p, ConditionOf(f, invert));
            && Emits(env, q, fs + [f]) && Rels(q) == Rels(p) && HasJoin(q)
            && JoinOf(q).left == JoinOf(p).left && JoinOf(q).right == JoinOf(p).right
  {
    var c := ConditionOf(f, invert);
    var q := PushCondition(p, c);
    PushShape(p, c);
    forall a ensures Count(env, q, a) == if FilterHolds(env, f, a) then Count(env, p, a) else 0 {
      JoinCounts(env, JoinOf(p), f, invert, a);
    }
    hide AllHold, Legal, Count;
    forall a ensures Count(env, q, a) == if Legal(env, a, Rels(q)) && AllHold(env, fs + [f], a) then 1 else 0 {
      HoldConcat(env, fs, [f], a);
      HoldOne(env, f, a);
    }
  }

  lemma PushShape(p: Plan, c: JoinCondition)
    requires WellFormed(p) && HasJoin(p) && Splits(c, Rels(JoinOf(p).left), Rels(JoinOf(p).right))
    ensures var q := PushCondition(p, c);
            && WellFormed(q) && Rels(q) == Rels(p) && HasJoin(q)
            && JoinOf(q).left == JoinOf(p).left && JoinOf(q).right == JoinOf(p).right
  {
    assert WellFormed(JoinOf(p));
    JoinWellFormed(JoinOf(p), c);
    if p.Select? {
      var j := p.child.(conditions := p.child.conditions + [c]);
      assert PushCondition(p, c) == Select(j, p.filters) && WellFormed(j) && Rels(j) == Rels(p.child);
    }
  }

  lemma JoinWellFormed(p: Plan, c: JoinCondition)
    requires p.Join? && WellFormed(p) && Splits(c, Rels(p.left), Rels(p.right))
    ensures WellFormed(p.(conditions := p.conditions + [c]))
  {
  }

  lemma JoinCounts(env: Env, p: Plan, f: JoinFilter, invert: bool, a: Combination)
    requires p.Join? && f.Compare?
    ensures Count(env, p.(conditions := p.conditions + [ConditionOf(f, invert)]), a)
            == if FilterHolds(env, f, a) then Count(env, p, a) else 0
  {
    var c := ConditionOf(f, invert);
    var cs := p.conditions + [c];
    ConditionIs(env, f, invert, a);
    assert cs[|p.conditions|] == c && forall k :: 0 <= k < |p.conditions| ==> cs[k] == p.conditions[k];
    assert ConditionsHold(env, cs, a) <==> ConditionsHold(env, p.conditions, a) && FilterHolds(env, f, a) by {
      if ConditionsHold(env, cs, a) {
        forall k | 0 <= k < |p.conditions|
          ensures IsTrue(p.conditions[k].op, Value(env, p.conditions[k].left, a), Value(env, p.conditions[k].right, a))
        {
          assert cs[k] == p.conditions[k];
        }
      }
    }
  }

  lemma JoinEmits(env: Env, l: Plan, r: Plan, fs: seq<JoinFilter>, gs: seq<JoinFilter>)
    requires Emits(env, l, fs) && Emits(env, r, gs) && Within(fs, Rels(l)) && Within(gs, Rels(r)) && Rels(l) !! Rels(r)
    ensures Emits(env, Join(l, r, []), fs + gs)
  {
    CrossEmits(env, l, r, fs, gs);
    assert forall a :: Count(env, Join(l, r, []), a) == Count(env, Cross(l, r), a);
  }

  // ---------------------------------------------------------------- whatever the data

  /** On any data, the plan emits exactly the combinations that satisfy the filters. */
  ghost predicate Means(p: Plan, fs: seq<JoinFilter>) {
    Within(fs, Rels(p)) && forall env :: Emits(env, p, fs)
  }

  lemma LeafMeans(r: nat)
    ensures Means(Leaf(r), [])
  {
    forall env ensures Emits(env, Leaf(r), []) {
      LeafEmits(env, r);
    }
  }

  lemma JoinMeans(l: Plan, r: Plan, fs: seq<JoinFilter>, gs: seq<JoinFilter>)
    requires Means(l, fs) && Means(r, gs) && Rels(l) !! Rels(r)
    ensures Means(Cross(l, r), fs + gs) && Means(Join(l, r, []), fs + gs)
  {
    forall env ensures Emits(env, Cross(l, r), fs + gs) && Emits(env, Join(l, r, []), fs + gs) {
      CrossEmits(env, l, r, fs, gs);
      JoinEmits(env, l, r, fs, gs);
    }
  }

  lemma PushMeans(p: Plan, fs: seq<JoinFilter>, f: JoinFilter)
    requires Means(p, fs) && FilterRels(f) <= Rels(p)
    ensures Means(PushFilter(p, f), fs + [f]) && Rels(PushFilter(p, f)) == Rels(p)
    ensures HasJoin(p) ==> HasJoin(PushFilter(p, f)) && JoinOf(PushFilter(p, f)) == JoinOf(p)
  {
    forall env ensures Emits(env, PushFilter(p, f), fs + [f]) {
      PushEmits(env, p, fs, f);
    }
  }

  lemma PushConditionMeans(p: Plan, fs: seq<JoinFilter>, f: JoinFilter, invert: bool)
    requires Means(p, fs) && HasJoin(p) && f.Compare? && FilterRels(f) <= Rels(p)
    requires Splits(ConditionOf(f, invert), Rels(JoinOf(p).left), Rels(JoinOf(p).right))
    ensures var q := PushCondition(p, ConditionOf(f, invert));
            && Means(q, fs + [f]) && Rels(q) == Rels(p) && HasJoin(q)
            && JoinOf(q).left == JoinOf(p).left && JoinOf(q).right == JoinOf(p).right
  {
    forall env ensures Emits(env, PushCondition(p, ConditionOf(f, invert)), fs + [f]) {
      PushConditionEmits(env, p, fs, f, invert);
    }
  }

  // ---------------------------------------------------------------- rebuilding the plan

  datatype JoinTree = Base(relation: nat) | Node(left: JoinTree, right: JoinTree, filters: seq<nat>)

  function TreeRels(t: JoinTree): set<nat> {
    match t
    case Base(r) => {r}
    case Node(l, r, _) => TreeRels(l) + TreeRels(r)
  }

  /** Every relation is a leaf once, and node conditions are filters of the query. */
  predicate TreeOk(t: JoinTree, n: nat) {
    match t
    case Base(_) => true
    case Node(l, r, fs) =>
      && TreeOk(l, n) && TreeOk(r, n) && TreeRels(l) !! TreeRels(r)
      && forall k :: 0 <= k < |fs| ==> fs[k] < n
  }

  /** No set includes the empty set. */
  predicate IsSubset(super: set<nat>, sub: set<nat>) {
    sub != {} && sub <= super
  }

  /** A comparison whose sides come from the two children. */
  predicate SplitsAt(f: JoinFilter, ls: set<nat>, rs: set<nat>) {
    f.Compare? && ((IsSubset(ls, f.left.rels) && IsSubset(rs, f.right.rels))
                   || (IsSubset(rs, f.left.rels) && IsSubset(ls, f.right.rels)))
  }

  predicate NoRepeats(indices: seq<nat>) {
    forall j, k :: 0 <= j < k < |indices| ==> indices[j] != indices[k]
  }

  /**
   The join trees that can be rebuilt: node conditions are comparisons that
   split across their node, and no comparison splits at a node without conditions.
   */
  predicate Placeable(t: JoinTree, infos: seq<JoinFilter>)
    requires TreeOk(t, |infos|)
  {
    match t
    case Base(_) => true
    case Node(l, r, fs) =>
      && Placeable(l, infos) && Placeable(r, infos)
      && ConditionsSplit(fs, infos, TreeRels(l), TreeRels(r))
      && (fs == [] ==> forall i :: 0 <= i < |infos| ==> !SplitsAt(infos[i], TreeRels(l), TreeRels(r)))
  }

  predicate ConditionsSplit(fs: seq<nat>, infos: seq<JoinFilter>, ls: set<nat>, rs: set<nat>) {
    NoRepeats(fs) && forall k :: 0 <= k < |fs| ==> fs[k] < |infos| && SplitsAt(infos[fs[k]], ls, rs)
  }

  /** The nodes of a tree with two children. */
  function InnerNodes(t: JoinTree): set<JoinTree> {
    match t
    case Base(_) => {}
    case Node(l, r, _) => {t} + InnerNodes(l) + InnerNodes(r)
  }

  ghost predicate NodePlaceable(n: JoinTree, infos: seq<JoinFilter>) {
    && n.Node? && ConditionsSplit(n.filters, infos, TreeRels(n.left), TreeRels(n.right))
    && (n.filters == [] ==> forall i :: 0 <= i < |infos| ==> !SplitsAt(infos[i], TreeRels(n.left), TreeRels(n.right)))
  }

  lemma {:induction false} PlaceableNodes(t: JoinTree, infos: seq<JoinFilter>)
    requires TreeOk(t, |infos|)
    ensures Placeable(t, infos) <==> forall n :: n in InnerNodes(t) ==> NodePlaceable(n, infos)
  {
    hide ConditionsSplit, SplitsAt, TreeRels;
    if t.Node? {
      PlaceableNodes(t.left, infos);
      PlaceableNodes(t.right, infos);
      NodeIs(t, infos);
      hide NodePlaceable;
      assert forall n :: n in InnerNodes(t) <==> n == t || n in InnerNodes(t.left) || n in InnerNodes(t.right);
    }
  }

  lemma NodeIs(t: JoinTree, infos: seq<JoinFilter>)
    requires t.Node? && TreeOk(t, |infos|)
    ensures Placeable(t, infos) <==> Placeable(t.left, infos) && Placeable(t.right, infos) && NodePlaceable(t, infos)
  {
    hide ConditionsSplit, SplitsAt, TreeRels;
  }

  lemma ConditionsSplitIs(fs: seq<nat>, infos: seq<JoinFilter>, ls: set<nat>, rs: set<nat>)
    ensures ConditionsSplit(fs, infos, ls, rs) <==>
            && (forall j, k :: 0 <= j < k < |fs| ==> fs[j] != fs[k])
            && (forall k :: 0 <= k < |fs| ==>
                  && fs[k] < |infos| && infos[fs[k]].Compare? && infos[fs[k]].left.rels != {} && infos[fs[k]].right.rels != {}
                  && ((infos[fs[k]].left.rels <= ls && infos[fs[k]].right.rels <= rs)
                      || (infos[fs[k]].left.rels <= rs && infos[fs[k]].right.rels <= ls)))
  {
  }

  /**
   A tree can be rebuilt if and only if at every node the conditions are different
   comparisons, each with one side over relations of the left child and the other
   side over relations of the right child, and a node without conditions has no
   comparison of this kind in the query.
   */
  lemma PlaceableExactly(t: JoinTree, infos: seq<JoinFilter>)
    requires TreeOk(t, |infos|)
    ensures Placeable(t, infos) <==>
            forall n :: n in InnerNodes(t) ==>
              && n.Node? && (forall j, k :: 0 <= j < k < |n.filters| ==> n.filters[j] != n.filters[k])
              && (forall k :: 0 <= k < |n.filters| ==>
                    && n.filters[k] < |infos| && infos[n.filters[k]].Compare?
                    && infos[n.filters[k]].left.rels != {} && infos[n.filters[k]].right.rels != {}
                    && ((infos[n.filters[k]].left.rels <= TreeRels(n.left) && infos[n.filters[k]].right.rels <= TreeRels(n.right))
                        || (infos[n.filters[k]].left.rels <= TreeRels(n.right) && infos[n.filters[k]].right.rels <= TreeRels(n.left))))
              && (n.filters == [] ==> forall i :: 0 <= i < |infos| && infos[i].Compare?
                                                  && infos[i].left.rels != {} && infos[i].right.rels != {} ==>
                    && !(infos[i].left.rels <= TreeRels(n.left) && infos[i].right.rels <= TreeRels(n.right))
                    && !(infos[i].left.rels <= TreeRels(n.right) && infos[i].right.rels <= TreeRels(n.left)))
  {
    hide TreeRels, ConditionsSplit, Placeable, InnerNodes;
    PlaceableNodes(t, infos);
    forall n | n in InnerNodes(t) && n.Node? {
      ConditionsSplitIs(n.filters, infos, TreeRels(n.left), TreeRels(n.right));
    }
  }

  /** Every node lists, once each, exactly the comparisons with a side in each of its children. */
  ghost predicate Complete(t: JoinTree, infos: seq<JoinFilter>) {
    forall n :: n in InnerNodes(t) ==>
      && n.Node? && (forall j, k :: 0 <= j < k < |n.filters| ==> n.filters[j] != n.filters[k])
      && (forall i: nat :: i in n.filters <==>
            && i < |infos| && infos[i].Compare? && infos[i].left.rels != {} && infos[i].right.rels != {}
            && ((infos[i].left.rels <= TreeRels(n.left) && infos[i].right.rels <= TreeRels(n.right))
                || (infos[i].left.rels <= TreeRels(n.right) && infos[i].right.rels <= TreeRels(n.left))))
  }

  /** Such a tree can always be rebuilt. */
  lemma {:induction false} CompleteIsPlaceable(t: JoinTree, infos: seq<JoinFilter>)
    requires TreeOk(t, |infos|) && Complete(t, infos)
    ensures Placeable(t, infos)
  {
    if t.Node? {
      assert t in InnerNodes(t);
      assert forall n :: n in InnerNodes(t.left) || n in InnerNodes(t.right) ==> n in InnerNodes(t);
      CompleteIsPlaceable(t.left, infos);
      CompleteIsPlaceable(t.right, infos);
      forall k | 0 <= k < |t.filters| ensures SplitsAt(infos[t.filters[k]], TreeRels(t.left), TreeRels(t.right)) {
        assert t.filters[k] in t.filters;
      }
    }
  }

  /** The join tree holds a condition it cannot place; the engine asserts that this does not happen. */
  datatype Result = Built(plan: Plan) | Stuck

  class Optimizer {
    /** The filters of the query, and which of them are still to be placed. */
    const infos: seq<JoinFilter>
    var filters: seq<Option<JoinFilter>>

    constructor (infos: seq<JoinFilter>)
      ensures this.infos == infos && Matches() && forall i :: 0 <= i < |filters| ==> filters[i].Some?
    {
      this.infos := infos;
      filters := seq(|infos|, i requires 0 <= i < |infos| => Some(infos[i]));
    }

    ghost predicate Matches()
      reads this
    {
      |filters| == |infos| && forall i :: 0 <= i < |filters| && filters[i].Some? ==> filters[i].value == infos[i]
    }

    ghost function At(taken: seq<nat>): seq<JoinFilter>
      requires forall k :: 0 <= k < |taken| ==> taken[k] < |infos|
    {
      seq(|taken|, k requires 0 <= k < |taken| => infos[taken[k]])
    }

    /** Between two states, each of the filters `taken` was taken once, and no other. */
    ghost predicate Took(before: seq<Option<JoinFilter>>, after: seq<Option<JoinFilter>>, taken: seq<nat>) {
      && |before| == |after| == |infos|
      && (forall j, k :: 0 <= j < k < |taken| ==> taken[j] != taken[k])
      && (forall k :: 0 <= k < |taken| ==> taken[k] < |infos| && before[taken[k]].Some? && after[taken[k]].None?)
      && (forall i :: 0 <= i < |infos| && i !in taken ==> after[i] == before[i])
    }

    /** All filters that these relations cover are still to be placed. */
    ghost predicate Open(rels: set<nat>)
      reads this
    {
      |filters| == |infos| && forall i :: 0 <= i < |infos| && IsSubset(rels, FilterRels(infos[i])) ==> filters[i].Some?
    }

    /** A child leaves every filter that needs a relation outside it. */
    lemma LeavesOthers(before: seq<Option<JoinFilter>>, after: seq<Option<JoinFilter>>, taken: seq<nat>, inside: set<nat>)
      requires Took(before, after, taken) && Within(At(taken), inside)
      ensures forall i :: 0 <= i < |infos| && !(FilterRels(infos[i]) <= inside) ==> after[i] == before[i]
    {
      forall i | 0 <= i < |infos| && !(FilterRels(infos[i]) <= inside) ensures i !in taken {
        forall k | 0 <= k < |taken| ensures taken[k] != i {
          assert FilterRels(At(taken)[k]) <= inside;
        }
      }
    }

    lemma TookMore(before: seq<Option<JoinFilter>>, after: seq<Option<JoinFilter>>, taken: seq<nat>, i: nat)
      requires Took(before, after, taken) && i < |infos| && after[i].Some?
      ensures Took(before, after[i := None], taken + [i])
      ensures At(taken + [i]) == At(taken) + [infos[i]]
    {
    }

    lemma TookBoth(a: seq<Option<JoinFilter>>, b: seq<Option<JoinFilter>>, c: seq<Option<JoinFilter>>,
                   first: seq<nat>, second: seq<nat>)
      requires Took(a, b, first) && Took(b, c, second)
      ensures Took(a, c, first + second) && At(first + second) == At(first) + At(second)
    {
      var both := first + second;
      forall j, k | 0 <= j < k < |both| ensures both[j] != both[k] {
        if j < |first| <= k {
          assert first[j] in first && b[first[j]].None? && b[second[k - |first|]].Some?;
        }
      }
      forall k | 0 <= k < |both| ensures both[k] < |infos| && a[both[k]].Some? && c[both[k]].None? {
        if k < |first| {
          assert b[first[k]].None? && first[k] !in second;
        } else {
          assert second[k - |first|] !in first;
        }
      }
      forall i | 0 <= i < |infos| && i !in both ensures c[i] == a[i] {
        assert i !in first && i !in second;
      }
    }

    /** Turns the conditions of a join node into join conditions. */
    method PlaceConditions(l: Plan, r: Plan, indices: seq<nat>, ghost fs: seq<JoinFilter>) returns (result: Result, ghost taken: seq<nat>)
      requires Matches() && Means(Join(l, r, []), fs) && Rels(l) !! Rels(r)
      requires forall i :: 0 <= i < |infos| && SplitsAt(infos[i], Rels(l), Rels(r)) ==> filters[i].Some?
      requires forall k :: 0 <= k < |indices| ==> indices[k] < |infos|
      modifies this
      ensures Matches()
      ensures result.Built? <==> ConditionsSplit(indices, infos, Rels(l), Rels(r))
      ensures result.Built? <==>
              && (forall j, k :: 0 <= j < k < |indices| ==> indices[j] != indices[k])
              && (forall k :: 0 <= k < |indices| ==>
                    && infos[indices[k]].Compare? && infos[indices[k]].left.rels != {} && infos[indices[k]].right.rels != {}
                    && ((infos[indices[k]].left.rels <= Rels(l) && infos[indices[k]].right.rels <= Rels(r))
                        || (infos[indices[k]].left.rels <= Rels(r) && infos[indices[k]].right.rels <= Rels(l))))
      ensures result.Built? ==> && Took(old(filters), filters, taken) && Means(result.plan, fs + At(taken))
                                && result.plan.Join? && result.plan.left == l && result.plan.right == r
    {
      hide Means;
      var plan := Join(l, r, []);
      taken := [];
      assert Took(old(filters), filters, []) && fs + At([]) == fs by { TookNone(filters); }
      for k := 0 to |indices|
        invariant Matches() && Took(old(filters), filters, taken) && Means(plan, fs + At(taken))
        invariant plan.Join? && plan.left == l && plan.right == r
        invariant taken == indices[..k] && ConditionsSplit(taken, infos, Rels(l), Rels(r))
      {
        var i := indices[k];
        assert indices[..k + 1] == indices[..k] + [i];
        if filters[i].None? || !filters[i].value.Compare? {
          if i in taken {
            var j :| 0 <= j < k && indices[j] == i;
            assert !NoRepeats(indices);
          }
          ConditionsSplitIs(indices, infos, Rels(l), Rels(r));
          return Stuck, taken;
        }
        var f := filters[i].value;
        if !((IsSubset(Rels(l), f.left.rels) && IsSubset(Rels(r), f.right.rels))
             || (IsSubset(Rels(l), f.right.rels) && IsSubset(Rels(r), f.left.rels))) {
          ConditionsSplitIs(indices, infos, Rels(l), Rels(r));
          return Stuck, taken;
        }
        var invert := !IsSubset(Rels(l), f.left.rels);
        TookMore(old(filters), filters, taken, i);
        PushConditionMeans(plan, fs + At(taken), f, invert);
        filters := filters[i := None];
        plan := plan.(conditions := plan.conditions + [ConditionOf(f, invert)]);
        assert fs + At(taken) + [f] == fs + At(taken + [i]);
        taken := taken + [i];
      }
      assert indices[..|indices|] == indices;
      ConditionsSplitIs(indices, infos, Rels(l), Rels(r));
      result := Built(plan);
    }

    lemma TookNone(fs: seq<Option<JoinFilter>>)
      requires |fs| == |infos|
      ensures Took(fs, fs, [])
    {
    }

    /** Pushes every filter left that the relations of the plan cover, into its join or on top of it. */
    method PushDown(start: Plan, sides: Option<(set<nat>, set<nat>)>, ghost fs: seq<JoinFilter>)
      returns (result: Result, ghost taken: seq<nat>)
      requires Matches() && Means(start, fs)
      requires sides.Some? ==> sides.value.0 !! sides.value.1 && Rels(start) == sides.value.0 + sides.value.1
      requires sides.Some? && HasJoin(start) ==>
                 Rels(JoinOf(start).left) == sides.value.0 && Rels(JoinOf(start).right) == sides.value.1
      modifies this
      ensures Matches()
      ensures result.Built? <==> sides.None? || HasJoin(start) || forall i :: 0 <= i < |infos| && old(filters)[i].Some? ==>
                                   !SplitsAt(infos[i], sides.value.0, sides.value.1)
      ensures result.Built? ==> && Took(old(filters), filters, taken) && Means(result.plan, fs + At(taken))
                                && Rels(result.plan) == Rels(start)
    {
      hide Means;
      var plan := start;
      taken := [];
      assert Took(old(filters), filters, []) && fs + At([]) == fs by { TookNone(filters); }
      for i := 0 to |infos|
        invariant Matches() && Took(old(filters), filters, taken) && Means(plan, fs + At(taken)) && Rels(plan) == Rels(start)
        invariant sides.Some? && HasJoin(plan) ==>
                    Rels(JoinOf(plan).left) == sides.value.0 && Rels(JoinOf(plan).right) == sides.value.1
        invariant HasJoin(plan) <==> HasJoin(start)
        invariant sides.None? || HasJoin(start) || forall j :: 0 <= j < i && old(filters)[j].Some? ==>
                    !SplitsAt(infos[j], sides.value.0, sides.value.1)
        invariant forall j :: i <= j < |infos| ==> filters[j] == old(filters)[j]
      {
        if filters[i].Some? && IsSubset(Rels(start), FilterRels(filters[i].value)) {
          var f := filters[i].value;
          TookMore(old(filters), filters, taken, i);
          PushMeans(plan, fs + At(taken), f);
          assert fs + At(taken) + [f] == fs + At(taken + [i]);
          filters := filters[i := None];
          if sides.None? || !f.Compare? || f.left.rels == {} || f.right.rels == {} {
            plan := PushFilter(plan, f);
          } else {
            var (ls, rs) := sides.value;
            var straight := IsSubset(ls, f.left.rels) && IsSubset(rs, f.right.rels);
            var crossed := IsSubset(rs, f.left.rels) && IsSubset(ls, f.right.rels);
            if !straight && !crossed {
              plan := PushFilter(plan, f);
            } else {
              if !HasJoin(plan) {
                return Stuck, taken;
              }
              PushConditionMeans(plan, fs + At(taken), f, !straight);
              plan := PushCondition(plan, ConditionOf(f, !straight));
            }
          }
          taken := taken + [i];
        }
      }
      result := Built(plan);
    }

    /** Builds the plan of a join tree, taking filters out of the shared list. */
    method GenerateJoins(node: JoinTree) returns (result: Result, ghost taken: seq<nat>)
      requires Matches() && TreeOk(node, |infos|) && Open(TreeRels(node))
      modifies this
      ensures Matches()
      ensures result.Built? <==> Placeable(node, infos)
      ensures Complete(node, infos) ==> result.Built?
      ensures result.Built? ==> && Took(old(filters), filters, taken) && Means(result.plan, At(taken))
                                && Rels(result.plan) == TreeRels(node)
      decreases node
    {
      hide Means, Took, Complete;
      if Complete(node, infos) {
        CompleteIsPlaceable(node, infos);
      }
      if node.Base? {
        LeafMeans(node.relation);
        result, taken := PushDown(Leaf(node.relation), None, []);
        if result.Built? {
          TookIndices(old(filters), filters, taken);
          assert [] + At(taken) == At(taken);
        }
        return;
      }
      var left, fl := GenerateJoins(node.left);
      if left.Stuck? {
        return Stuck, fl;
      }
      TookIndices(old(filters), filters, fl);
      LeavesOthers(old(filters), filters, fl, TreeRels(node.left)) by { MeansWithin(left.plan, At(fl)); }
      label L:
      var right, fr := GenerateJoins(node.right);
      if right.Stuck? {
        return Stuck, fl;
      }
      var l, r := left.plan, right.plan;
      TookIndices(old@L(filters), filters, fr);
      LeavesOthers(old@L(filters), filters, fr, TreeRels(node.right)) by { MeansWithin(r, At(fr)); }
      TookBoth(old(filters), old@L(filters), filters, fl, fr);
      ghost var both := fl + fr;
      JoinMeans(l, r, At(fl), At(fr));
      var top := Built(Cross(l, r));
      ghost var fc: seq<nat> := [];
      label M:
      if node.filters != [] {
        top, fc := PlaceConditions(l, r, node.filters, At(both));
        if top.Stuck? {
          return Stuck, both;
        }
      } else {
        TookNone(filters);
        assert At(both) + At(fc) == At(both);
      }
      label N:
      TookBoth(old(filters), old@M(filters), filters, both, fc);
      result, taken := PushDown(top.plan, Some((Rels(l), Rels(r))), At(both + fc));
      if result.Built? {
        TookBoth(old(filters), old@N(filters), filters, both + fc, taken);
        taken := both + fc + taken;
      }
    }

    lemma MeansWithin(p: Plan, fs: seq<JoinFilter>)
      requires Means(p, fs)
      ensures Within(fs, Rels(p))
    {
    }

    lemma TookIndices(before: seq<Option<JoinFilter>>, after: seq<Option<JoinFilter>>, taken: seq<nat>)
      requires Took(before, after, taken)
      ensures forall k :: 0 <= k < |taken| ==> taken[k] < |infos|
    {
    }

    /**
     The whole plan: whatever the data, it emits each combination of one row per
     relation that satisfies all filters of the query exactly once.
     */
    method RewritePlan(node: JoinTree) returns (result: Result)
      requires Matches() && TreeOk(node, |infos|) && Within(infos, TreeRels(node))
      requires forall i :: 0 <= i < |filters| ==> filters[i].Some?
      modifies this
      ensures result.Built? <==> Placeable(node, infos)
      ensures Complete(node, infos) ==> result.Built?
      ensures result.Built? ==> Means(result.plan, infos) && Rels(result.plan) == TreeRels(node)
      ensures result.Built? ==> forall i :: 0 <= i < |filters| ==> filters[i].None?
    {
      ghost var taken: seq<nat>;
      result, taken := GenerateJoins(node);
      if result.Stuck? {
        return;
      }
      var plan := result.plan;
      hide Means;
      for i := 0 to |filters|
        invariant Matches() && Took(old(filters), filters, taken) && Means(plan, At(taken)) && Rels(plan) == TreeRels(node)
        invariant forall j :: 0 <= j < i ==> filters[j].None?
      {
        if filters[i].Some? {
          TookMore(old(filters), filters, taken, i);
          PushMeans(plan, At(taken), filters[i].value);
          plan := PushFilter(plan, filters[i].value);
          filters := filters[i := None];
          taken := taken + [i];
        }
      }
      TakenAll(plan, taken);
      result := Built(plan);
    }

    /** Filters taken in any order mean what they mean in the order of the query. */
    lemma TakenAll(plan: Plan, taken: seq<nat>)
      requires forall k :: 0 <= k < |taken| ==> taken[k] < |infos|
      requires Means(plan, At(taken)) && Within(infos, Rels(plan)) && forall i :: 0 <= i < |infos| ==> i in taken
      ensures Means(plan, infos)
    {
      forall env ensures Emits(env, plan, infos) {
        assert Emits(env, plan, At(taken));
        forall a ensures AllHold(env, At(taken), a) <==> AllHold(env, infos, a) {
          HoldAny(env, taken, a);
        }
      }
    }

    lemma HoldAny(env: Env, taken: seq<nat>, a: Combination)
      requires forall k :: 0 <= k < |taken| ==> taken[k] < |infos|
      requires forall i :: 0 <= i < |infos| ==> i in taken
      ensures AllHold(env, At(taken), a) <==> AllHold(env, infos, a)
    {
      if AllHold(env, At(taken), a) {
        forall i: nat | i < |infos| ensures FilterHolds(env, infos[i], a) {
          assert i in taken;
          var k :| 0 <= k < |taken| && taken[k] == i;
          assert At(taken)[k] == infos[i];
        }
      }
    }
  }

  /** Plans rebuilt from any two join trees over the same relations emit the same combinations, equally often. */
  lemma TreesAgree(env: Env, p: Plan, q: Plan, fs: seq<JoinFilter>, a: Combination)
    requires Means(p, fs) && Means(q, fs) && Rels(p) == Rels(q)
    ensures Count(env, p, a) == Count(env, q, a)
  {
    assert Emits(env, p, fs) && Emits(env, q, fs);
  }
}
