/**
 The filter combiner: merges equality filters into equivalence sets, prunes
 comparisons with constants, and generates filters that pass the same rows.
 */
module FilterCombiner {
  import opened VersionChain
  import opened Comparisons

  /** An expression over a row; equal expressions are one. */
  type Expr(==, !new)
  /** A condition the combiner does not look into. */
  type Condition(==, !new)

  // ---------------------------------------------------------------- comparisons with constants

  /** A comparison of an expression with a constant. */
  datatype Info = Info(op: Comparison, constant: Option<int>)

  predicate Meets(x: Option<int>, info: Info) {
    IsTrue(info.op, x, info.constant)
  }

  predicate MeetsAll(x: Option<int>, infos: seq<Info>) {
    forall k :: 0 <= k < |infos| ==> Meets(x, infos[k])
  }

  // ---------------------------------------------------------------- comparing two constants

  /** The order of constants: NULL comes first. */
  predicate Below(x: Option<int>, y: Option<int>) {
    y.Some? && (x.None? || x.value < y.value)
  }

  datatype Pruning = PruneLeft | PruneRight | Unsatisfiable | PruneNothing

  function Invert(p: Pruning): Pruning {
    match p
    case PruneLeft => PruneRight
    case PruneRight => PruneLeft
    case _ => p
  }

  function CompareInfo(left: Info, right: Info): Pruning
    decreases if left.op.Equal? then 0 else if right.op.Equal? then 1 else if left.op.NotEqual? then 0
              else if right.op.NotEqual? then 1 else if left.op.Less? || left.op.LessEq? then 0 else 1
  {
    var l, r := left.constant, right.constant;
    if left.op.Equal? then
      var prune := match right.op
                   case Less => Below(l, r)
                   case LessEq => !Below(r, l)
                   case Greater => Below(r, l)
                   case GreaterEq => !Below(l, r)
                   case NotEqual => l != r
                   case Equal => l == r;
      if prune then PruneRight else Unsatisfiable
    else if right.op.Equal? then Invert(CompareInfo(right, left))
    else if left.op.NotEqual? then
      var prune := match right.op
                   case Less => !Below(l, r)
                   case LessEq => Below(r, l)
                   case Greater => !Below(r, l)
                   case GreaterEq => Below(l, r)
                   case _ => l == r;
      if prune then PruneLeft else PruneNothing
    else if right.op.NotEqual? then Invert(CompareInfo(right, left))
    else if IsGreater(left.op) && IsGreater(right.op) then
      if Below(r, l) then PruneRight else if Below(l, r) then PruneLeft
      else if left.op.GreaterEq? then PruneLeft else PruneRight
    else if IsLess(left.op) && IsLess(right.op) then
      if Below(l, r) then PruneRight else if Below(r, l) then PruneLeft
      else if left.op.LessEq? then PruneLeft else PruneRight
    else if IsLess(left.op) then
      if !Below(l, r) then PruneNothing else Unsatisfiable
    else Invert(CompareInfo(right, left))
  }

  predicate IsGreater(op: Comparison) {
    op.Greater? || op.GreaterEq?
  }

  predicate IsLess(op: Comparison) {
    op.Less? || op.LessEq?
  }

  /** Acting on the result loses no condition. */
  ghost predicate Sound(left: Info, right: Info) {
    match CompareInfo(left, right)
    case PruneLeft => forall x :: Meets(x, right) ==> Meets(x, left)
    case PruneRight => forall x :: Meets(x, left) ==> Meets(x, right)
    case Unsatisfiable => forall x :: !(Meets(x, left) && Meets(x, right))
    case PruneNothing => true
  }

  /** A comparison with a constant that is not NULL is true of some value. */
  function Witness(info: Info): Option<int>
    requires info.constant.Some?
  {
    var c := info.constant.value;
    Some(match info.op
         case Equal => c
         case NotEqual => c + 1
         case Less => c - 1
         case LessEq => c
         case Greater => c + 1
         case GreaterEq => c)
  }

  /** A comparison with NULL is never true, but counts as implied by one with a constant, which sometimes is. */
  predicate Loses(dropped: Info, kept: Info) {
    && dropped.constant.None? && (dropped.op.NotEqual? || IsGreater(dropped.op))
    && kept.constant.Some? && (kept.op.Equal? || IsGreater(kept.op))
  }

  /**
   Pruning is sound if and only if neither side is a comparison with NULL by
   `<>`, `>` or `>=` and the other one with a constant by `=`, `>` or `>=`.
   */
  lemma SoundExactly(left: Info, right: Info)
    ensures Sound(left, right) <==> !Loses(left, right) && !Loses(right, left)
  {
    SoundByResult(left, right);
    var swapped := CompareInfo(right, left);
    assert right.op.Equal? && !left.op.Equal? ==> CompareInfo(left, right) == Invert(swapped);
    assert right.op.NotEqual? && !left.op.Equal? && !left.op.NotEqual? ==> CompareInfo(left, right) == Invert(swapped);
    assert IsGreater(left.op) && IsLess(right.op) ==> CompareInfo(left, right) == Invert(swapped);
  }

  /** x > NULL AND x > 5 is reduced to x > 5, which 6 passes. */
  lemma NullIsPruned()
    ensures var left, right := Info(Greater, None), Info(Greater, Some(5));
            CompareInfo(left, right) == PruneLeft && Meets(Some(6), right) && !Meets(Some(6), left)
  {
  }

  /** In terms of the result: a comparison with NULL is not dropped in favour of one without. */
  lemma SoundByResult(left: Info, right: Info)
    ensures Sound(left, right) <==>
            && (CompareInfo(left, right).PruneLeft? && left.constant.None? ==> right.constant.None?)
            && (CompareInfo(left, right).PruneRight? && right.constant.None? ==> left.constant.None?)
  {
    var swapped := CompareInfo(right, left);
    assert right.op.Equal? && !left.op.Equal? ==> CompareInfo(left, right) == Invert(swapped);
    match CompareInfo(left, right)
    case PruneLeft =>
      if left.constant.None? && right.constant.Some? {
        assert Meets(Witness(right), right) && !Meets(Witness(right), left);
      } else {
        forall x | Meets(x, right) ensures Meets(x, left) {
        }
      }
    case PruneRight =>
      if right.constant.None? && left.constant.Some? {
        assert Meets(Witness(left), left) && !Meets(Witness(left), right);
      } else {
        forall x | Meets(x, left) ensures Meets(x, right) {
        }
      }
    case Unsatisfiable =>
      forall x | Meets(x, left) ensures !Meets(x, right) {
      }
    case PruneNothing =>
  }

  predicate NonNull(infos: seq<Info>) {
    forall k :: 0 <= k < |infos| ==> infos[k].constant.Some?
  }

  /** The list stands for the old conditions together with the new ones. */
  ghost predicate Adds(list: seq<Info>, olds: seq<Info>, news: seq<Info>) {
    forall x :: MeetsAll(x, list) <==> MeetsAll(x, olds) && MeetsAll(x, news)
  }

  ghost predicate Contradict(olds: seq<Info>, news: seq<Info>) {
    forall x :: !(MeetsAll(x, olds) && MeetsAll(x, news))
  }

  lemma MeetsPush(x: Option<int>, infos: seq<Info>, info: Info)
    ensures MeetsAll(x, infos + [info]) <==> MeetsAll(x, infos) && Meets(x, info)
  {
    if MeetsAll(x, infos + [info]) {
      assert (infos + [info])[|infos|] == info;
      assert forall k :: 0 <= k < |infos| ==> (infos + [info])[k] == infos[k];
    }
  }

  lemma MeetsErase(x: Option<int>, infos: seq<Info>, i: nat)
    requires i < |infos|
    ensures MeetsAll(x, infos) <==> MeetsAll(x, infos[..i] + infos[i + 1..]) && Meets(x, infos[i])
  {
    var rest := infos[..i] + infos[i + 1..];
    if MeetsAll(x, rest) && Meets(x, infos[i]) {
      forall k | 0 <= k < |infos| ensures Meets(x, infos[k]) {
        assert k < i ==> infos[k] == rest[k];
        assert k > i ==> infos[k] == rest[k - 1];
      }
    }
    if MeetsAll(x, infos) {
      forall k | 0 <= k < |rest| ensures Meets(x, rest[k]) {
        assert rest[k] == infos[if k < i then k else k + 1];
      }
    }
  }

  /** Adds a comparison with a constant to a list, dropping what it or the list makes redundant. */
  method AddConstantComparison(infoList: seq<Info>, info: Info) returns (ok: bool, list: seq<Info>)
    ensures NonNull(infoList) && info.constant.Some? ==>
              if ok then Adds(list, infoList, [info]) && NonNull(list) else Contradict(infoList, [info])
    ensures ok ==> list != []
  {
    hide CompareInfo, MeetsAll, Meets;
    list := infoList;
    var i := 0;
    while i < |list|
      invariant 0 <= i <= |list|
      invariant NonNull(infoList) && info.constant.Some? ==>
                  NonNull(list) && forall x :: (MeetsAll(x, infoList) ==> MeetsAll(x, list))
                                               && (MeetsAll(x, list) && Meets(x, info) ==> MeetsAll(x, infoList))
      decreases |list| - i
    {
      SoundExactly(list[i], info);
      forall x ensures MeetsAll(x, list) <==> MeetsAll(x, list[..i] + list[i + 1..]) && Meets(x, list[i]) {
        MeetsErase(x, list, i);
      }
      forall x ensures MeetsAll(x, [info]) <==> Meets(x, info) {
        MeetsOne(x, info);
      }
      match CompareInfo(list[i], info)
      case PruneLeft =>
        list := list[..i] + list[i + 1..];
      case PruneRight =>
        return true, list;
      case Unsatisfiable =>
        return false, list;
      case PruneNothing =>
        i := i + 1;
    }
    forall x ensures (MeetsAll(x, list + [info]) <==> MeetsAll(x, list) && Meets(x, info))
                     && (MeetsAll(x, [info]) <==> Meets(x, info)) {
      MeetsPush(x, list, info);
      MeetsOne(x, info);
    }
    list := list + [info];
    ok := true;
  }

  lemma MeetsOne(x: Option<int>, info: Info)
    ensures MeetsAll(x, [info]) <==> Meets(x, info)
  {
    assert [info][0] == info;
  }

  // ---------------------------------------------------------------- filters and rows

  /** A row gives every expression a value or NULL, and decides every other condition. */
  datatype Row = Row(value: Expr -> Option<int>, decides: Condition -> bool)

  datatype Filter =
    | Scalar(result: Option<bool>)
    | Constant(constantLeft: bool, op: Comparison, e: Expr, constant: Option<int>)
    | Pair(op: Comparison, left: Expr, right: Expr)
    | Opaque(condition: Condition)

  predicate Passes(row: Row, f: Filter) {
    match f
    case Scalar(result) => result == Some(true)
    case Constant(constantLeft, op, e, constant) =>
      if constantLeft then IsTrue(op, constant, row.value(e)) else IsTrue(op, row.value(e), constant)
    case Pair(op, left, right) => IsTrue(op, row.value(left), row.value(right))
    case Opaque(condition) => row.decides(condition)
  }

  ghost predicate AllPass(row: Row, fs: seq<Filter>) {
    forall k :: 0 <= k < |fs| ==> Passes(row, fs[k])
  }

  /** The filter with the constant on the right. */
  function InfoOf(f: Filter): Info
    requires f.Constant?
  {
    Info(if f.constantLeft then Flip(f.op) else f.op, f.constant)
  }

  lemma InfoIs(row: Row, f: Filter)
    requires f.Constant?
    ensures Passes(row, f) <==> Meets(row.value(f.e), InfoOf(f))
  {
  }

  predicate Supported(f: Filter) {
    f.Constant? || (f.Pair? && f.op.Equal?)
  }

  predicate Mentions(f: Filter, e: Expr) {
    (f.Constant? && f.e == e) || (f.Pair? && (f.left == e || f.right == e))
  }

  /** Some comparison other than `e = e` mentions the expression. */
  ghost predicate Touched(added: seq<Filter>, e: Expr) {
    exists k :: 0 <= k < |added| && Mentions(added[k], e) && added[k] != Pair(Equal, e, e)
  }

  ghost predicate NoNullConstants(added: seq<Filter>) {
    forall k :: 0 <= k < |added| && added[k].Constant? ==> added[k].constant.Some?
  }

  // ---------------------------------------------------------------- equivalence sets

  datatype Sets = Sets(setOf: map<Expr, nat>, buckets: map<nat, seq<Expr>>, constants: map<nat, seq<Info>>, setIndex: nat)

  /**
   `rep` gives the set that a merged set went into. The bucket and the constants
   of a merged set stay behind.
   */
  ghost predicate Shape(ss: Sets, rep: map<nat, nat>) {
    && (forall k: nat :: k in ss.buckets <==> k < ss.setIndex)
    && ss.constants.Keys == rep.Keys == ss.buckets.Keys
    && Reps(rep) && Placed(ss, rep) && Members(ss, rep)
    && (forall k :: k in ss.buckets ==> Distinct(ss.buckets[k]))
  }

  ghost predicate Reps(rep: map<nat, nat>) {
    forall k :: k in rep ==> rep[k] in rep && rep[rep[k]] == rep[k]
  }

  ghost predicate Placed(ss: Sets, rep: map<nat, nat>) {
    && rep.Keys == ss.buckets.Keys
    && (forall e :: e in ss.setOf ==> ss.setOf[e] in rep && rep[ss.setOf[e]] == ss.setOf[e] && e in ss.buckets[ss.setOf[e]])
  }

  ghost predicate Members(ss: Sets, rep: map<nat, nat>) {
    && rep.Keys == ss.buckets.Keys
    && (forall k, e :: k in ss.buckets && e in ss.buckets[k] ==> e in ss.setOf && ss.setOf[e] == rep[k])
  }

  ghost predicate Distinct(es: seq<Expr>) {
    forall i, j :: 0 <= i < j < |es| ==> es[i] != es[j]
  }

  ghost predicate SameSet(ss: Sets, e: Expr, f: Expr) {
    e in ss.setOf && f in ss.setOf && ss.setOf[e] == ss.setOf[f]
  }

  /** Supported filters are in the sets. */
  ghost predicate Known(ss: Sets, added: seq<Filter>) {
    forall k :: 0 <= k < |added| && Supported(added[k]) ==>
      if added[k].Constant? then added[k].e in ss.setOf else SameSet(ss, added[k].left, added[k].right)
  }

  /** A row that passes gives the expressions of a set one value. */
  ghost predicate Joined(ss: Sets, added: seq<Filter>) {
    forall row, e, f :: AllPass(row, added) && SameSet(ss, e, f) && e != f ==> IsTrue(Equal, row.value(e), row.value(f))
  }

  /** The constants of a set imply all comparisons that were added to it, and no more. */
  ghost predicate Bounded(ss: Sets, rep: map<nat, nat>, added: seq<Filter>)
    requires Shape(ss, rep) && Known(ss, added)
  {
    && (forall k :: k in ss.constants ==> NonNull(ss.constants[k]))
    && Implied(ss, added) && Met(ss, added) && Behind(ss, rep)
  }

  ghost predicate SetsKnown(ss: Sets) {
    forall e :: e in ss.setOf ==> ss.setOf[e] in ss.constants
  }

  function ConstantsOf(ss: Sets, e: Expr): seq<Info>
    requires SetsKnown(ss) && e in ss.setOf
  {
    ss.constants[ss.setOf[e]]
  }

  ghost predicate Implied(ss: Sets, added: seq<Filter>)
    requires SetsKnown(ss) && Known(ss, added)
  {
    forall k, x :: 0 <= k < |added| && added[k].Constant? && MeetsAll(x, ConstantsOf(ss, added[k].e)) ==>
      Meets(x, InfoOf(added[k]))
  }

  ghost predicate Met(ss: Sets, added: seq<Filter>)
    requires SetsKnown(ss)
  {
    forall row, e :: AllPass(row, added) && e in ss.setOf ==> MeetsAll(row.value(e), ConstantsOf(ss, e))
  }

  /** The constants of a merged set are implied by those of the set it went into. */
  ghost predicate Behind(ss: Sets, rep: map<nat, nat>)
    requires ss.constants.Keys == rep.Keys && forall k :: k in rep ==> rep[k] in rep
  {
    forall k :: k in rep ==> Follows(ss.constants[rep[k]], ss.constants[k])
  }

  ghost predicate Follows(strong: seq<Info>, weak: seq<Info>) {
    forall x :: MeetsAll(x, strong) ==> MeetsAll(x, weak)
  }

  /** Only comparisons bring a second expression or a constant into a set. */
  ghost predicate Justified(ss: Sets, added: seq<Filter>)
    requires ss.buckets.Keys == ss.constants.Keys
  {
    forall k, e :: k in ss.buckets && e in ss.buckets[k] && (|ss.buckets[k]| > 1 || ss.constants[k] != []) ==>
      Touched(added, e)
  }

  ghost predicate Remaining(remaining: seq<Filter>, added: seq<Filter>) {
    && (forall k :: 0 <= k < |added| && !Supported(added[k]) && !added[k].Scalar? ==> added[k] in remaining)
    && (forall k :: 0 <= k < |remaining| ==> remaining[k] in added && !Supported(remaining[k]) && !remaining[k].Scalar?)
    && (forall k :: 0 <= k < |added| && added[k].Scalar? ==> added[k].result == Some(true))
  }

  ghost predicate Ok(ss: Sets, rep: map<nat, nat>, remaining: seq<Filter>, added: seq<Filter>) {
    && Shape(ss, rep) && Known(ss, added) && Joined(ss, added)
    && (NoNullConstants(added) ==> Bounded(ss, rep, added))
    && Justified(ss, added) && Remaining(remaining, added)
  }

  // ---------------------------------------------------------------- what the sets generate

  ghost predicate Generates(row: Row, ss: Sets, remaining: seq<Filter>)
    requires ss.buckets.Keys == ss.constants.Keys
  {
    && AllPass(row, remaining)
    && (forall k, i, j :: k in ss.buckets && 0 <= i < j < |ss.buckets[k]| ==>
          IsTrue(Equal, row.value(ss.buckets[k][i]), row.value(ss.buckets[k][j])))
    && (forall k, e :: k in ss.buckets && e in ss.buckets[k] ==> MeetsAll(row.value(e), ss.constants[k]))
  }

  /** Rows that pass the added filters pass the generated ones. */
  lemma GeneratesAll(row: Row, ss: Sets, rep: map<nat, nat>, remaining: seq<Filter>, added: seq<Filter>)
    requires Ok(ss, rep, remaining, added) && NoNullConstants(added) && AllPass(row, added)
    ensures Generates(row, ss, remaining)
  {
    hide MeetsAll, IsTrue, Justified;
    forall k | 0 <= k < |remaining| ensures Passes(row, remaining[k]) {
      assert remaining[k] in added;
    }
    forall k, i, j | k in ss.buckets && 0 <= i < j < |ss.buckets[k]|
      ensures IsTrue(Equal, row.value(ss.buckets[k][i]), row.value(ss.buckets[k][j]))
    {
      assert SameSet(ss, ss.buckets[k][i], ss.buckets[k][j]);
    }
    forall k, e | k in ss.buckets && e in ss.buckets[k] ensures MeetsAll(row.value(e), ss.constants[k]) {
      assert ss.setOf[e] == rep[k] && MeetsAll(row.value(e), ConstantsOf(ss, e));
      assert Follows(ss.constants[rep[k]], ss.constants[k]);
    }
  }

  /** Rows that pass the generated filters pass every added filter that is not `e = e`. */
  lemma GeneratesOnly(row: Row, ss: Sets, rep: map<nat, nat>, remaining: seq<Filter>, added: seq<Filter>, k: nat)
    requires Ok(ss, rep, remaining, added) && NoNullConstants(added) && Generates(row, ss, remaining)
    requires k < |added| && !(added[k].Pair? && added[k].op.Equal? && added[k].left == added[k].right)
    ensures Passes(row, added[k])
  {
    hide MeetsAll, Joined, Justified;
    var f := added[k];
    if f.Constant? {
      InfoIs(row, f);
      assert MeetsAll(row.value(f.e), ConstantsOf(ss, f.e));
    } else if Supported(f) {
      assert SameSet(ss, f.left, f.right);
      var es := ss.buckets[ss.setOf[f.left]];
      var i :| 0 <= i < |es| && es[i] == f.left;
      var j :| 0 <= j < |es| && es[j] == f.right;
      assert IsTrue(Equal, row.value(es[if i < j then i else j]), row.value(es[if i < j then j else i]));
    }
  }

  /** An expression that is only compared with itself. */
  ghost predicate Loose(added: seq<Filter>, e: Expr) {
    Pair(Equal, e, e) in added && !Touched(added, e)
  }

  function WithNull(row: Row, e: Expr): Row {
    Row(f => if f == e then None else row.value(f), row.decides)
  }

  /** Setting such an expression to NULL is not noticed by the generated filters. */
  lemma LooseEscapes(row: Row, ss: Sets, rep: map<nat, nat>, remaining: seq<Filter>, added: seq<Filter>, e: Expr)
    requires Ok(ss, rep, remaining, added) && NoNullConstants(added) && AllPass(row, added) && Loose(added, e)
    ensures Generates(WithNull(row, e), ss, remaining) && !AllPass(WithNull(row, e), added)
  {
    var row' := WithNull(row, e);
    var k :| 0 <= k < |added| && added[k] == Pair(Equal, e, e);
    assert !Passes(row', added[k]);
    GeneratesAll(row, ss, rep, remaining, added);
    hide Joined, Bounded, Known;
    forall i | 0 <= i < |remaining| ensures Passes(row', remaining[i]) {
      var j :| 0 <= j < |added| && added[j] == remaining[i];
      assert Passes(row, remaining[i]) && !Mentions(added[j], e);
    }
    forall k, i, j | k in ss.buckets && 0 <= i < j < |ss.buckets[k]|
      ensures IsTrue(Equal, row'.value(ss.buckets[k][i]), row'.value(ss.buckets[k][j]))
    {
      assert ss.buckets[k][i] in ss.buckets[k] && ss.buckets[k][j] in ss.buckets[k];
      assert IsTrue(Equal, row.value(ss.buckets[k][i]), row.value(ss.buckets[k][j]));
    }
    forall k, f | k in ss.buckets && f in ss.buckets[k] ensures MeetsAll(row'.value(f), ss.constants[k]) {
      assert MeetsAll(row.value(f), ss.constants[k]);
    }
  }

  /** The row with a value for every such expression. */
  ghost function Repaired(row: Row, added: seq<Filter>): Row {
    Row(e => if Loose(added, e) then Some(0) else row.value(e), row.decides)
  }

  /** The generated filters lose nothing else: with these values the row passes all added ones. */
  lemma RepairedPasses(row: Row, ss: Sets, rep: map<nat, nat>, remaining: seq<Filter>, added: seq<Filter>)
    requires Ok(ss, rep, remaining, added) && NoNullConstants(added) && Generates(row, ss, remaining)
    ensures AllPass(Repaired(row, added), added)
  {
    hide Ok, Generates;
    forall k | 0 <= k < |added| ensures Passes(Repaired(row, added), added[k]) {
      var f := added[k];
      if f.Pair? && f.op.Equal? && f.left == f.right {
        if !Loose(added, f.left) {
          SelfPasses(row, ss, rep, remaining, added, k);
        }
      } else {
        GeneratesOnly(row, ss, rep, remaining, added, k);
        forall e | Mentions(f, e) ensures !Loose(added, e) {
          assert f != Pair(Equal, e, e);
        }
      }
    }
  }

  /**
   The generated filters pass exactly the rows that the added ones pass, if and
   only if no expression is compared with itself only or no row passes at all.
   */
  lemma GeneratesExactly(ss: Sets, rep: map<nat, nat>, remaining: seq<Filter>, added: seq<Filter>)
    requires Ok(ss, rep, remaining, added) && NoNullConstants(added)
    ensures (forall row :: Generates(row, ss, remaining) <==> AllPass(row, added))
            <==> (forall e :: !Loose(added, e)) || forall row :: !AllPass(row, added)
  {
    assert ss.buckets.Keys == ss.constants.Keys;
    hide Ok, Generates, AllPass, Loose, NoNullConstants;
    forall row ensures AllPass(row, added) ==> Generates(row, ss, remaining)
               ensures Generates(row, ss, remaining) ==> AllPass(Repaired(row, added), added) {
      if AllPass(row, added) {
        GeneratesAll(row, ss, rep, remaining, added);
      }
      if Generates(row, ss, remaining) {
        RepairedPasses(row, ss, rep, remaining, added);
      }
    }
    if forall e :: !Loose(added, e) {
      forall row | Generates(row, ss, remaining) ensures AllPass(row, added) {
        TightPasses(row, ss, rep, remaining, added);
      }
    } else if row :| AllPass(row, added) {
      var e :| Loose(added, e);
      LooseEscapes(row, ss, rep, remaining, added, e);
    }
  }

  /** A comparison of an expression with itself is implied by any other one that mentions it. */
  lemma SelfPasses(row: Row, ss: Sets, rep: map<nat, nat>, remaining: seq<Filter>, added: seq<Filter>, k: nat)
    requires Ok(ss, rep, remaining, added) && NoNullConstants(added) && Generates(row, ss, remaining)
    requires k < |added| && added[k].Pair? && added[k].op.Equal? && added[k].left == added[k].right
    requires !Loose(added, added[k].left)
    ensures Passes(row, added[k])
  {
    hide Ok, Generates;
    var f := added[k];
    assert f == Pair(Equal, f.left, f.left);
    var j :| 0 <= j < |added| && Mentions(added[j], f.left) && added[j] != f;
    GeneratesOnly(row, ss, rep, remaining, added, j) by { if added[j].Pair? { assert added[j] == Pair(added[j].op, added[j].left, added[j].right); } }
  }

  lemma TightPasses(row: Row, ss: Sets, rep: map<nat, nat>, remaining: seq<Filter>, added: seq<Filter>)
    requires Ok(ss, rep, remaining, added) && NoNullConstants(added) && Generates(row, ss, remaining)
    requires forall e :: !Loose(added, e)
    ensures AllPass(row, added)
  {
    hide Ok, Generates;
    forall k | 0 <= k < |added| ensures Passes(row, added[k]) {
      var f := added[k];
      if f.Pair? && f.op.Equal? && f.left == f.right {
        SelfPasses(row, ss, rep, remaining, added, k);
      } else {
        GeneratesOnly(row, ss, rep, remaining, added, k);
      }
    }
  }

  // ---------------------------------------------------------------- adding a filter

  lemma Monotone(added: seq<Filter>, f: Filter)
    ensures forall row :: AllPass(row, added + [f]) <==> AllPass(row, added) && Passes(row, f)
    ensures forall e :: Touched(added, e) ==> Touched(added + [f], e)
    ensures forall e :: Mentions(f, e) && f != Pair(Equal, e, e) ==> Touched(added + [f], e)
    ensures NoNullConstants(added + [f]) <==> NoNullConstants(added) && (f.Constant? ==> f.constant.Some?)
  {
    var all := added + [f];
    assert all[|added|] == f && forall k :: 0 <= k < |added| ==> all[k] == added[k];
    forall row | AllPass(row, all) ensures AllPass(row, added) && Passes(row, f) {
      forall k | 0 <= k < |added| ensures Passes(row, added[k]) {
        assert Passes(row, all[k]);
      }
      assert Passes(row, all[|added|]);
    }
    forall e | Touched(added, e) ensures Touched(all, e) {
      var k :| 0 <= k < |added| && Mentions(added[k], e) && added[k] != Pair(Equal, e, e);
      assert Mentions(all[k], e);
    }
    assert NoNullConstants(all) ==> f.Constant? ==> all[|added|].constant.Some?;
    if NoNullConstants(all) {
      forall k | 0 <= k < |added| && added[k].Constant? ensures added[k].constant.Some? {
        assert all[k].constant.Some?;
      }
    }
  }

  /** A condition that stays outside the sets. */
  lemma OutsideOk(ss: Sets, rep: map<nat, nat>, remaining: seq<Filter>, added: seq<Filter>, f: Filter)
    requires Ok(ss, rep, remaining, added) && !Supported(f) && (f.Scalar? ==> f.result == Some(true))
    ensures Ok(ss, rep, if f.Scalar? then remaining else remaining + [f], added + [f])
  {
    Monotone(added, f);
    hide Shape, AllPass, Touched, MeetsAll, Meets, IsTrue, Passes, NoNullConstants;
    var all := added + [f];
    assert all[|added|] == f && forall k :: 0 <= k < |added| ==> all[k] == added[k];
  }

  function NewSet(ss: Sets, e: Expr): Sets {
    Sets(ss.setOf[e := ss.setIndex], ss.buckets[ss.setIndex := [e]], ss.constants[ss.setIndex := []], ss.setIndex + 1)
  }

  lemma NewSetShape(ss: Sets, rep: map<nat, nat>, e: Expr)
    requires Shape(ss, rep) && e !in ss.setOf
    ensures Shape(NewSet(ss, e), rep[ss.setIndex := ss.setIndex])
  {
    hide Distinct;
    assert Distinct([e]) by { DistinctOne(e); }
  }

  lemma DistinctOne(e: Expr)
    ensures Distinct([e])
  {
  }

  lemma NewSetJoined(ss: Sets, rep: map<nat, nat>, added: seq<Filter>, e: Expr)
    requires Shape(ss, rep) && Known(ss, added) && Joined(ss, added) && e !in ss.setOf
    ensures Known(NewSet(ss, e), added) && Joined(NewSet(ss, e), added)
  {
    hide AllPass, IsTrue, Distinct;
    var ss' := NewSet(ss, e);
    assert forall f, g :: SameSet(ss, f, g) ==> SameSet(ss', f, g);
    forall f, g | SameSet(ss', f, g) && f != g ensures SameSet(ss, f, g) {
      assert f in ss.setOf ==> ss.setOf[f] < ss.setIndex;
      assert g in ss.setOf ==> ss.setOf[g] < ss.setIndex;
    }
  }

  lemma NewSetBounded(ss: Sets, rep: map<nat, nat>, added: seq<Filter>, e: Expr)
    requires Shape(ss, rep) && Known(ss, added) && Bounded(ss, rep, added) && e !in ss.setOf
    requires Shape(NewSet(ss, e), rep[ss.setIndex := ss.setIndex]) && Known(NewSet(ss, e), added)
    ensures Bounded(NewSet(ss, e), rep[ss.setIndex := ss.setIndex], added)
  {
    assert forall x :: MeetsAll(x, []);
    hide AllPass, MeetsAll, Meets, Distinct;
    var ss', rep' := NewSet(ss, e), rep[ss.setIndex := ss.setIndex];
    forall f | f in ss.setOf ensures ConstantsOf(ss', f) == ConstantsOf(ss, f) {
      assert ss.setOf[f] < ss.setIndex;
    }
    forall k | k in rep' ensures Follows(ss'.constants[rep'[k]], ss'.constants[k]) {
      if k != ss.setIndex {
        assert rep[k] < ss.setIndex && Follows(ss.constants[rep[k]], ss.constants[k]);
      }
    }
    assert Behind(ss', rep');
    hide Shape, Follows;
    assert Implied(ss', added);
    assert Met(ss', added);
  }

  lemma NewSetOk(ss: Sets, rep: map<nat, nat>, remaining: seq<Filter>, added: seq<Filter>, e: Expr)
    requires Ok(ss, rep, remaining, added) && e !in ss.setOf
    ensures Ok(NewSet(ss, e), rep[ss.setIndex := ss.setIndex], remaining, added)
  {
    assert Justified(NewSet(ss, e), added) by { hide Joined, Bounded, Known, Touched; }
    hide Shape, Known, Joined, Bounded, NewSet, Justified, Remaining, NoNullConstants;
    NewSetShape(ss, rep, e);
    NewSetJoined(ss, rep, added, e);
    if NoNullConstants(added) {
      NewSetBounded(ss, rep, added, e);
    }
  }

  // ---------------------------------------------------------------- a comparison with a constant

  function WithConstants(ss: Sets, k: nat, list: seq<Info>): Sets {
    ss.(constants := ss.constants[k := list])
  }

  lemma AddsOne(list: seq<Info>, olds: seq<Info>, info: Info, x: Option<int>)
    requires Adds(list, olds, [info])
    ensures MeetsAll(x, list) <==> MeetsAll(x, olds) && Meets(x, info)
  {
    MeetsOne(x, info);
  }

  lemma ConstantBehind(ss: Sets, rep: map<nat, nat>, k: nat, olds: seq<Info>, list: seq<Info>)
    requires Shape(ss, rep) && Behind(ss, rep) && k in rep && rep[k] == k && ss.constants[k] == olds && Follows(list, olds)
    ensures Behind(WithConstants(ss, k, list), rep)
  {
    var ss' := WithConstants(ss, k, list);
    forall j | j in rep ensures Follows(ss'.constants[rep[j]], ss'.constants[j]) {
      assert Follows(ss.constants[rep[j]], ss.constants[j]);
    }
  }

  /** Rows that pass give all expressions of the set of a comparison a value that meets it. */
  lemma MeetsInSet(ss: Sets, added: seq<Filter>, f: Filter, row: Row, e: Expr)
    requires Joined(ss, added) && f.Constant? && SameSet(ss, f.e, e) && AllPass(row, added) && Passes(row, f)
    ensures Meets(row.value(e), InfoOf(f))
  {
    InfoIs(row, f);
    assert e != f.e ==> IsTrue(Equal, row.value(f.e), row.value(e));
  }

  lemma ConstantBounded(ss: Sets, rep: map<nat, nat>, added: seq<Filter>, f: Filter, list: seq<Info>)
    requires Shape(ss, rep) && Known(ss, added) && Joined(ss, added) && Bounded(ss, rep, added)
    requires f.Constant? && f.e in ss.setOf && NonNull(list)
    requires Adds(list, ConstantsOf(ss, f.e), [InfoOf(f)])
    requires var ss' := WithConstants(ss, ss.setOf[f.e], list);
             Shape(ss', rep) && Known(ss', added + [f])
    ensures Bounded(WithConstants(ss, ss.setOf[f.e], list), rep, added + [f])
  {
    var all, k := added + [f], ss.setOf[f.e];
    var ss' := WithConstants(ss, k, list);
    Monotone(added, f);
    forall x ensures MeetsAll(x, list) <==> MeetsAll(x, ConstantsOf(ss, f.e)) && Meets(x, InfoOf(f)) {
      AddsOne(list, ConstantsOf(ss, f.e), InfoOf(f), x);
    }
    ConstantBehind(ss, rep, k, ConstantsOf(ss, f.e), list);
    hide AllPass, MeetsAll, Meets, Distinct, Touched, NoNullConstants, Adds, Behind, Joined;
    assert SetsKnown(ss');
    hide Shape;
    forall j, x | 0 <= j < |all| && all[j].Constant? && MeetsAll(x, ConstantsOf(ss', all[j].e)) ensures Meets(x, InfoOf(all[j])) {
      assert j < |added| ==> all[j] == added[j];
    }
    forall row, e | AllPass(row, all) && e in ss'.setOf ensures MeetsAll(row.value(e), ConstantsOf(ss', e)) {
      assert MeetsAll(row.value(e), ConstantsOf(ss, e));
      if ss.setOf[e] == k {
        MeetsInSet(ss, added, f, row, e);
      }
    }
  }

  lemma ConstantJustified(ss: Sets, rep: map<nat, nat>, added: seq<Filter>, f: Filter, list: seq<Info>)
    requires Shape(ss, rep) && Justified(ss, added) && f.Constant? && f.e in ss.setOf
    ensures Justified(WithConstants(ss, ss.setOf[f.e], list), added + [f])
  {
    Monotone(added, f);
    hide AllPass, Touched, NoNullConstants, Passes;
    var k := ss.setOf[f.e];
    forall e | e in ss.buckets[k] && |ss.buckets[k]| <= 1 ensures e == f.e {
      assert ss.buckets[k] == [ss.buckets[k][0]];
    }
  }

  lemma ConstantKnown(ss: Sets, rep: map<nat, nat>, added: seq<Filter>, f: Filter, list: seq<Info>)
    requires Shape(ss, rep) && Known(ss, added) && Joined(ss, added) && f.Constant? && f.e in ss.setOf
    ensures var ss' := WithConstants(ss, ss.setOf[f.e], list);
            Shape(ss', rep) && Known(ss', added + [f]) && Joined(ss', added + [f])
  {
    Monotone(added, f);
    hide AllPass, Touched, NoNullConstants, Distinct, IsTrue;
    var ss', all := WithConstants(ss, ss.setOf[f.e], list), added + [f];
    assert ss'.constants.Keys == ss.constants.Keys;
    assert all[|added|] == f && forall k :: 0 <= k < |added| ==> all[k] == added[k];
    assert forall e, g :: SameSet(ss', e, g) <==> SameSet(ss, e, g);
  }

  lemma RemainingSame(remaining: seq<Filter>, added: seq<Filter>, f: Filter)
    requires Remaining(remaining, added) && Supported(f)
    ensures Remaining(remaining, added + [f])
  {
    var all := added + [f];
    assert all[|added|] == f && forall k :: 0 <= k < |added| ==> all[k] == added[k];
  }

  /** The list of the set takes in a comparison with a constant. */
  lemma ConstantOk(ss: Sets, rep: map<nat, nat>, remaining: seq<Filter>, added: seq<Filter>, f: Filter, list: seq<Info>)
    requires Ok(ss, rep, remaining, added) && f.Constant? && f.e in ss.setOf
    requires NoNullConstants(added + [f]) ==> NonNull(list) && Adds(list, ConstantsOf(ss, f.e), [InfoOf(f)])
    ensures Ok(WithConstants(ss, ss.setOf[f.e], list), rep, remaining, added + [f])
  {
    Monotone(added, f);
    hide Shape, Known, Joined, Bounded, Justified, Remaining, NoNullConstants, AllPass, Touched, Adds, WithConstants;
    ConstantKnown(ss, rep, added, f, list);
    ConstantJustified(ss, rep, added, f, list);
    RemainingSame(remaining, added, f);
    if NoNullConstants(added + [f]) {
      ConstantBounded(ss, rep, added, f, list);
    }
  }

  /** A comparison that contradicts the list of its set lets no row pass. */
  lemma ConstantFails(ss: Sets, rep: map<nat, nat>, remaining: seq<Filter>, added: seq<Filter>, f: Filter, row: Row)
    requires Ok(ss, rep, remaining, added) && f.Constant? && f.e in ss.setOf && NoNullConstants(added + [f])
    requires Contradict(ConstantsOf(ss, f.e), [InfoOf(f)])
    ensures !AllPass(row, added + [f])
  {
    Monotone(added, f);
    InfoIs(row, f);
    MeetsOne(row.value(f.e), InfoOf(f));
  }

  // ---------------------------------------------------------------- an equality of two expressions

  function Moved(k: nat, a: nat, b: nat): nat {
    if k == b then a else k
  }

  /** Set `b` goes into set `a`, whose constants become `list`. */
  function Merged(ss: Sets, a: nat, b: nat, list: seq<Info>): Sets
    requires a in ss.buckets && b in ss.buckets
  {
    Sets(map e | e in ss.setOf :: Moved(ss.setOf[e], a, b), ss.buckets[a := ss.buckets[a] + ss.buckets[b]],
         ss.constants[a := list], ss.setIndex)
  }

  ghost function MergedRep(rep: map<nat, nat>, a: nat, b: nat): map<nat, nat> {
    map k | k in rep :: Moved(rep[k], a, b)
  }

  ghost predicate Live(rep: map<nat, nat>, a: nat, b: nat) {
    a != b && a in rep && b in rep && rep[a] == a && rep[b] == b
  }

  /** Some expressions moved to a set. */
  ghost function MovedTo(ss: Sets, a: nat, es: seq<Expr>): Sets
    requires a in ss.buckets
  {
    ss.(setOf := map e | e in ss.setOf :: if e in es then a else ss.setOf[e], buckets := ss.buckets[a := ss.buckets[a] + es])
  }

  lemma MovesNone(ss: Sets, a: nat)
    requires a in ss.buckets
    ensures MovedTo(ss, a, []) == ss
  {
    assert ss.buckets[a] + [] == ss.buckets[a];
  }

  lemma MovesOne(ss: Sets, a: nat, es: seq<Expr>, e: Expr)
    requires a in ss.buckets && e in ss.setOf
    ensures var now, next := MovedTo(ss, a, es), MovedTo(ss, a, es + [e]);
            && a in now.buckets
            && next == now.(setOf := now.setOf[e := a], buckets := now.buckets[a := now.buckets[a] + [e]])
  {
    assert ss.buckets[a] + (es + [e]) == ss.buckets[a] + es + [e];
  }

  lemma MovesBucket(ss: Sets, rep: map<nat, nat>, remaining: seq<Filter>, added: seq<Filter>, a: nat, b: nat)
    requires Ok(ss, rep, remaining, added) && a in ss.buckets && b in ss.buckets && Live(rep, a, b)
    ensures forall e :: e in ss.buckets[b] ==> e in ss.setOf
    ensures a in ss.constants && MovedTo(ss, a, ss.buckets[b]) == Merged(ss, a, b, ss.constants[a])
  {
    assert forall e :: e in ss.setOf ==> (ss.setOf[e] == b <==> e in ss.buckets[b]);
    assert ss.constants[a := ss.constants[a]] == ss.constants;
  }

  lemma DistinctConcat(es: seq<Expr>, fs: seq<Expr>)
    requires Distinct(es) && Distinct(fs) && forall e :: e in es ==> e !in fs
    ensures Distinct(es + fs)
  {
    forall i, j | 0 <= i < j < |es + fs| ensures (es + fs)[i] != (es + fs)[j] {
      if i < |es| <= j {
        assert es[i] in es && fs[j - |es|] in fs;
      }
    }
  }

  lemma MergeReps(rep: map<nat, nat>, a: nat, b: nat)
    requires Live(rep, a, b) && Reps(rep)
    ensures Reps(MergedRep(rep, a, b))
  {
  }

  lemma MergePlaced(ss: Sets, rep: map<nat, nat>, a: nat, b: nat, list: seq<Info>)
    requires Placed(ss, rep) && Live(rep, a, b)
    ensures Placed(Merged(ss, a, b, list), MergedRep(rep, a, b))
  {
    var ss' := Merged(ss, a, b, list);
    forall e | e in ss'.setOf ensures e in ss'.buckets[ss'.setOf[e]] {
      assert e in ss.buckets[ss.setOf[e]];
    }
  }

  lemma MergeMembers(ss: Sets, rep: map<nat, nat>, a: nat, b: nat, list: seq<Info>)
    requires Members(ss, rep) && Live(rep, a, b)
    ensures Members(Merged(ss, a, b, list), MergedRep(rep, a, b))
  {
    var ss', rep' := Merged(ss, a, b, list), MergedRep(rep, a, b);
    forall k, e | k in ss'.buckets && e in ss'.buckets[k] ensures e in ss'.setOf && ss'.setOf[e] == rep'[k] {
      if k == a {
        assert e in ss.buckets[a] || e in ss.buckets[b];
      }
    }
  }

  lemma MergeShape(ss: Sets, rep: map<nat, nat>, a: nat, b: nat, list: seq<Info>)
    requires Shape(ss, rep) && Live(rep, a, b)
    ensures Shape(Merged(ss, a, b, list), MergedRep(rep, a, b))
  {
    assert forall e :: e in ss.buckets[a] ==> e in ss.setOf && ss.setOf[e] == a;
    assert forall e :: e in ss.buckets[b] ==> e in ss.setOf && ss.setOf[e] == b;
    hide Distinct, Reps, Placed, Members;
    DistinctConcat(ss.buckets[a], ss.buckets[b]);
    MergeReps(rep, a, b);
    MergePlaced(ss, rep, a, b, list);
    MergeMembers(ss, rep, a, b, list);
  }

  lemma MergeKnown(ss: Sets, rep: map<nat, nat>, added: seq<Filter>, l: Expr, r: Expr, list: seq<Info>)
    requires Shape(ss, rep) && Known(ss, added) && l in ss.setOf && r in ss.setOf && ss.setOf[l] != ss.setOf[r]
    ensures Known(Merged(ss, ss.setOf[l], ss.setOf[r], list), added + [Pair(Equal, l, r)])
  {
    var ss', all := Merged(ss, ss.setOf[l], ss.setOf[r], list), added + [Pair(Equal, l, r)];
    hide Shape;
    assert all[|added|] == Pair(Equal, l, r) && forall k :: 0 <= k < |added| ==> all[k] == added[k];
    assert forall e, f :: SameSet(ss, e, f) ==> SameSet(ss', e, f);
  }

  /** In a row that passes, an expression has the value of every expression of its set. */
  lemma SameValue(ss: Sets, added: seq<Filter>, row: Row, e: Expr, f: Expr)
    requires Joined(ss, added) && AllPass(row, added) && SameSet(ss, e, f)
    ensures row.value(e) == row.value(f)
  {
    assert e != f ==> IsTrue(Equal, row.value(e), row.value(f));
  }

  lemma MergeJoined(ss: Sets, added: seq<Filter>, l: Expr, r: Expr, list: seq<Info>)
    requires Joined(ss, added) && SameSet(ss, l, l) && SameSet(ss, r, r) && ss.setOf[l] != ss.setOf[r]
    requires ss.setOf[l] in ss.buckets && ss.setOf[r] in ss.buckets
    ensures Joined(Merged(ss, ss.setOf[l], ss.setOf[r], list), added + [Pair(Equal, l, r)])
  {
    var p := Pair(Equal, l, r);
    var ss' := Merged(ss, ss.setOf[l], ss.setOf[r], list);
    Monotone(added, p);
    hide AllPass, Touched, NoNullConstants;
    forall row, e, f | AllPass(row, added + [p]) && SameSet(ss', e, f) && e != f
      ensures IsTrue(Equal, row.value(e), row.value(f))
    {
      assert IsTrue(Equal, row.value(l), row.value(r)) by { assert Passes(row, p); }
      if !SameSet(ss, e, f) {
        SameValue(ss, added, row, e, if SameSet(ss, e, l) then l else r);
        SameValue(ss, added, row, f, if SameSet(ss, f, l) then l else r);
      }
    }
  }

  lemma MergeBehind(ss: Sets, rep: map<nat, nat>, a: nat, b: nat, list: seq<Info>)
    requires Shape(ss, rep) && Behind(ss, rep) && Live(rep, a, b) && Adds(list, ss.constants[a], ss.constants[b])
    ensures Behind(Merged(ss, a, b, list), MergedRep(rep, a, b))
  {
    var ss', rep' := Merged(ss, a, b, list), MergedRep(rep, a, b);
    hide MeetsAll, Distinct;
    forall k | k in rep' ensures Follows(ss'.constants[rep'[k]], ss'.constants[k]) {
      assert Follows(ss.constants[rep[k]], ss.constants[k]);
    }
  }

  lemma MergeImplied(ss: Sets, added: seq<Filter>, l: Expr, r: Expr, list: seq<Info>)
    requires SetsKnown(ss) && Known(ss, added) && Implied(ss, added) && l in ss.setOf && r in ss.setOf
    requires ss.setOf[l] in ss.buckets && ss.setOf[r] in ss.buckets && Adds(list, ConstantsOf(ss, l), ConstantsOf(ss, r))
    requires var ss' := Merged(ss, ss.setOf[l], ss.setOf[r], list);
             SetsKnown(ss') && Known(ss', added + [Pair(Equal, l, r)])
    ensures Implied(Merged(ss, ss.setOf[l], ss.setOf[r], list), added + [Pair(Equal, l, r)])
  {
    hide MeetsAll, Meets;
    var ss', all := Merged(ss, ss.setOf[l], ss.setOf[r], list), added + [Pair(Equal, l, r)];
    forall j, x | 0 <= j < |all| && all[j].Constant? && MeetsAll(x, ConstantsOf(ss', all[j].e)) ensures Meets(x, InfoOf(all[j])) {
      assert all[j] == added[j];
      assert MeetsAll(x, ConstantsOf(ss, added[j].e));
    }
  }

  lemma MergeMeets(ss: Sets, added: seq<Filter>, l: Expr, r: Expr, list: seq<Info>)
    requires SetsKnown(ss) && Joined(ss, added) && Met(ss, added) && l in ss.setOf && r in ss.setOf
    requires ss.setOf[l] in ss.buckets && ss.setOf[r] in ss.buckets && Adds(list, ConstantsOf(ss, l), ConstantsOf(ss, r))
    requires SetsKnown(Merged(ss, ss.setOf[l], ss.setOf[r], list))
    ensures Met(Merged(ss, ss.setOf[l], ss.setOf[r], list), added + [Pair(Equal, l, r)])
  {
    var ss', all := Merged(ss, ss.setOf[l], ss.setOf[r], list), added + [Pair(Equal, l, r)];
    Monotone(added, Pair(Equal, l, r));
    hide AllPass, MeetsAll, Touched, NoNullConstants, Joined, Met;
    forall row, e | AllPass(row, all) && e in ss'.setOf ensures MeetsAll(row.value(e), ConstantsOf(ss', e)) {
      MergeMet(ss, added, l, r, row, e);
    }
    assert Met(ss', all) by { MetIs(ss', all); }
  }

  lemma MetIs(ss: Sets, added: seq<Filter>)
    requires SetsKnown(ss)
    requires forall row, e :: AllPass(row, added) && e in ss.setOf ==> MeetsAll(row.value(e), ConstantsOf(ss, e))
    ensures Met(ss, added)
  {
  }

  lemma MergeBounded(ss: Sets, rep: map<nat, nat>, added: seq<Filter>, l: Expr, r: Expr, list: seq<Info>)
    requires Shape(ss, rep) && Known(ss, added) && Joined(ss, added) && Bounded(ss, rep, added)
    requires l in ss.setOf && r in ss.setOf && ss.setOf[l] != ss.setOf[r] && NonNull(list)
    requires Adds(list, ConstantsOf(ss, l), ConstantsOf(ss, r))
    requires var ss' := Merged(ss, ss.setOf[l], ss.setOf[r], list);
             Shape(ss', MergedRep(rep, ss.setOf[l], ss.setOf[r])) && Known(ss', added + [Pair(Equal, l, r)])
    ensures Bounded(Merged(ss, ss.setOf[l], ss.setOf[r], list), MergedRep(rep, ss.setOf[l], ss.setOf[r]),
                    added + [Pair(Equal, l, r)])
  {
    hide Distinct, Known, Joined, Adds, Behind, Implied, Met, NonNull;
    assert SetsKnown(ss) && SetsKnown(Merged(ss, ss.setOf[l], ss.setOf[r], list));
    MergeBehind(ss, rep, ss.setOf[l], ss.setOf[r], list);
    MergeImplied(ss, added, l, r, list);
    MergeMeets(ss, added, l, r, list);
  }

  /** In a row that passes, both sets' constants hold of every expression of either set. */
  lemma MergeMet(ss: Sets, added: seq<Filter>, l: Expr, r: Expr, row: Row, e: Expr)
    requires SetsKnown(ss) && Joined(ss, added) && Met(ss, added) && e in ss.setOf && l in ss.setOf && r in ss.setOf
    requires AllPass(row, added) && Passes(row, Pair(Equal, l, r))
    ensures MeetsAll(row.value(e), ConstantsOf(ss, e))
    ensures SameSet(ss, e, l) || SameSet(ss, e, r) ==>
              MeetsAll(row.value(e), ConstantsOf(ss, l)) && MeetsAll(row.value(e), ConstantsOf(ss, r))
  {
    hide MeetsAll, AllPass;
    assert MeetsAll(row.value(l), ConstantsOf(ss, l)) && MeetsAll(row.value(r), ConstantsOf(ss, r));
    if SameSet(ss, e, l) {
      SameValue(ss, added, row, e, l);
    }
    if SameSet(ss, e, r) {
      SameValue(ss, added, row, e, r);
    }
  }

  lemma MergeJustified(ss: Sets, rep: map<nat, nat>, added: seq<Filter>, l: Expr, r: Expr, list: seq<Info>)
    requires Shape(ss, rep) && Justified(ss, added) && l in ss.setOf && r in ss.setOf && ss.setOf[l] != ss.setOf[r]
    ensures Justified(Merged(ss, ss.setOf[l], ss.setOf[r], list), added + [Pair(Equal, l, r)])
  {
    var p, a, b := Pair(Equal, l, r), ss.setOf[l], ss.setOf[r];
    Monotone(added, p);
    hide AllPass, Touched, NoNullConstants, Passes, Distinct;
    var ss' := Merged(ss, a, b, list);
    forall e | e in ss'.buckets[a] ensures Touched(added + [p], e) {
      if e in ss.buckets[a] && |ss.buckets[a]| <= 1 {
        assert e == ss.buckets[a][0] == l;
      } else if e !in ss.buckets[a] && |ss.buckets[b]| <= 1 {
        assert e == ss.buckets[b][0] == r;
      }
    }
  }

  /** An equality merges the sets of its sides. */
  lemma MergeOk(ss: Sets, rep: map<nat, nat>, remaining: seq<Filter>, added: seq<Filter>, l: Expr, r: Expr, list: seq<Info>)
    requires Ok(ss, rep, remaining, added) && l in ss.setOf && r in ss.setOf && ss.setOf[l] != ss.setOf[r]
    requires NoNullConstants(added) ==> NonNull(list) && Adds(list, ConstantsOf(ss, l), ConstantsOf(ss, r))
    ensures Ok(Merged(ss, ss.setOf[l], ss.setOf[r], list), MergedRep(rep, ss.setOf[l], ss.setOf[r]), remaining,
               added + [Pair(Equal, l, r)])
  {
    assert Live(rep, ss.setOf[l], ss.setOf[r]);
    Monotone(added, Pair(Equal, l, r));
    hide Known, Joined, Bounded, Justified, Remaining, NoNullConstants, AllPass, Touched, Adds, Distinct, Merged;
    MergeShape(ss, rep, ss.setOf[l], ss.setOf[r], list);
    MergeKnown(ss, rep, added, l, r, list);
    MergeJoined(ss, added, l, r, list);
    MergeJustified(ss, rep, added, l, r, list);
    RemainingSame(remaining, added, Pair(Equal, l, r));
    if NoNullConstants(added) {
      MergeBounded(ss, rep, added, l, r, list);
    }
  }

  /** Sets whose constants contradict each other let no row pass. */
  lemma MergeFails(ss: Sets, rep: map<nat, nat>, remaining: seq<Filter>, added: seq<Filter>, l: Expr, r: Expr, row: Row)
    requires Ok(ss, rep, remaining, added) && l in ss.setOf && r in ss.setOf && NoNullConstants(added)
    requires Contradict(ConstantsOf(ss, l), ConstantsOf(ss, r))
    ensures !AllPass(row, added + [Pair(Equal, l, r)])
  {
    Monotone(added, Pair(Equal, l, r));
    if AllPass(row, added + [Pair(Equal, l, r)]) {
      MergeMet(ss, added, l, r, row, l);
    }
  }

  /** An equality inside a set adds nothing, except that its sides are not NULL. */
  lemma PrunedOk(ss: Sets, rep: map<nat, nat>, remaining: seq<Filter>, added: seq<Filter>, l: Expr, r: Expr)
    requires Ok(ss, rep, remaining, added) && SameSet(ss, l, r)
    ensures Ok(ss, rep, remaining, added + [Pair(Equal, l, r)])
  {
    var p := Pair(Equal, l, r);
    var all := added + [p];
    Monotone(added, p);
    RemainingSame(remaining, added, p);
    assert all[|added|] == p && forall k :: 0 <= k < |added| ==> all[k] == added[k];
    hide Shape, AllPass, Touched, MeetsAll, Meets, IsTrue, NoNullConstants, Remaining;
    if NoNullConstants(added) {
      assert Implied(ss, all) && Met(ss, all);
    }
  }

  // ---------------------------------------------------------------- generating filters

  lemma PassConcat(row: Row, fs: seq<Filter>, gs: seq<Filter>)
    ensures AllPass(row, fs + gs) <==> AllPass(row, fs) && AllPass(row, gs)
  {
    var all := fs + gs;
    if AllPass(row, all) {
      assert forall k :: 0 <= k < |fs| ==> fs[k] == all[k];
      assert forall k :: 0 <= k < |gs| ==> gs[k] == all[|fs| + k];
    }
  }

  ghost predicate EntryPasses(row: Row, e: Expr, later: seq<Expr>, infos: seq<Info>) {
    (forall j :: 0 <= j < |later| ==> IsTrue(Equal, row.value(e), row.value(later[j]))) && MeetsAll(row.value(e), infos)
  }

  /** One entry of a bucket: equal to all later entries, and compared with all constants. */
  method EntryFilters(e: Expr, later: seq<Expr>, infos: seq<Info>) returns (out: seq<Filter>)
    ensures forall row :: AllPass(row, out) <==> EntryPasses(row, e, later, infos)
  {
    out := [];
    for j := 0 to |later|
      invariant forall row :: AllPass(row, out) <==> EntryPasses(row, e, later[..j], [])
    {
      forall row ensures AllPass(row, out + [Pair(Equal, e, later[j])]) <==> EntryPasses(row, e, later[..j + 1], []) {
        PassConcat(row, out, [Pair(Equal, e, later[j])]);
        PassOne(row, Pair(Equal, e, later[j]));
        assert later[..j + 1] == later[..j] + [later[j]];
        assert later[..j + 1][j] == later[j] && forall i :: 0 <= i < j ==> later[..j + 1][i] == later[..j][i];
      }
      out := out + [Pair(Equal, e, later[j])];
    }
    assert later[..|later|] == later && infos[..0] == [];
    for j := 0 to |infos|
      invariant forall row :: AllPass(row, out) <==> EntryPasses(row, e, later, infos[..j])
    {
      var f := Constant(false, infos[j].op, e, infos[j].constant);
      forall row ensures AllPass(row, out + [f]) <==> EntryPasses(row, e, later, infos[..j + 1]) {
        PassConcat(row, out, [f]);
        PassOne(row, f);
        InfoIs(row, f);
        assert InfoOf(f) == infos[j] && infos[..j + 1] == infos[..j] + [infos[j]];
        MeetsPush(row.value(e), infos[..j], infos[j]);
      }
      out := out + [f];
    }
    assert infos[..|infos|] == infos;
  }

  lemma PassOne(row: Row, f: Filter)
    ensures AllPass(row, [f]) <==> Passes(row, f)
  {
    assert [f][0] == f;
  }

  ghost predicate BucketPasses(row: Row, es: seq<Expr>, infos: seq<Info>, n: nat)
    requires n <= |es|
  {
    forall i :: 0 <= i < n ==> EntryPasses(row, es[i], es[i + 1..], infos)
  }

  method BucketFilters(es: seq<Expr>, infos: seq<Info>) returns (out: seq<Filter>)
    ensures forall row :: AllPass(row, out) <==> BucketPasses(row, es, infos, |es|)
  {
    hide EntryPasses;
    out := [];
    for i := 0 to |es|
      invariant forall row :: AllPass(row, out) <==> BucketPasses(row, es, infos, i)
    {
      var more := EntryFilters(es[i], es[i + 1..], infos);
      forall row ensures AllPass(row, out + more) <==> BucketPasses(row, es, infos, i + 1) {
        PassConcat(row, out, more);
      }
      out := out + more;
    }
  }

  lemma BucketIs(row: Row, es: seq<Expr>, infos: seq<Info>)
    ensures BucketPasses(row, es, infos, |es|) <==>
            && (forall i, j :: 0 <= i < j < |es| ==> IsTrue(Equal, row.value(es[i]), row.value(es[j])))
            && (forall e :: e in es ==> MeetsAll(row.value(e), infos))
  {
    hide IsTrue, MeetsAll;
    if BucketPasses(row, es, infos, |es|) {
      forall i, j | 0 <= i < j < |es| ensures IsTrue(Equal, row.value(es[i]), row.value(es[j])) {
        assert EntryPasses(row, es[i], es[i + 1..], infos) && es[i + 1..][j - i - 1] == es[j];
      }
      forall e | e in es ensures MeetsAll(row.value(e), infos) {
        var i :| 0 <= i < |es| && es[i] == e;
        assert EntryPasses(row, es[i], es[i + 1..], infos);
      }
    }
  }

  ghost predicate BucketsPass(row: Row, ss: Sets, n: nat)
    requires forall k :: 0 <= k < n ==> k in ss.buckets && k in ss.constants
  {
    forall k :: 0 <= k < n ==> BucketPasses(row, ss.buckets[k], ss.constants[k], |ss.buckets[k]|)
  }

  lemma GeneratesIs(row: Row, ss: Sets, remaining: seq<Filter>)
    requires ss.buckets.Keys == ss.constants.Keys && forall k: nat :: k in ss.buckets <==> k < ss.setIndex
    ensures Generates(row, ss, remaining) <==> AllPass(row, remaining) && BucketsPass(row, ss, ss.setIndex)
  {
    hide IsTrue, MeetsAll, BucketPasses, AllPass;
    forall k | 0 <= k < ss.setIndex
      ensures BucketPasses(row, ss.buckets[k], ss.constants[k], |ss.buckets[k]|) <==>
              && (forall i, j :: 0 <= i < j < |ss.buckets[k]| ==>
                    IsTrue(Equal, row.value(ss.buckets[k][i]), row.value(ss.buckets[k][j])))
              && (forall e :: e in ss.buckets[k] ==> MeetsAll(row.value(e), ss.constants[k]))
    {
      BucketIs(row, ss.buckets[k], ss.constants[k]);
    }
  }

  // ---------------------------------------------------------------- the combiner

  class Combiner {
    var remaining: seq<Filter>
    var sets: Sets
    ghost var rep: map<nat, nat>
    /** The filters added since the last generation. */
    ghost var added: seq<Filter>

    ghost predicate Valid()
      reads this
    {
      Ok(sets, rep, remaining, added)
    }

    constructor ()
      ensures Valid() && added == []
    {
      remaining, sets, rep, added := [], Sets(map[], map[], map[], 0), map[], [];
    }

    method GetEquivalenceSet(e: Expr) returns (k: nat)
      requires Valid()
      modifies this`sets, this`rep
      ensures Valid() && e in sets.setOf && k == sets.setOf[e]
      ensures forall f :: f in old(sets).setOf ==> f in sets.setOf && sets.setOf[f] == old(sets).setOf[f]
    {
      hide Ok;
      if e !in sets.setOf {
        NewSetOk(sets, rep, remaining, added, e);
        k := sets.setIndex;
        sets := Sets(sets.setOf[e := k], sets.buckets[k := [e]], sets.constants[k := []], k + 1);
        rep := rep[k := k];
      } else {
        k := sets.setOf[e];
      }
    }

    /**
     Adds a filter. It either says that no row can pass all filters, which is
     then so, or takes the filter in.
     */
    method AddFilter(f: Filter) returns (satisfiable: bool)
      requires Valid()
      modifies this
      ensures satisfiable ==> Valid() && added == old(added) + [f]
      ensures !satisfiable && NoNullConstants(old(added) + [f]) ==> forall row :: !AllPass(row, old(added) + [f])
    {
      hide Ok, NoNullConstants, AllPass;
      if f.Constant? {
        satisfiable := AddConstant(f);
      } else if f.Pair? && f.op.Equal? {
        satisfiable := AddEquality(f.left, f.right);
      } else if f.Scalar? && f.result != Some(true) {
        forall row ensures !AllPass(row, added + [f]) {
          ScalarFails(added, f, row);
        }
        satisfiable := false;
      } else {
        OutsideOk(sets, rep, remaining, added, f);
        if !f.Scalar? {
          remaining := remaining + [f];
        }
        added := added + [f];
        satisfiable := true;
      }
    }

    method AddConstant(f: Filter) returns (satisfiable: bool)
      requires Valid() && f.Constant?
      modifies this
      ensures satisfiable ==> Valid() && added == old(added) + [f]
      ensures !satisfiable && NoNullConstants(old(added) + [f]) ==> forall row :: !AllPass(row, old(added) + [f])
    {
      hide Ok, NoNullConstants, AllPass, Touched;
      var k := GetEquivalenceSet(f.e);
      Monotone(added, f);
      OkFacts(sets, rep, remaining, added, f.e);
      var ok, list := AddConstantComparison(sets.constants[k], InfoOf(f));
      if !ok {
        if NoNullConstants(added + [f]) {
          forall row ensures !AllPass(row, added + [f]) {
            ConstantFails(sets, rep, remaining, added, f, row);
          }
        }
        return false;
      }
      ConstantOk(sets, rep, remaining, added, f, list);
      sets := sets.(constants := sets.constants[k := list]);
      added := added + [f];
      satisfiable := true;
    }

    method AddEquality(left: Expr, right: Expr) returns (satisfiable: bool)
      requires Valid()
      modifies this
      ensures satisfiable ==> Valid() && added == old(added) + [Pair(Equal, left, right)]
      ensures !satisfiable && NoNullConstants(old(added) + [Pair(Equal, left, right)]) ==>
                forall row :: !AllPass(row, old(added) + [Pair(Equal, left, right)])
    {
      hide Ok, NoNullConstants, AllPass, Touched;
      var a := GetEquivalenceSet(left);
      var b := GetEquivalenceSet(right);
      Monotone(added, Pair(Equal, left, right));
      OkFacts(sets, rep, remaining, added, left);
      OkFacts(sets, rep, remaining, added, right);
      if a == b {
        PrunedOk(sets, rep, remaining, added, left, right);
        added := added + [Pair(Equal, left, right)];
        return true;
      }
      var ok, list := AddConstants(sets.constants[a], sets.constants[b]);
      if !ok {
        if NoNullConstants(added) {
          forall row ensures !AllPass(row, added + [Pair(Equal, left, right)]) {
            MergeFails(sets, rep, remaining, added, left, right, row);
          }
        }
        return false;
      }
      MergeOk(sets, rep, remaining, added, left, right, list);
      ghost var before := sets;
      MergeBuckets(a, b);
      sets := sets.(constants := sets.constants[a := list]);
      assert sets == Merged(before, a, b, list);
      added := added + [Pair(Equal, left, right)];
      satisfiable := true;
    }

    /** Moves the right bucket into the left one, entry by entry. */
    method MergeBuckets(a: nat, b: nat)
      requires Valid() && a in sets.buckets && b in sets.buckets && Live(rep, a, b)
      modifies this`sets, this`rep
      ensures sets == Merged(old(sets), a, b, old(sets.constants[a])) && rep == MergedRep(old(rep), a, b)
    {
      hide Ok, Live;
      MovesBucket(sets, rep, remaining, added, a, b);
      var moved := sets.buckets[b];
      ghost var before := sets;
      hide MovedTo;
      MovesNone(before, a);
      assert moved[..0] == [];
      for i := 0 to |moved|
        invariant sets == MovedTo(before, a, moved[..i]) && rep == old(rep)
      {
        MovesOne(before, a, moved[..i], moved[i]);
        assert moved[..i + 1] == moved[..i] + [moved[i]];
        sets := sets.(setOf := sets.setOf[moved[i] := a], buckets := sets.buckets[a := sets.buckets[a] + [moved[i]]]);
      }
      assert moved[..|moved|] == moved;
      rep := MergedRep(rep, a, b);
    }

    /** Generates filters for all that was added, and starts anew. */
    method GenerateFilters() returns (out: seq<Filter>)
      requires Valid()
      modifies this
      ensures Valid() && added == []
      ensures NoNullConstants(old(added)) ==> forall row :: AllPass(row, old(added)) ==> AllPass(row, out)
      ensures NoNullConstants(old(added)) ==>
                ((forall row :: AllPass(row, out) <==> AllPass(row, old(added)))
                 <==> (forall e :: !Loose(old(added), e)) || forall row :: !AllPass(row, old(added)))
    {
      assert sets.buckets.Keys == sets.constants.Keys && forall k: nat :: k in sets.buckets <==> k < sets.setIndex;
      hide Ok, NoNullConstants, AllPass, Loose, Generates, BucketsPass;
      out := remaining;
      for k := 0 to sets.setIndex
        invariant sets == old(sets) && rep == old(rep) && remaining == old(remaining) && added == old(added)
        invariant forall row :: AllPass(row, out) <==> AllPass(row, remaining) && BucketsPass(row, sets, k)
      {
        var more := BucketFilters(sets.buckets[k], sets.constants[k]);
        forall row ensures AllPass(row, out + more) <==> AllPass(row, remaining) && BucketsPass(row, sets, k + 1) {
          PassConcat(row, out, more);
        }
        out := out + more;
      }
      forall row ensures AllPass(row, out) <==> Generates(row, sets, remaining) {
        GeneratesIs(row, sets, remaining);
      }
      if NoNullConstants(added) {
        forall row | AllPass(row, added) ensures AllPass(row, out) {
          GeneratesAll(row, sets, rep, remaining, added);
        }
        GeneratesExactly(sets, rep, remaining, added);
      }
      Clear();
    }

    method Clear()
      modifies this
      ensures Valid() && added == []
    {
      remaining, sets, rep, added := [], Sets(map[], map[], map[], 0), map[], [];
    }
  }

  /** Adds the constants of one set to those of another. */
  method AddConstants(lefts: seq<Info>, rights: seq<Info>) returns (ok: bool, list: seq<Info>)
    ensures NonNull(lefts) && NonNull(rights) ==>
              if ok then Adds(list, lefts, rights) && NonNull(list) else Contradict(lefts, rights)
  {
    hide MeetsAll;
    list := lefts;
    assert rights[..0] == [] && rights[..|rights|] == rights;
    assert forall x :: MeetsAll(x, []) by { NoneMeets(); }
    for i := 0 to |rights|
      invariant NonNull(lefts) && NonNull(rights) ==> NonNull(list) && Adds(list, lefts, rights[..i])
    {
      ghost var before := list;
      ok, list := AddConstantComparison(list, rights[i]);
      forall x ensures MeetsAll(x, rights[..i + 1]) <==> MeetsAll(x, rights[..i]) && MeetsAll(x, [rights[i]]) {
        assert rights[..i + 1] == rights[..i] + [rights[i]];
        MeetsPush(x, rights[..i], rights[i]);
        MeetsOne(x, rights[i]);
      }
      if !ok {
        if NonNull(lefts) && NonNull(rights) {
          forall x ensures !(MeetsAll(x, lefts) && MeetsAll(x, rights)) {
            MeetsPrefix(x, rights, i + 1);
          }
        }
        return false, list;
      }
    }
    ok := true;
  }

  lemma NoneMeets()
    ensures forall x :: MeetsAll(x, [])
  {
  }

  lemma MeetsPrefix(x: Option<int>, infos: seq<Info>, n: nat)
    requires n <= |infos|
    ensures MeetsAll(x, infos) ==> MeetsAll(x, infos[..n])
  {
  }

  lemma OkFacts(ss: Sets, rep: map<nat, nat>, remaining: seq<Filter>, added: seq<Filter>, e: Expr)
    requires Ok(ss, rep, remaining, added) && e in ss.setOf
    ensures SetsKnown(ss) && ss.setOf[e] in ss.buckets && ss.setOf[e] in rep && rep[ss.setOf[e]] == ss.setOf[e]
    ensures NoNullConstants(added) ==> NonNull(ConstantsOf(ss, e))
  {
  }

  lemma ScalarFails(added: seq<Filter>, f: Filter, row: Row)
    requires f.Scalar? && f.result != Some(true)
    ensures !AllPass(row, added + [f])
  {
    Monotone(added, f);
  }
}
