/**
 Mark joins: the truth value that a mark join computes for every probe row,
 against the SQL predicate IN, and the rewriting of IN lists into mark joins.
 */
module MarkJoin {
  import opened VersionChain
  import opened Comparisons
  import opened JoinHashTable
  import opened Vectors

  // ---------------------------------------------------------------- the predicate IN

  datatype Truth = True | False | Unknown

  function Or(a: Truth, b: Truth): Truth {
    if a.True? || b.True? then True else if a.Unknown? || b.Unknown? then Unknown else False
  }

  /** Equality of two values: unknown if one of them is NULL. */
  function EqualTo(x: Option<int>, y: Option<int>): Truth {
    if x.None? || y.None? then Unknown else if x.value == y.value then True else False
  }

  /** x IN (vs): the disjunction of all equalities (section 8.4 of ISO/IEC 9075:1992). */
  function In(x: Option<int>, vs: seq<Option<int>>): Truth {
    if vs == [] then False else Or(In(x, vs[..|vs| - 1]), EqualTo(x, vs[|vs| - 1]))
  }

  lemma {:induction false} InIs(x: Option<int>, vs: seq<Option<int>>)
    ensures In(x, vs).True? <==> x.Some? && x in vs
    ensures In(x, vs).Unknown? <==> !In(x, vs).True? && vs != [] && (x.None? || None in vs)
  {
    if vs != [] {
      InIs(x, vs[..|vs| - 1]);
    }
  }

  // ---------------------------------------------------------------- marks

  /** The mark vector: NULL where the key is NULL, and where a NULL on the right leaves a miss undecided. */
  method ConstructMarkJoinResult(keys: seq<Datum>, found: seq<bool>, rightHasNull: bool) returns (marks: seq<Truth>)
    requires |found| == |keys|
    ensures |marks| == |keys|
    ensures forall i :: 0 <= i < |keys| ==>
              marks[i] == if keys[i].isNull || (rightHasNull && !found[i]) then Unknown else if found[i] then True else False
  {
    var nulls := seq(|keys|, i requires 0 <= i < |keys| => keys[i].isNull);
    if rightHasNull {
      for i := 0 to |keys|
        invariant |nulls| == |keys|
        invariant forall j :: 0 <= j < |keys| ==> nulls[j] == (keys[j].isNull || (j < i && !found[j]))
      {
        if !found[i] {
          nulls := nulls[i := true];
        }
      }
    }
    marks := seq(|keys|, i requires 0 <= i < |keys| && |nulls| == |keys| =>
                   if nulls[i] then Unknown else if found[i] then True else False);
  }

  /** With a non-empty right side, the mark of a key is its membership in the right side, whatever NULL was found equal to. */
  lemma MarkIsIn(x: Option<int>, vs: seq<Option<int>>, found: bool)
    requires vs != [] && (x.Some? ==> (found <==> x in vs))
    ensures In(x, vs) == if x.None? || (None in vs && !found) then Unknown else if found then True else False
  {
    InIs(x, vs);
  }

  // ---------------------------------------------------------------- IN lists

  function Flat(chunks: seq<seq<Datum>>): seq<Datum> {
    if chunks == [] then [] else Flat(chunks[..|chunks| - 1]) + chunks[|chunks| - 1]
  }

  lemma FlatPush(chunks: seq<seq<Datum>>, chunk: seq<Datum>)
    ensures Flat(chunks + [chunk]) == Flat(chunks) + chunk
  {
    assert (chunks + [chunk])[..|chunks|] == chunks;
  }

  /** No chunk is empty, and all of them are full, except for the last one if nothing follows. */
  ghost predicate Cut(chunks: seq<seq<Datum>>, more: bool) {
    && (forall k :: 0 <= k < |chunks| ==> 1 <= |chunks[k]| <= STANDARD_VECTOR_SIZE)
    && (forall k :: 0 <= k < |chunks| && (k < |chunks| - 1 || more) ==> |chunks[k]| == STANDARD_VECTOR_SIZE)
  }

  lemma CutPush(chunks: seq<seq<Datum>>, chunk: seq<Datum>, more: bool)
    requires Cut(chunks, true) && 1 <= |chunk| <= STANDARD_VECTOR_SIZE
    requires more ==> |chunk| == STANDARD_VECTOR_SIZE
    ensures Cut(chunks + [chunk], more)
  {}

  lemma ListPush(front: seq<Datum>, chunk: seq<Datum>, list: seq<Datum>, i: nat)
    requires i < |list| && front + chunk == list[..i]
    ensures front + (chunk + [list[i]]) == front + (chunk + [list[i]]) + [] == list[..i + 1]
  {
    assert list[..i + 1] == front + chunk + [list[i]];
  }

  /** Cuts the list into chunks of at most a vector, all but the last one full. */
  method BuildChunks(list: seq<Datum>) returns (chunks: seq<seq<Datum>>)
    ensures Flat(chunks) == list && Cut(chunks, false)
    ensures forall i :: 0 <= i < |list| ==>
              && i / STANDARD_VECTOR_SIZE < |chunks| && i % STANDARD_VECTOR_SIZE < |chunks[i / STANDARD_VECTOR_SIZE]|
              && chunks[i / STANDARD_VECTOR_SIZE][i % STANDARD_VECTOR_SIZE] == list[i]
  {
    assert Flat([]) == [] && Cut([], true) && Cut([], false);
    hide Flat, Cut;
    chunks := [];
    var chunk: seq<Datum> := [];
    for i := 0 to |list|
      invariant Flat(chunks) + chunk == list[..i] && |chunk| < STANDARD_VECTOR_SIZE
      invariant i == |list| ==> chunk == []
      invariant Cut(chunks, i < |list|)
    {
      ListPush(Flat(chunks), chunk, list, i);
      chunk := chunk + [list[i]];
      if |chunk| == STANDARD_VECTOR_SIZE || i + 1 == |list| {
        FlatPush(chunks, chunk);
        assert Flat(chunks + [chunk]) + [] == list[..i + 1];
        CutPush(chunks, chunk, i + 1 < |list|);
        chunks, chunk := chunks + [chunk], [];
      }
    }
    assert list[..|list|] == list;
    assert Flat(chunks) == list;
    forall i | 0 <= i < |list|
      ensures i / STANDARD_VECTOR_SIZE < |chunks| && i % STANDARD_VECTOR_SIZE < |chunks[i / STANDARD_VECTOR_SIZE]|
      ensures chunks[i / STANDARD_VECTOR_SIZE][i % STANDARD_VECTOR_SIZE] == list[i]
    {
      FlatAt(chunks, i);
    }
  }

  lemma {:induction false} FlatAt(chunks: seq<seq<Datum>>, i: nat)
    requires Cut(chunks, false) && i < |Flat(chunks)|
    ensures i / STANDARD_VECTOR_SIZE < |chunks| && i % STANDARD_VECTOR_SIZE < |chunks[i / STANDARD_VECTOR_SIZE]|
    ensures chunks[i / STANDARD_VECTOR_SIZE][i % STANDARD_VECTOR_SIZE] == Flat(chunks)[i]
  {
    var n := |chunks| - 1;
    var init := chunks[..n];
    FullSize(chunks, n);
    if i < |Flat(init)| {
      FlatAt(init, i);
    }
  }

  lemma {:induction false} FullSize(chunks: seq<seq<Datum>>, n: nat)
    requires Cut(chunks, false) && n < |chunks|
    ensures |Flat(chunks[..n])| == n * STANDARD_VECTOR_SIZE
  {
    if n > 0 {
      FullSize(chunks, n - 1);
      assert chunks[..n][..n - 1] == chunks[..n - 1];
    }
  }

  /** What values mean. */
  function Meaning(vs: seq<Datum>): seq<Option<int>> {
    seq(|vs|, i requires 0 <= i < |vs| => vs[i].Value())
  }

  lemma MeaningConcat(us: seq<Datum>, vs: seq<Datum>)
    ensures Meaning(us + vs) == Meaning(us) + Meaning(vs)
  {
  }

  /** The values that a table for a mark join was built from. */
  ghost predicate BuiltFrom(ht: HashTable, values: seq<Option<int>>)
    reads ht
  {
    && ht.Valid() && ht.predicates == [Equal] && ht.equalities == 1 && ht.nullsEqual == [false]
    && ht.count == |values| && (ht.hasNull <==> None in values)
    && (forall r :: 0 <= r < |ht.rows| ==> |ht.rows[r].key| == 1 && Some(ht.rows[r].key[0]) in values)
    && (forall v :: v in values && v.Some? ==> exists r :: 0 <= r < |ht.rows| && ht.rows[r].key == [v.value])
  }

  function KeysOf(chunk: seq<Datum>): seq<Key> {
    seq(|chunk|, i requires 0 <= i < |chunk| => [chunk[i]])
  }

  lemma FilledSame(ht: HashTable, chunk: seq<Datum>)
    requires ht.nullsEqual == [false]
    ensures ht.Filled(KeysOf(chunk)) == KeysOf(chunk)
  {
    forall i | 0 <= i < |chunk|
      ensures Fill([chunk[i]], ht.nullsEqual, ht.nullValue) == [chunk[i]]
    {
    }
  }

  lemma {:induction false} StoredAre(chunk: seq<Datum>, payload: seq<Payload>)
    requires |payload| == |chunk|
    ensures forall r :: 0 <= r < |Stored(KeysOf(chunk), payload)| ==>
              && |Stored(KeysOf(chunk), payload)[r].key| == 1
              && Some(Stored(KeysOf(chunk), payload)[r].key[0]) in Meaning(chunk)
    ensures forall v :: v in Meaning(chunk) && v.Some? ==>
              exists r :: 0 <= r < |Stored(KeysOf(chunk), payload)| && Stored(KeysOf(chunk), payload)[r].key == [v.value]
  {
    if chunk != [] {
      var n := |chunk| - 1;
      var init, last := chunk[..n], chunk[n];
      StoredAre(init, payload[..n]);
      assert KeysOf(chunk)[..n] == KeysOf(init);
      assert Meaning(chunk) == Meaning(init) + [last.Value()];
      var before, all := Stored(KeysOf(init), payload[..n]), Stored(KeysOf(chunk), payload);
      assert HasNull([last]) <==> last.isNull by { assert [last][0] == last; }
      assert all == before + if last.isNull then [] else [Row(Data([last]), payload[n])];
      if !last.isNull {
        assert Data([last]) == [last.data] && all[|before|].key == [last.data];
      }
      forall v | v in Meaning(chunk) && v.Some? ensures exists r :: 0 <= r < |all| && all[r].key == [v.value] {
        if v in Meaning(init) {
          var r :| 0 <= r < |before| && before[r].key == [v.value];
          assert all[r].key == [v.value];
        } else {
          assert v == last.Value();
        }
      }
    }
  }

  /** Stores one more chunk of values. */
  method BuildChunk(ht: HashTable, chunk: seq<Datum>, payload: seq<Payload>, ghost values: seq<Option<int>>)
    requires BuiltFrom(ht, values) && |payload| == |chunk|
    modifies ht
    ensures BuiltFrom(ht, values + Meaning(chunk))
  {
    hide HashTable.Valid;
    StoredAre(chunk, payload);
    FilledSame(ht, chunk);
    hide Stored;
    ghost var olds, news, more := ht.rows, Stored(KeysOf(chunk), payload), Meaning(chunk);
    ht.Build(KeysOf(chunk), payload);
    assert ht.rows == olds + news;
    assert ht.hasNull <==> None in values + more by {
      forall i | 0 <= i < |chunk| ensures HasNull(KeysOf(chunk)[i]) <==> more[i].None? {
        assert KeysOf(chunk)[i][0] == chunk[i];
      }
    }
    forall v | v in values + more && v.Some? ensures exists r :: 0 <= r < |ht.rows| && ht.rows[r].key == [v.value] {
      if v in values {
        var r :| 0 <= r < |olds| && olds[r].key == [v.value];
        assert ht.rows[r].key == [v.value];
      } else {
        var r :| 0 <= r < |news| && news[r].key == [v.value];
        assert ht.rows[|olds| + r].key == [v.value];
      }
    }
  }

  /**
   A mark join with these values on the right: every mark is the membership of
   its key, whether the right side is empty, has NULLs, or matches.
   */
  method MarkJoin(ht: HashTable, xs: seq<Datum>, ghost values: seq<Option<int>>) returns (marks: seq<Truth>)
    requires BuiltFrom(ht, values)
    ensures |marks| == |xs| && forall i :: 0 <= i < |xs| ==> marks[i] == In(xs[i].Value(), values)
  {
    hide HashTable.Valid, In, HashTable.Filled, Emitted;
    if ht.count == 0 {
      var mark := if ht.hasNull then Unknown else False;
      marks := seq(|xs|, _ => mark);
      InNone();
      assert values == [];
    } else {
      FilledSame(ht, xs);
      var scan := new Scan(ht, KeysOf(xs));
      FreshExact(scan, KeysOf(xs));
      scan.ScanKeyMatches();
      forall i | 0 <= i < |xs| && !xs[i].isNull ensures scan.found[i] <==> xs[i].Value() in values {
        FoundIs(ht, xs, values, i);
      }
      marks := ConstructMarkJoinResult(xs, scan.found, ht.hasNull);
      forall i | 0 <= i < |xs| ensures marks[i] == In(xs[i].Value(), values) {
        MarkIsIn(xs[i].Value(), values, scan.found[i]);
      }
    }
  }

  lemma InNone()
    ensures forall x :: In(x, []) == False
  {
  }

  lemma FoundIs(ht: HashTable, xs: seq<Datum>, values: seq<Option<int>>, i: nat)
    requires BuiltFrom(ht, values) && i < |xs| && !xs[i].isNull
    ensures ProbeOk(ProbeOf(ht, KeysOf(xs)))
    ensures EmitsSome(ht, KeysOf(xs), i) <==> xs[i].Value() in values
  {
    FilledSame(ht, xs);
    var p, keys := ProbeOf(ht, KeysOf(xs)), KeysOf(xs);
    assert p.keys[i] == [xs[i]];
    if r: nat :| Emitted(ht, keys, i, r) {
      assert Holds(p.predicates[0], p.keys[i][0].data, p.rows[r].key[0]);
    }
    if xs[i].Value() in values {
      var r :| 0 <= r < |ht.rows| && ht.rows[r].key == [xs[i].data];
      assert Matches(p.predicates, p.keys[i], p.rows[r].key);
      MatchHashes(ht, p, i, r);
      assert Emitted(ht, keys, i, r);
    }
  }

  /**
   An IN list with many constants, rewritten into a mark join against chunks of
   its values, keeps its truth value on every row.
   */
  method RewriteIn(xs: seq<Datum>, list: seq<Datum>, nullValue: int, hash: seq<int> -> nat, capacity: nat, filler: Payload)
    returns (marks: seq<Truth>)
    requires capacity > 0
    ensures |marks| == |xs| && forall i :: 0 <= i < |xs| ==> marks[i] == In(xs[i].Value(), Meaning(list))
  {
    hide HashTable.Valid, In, BuiltFrom, Flat, Meaning, Cut;
    var chunks := BuildChunks(list);
    var ht := new HashTable([Equal], 1, [false], nullValue, hash, capacity);
    assert chunks[..0] == [];
    BuiltEmpty(ht);
    for k := 0 to |chunks|
      invariant BuiltFrom(ht, Meaning(Flat(chunks[..k]))) && fresh(ht)
    {
      assert chunks[..k + 1] == chunks[..k] + [chunks[k]];
      FlatPush(chunks[..k], chunks[k]);
      MeaningConcat(Flat(chunks[..k]), chunks[k]);
      BuildChunk(ht, chunks[k], seq(|chunks[k]|, _ => filler), Meaning(Flat(chunks[..k])));
    }
    assert chunks[..|chunks|] == chunks;
    marks := MarkJoin(ht, xs, Meaning(list));
  }

  lemma BuiltEmpty(ht: HashTable)
    requires ht.Valid() && ht.predicates == [Equal] && ht.equalities == 1 && ht.nullsEqual == [false]
    requires ht.count == 0 && !ht.hasNull && ht.rows == []
    ensures BuiltFrom(ht, Meaning(Flat([])))
  {
  }
}
