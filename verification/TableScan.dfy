/**
 Table scans and fetches: what they return, against the version that the
 visibility walk selects for every row.
 */
module TableScan {
  import opened VersionChain
  import opened StorageChunk
  import opened Vectors

  // ---------------------------------------------------------------- the visible version of a row

  predicate Sees(p: PreImage, id: nat, start: nat) {
    p.stamp == id || p.stamp < start
  }

  /** The pre-image before the first visible node, or the base value. */
  function PickImage(ps: seq<PreImage>, base: Option<Payload>, id: nat, start: nat): Option<Payload> {
    if ps == [] || Sees(ps[0], id, start) then base else PickImage(ps[1..], ps[0].before, id, start)
  }

  lemma {:induction false} PickImageIs(ps: seq<PreImage>, base: Option<Payload>, id: nat, start: nat)
    ensures var chain := ChainOf(ps, base);
            PickImage(ps, base, id, start) == Pick(chain.nodes, chain.origin, id, start)
  {
    if ps != [] {
      PickImageIs(ps[1..], ps[0].before, id, start);
      assert ChainOf(ps, base).nodes[1..] == ChainOf(ps[1..], ps[0].before).nodes;
    }
  }

  /** The value of row `r` that transaction `id`, started at `start`, sees. */
  ghost function RowView(c: Chunk, r: nat, id: nat, start: nat): Option<Payload>
    requires c.Valid() && r < STORAGE_CHUNK_SIZE
    reads c, c.deleted, c.versionPointers, c.columns, c.repr
  {
    var chain := c.RowChain(r);
    Pick(chain.nodes, chain.origin, id, start)
  }

  ghost function ChunkView(c: Chunk, lo: nat, hi: nat, id: nat, start: nat): seq<Option<Payload>>
    requires c.Valid() && lo <= hi <= c.count
    reads c, c.deleted, c.versionPointers, c.columns, c.repr
  {
    if lo == hi then [] else ChunkView(c, lo, hi - 1, id, start) + [RowView(c, hi - 1, id, start)]
  }

  lemma {:induction false} ChunkViewAre(c: Chunk, lo: nat, hi: nat, id: nat, start: nat)
    requires c.Valid() && lo <= hi <= c.count
    ensures |ChunkView(c, lo, hi, id, start)| == hi - lo
    ensures forall i :: 0 <= i < hi - lo ==> ChunkView(c, lo, hi, id, start)[i] == RowView(c, lo + i, id, start)
  {
    if lo < hi {
      ChunkViewAre(c, lo, hi - 1, id, start);
    }
  }

  /** The rows that exist, in order. */
  function Present(view: seq<Option<Payload>>): seq<Payload> {
    if view == [] then []
    else (if view[0].Some? then [view[0].value] else []) + Present(view[1..])
  }

  lemma {:induction false} PresentConcat(a: seq<Option<Payload>>, b: seq<Option<Payload>>)
    ensures Present(a + b) == Present(a) + Present(b)
  {
    if a == [] {
      assert a + b == b;
    } else {
      assert (a + b)[1..] == a[1..] + b && (a + b)[0] == a[0];
      PresentConcat(a[1..], b);
      var first := if a[0].Some? then [a[0].value] else [];
      assert first + (Present(a[1..]) + Present(b)) == first + Present(a[1..]) + Present(b);
    }
  }

  lemma PresentPush(view: seq<Option<Payload>>, v: Option<Payload>)
    ensures Present(view + [v]) == Present(view) + if v.Some? then [v.value] else []
  {
    PresentConcat(view, [v]);
    assert Present([v]) == if v.Some? then [v.value] else [];
  }

  /** The nodes of a row give its view: the base row at a visible head, else a pre-image. */
  lemma ViewOfRow(c: Chunk, r: nat, id: nat, start: nat)
    requires c.Valid() && r < c.count
    ensures c.lists[r] == [] || Sees(PreImageOf(c.lists[r][0]), id, start) ==>
              RowView(c, r, id, start) == if c.deleted[r] then None else Some(c.columns[r])
    ensures c.lists[r] != [] && !Sees(PreImageOf(c.lists[r][0]), id, start) ==>
              RowView(c, r, id, start) == PickImage(PreImages(c.lists[r][1..]), c.lists[r][0].tupleData, id, start)
  {
    PickImageIs(PreImages(c.lists[r]), c.BaseRow(r), id, start);
    PreImagesAre(c.lists[r]);
    if c.lists[r] != [] {
      assert PreImages(c.lists[r])[1..] == PreImages(c.lists[r][1..]);
    }
  }

  /** Follows a list from an invisible head to the last invisible node, whose pre-image is the version to use. */
  method FollowVersions(c: Chunk, r: nat, id: nat, start: nat) returns (value: Option<Payload>)
    requires c.Valid() && r < c.count
    requires c.versionPointers[r] != null
    requires !(c.versionPointers[r].versionNumber == id || c.versionPointers[r].versionNumber < start)
    ensures value == RowView(c, r, id, start)
  {
    c.HeadIs(r);
    ViewOfRow(c, r, id, start);
    var version := c.versionPointers[r];
    ghost var at, ns := 0, c.lists[r];
    while true
      invariant at < |ns| && version == ns[at]
      invariant RowView(c, r, id, start) == PickImage(PreImages(ns[at + 1..]), version.tupleData, id, start)
      decreases |ns| - at
    {
      c.Position(r, at);
      var next := version.next;
      if next == null {
        break;
      }
      assert ns[at + 1..][0] == next && ns[at + 1..][1..] == ns[at + 2..];
      assert PreImages(ns[at + 1..]) == [PreImageOf(next)] + PreImages(ns[at + 2..]);
      if next.versionNumber == id {
        break;
      }
      if next.versionNumber < start {
        break;
      }
      version := next;
      at := at + 1;
    }
    value := version.tupleData;
  }

  // ---------------------------------------------------------------- one block of a scan

  function One(v: Option<Payload>): multiset<Payload> {
    if v.Some? then multiset{v.value} else multiset{}
  }

  predicate Within(entries: seq<nat>, n: nat) {
    forall k :: 0 <= k < |entries| ==> entries[k] < n
  }

  /** The visible values of the selected entries. */
  function Selected(view: seq<Option<Payload>>, entries: seq<nat>): multiset<Payload>
    requires Within(entries, |view|)
  {
    if entries == [] then multiset{}
    else Selected(view, entries[..|entries| - 1]) + One(view[entries[|entries| - 1]])
  }

  lemma SelectedPush(view: seq<Option<Payload>>, entries: seq<nat>, e: nat)
    requires Within(entries, |view|) && e < |view|
    ensures Within(entries + [e], |view|)
    ensures Selected(view, entries + [e]) == Selected(view, entries) + One(view[e])
  {
    assert (entries + [e])[..|entries|] == entries;
  }

  lemma PresentOne(view: seq<Option<Payload>>, i: nat)
    requires i < |view|
    ensures multiset(Present(view[..i + 1])) == multiset(Present(view[..i])) + One(view[i])
  {
    assert view[..i + 1] == view[..i] + [view[i]];
    PresentPush(view[..i], view[i]);
  }

  /** Entries whose visible version is the base row. */
  ghost predicate AreBase(c: Chunk, offset: nat, view: seq<Option<Payload>>, entries: seq<nat>)
    requires c.columns.Length == STORAGE_CHUNK_SIZE && offset + |view| <= STORAGE_CHUNK_SIZE
    reads c.columns
  {
    Within(entries, |view|) && forall k :: 0 <= k < |entries| ==> view[entries[k]] == Some(c.columns[offset + entries[k]])
  }

  ghost predicate IsBlock(c: Chunk, offset: nat, view: seq<Option<Payload>>, id: nat, start: nat)
    reads c, c.deleted, c.versionPointers, c.columns, c.repr
  {
    c.Valid() && offset + |view| <= c.count && view == ChunkView(c, offset, offset + |view|, id, start)
  }

  lemma BlockRow(c: Chunk, offset: nat, view: seq<Option<Payload>>, i: nat, id: nat, start: nat)
    requires IsBlock(c, offset, view, id, start) && i < |view|
    ensures offset + i < c.count <= STORAGE_CHUNK_SIZE == c.versionPointers.Length == c.deleted.Length
    ensures c.columns.Length == STORAGE_CHUNK_SIZE && c.Valid()
    ensures var version := c.versionPointers[offset + i];
            && view[i] == RowView(c, offset + i, id, start)
            && (version == null || version.versionNumber == id || version.versionNumber < start ==>
                  view[i] == if c.deleted[offset + i] then None else Some(c.columns[offset + i]))
  {
    ChunkViewAre(c, offset, offset + |view|, id, start);
    ViewOfRow(c, offset + i, id, start);
    c.HeadIs(offset + i);
  }

  /** Splits a block into existing rows without versions and rows with versions. */
  method SplitBlock(c: Chunk, offset: nat, end: nat, ghost view: seq<Option<Payload>>, id: nat, start: nat)
    returns (regular: seq<nat>, versions: seq<nat>)
    requires IsBlock(c, offset, view, id, start) && |view| == end <= STANDARD_VECTOR_SIZE
    ensures |regular| + |versions| <= end
    ensures AreBase(c, offset, view, regular) && Within(versions, end)
    ensures multiset(Present(view)) == Selected(view, regular) + Selected(view, versions)
    ensures |regular| == end ==> versions == []
  {
    hide ChunkView, Present, Selected, RowView, Chunk.Heads, Chunk.Links, Chunk.Owned;
    regular, versions := [], [];
    assert Present(view[..0]) == [] && Selected(view, []) == multiset{} by { SelectedNone(view); }
    for i := 0 to end
      invariant |regular| + |versions| <= i
      invariant AreBase(c, offset, view, regular) && Within(versions, end)
      invariant multiset(Present(view[..i])) == Selected(view, regular) + Selected(view, versions)
    {
      PresentOne(view, i);
      BlockRow(c, offset, view, i, id, start);
      var hasVersion := c.versionPointers[offset + i] != null;
      var isDeleted := c.deleted[offset + i];
      if hasVersion {
        SelectedPush(view, versions, i);
        versions := versions + [i];
      }
      if !(isDeleted || hasVersion) {
        SelectedPush(view, regular, i);
        regular := regular + [i];
      }
    }
    assert view[..end] == view;
  }

  lemma SelectedNone(view: seq<Option<Payload>>)
    ensures Present(view[..0]) == [] && Selected(view, []) == multiset{}
  {
  }

  lemma Regroup(a: multiset<Payload>, b: multiset<Payload>, c: multiset<Payload>, d: multiset<Payload>, one: multiset<Payload>)
    requires a + b == c + d
    ensures (a + one) + b == c + (d + one) && a + (b + one) == c + (d + one)
  {
    assert (a + one) + b == (a + b) + one && a + (b + one) == (a + b) + one && c + (d + one) == (c + d) + one;
  }

  /** Decides for every row with versions between its base row, a pre-image and nothing. */
  method ChaseVersions(c: Chunk, offset: nat, unversioned: seq<nat>, versions: seq<nat>,
                       ghost view: seq<Option<Payload>>, id: nat, start: nat)
    returns (regular: seq<nat>, alternates: seq<Payload>)
    requires IsBlock(c, offset, view, id, start)
    requires AreBase(c, offset, view, unversioned) && Within(versions, |view|)
    ensures |regular| + |alternates| <= |unversioned| + |versions|
    ensures AreBase(c, offset, view, regular)
    ensures Selected(view, regular) + multiset(alternates) == Selected(view, unversioned) + Selected(view, versions)
  {
    hide ChunkView, Selected, RowView, Chunk.Heads, Chunk.Links, Chunk.Owned;
    assert versions[..0] == [] && versions[..|versions|] == versions;
    SelectedNone(view);
    regular, alternates := unversioned, [];
    for i := 0 to |versions|
      invariant |regular| + |alternates| <= |unversioned| + i
      invariant AreBase(c, offset, view, regular)
      invariant Selected(view, regular) + multiset(alternates) == Selected(view, unversioned) + Selected(view, versions[..i])
    {
      var e := versions[i];
      BlockRow(c, offset, view, e, id, start);
      SelectedPush(view, versions[..i], e);
      assert versions[..i + 1] == versions[..i] + [e];
      Regroup(Selected(view, regular), multiset(alternates), Selected(view, unversioned), Selected(view, versions[..i]),
              One(view[e]));
      var version := c.versionPointers[offset + e];
      if version == null || version.versionNumber == id || version.versionNumber < start {
        if !c.deleted[offset + e] {
          SelectedPush(view, regular, e);
          regular := regular + [e];
        }
      } else {
        var value := FollowVersions(c, offset + e, id, start);
        assert value == view[e];
        if value.Some? {
          ghost var was := alternates;
          alternates := alternates + [value.value];
          assert multiset(alternates) == multiset(was) + multiset{value.value};
        }
      }
    }
  }

  /** The values of one block: versioned data first, then base data. */
  method ScanBlock(c: Chunk, offset: nat, end: nat, ghost view: seq<Option<Payload>>, id: nat, start: nat)
    returns (result: seq<Payload>)
    requires IsBlock(c, offset, view, id, start) && |view| == end <= STANDARD_VECTOR_SIZE
    ensures |result| <= end && multiset(result) == multiset(Present(view))
  {
    hide Present, Selected, Chunk.Heads, Chunk.Links, Chunk.Owned;
    var regular, versions := SplitBlock(c, offset, end, view, id, start);
    SelectedNone(view);
    result := [];
    if |regular| < end {
      regular, result := ChaseVersions(c, offset, regular, versions, view, id, start);
    }
    var base := BaseData(c, offset, regular, view);
    result := result + base;
  }

  /** Copies the selected base rows. */
  method BaseData(c: Chunk, offset: nat, entries: seq<nat>, ghost view: seq<Option<Payload>>) returns (data: seq<Payload>)
    requires c.columns.Length == STORAGE_CHUNK_SIZE && offset + |view| <= STORAGE_CHUNK_SIZE
    requires AreBase(c, offset, view, entries)
    ensures |data| == |entries| && forall k :: 0 <= k < |entries| ==> data[k] == c.columns[offset + entries[k]]
    ensures multiset(data) == Selected(view, entries)
  {
    hide Selected;
    SelectedNone(view);
    assert entries[..0] == [];
    data := [];
    for k := 0 to |entries|
      invariant |data| == k && forall j :: 0 <= j < k ==> data[j] == c.columns[offset + entries[j]]
      invariant multiset(data) == Selected(view, entries[..k])
    {
      SelectedPush(view, entries[..k], entries[k]);
      assert entries[..k + 1] == entries[..k] + [entries[k]];
      data := data + [c.columns[offset + entries[k]]];
    }
    assert entries[..|entries|] == entries;
  }

  // ---------------------------------------------------------------- tables

  class ScanStructure {
    /** The chunk to read next, by its position in the list, and the offset in it. */
    var chunk: nat
    var offset: nat

    constructor ()
      ensures chunk == 0 && offset == 0
    {
      chunk, offset := 0, 0;
    }
  }

  datatype Result<T> = Ok(value: T) | OutOfRange

  class DataTable {
    var chunks: seq<Chunk>

    ghost var repr: set<object>

    /** A table starts with one empty chunk. */
    constructor ()
      ensures Valid() && |chunks| == 1 && chunks[0].count == 0 && chunks[0].start == 0
      ensures fresh(chunks[0]) && chunks[0].repr == {}
      ensures repr == {chunks[0], chunks[0].deleted, chunks[0].versionPointers, chunks[0].columns} && fresh(repr)
    {
      var c := new Chunk(0);
      chunks, repr := [c], {c, c.deleted, c.versionPointers, c.columns};
    }

    ghost predicate Owned()
      reads this, chunks
    {
      forall i :: 0 <= i < |chunks| ==>
        && chunks[i] in repr && chunks[i].deleted in repr && chunks[i].versionPointers in repr && chunks[i].columns in repr
        && (forall n :: n in chunks[i].repr ==> n in repr)
    }

    /** The chunks hold consecutive row identifiers, from 0. */
    ghost predicate Consecutive()
      reads this, chunks
    {
      && (|chunks| > 0 ==> chunks[0].start == 0)
      && forall i, j :: 0 <= i < j < |chunks| && j == i + 1 ==> chunks[j].start == chunks[i].start + chunks[i].count
    }

    ghost predicate Valid()
      reads this, chunks, repr
    {
      && Owned() && Consecutive()
      && forall i :: 0 <= i < |chunks| ==> chunks[i].Valid()
    }

    /** The number of rows in the first `n` chunks. */
    ghost function End(n: nat): nat
      requires n <= |chunks|
      reads this, chunks
    {
      if n == 0 then 0 else chunks[n - 1].start + chunks[n - 1].count
    }

    /** What a transaction sees of the rows of the first `n` chunks, by row identifier. */
    ghost function View(n: nat, id: nat, start: nat): seq<Option<Payload>>
      requires Valid() && n <= |chunks|
      reads this, chunks, repr
    {
      if n == 0 then []
      else View(n - 1, id, start) + ChunkView(chunks[n - 1], 0, chunks[n - 1].count, id, start)
    }

    lemma {:induction false} ViewLength(n: nat, id: nat, start: nat)
      requires Valid() && n <= |chunks|
      ensures |View(n, id, start)| == End(n)
    {
      hide Owned, ChunkView, Chunk.Valid;
      if n > 0 {
        ViewLength(n - 1, id, start);
        ChunkViewAre(chunks[n - 1], 0, chunks[n - 1].count, id, start);
      }
    }

    lemma {:induction false} EndsGrow(i: nat, n: nat)
      requires Valid() && i <= n <= |chunks|
      ensures End(i) <= End(n)
    {
      hide Owned, Chunk.Valid;
      if i < n {
        EndsGrow(i, n - 1);
      }
    }

    /** Every row identifier shows the row at its place in its chunk. */
    lemma {:induction false} ViewAt(n: nat, i: nat, k: nat, id: nat, start: nat)
      requires Valid() && i < n <= |chunks| && k < chunks[i].count
      ensures chunks[i].start + k < |View(n, id, start)|
      ensures View(n, id, start)[chunks[i].start + k] == RowView(chunks[i], k, id, start)
    {
      hide Owned, ChunkView, Chunk.Valid, RowView;
      ViewLength(n - 1, id, start);
      ChunkViewAre(chunks[n - 1], 0, chunks[n - 1].count, id, start);
      if i < n - 1 {
        ViewAt(n - 1, i, k, id, start);
      }
    }

    /** The last of the first `n` chunks that starts at or before a row identifier. */
    ghost function Locate(n: nat, row: nat): (i: nat)
      requires Valid() && n <= |chunks| && row < End(n)
      reads this, chunks, repr
      ensures i < n && chunks[i].start <= row < chunks[i].start + chunks[i].count
    {
      if row >= chunks[n - 1].start then n - 1 else Locate(n - 1, row)
    }

    lemma {:induction false} LocateIs(n: nat, row: nat, i: nat)
      requires Valid() && i < n <= |chunks| && row < End(n)
      requires chunks[i].start <= row < chunks[i].start + chunks[i].count
      ensures Locate(n, row) == i
    {
      hide Owned, Chunk.Valid;
      if i < n - 1 {
        EndsGrow(i + 1, n - 1);
        LocateIs(n - 1, row, i);
      }
    }

    /** The version chain of a row identifier. */
    ghost function ChainOfRow(row: nat): Chain
      requires Valid() && row < End(|chunks|)
      reads this, chunks, repr
    {
      var i := Locate(|chunks|, row);
      chunks[i].RowChain(row - chunks[i].start)
    }

    /** The chunk that holds a row identifier. */
    method GetChunk(rowNumber: nat) returns (r: Result<nat>)
      requires Valid()
      ensures r.Ok? <==> rowNumber < End(|chunks|)
      ensures r.Ok? ==> r.value == Locate(|chunks|, rowNumber)
      ensures r.Ok? ==> r.value < |chunks| && 0 <= rowNumber - chunks[r.value].start < chunks[r.value].count
    {
      hide Owned, Chunk.Valid;
      var chunk := 0;
      while chunk < |chunks|
        invariant chunk <= |chunks| && End(chunk) <= rowNumber
      {
        if rowNumber >= chunks[chunk].start && rowNumber < chunks[chunk].start + chunks[chunk].count {
          EndsGrow(chunk + 1, |chunks|);
          LocateIs(|chunks|, rowNumber, chunk);
          return Ok(chunk);
        }
        chunk := chunk + 1;
      }
      return OutOfRange;
    }

    /** The first row identifier that is not in use. */
    method Count() returns (n: nat)
      requires Valid()
      ensures n == End(|chunks|)
    {
      if |chunks| == 0 {
        return 0;
      }
      return chunks[|chunks| - 1].start + chunks[|chunks| - 1].count;
    }

    /** The visible value of one row identifier. */
    method FetchRow(rowId: nat, id: nat, start: nat) returns (r: Result<Option<Payload>>)
      requires Valid()
      ensures r.Ok? <==> rowId < |View(|chunks|, id, start)|
      ensures r.Ok? ==> r.value == View(|chunks|, id, start)[rowId]
    {
      hide ChunkView, View, RowView, PickImage, Chunk.Owned, Chunk.Heads, Chunk.Links;
      var found := GetChunk(rowId);
      ViewLength(|chunks|, id, start);
      if found.OutOfRange? {
        return OutOfRange;
      }
      var chunk := chunks[found.value];
      var index := rowId - chunk.start;
      ViewAt(|chunks|, found.value, index, id, start);
      ViewOfRow(chunk, index, id, start);
      chunk.HeadIs(index);
      var version := chunk.versionPointers[index];
      if version != null && !(version.versionNumber == id || version.versionNumber < start) {
        var value := FollowVersions(chunk, index, id, start);
        return Ok(value);
      } else if chunk.deleted[index] {
        return Ok(None);
      } else {
        return Ok(Some(chunk.columns[index]));
      }
    }

    /** The visible rows among these identifiers, in their order; an identifier out of range is an error. */
    method Fetch(rowIds: seq<nat>, id: nat, start: nat) returns (r: Result<seq<Payload>>)
      requires Valid()
      ensures r.Ok? <==> forall k :: 0 <= k < |rowIds| ==> rowIds[k] < |View(|chunks|, id, start)|
      ensures r.Ok? ==> r.value == Present(At(View(|chunks|, id, start), rowIds))
    {
      hide View, Present, ChunkView, Chunk.Valid;
      ghost var view := View(|chunks|, id, start);
      assert At(view, rowIds[..0]) == [] && rowIds[..|rowIds|] == rowIds;
      PresentNone();
      var result := [];
      for k := 0 to |rowIds|
        invariant forall j :: 0 <= j < k ==> rowIds[j] < |view|
        invariant result == Present(At(view, rowIds[..k]))
        invariant Valid() && view == View(|chunks|, id, start)
      {
        var row := FetchRow(rowIds[k], id, start);
        if row.OutOfRange? {
          return OutOfRange;
        }
        assert At(view, rowIds[..k + 1]) == At(view, rowIds[..k]) + [view[rowIds[k]]];
        PresentPush(At(view, rowIds[..k]), view[rowIds[k]]);
        if row.value.Some? {
          result := result + [row.value.value];
        }
      }
      return Ok(result);
    }

    /** The place of a scan: before a row of a chunk, or at the end. */
    ghost predicate Places(structure: ScanStructure)
      reads this, chunks, structure
    {
      && structure !in repr
      && structure.chunk <= |chunks| && structure.offset < STORAGE_CHUNK_SIZE
      && (structure.chunk == |chunks| ==> structure.offset == 0)
      && (structure.chunk < |chunks| ==> structure.offset == 0 || structure.offset < chunks[structure.chunk].count)
    }

    /** The row identifier at which a scan goes on. */
    ghost function Place(structure: ScanStructure): nat
      requires Places(structure)
      reads this, chunks, structure
    {
      if structure.chunk < |chunks| then chunks[structure.chunk].start + structure.offset else End(|chunks|)
    }

    lemma BlockOf(i: nat, lo: nat, hi: nat, id: nat, start: nat)
      requires Valid() && i < |chunks| && lo <= hi <= chunks[i].count
      ensures chunks[i].start + hi <= |View(|chunks|, id, start)|
      ensures IsBlock(chunks[i], lo, View(|chunks|, id, start)[chunks[i].start + lo..chunks[i].start + hi], id, start)
    {
      hide Owned, Chunk.Heads, Chunk.Links, Chunk.Owned, RowView, View, ChunkView;
      var view := View(|chunks|, id, start);
      ViewLength(|chunks|, id, start);
      EndsGrow(i + 1, |chunks|);
      ChunkViewAre(chunks[i], lo, hi, id, start);
      forall k | lo <= k < hi ensures view[chunks[i].start + k] == RowView(chunks[i], k, id, start) {
        ViewAt(|chunks|, i, k, id, start);
      }
      assert view[chunks[i].start + lo..chunks[i].start + hi] == ChunkView(chunks[i], lo, hi, id, start);
    }

    lemma PlaceInside(structure: ScanStructure, id: nat, start: nat)
      requires Valid() && Places(structure)
      ensures Place(structure) <= |View(|chunks|, id, start)| == End(|chunks|)
    {
      hide Owned, Chunk.Valid, View;
      ViewLength(|chunks|, id, start);
      if structure.chunk < |chunks| {
        EndsGrow(structure.chunk + 1, |chunks|);
      }
    }

    /** The number of rows in the block at the place of a scan. */
    function BlockSize(structure: ScanStructure): nat
      requires Places(structure) && structure.chunk < |chunks|
      reads this, chunks, structure
    {
      var left := chunks[structure.chunk].count - structure.offset;
      if left < STANDARD_VECTOR_SIZE then left else STANDARD_VECTOR_SIZE
    }

    /** Moves a scan past its block. */
    method Advance(structure: ScanStructure)
      requires Valid() && Places(structure) && structure.chunk < |chunks|
      modifies structure
      ensures Valid() && Places(structure)
      ensures Place(structure) == old(Place(structure) + BlockSize(structure))
      ensures Ahead(structure.chunk, structure.offset, old(structure.chunk), old(structure.offset))
    {
      hide Owned, Chunk.Heads, Chunk.Links, Chunk.Owned;
      structure.offset := structure.offset + STANDARD_VECTOR_SIZE;
      if structure.offset >= chunks[structure.chunk].count {
        structure.offset := 0;
        structure.chunk := structure.chunk + 1;
      }
    }

    /** Reads the block at the place of a scan and moves past it. */
    method NextBlock(structure: ScanStructure, id: nat, start: nat) returns (result: seq<Payload>)
      requires Valid() && Places(structure) && structure.chunk < |chunks|
      modifies structure
      ensures Valid() && Places(structure)
      ensures |result| <= STANDARD_VECTOR_SIZE
      ensures old(Place(structure)) <= Place(structure) <= |View(|chunks|, id, start)|
      ensures multiset(result) == multiset(Present(View(|chunks|, id, start)[old(Place(structure))..Place(structure)]))
      ensures Ahead(structure.chunk, structure.offset, old(structure.chunk), old(structure.offset))
    {
      hide Owned, Chunk.Heads, Chunk.Links, Chunk.Owned, RowView, View, ChunkView, Present, IsBlock;
      var current := chunks[structure.chunk];
      var end := BlockSize(structure);
      ghost var at, view := Place(structure), View(|chunks|, id, start);
      BlockOf(structure.chunk, structure.offset, structure.offset + end, id, start);
      result := ScanBlock(current, structure.offset, end, view[at..at + end], id, start);
      Advance(structure);
    }

    /** Returns the next visible rows, at most a vector of them; none only at the end of the table. */
    method Scan(structure: ScanStructure, id: nat, start: nat) returns (result: seq<Payload>)
      requires Valid() && Places(structure)
      modifies structure
      ensures Valid() && Places(structure)
      ensures |result| <= STANDARD_VECTOR_SIZE
      ensures result == [] ==> structure.chunk == |chunks|
      ensures old(Place(structure)) <= Place(structure) <= |View(|chunks|, id, start)|
      ensures multiset(result) == multiset(Present(View(|chunks|, id, start)[old(Place(structure))..Place(structure)]))
      ensures result != [] ==> Ahead(structure.chunk, structure.offset, old(structure.chunk), old(structure.offset))
    {
      hide Owned, Chunk.Valid, Consecutive, View, Present;
      result := [];
      ghost var from, view := Place(structure), View(|chunks|, id, start);
      PlaceInside(structure, id, start);
      assert view[from..from] == [];
      PresentNone();
      while structure.chunk < |chunks|
        invariant Valid() && Places(structure) && result == []
        invariant view == View(|chunks|, id, start)
        invariant from <= Place(structure) <= |view|
        invariant Present(view[from..Place(structure)]) == []
        invariant !Ahead(old(structure.chunk), old(structure.offset), structure.chunk, structure.offset)
        decreases |chunks| - structure.chunk, STORAGE_CHUNK_SIZE - structure.offset
      {
        ghost var at := Place(structure);
        result := NextBlock(structure, id, start);
        ghost var to := Place(structure);
        PresentConcat(view[from..at], view[at..to]);
        assert view[from..at] + view[at..to] == view[from..to];
        if |result| > 0 {
          return;
        }
      }
    }

    /** Scans the whole table. */
    method Drain(id: nat, start: nat) returns (rows: seq<Payload>)
      requires Valid()
      ensures Valid() && multiset(rows) == multiset(Present(View(|chunks|, id, start)))
    {
      hide Owned, Chunk.Valid, Consecutive, View, Present;
      var structure := new ScanStructure();
      rows := [];
      ghost var view := View(|chunks|, id, start);
      assert view[..Place(structure)] == [] by { Origin(structure); }
      PresentNone();
      while true
        invariant Valid() && Places(structure)
        invariant view == View(|chunks|, id, start)
        invariant Place(structure) <= |view| && multiset(rows) == multiset(Present(view[..Place(structure)]))
        decreases |chunks| - structure.chunk, STORAGE_CHUNK_SIZE - structure.offset
      {
        ghost var at := Place(structure);
        var chunk := Scan(structure, id, start);
        ghost var to := Place(structure);
        PresentConcat(view[..at], view[at..to]);
        assert view[..at] + view[at..to] == view[..to];
        rows := rows + chunk;
        if chunk == [] {
          break;
        }
      }
      PlaceInside(structure, id, start);
      assert view[..|view|] == view;
    }

    lemma Origin(structure: ScanStructure)
      requires Valid() && structure.chunk == structure.offset == 0 && structure !in repr
      ensures Places(structure) && Place(structure) == 0
    {
    }
  }

  predicate Ahead(chunk: nat, offset: nat, chunk': nat, offset': nat) {
    chunk > chunk' || (chunk == chunk' && offset > offset')
  }

  /** The entries of a view at these row identifiers. */
  function At(view: seq<Option<Payload>>, rowIds: seq<nat>): seq<Option<Payload>> {
    seq(|rowIds|, k requires 0 <= k < |rowIds| => if rowIds[k] < |view| then view[rowIds[k]] else None)
  }

  lemma PresentNone()
    ensures Present([]) == []
  {
  }
}
