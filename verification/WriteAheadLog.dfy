/**
 The write-ahead log: its byte format, the writer and the replay loop, and what
 any byte prefix of a log replays to.
 */
module WriteAheadLog {
  import opened VersionChain

  newtype byte = x: int | 0 <= x < 256

  const DROP_TABLE: byte := 1
  const QUERY: byte := 8
  const WAL_FLUSH: byte := 100
  const UINT32_LIMIT: nat := 0x1_0000_0000
  const HEADER: nat := 5

  predicate TypeIsValid(t: byte) {
    t == WAL_FLUSH || DROP_TABLE <= t <= QUERY
  }

  /** One logged change; its data are opaque here. */
  datatype Entry = Entry(kind: byte, data: seq<byte>)

  type Transaction = seq<Entry>

  // ---------------------------------------------------------------- the format

  /** A size as an unsigned 32-bit number, least significant byte first. */
  function Size(n: nat): seq<byte> {
    [(n % 256) as byte, (n / 256 % 256) as byte, (n / 0x1_0000 % 256) as byte, (n / 0x100_0000 % 256) as byte]
  }

  function ReadSize(b: seq<byte>): nat
    requires |b| >= 4
  {
    b[0] as nat + 256 * b[1] as nat + 0x1_0000 * b[2] as nat + 0x100_0000 * b[3] as nat
  }

  /** Sizes survive up to truncation to 32 bits. */
  lemma SizeRoundTrip(n: nat, rest: seq<byte>)
    ensures ReadSize(Size(n) + rest) == n % UINT32_LIMIT
  {
    Bytes(n);
  }

  lemma Bytes(n: nat)
    ensures n % 256 + 256 * (n / 256 % 256) + 0x1_0000 * (n / 0x1_0000 % 256) + 0x100_0000 * (n / 0x100_0000 % 256)
            == n % UINT32_LIMIT
  {
    var a := n / 256;
    var b := a / 256;
    var c := b / 256;
    Digits(n, a, b, c);
    Remainder(n, n % 256 + 256 * (a % 256) + 0x1_0000 * (b % 256) + 0x100_0000 * (c % 256), c / 256);
  }

  lemma Digits(n: nat, a: nat, b: nat, c: nat)
    requires a == n / 256 && b == a / 256 && c == b / 256
    ensures n / 0x1_0000 == b && n / 0x100_0000 == c
  {
    assert n == 0x1_0000 * b + (256 * (a % 256) + n % 256);
    assert n == 0x100_0000 * c + (0x1_0000 * (b % 256) + 256 * (a % 256) + n % 256);
  }

  lemma Remainder(n: nat, rest: nat, q: nat)
    requires n == UINT32_LIMIT * q + rest && rest < UINT32_LIMIT
    ensures n % UINT32_LIMIT == rest
  {
  }

  function EntryBytes(e: Entry): seq<byte> {
    [e.kind] + Size(|e.data|) + e.data
  }

  const FLUSH_BYTES: seq<byte> := [WAL_FLUSH] + Size(0)

  function EntriesBytes(t: Transaction): seq<byte> {
    if t == [] then [] else EntryBytes(t[0]) + EntriesBytes(t[1..])
  }

  function TransactionBytes(t: Transaction): seq<byte> {
    EntriesBytes(t) + FLUSH_BYTES
  }

  /** The log of these committed transactions. */
  function LogBytes(ts: seq<Transaction>): seq<byte> {
    if ts == [] then [] else TransactionBytes(ts[0]) + LogBytes(ts[1..])
  }

  // ---------------------------------------------------------------- reading a log

  /** The flushed transactions of a log; `stored` are the entries read since the last flush. */
  function Parse(log: seq<byte>, stored: seq<Entry>): seq<Transaction>
    decreases |log|
  {
    if |log| < HEADER then []
    else
      var size := ReadSize(log[1..]);
      if log[0] == WAL_FLUSH then [stored] + Parse(log[HEADER..], [])
      else if !TypeIsValid(log[0]) || size == 0 || |log| - HEADER < size then []
      else Parse(log[HEADER + size..], stored + [Entry(log[0], log[HEADER..HEADER + size])])
  }

  /** What the log can represent. */
  predicate Good(e: Entry) {
    DROP_TABLE <= e.kind <= QUERY && 1 <= |e.data| < UINT32_LIMIT
  }

  predicate AllGood(t: Transaction) {
    forall i :: 0 <= i < |t| ==> Good(t[i])
  }

  predicate LogGood(ts: seq<Transaction>) {
    forall k :: 0 <= k < |ts| ==> AllGood(ts[k])
  }

  /** What the reader finds at the start of an entry. */
  lemma EntryHeader(e: Entry, rest: seq<byte>)
    ensures var log := EntryBytes(e) + rest;
            && |log| == HEADER + |e.data| + |rest| && log[0] == e.kind && log[HEADER..] == e.data + rest
            && ReadSize(log[1..]) == |e.data| % UINT32_LIMIT
  {
    assert (EntryBytes(e) + rest)[1..] == Size(|e.data|) + (e.data + rest);
    SizeRoundTrip(|e.data|, e.data + rest);
  }

  lemma ParseEntry(e: Entry, rest: seq<byte>, stored: seq<Entry>)
    requires Good(e)
    ensures Parse(EntryBytes(e) + rest, stored) == Parse(rest, stored + [e])
  {
    hide Size, ReadSize, EntryBytes;
    var log, n := EntryBytes(e) + rest, |e.data|;
    EntryHeader(e, rest);
    assert ReadSize(log[1..]) == n;
    assert log[HEADER..HEADER + n] == log[HEADER..][..n] == e.data;
    assert log[HEADER + n..] == log[HEADER..][n..] == rest;
  }

  lemma {:induction false} ParseEntries(t: Transaction, rest: seq<byte>, stored: seq<Entry>)
    requires AllGood(t)
    ensures Parse(EntriesBytes(t) + rest, stored) == Parse(rest, stored + t)
  {
    if t == [] {
      assert EntriesBytes(t) + rest == rest && stored + t == stored;
    } else {
      assert EntriesBytes(t) + rest == EntryBytes(t[0]) + (EntriesBytes(t[1..]) + rest);
      ParseEntry(t[0], EntriesBytes(t[1..]) + rest, stored);
      ParseEntries(t[1..], rest, stored + [t[0]]);
      assert stored + [t[0]] + t[1..] == stored + t;
    }
  }

  lemma ParseTransaction(t: Transaction, rest: seq<byte>)
    requires AllGood(t)
    ensures Parse(TransactionBytes(t) + rest, []) == [t] + Parse(rest, [])
  {
    var log := FLUSH_BYTES + rest;
    assert TransactionBytes(t) + rest == EntriesBytes(t) + log;
    ParseEntries(t, log, []);
    assert [] + t == t && log[HEADER..] == rest;
  }

  /** A log cut inside an entry yields nothing more. */
  lemma CutEntry(e: Entry, n: nat, stored: seq<Entry>)
    requires Good(e) && n < |EntryBytes(e)|
    ensures Parse(EntryBytes(e)[..n], stored) == []
  {
    hide Size, ReadSize, EntryBytes;
    if n >= HEADER {
      CutHeader(e, n);
    }
  }

  lemma CutHeader(e: Entry, n: nat)
    requires Good(e) && HEADER <= n < |EntryBytes(e)|
    ensures var log := EntryBytes(e)[..n];
            log[0] == e.kind && ReadSize(log[1..]) == |e.data| > |log| - HEADER
  {
    hide ReadSize;
    var log := EntryBytes(e)[..n];
    assert log[1..] == Size(|e.data|) + e.data[..n - HEADER];
    SizeRoundTrip(|e.data|, e.data[..n - HEADER]);
  }

  /** A log cut before the end of the flush header of a transaction yields nothing of it. */
  lemma {:induction false} CutTransaction(t: Transaction, n: nat, stored: seq<Entry>)
    requires AllGood(t) && n < |TransactionBytes(t)|
    ensures Parse(TransactionBytes(t)[..n], stored) == []
  {
    if t != [] {
      hide Size, EntryBytes;
      var first, rest := EntryBytes(t[0]), TransactionBytes(t[1..]);
      assert TransactionBytes(t) == first + rest;
      if n < |first| {
        assert (first + rest)[..n] == first[..n];
        CutEntry(t[0], n, stored);
      } else {
        assert (first + rest)[..n] == first + rest[..n - |first|];
        ParseEntry(t[0], rest[..n - |first|], stored);
        CutTransaction(t[1..], n - |first|, stored + [t[0]]);
      }
    }
  }

  /** The number of transactions whose flush header lies wholly in the first `n` bytes. */
  function Flushed(ts: seq<Transaction>, n: nat): (k: nat)
    ensures k <= |ts| && |LogBytes(ts[..k])| <= n
    ensures k < |ts| ==> n < |LogBytes(ts[..k + 1])|
  {
    if ts == [] || n < |TransactionBytes(ts[0])| then
      assert ts != [] ==> ts[..1][1..] == [];
      0
    else
      var k := Flushed(ts[1..], n - |TransactionBytes(ts[0])|);
      assert ts[..k + 1][1..] == ts[1..][..k];
      assert k + 1 < |ts| ==> ts[..k + 2][1..] == ts[1..][..k + 1];
      k + 1
  }

  /** Crash atomicity: every byte prefix of a log holds exactly the transactions that were flushed in it. */
  lemma {:induction false} PrefixReplays(ts: seq<Transaction>, n: nat)
    requires LogGood(ts) && n <= |LogBytes(ts)|
    ensures Parse(LogBytes(ts)[..n], []) == ts[..Flushed(ts, n)]
  {
    if ts != [] {
      var first, rest := TransactionBytes(ts[0]), LogBytes(ts[1..]);
      if n < |first| {
        assert (first + rest)[..n] == first[..n];
        CutTransaction(ts[0], n, []);
      } else {
        assert (first + rest)[..n] == first + rest[..n - |first|];
        ParseTransaction(ts[0], rest[..n - |first|]);
        PrefixReplays(ts[1..], n - |first|);
        assert [ts[0]] + ts[1..][..Flushed(ts, n) - 1] == ts[..Flushed(ts, n)];
      }
    }
  }

  // ---------------------------------------------------------------- which logs survive

  /** The entries stored so far begin the next transaction that is read. */
  lemma {:induction false} StoredFirst(log: seq<byte>, stored: seq<Entry>)
    ensures Parse(log, stored) == [] || stored <= Parse(log, stored)[0]
    decreases |log|
  {
    hide ReadSize;
    if |log| >= HEADER && log[0] != WAL_FLUSH {
      var size := ReadSize(log[1..]);
      if TypeIsValid(log[0]) && size != 0 && size <= |log| - HEADER {
        StoredFirst(log[HEADER + size..], stored + [Entry(log[0], log[HEADER..HEADER + size])]);
      }
    }
  }

  lemma ParseIs(log: seq<byte>, stored: seq<Entry>)
    requires |log| >= HEADER
    ensures var size := ReadSize(log[1..]);
            Parse(log, stored)
            == if log[0] == WAL_FLUSH then [stored] + Parse(log[HEADER..], [])
               else if !TypeIsValid(log[0]) || size == 0 || |log| - HEADER < size then []
               else Parse(log[HEADER + size..], stored + [Entry(log[0], log[HEADER..HEADER + size])])
  {
  }

  lemma BadEntry(e: Entry, rest: seq<byte>, stored: seq<Entry>, tail: seq<Entry>)
    requires !Good(e)
    ensures var p := Parse(EntryBytes(e) + rest, stored);
            p == [] || p[0] != stored + [e] + tail
  {
    hide Size, ReadSize, EntryBytes, Parse;
    var log, size := EntryBytes(e) + rest, |e.data| % UINT32_LIMIT;
    EntryHeader(e, rest);
    ParseIs(log, stored);
    if log[0] != WAL_FLUSH && TypeIsValid(log[0]) && size != 0 && size <= |log| - HEADER {
      var read := Entry(log[0], log[HEADER..HEADER + size]);
      StoredFirst(log[HEADER + size..], stored + [read]);
      assert (stored + [read])[|stored|] != (stored + [e] + tail)[|stored|];
    }
  }

  lemma {:induction false} BadTransaction(t: Transaction, rest: seq<byte>, stored: seq<Entry>)
    requires !AllGood(t)
    ensures var p := Parse(EntriesBytes(t) + rest, stored);
            p == [] || p[0] != stored + t
  {
    var after := EntriesBytes(t[1..]) + rest;
    assert EntriesBytes(t) + rest == EntryBytes(t[0]) + after;
    assert stored + [t[0]] + t[1..] == stored + t;
    if Good(t[0]) {
      ParseEntry(t[0], after, stored);
      BadTransaction(t[1..], rest, stored + [t[0]]);
    } else {
      BadEntry(t[0], after, stored, t[1..]);
    }
  }

  /**
   A log gives its transactions back if and only if every entry has a valid
   type and between 1 and 2^32 - 1 bytes of data: an empty entry stops the
   reader, and a longer one is cut to its size modulo 2^32.
   */
  lemma {:induction false} ReplaysExactly(ts: seq<Transaction>)
    ensures Parse(LogBytes(ts), []) == ts <==> LogGood(ts)
    ensures Parse(LogBytes(ts), []) == ts
            <==> forall k, i :: 0 <= k < |ts| && 0 <= i < |ts[k]| ==> 1 <= ts[k][i].kind <= 8 && 1 <= |ts[k][i].data| < 0x1_0000_0000
  {
    LogGoodIs(ts);
    if ts != [] {
      var rest := LogBytes(ts[1..]);
      assert [ts[0]] + ts[1..] == ts;
      if AllGood(ts[0]) {
        ParseTransaction(ts[0], rest);
        ReplaysExactly(ts[1..]);
        assert LogGood(ts) <==> LogGood(ts[1..]) by {
          if LogGood(ts[1..]) {
            forall k | 0 <= k < |ts| ensures AllGood(ts[k]) {
              assert k > 0 ==> ts[k] == ts[1..][k - 1];
            }
          }
        }
      } else {
        assert TransactionBytes(ts[0]) + rest == EntriesBytes(ts[0]) + (FLUSH_BYTES + rest);
        BadTransaction(ts[0], FLUSH_BYTES + rest, []);
        assert [] + ts[0] == ts[0];
      }
    }
  }

  lemma LogGoodIs(ts: seq<Transaction>)
    ensures LogGood(ts)
            <==> forall k, i :: 0 <= k < |ts| && 0 <= i < |ts[k]| ==> 1 <= ts[k][i].kind <= 8 && 1 <= |ts[k][i].data| < 0x1_0000_0000
  {
    if LogGood(ts) {
      forall k, i | 0 <= k < |ts| && 0 <= i < |ts[k]| ensures Good(ts[k][i]) {
        assert AllGood(ts[k]);
      }
    }
  }

  // ---------------------------------------------------------------- replaying a log

  /** All entries of a transaction, unless one fails. */
  function ReplayAll<D>(db: D, t: Transaction, replay: (D, Entry) -> Option<D>): Option<D> {
    if t == [] then Some(db)
    else
      match replay(db, t[0])
      case None => None
      case Some(next) => ReplayAll(next, t[1..], replay)
  }

  /** The database after the transactions, up to the first one that fails. */
  function Recover<D>(db: D, ts: seq<Transaction>, replay: (D, Entry) -> Option<D>): D {
    if ts == [] then db
    else
      match ReplayAll(db, ts[0], replay)
      case None => db
      case Some(next) => Recover(next, ts[1..], replay)
  }

  /** The database after all of the transactions, if none fails. */
  function Applied<D>(db: D, ts: seq<Transaction>, replay: (D, Entry) -> Option<D>): Option<D> {
    if ts == [] then Some(db)
    else
      match Applied(db, ts[..|ts| - 1], replay)
      case None => None
      case Some(before) => ReplayAll(before, ts[|ts| - 1], replay)
  }

  lemma {:induction false} AppliedFirst<D>(db: D, ts: seq<Transaction>, replay: (D, Entry) -> Option<D>)
    requires ts != []
    ensures Applied(db, ts, replay) == match ReplayAll(db, ts[0], replay)
                                       case None => None
                                       case Some(next) => Applied(next, ts[1..], replay)
  {
    if |ts| == 1 {
      assert ts[..0] == [] && ts[1..] == [];
    } else {
      var init := ts[..|ts| - 1];
      AppliedFirst(db, init, replay);
      assert init[1..] == ts[1..][..|ts| - 2];
    }
  }

  /** When the transaction after the first `k` fails, exactly the first `k` remain. */
  lemma {:induction false} FailureKeepsEarlier<D>(db: D, ts: seq<Transaction>, k: nat, replay: (D, Entry) -> Option<D>)
    requires k <= |ts| && Applied(db, ts[..k], replay).Some?
    requires k == |ts| || Applied(db, ts[..k + 1], replay).None?
    ensures Recover(db, ts, replay) == Applied(db, ts[..k], replay).value
  {
    if k == 0 {
      if ts != [] {
        AppliedFirst(db, ts[..1], replay);
        assert ts[..1][1..] == [];
      }
    } else {
      AppliedFirst(db, ts[..k], replay);
      assert ts[..k][1..] == ts[1..][..k - 1];
      if k < |ts| {
        AppliedFirst(db, ts[..k + 1], replay);
        assert ts[..k + 1][1..] == ts[1..][..k];
      }
      FailureKeepsEarlier(ReplayAll(db, ts[0], replay).value, ts[1..], k - 1, replay);
    }
  }

  // ---------------------------------------------------------------- in order

  /** Applying the entries one after the other, first to last, leads through these databases. */
  ghost predicate Leads<D>(ds: seq<D>, es: seq<Entry>, replay: (D, Entry) -> Option<D>) {
    |ds| == |es| + 1 && forall i :: 0 <= i < |es| ==> replay(ds[i], es[i]) == Some(ds[i + 1])
  }

  /** After some entries of the transaction, the next one cannot be applied. */
  ghost predicate FailsAt<D>(ds: seq<D>, t: Transaction, n: nat, replay: (D, Entry) -> Option<D>) {
    n < |t| && Leads(ds, t[..n], replay) && replay(ds[n], t[n]) == None
  }

  /** A transaction whose entries lead from one database to another replays to it. */
  lemma {:induction false} ReplayLeads<D>(ds: seq<D>, t: Transaction, replay: (D, Entry) -> Option<D>)
    requires Leads(ds, t, replay)
    ensures ReplayAll(ds[0], t, replay) == Some(ds[|t|])
  {
    if t != [] {
      assert replay(ds[0], t[0]) == Some(ds[1]);
      forall i | 0 <= i < |t[1..]| ensures replay(ds[1..][i], t[1..][i]) == Some(ds[1..][i + 1]) {
        assert replay(ds[i + 1], t[i + 1]) == Some(ds[i + 2]);
      }
      ReplayLeads(ds[1..], t[1..], replay);
    }
  }

  lemma {:induction false} ReplayFails<D>(ds: seq<D>, t: Transaction, n: nat, replay: (D, Entry) -> Option<D>)
    requires FailsAt(ds, t, n, replay)
    ensures ReplayAll(ds[0], t, replay) == None
  {
    if n > 0 {
      assert t[..n][0] == t[0] && replay(ds[0], t[..n][0]) == Some(ds[1]);
      forall i | 0 <= i < n - 1 ensures replay(ds[1..][i], t[1..][..n - 1][i]) == Some(ds[1..][i + 1]) {
        assert t[..n][i + 1] == t[1..][..n - 1][i];
      }
      ReplayFails(ds[1..], t[1..], n - 1, replay);
    }
  }

  /** The databases that the entries lead through, up to the first that cannot be applied. */
  lemma {:induction false} ReplayTrace<D>(db: D, t: Transaction, replay: (D, Entry) -> Option<D>) returns (n: nat, ds: seq<D>)
    ensures n <= |t| && Leads(ds, t[..n], replay) && ds[0] == db
    ensures n == |t| || replay(ds[n], t[n]) == None
  {
    if t == [] {
      n, ds := 0, [db];
    } else {
      match replay(db, t[0])
      case None =>
        n, ds := 0, [db];
      case Some(next) =>
        var m, es := ReplayTrace(next, t[1..], replay);
        n, ds := m + 1, [db] + es;
        forall i | 0 <= i < n ensures replay(ds[i], t[..n][i]) == Some(ds[i + 1]) {
          if i > 0 {
            assert t[1..][..m][i - 1] == t[..n][i];
          }
        }
    }
  }

  ghost predicate LeadsTo<D(!new)>(from: D, t: Transaction, to: D, replay: (D, Entry) -> Option<D>) {
    exists ds :: Leads(ds, t, replay) && ds[0] == from && ds[|t|] == to
  }

  ghost predicate Fails<D(!new)>(from: D, t: Transaction, replay: (D, Entry) -> Option<D>) {
    exists n, ds :: FailsAt(ds, t, n, replay) && ds[0] == from
  }

  /** Replaying a transaction gives a database exactly if its entries lead there in order, and fails exactly if one of them fails. */
  lemma ReplayExactly<D(!new)>(db: D, t: Transaction, replay: (D, Entry) -> Option<D>)
    ensures forall d :: ReplayAll(db, t, replay) == Some(d) <==> LeadsTo(db, t, d, replay)
    ensures ReplayAll(db, t, replay) == None <==> Fails(db, t, replay)
  {
    var n, ds := ReplayTrace(db, t, replay);
    if n == |t| {
      assert t[..n] == t;
      ReplayLeads(ds, t, replay);
      assert Leads(ds, t, replay) && ds[0] == db;
    } else {
      assert FailsAt(ds, t, n, replay);
      ReplayFails(ds, t, n, replay);
    }
    forall es | Leads(es, t, replay) && es[0] == db ensures ReplayAll(db, t, replay) == Some(es[|t|]) {
      ReplayLeads(es, t, replay);
    }
    forall m, es | FailsAt(es, t, m, replay) && es[0] == db ensures ReplayAll(db, t, replay) == None {
      ReplayFails(es, t, m, replay);
    }
  }

  /**
   The first `k` transactions were replayed, each from where the one before it
   led, and the one after them, if there is one, fails there.
   */
  ghost predicate Recovered<D(!new)>(dbs: seq<D>, ts: seq<Transaction>, k: nat, replay: (D, Entry) -> Option<D>) {
    && k <= |ts| && |dbs| == k + 1
    && (forall i :: 0 <= i < k ==> LeadsTo(dbs[i], ts[i], dbs[i + 1], replay))
    && (k < |ts| ==> Fails(dbs[k], ts[k], replay))
  }

  lemma {:induction false} RecoverIs<D(!new)>(db: D, ts: seq<Transaction>, replay: (D, Entry) -> Option<D>)
    returns (k: nat, dbs: seq<D>)
    ensures Recovered(dbs, ts, k, replay) && dbs[0] == db && dbs[k] == Recover(db, ts, replay)
  {
    hide LeadsTo, Fails, ReplayAll;
    if ts == [] {
      k, dbs := 0, [db];
    } else {
      ReplayExactly(db, ts[0], replay);
      match ReplayAll(db, ts[0], replay)
      case None =>
        k, dbs := 0, [db];
      case Some(next) =>
        var j, more := RecoverIs(next, ts[1..], replay);
        k, dbs := j + 1, [db] + more;
        forall i | 0 <= i < k ensures LeadsTo(dbs[i], ts[i], dbs[i + 1], replay) {
          if i > 0 {
            assert LeadsTo(more[i - 1], ts[1..][i - 1], more[i], replay);
          }
        }
    }
  }

  /**
   Recovery after a crash: a log that was cut anywhere gives the database after the
   transactions whose flush lies before the cut, in order and each entry by entry, up to
   the first one with an entry that fails.
   */
  lemma LogRecovers<D(!new)>(initial: D, ts: seq<Transaction>, n: nat, replay: (D, Entry) -> Option<D>)
    returns (k: nat, dbs: seq<D>)
    requires LogGood(ts) && n <= |LogBytes(ts)|
    ensures Recovered(dbs, ts[..Flushed(ts, n)], k, replay) && dbs[0] == initial
    ensures dbs[k] == Recover(initial, Parse(LogBytes(ts)[..n], []), replay)
  {
    hide Recovered, Recover, Parse, LogBytes;
    PrefixReplays(ts, n);
    k, dbs := RecoverIs(initial, ts[..Flushed(ts, n)], replay);
    Shape(dbs, ts[..Flushed(ts, n)], k, replay);
  }

  lemma Shape<D(!new)>(dbs: seq<D>, ts: seq<Transaction>, k: nat, replay: (D, Entry) -> Option<D>)
    requires Recovered(dbs, ts, k, replay)
    ensures |dbs| == k + 1
  {
  }

  class Log {
    var file: seq<byte>

    constructor ()
      ensures file == []
    {
      file := [];
    }

    method WriteEntry(kind: byte, blob: seq<byte>)
      modifies this
      ensures file == old(file) + EntryBytes(Entry(kind, blob))
    {
      file := file + [kind];
      file := file + Size(|blob|);
      if |blob| != 0 {
        file := file + blob;
      }
    }

    method Flush()
      modifies this
      ensures file == old(file) + FLUSH_BYTES
    {
      file := file + [WAL_FLUSH];
      file := file + Size(0);
    }

    /** Logs a committed transaction. */
    method WriteTransaction(t: Transaction, ghost ts: seq<Transaction>)
      requires file == LogBytes(ts)
      modifies this
      ensures file == LogBytes(ts + [t])
    {
      hide Size, EntryBytes, EntriesBytes, LogBytes;
      assert EntriesBytes(t[..0]) == [] by { EntriesNone(); }
      for i := 0 to |t|
        invariant file == LogBytes(ts) + EntriesBytes(t[..i])
      {
        WriteEntry(t[i].kind, t[i].data);
        EntriesPush(t[..i], t[i]);
        assert t[..i + 1] == t[..i] + [t[i]];
      }
      assert t[..|t|] == t;
      Flush();
      LogPush(ts, t);
    }

    /**
     Replays the log on a database: the transactions that the file holds, in order,
     each entry by entry, up to the first one with an entry that fails.
     */
    method Replay<D(!new)>(initial: D, replay: (D, Entry) -> Option<D>) returns (db: D)
      ensures db == Recover(initial, Parse(file, []), replay)
      ensures exists k, dbs :: Recovered(dbs, Parse(file, []), k, replay) && dbs[0] == initial && dbs[k] == db
    {
      ghost var k, dbs := RecoverIs(initial, Parse(file, []), replay);
      hide ReadSize, Recovered;
      db := initial;
      var stored: seq<Entry> := [];
      var rest := file;
      while |rest| >= HEADER
        invariant Recover(initial, Parse(file, []), replay) == Recover(db, Parse(rest, stored), replay)
      {
        var kind, size := rest[0], ReadSize(rest[1..]);
        if kind == WAL_FLUSH {
          var current := db;
          for i := 0 to |stored|
            invariant ReplayAll(db, stored, replay) == ReplayAll(current, stored[i..], replay)
          {
            var next := replay(current, stored[i]);
            if next.None? {
              return;
            }
            current := next.value;
          }
          rest, stored, db := rest[HEADER..], [], current;
        } else {
          if !TypeIsValid(kind) {
            return;
          }
          if size == 0 || |rest| - HEADER < size {
            return;
          }
          rest, stored := rest[HEADER + size..], stored + [Entry(kind, rest[HEADER..HEADER + size])];
        }
      }
    }
  }

  lemma EntriesNone()
    ensures EntriesBytes([]) == []
  {
  }

  lemma {:induction false} EntriesPush(t: Transaction, e: Entry)
    ensures EntriesBytes(t + [e]) == EntriesBytes(t) + EntryBytes(e)
  {
    if t == [] {
      assert t + [e] == [e] && [e][1..] == [];
    } else {
      assert (t + [e])[1..] == t[1..] + [e];
      EntriesPush(t[1..], e);
    }
  }

  lemma {:induction false} LogPush(ts: seq<Transaction>, t: Transaction)
    ensures LogBytes(ts + [t]) == LogBytes(ts) + TransactionBytes(t)
  {
    if ts == [] {
      assert ts + [t] == [t] && [t][1..] == [];
    } else {
      assert (ts + [t])[1..] == ts[1..] + [t];
      LogPush(ts[1..], t);
    }
  }
}
