/** What the cache keeps over every run: index and blobs agreeing, quotas held, uploads readable. */
module CacheGuarantees {
  import opened Prelude
  import opened CacheTotals
  import opened Cache

  // ---- what every run keeps ----

  // Some content has this digest and this size.
  ghost predicate Genuine(r: Row, hash: Bytes -> nat) {
    exists content: Bytes :: hash(content) == r.digest && |content| == r.size
  }

  /** The index and the blobs agree: exactly the named digests are stored, each under its own digest. */
  ghost predicate Agrees(s: State, hash: Bytes -> nat) {
    && Distinct(s.rows)
    && (forall d :: d in s.blobs <==> Named(s.rows, d))
    && (forall d | d in s.blobs :: hash(s.blobs[d]) == d)
    && (forall r | r in s.rows :: Genuine(r, hash))
  }

  ghost predicate Fits(rows: Rows, limits: Limits) {
    && Total(rows) <= limits.storageQuota
    && forall repository :: Total(Scoped(rows, Some(repository))) <= limits.repositoryQuota
  }

  lemma {:induction false} FilterTwice(rows: Rows, p: Row -> bool, q: Row -> bool)
    ensures Filter(Filter(rows, p), q) == Filter(rows, (r: Row) => p(r) && q(r))
  {
    if rows != [] {
      FilterTwice(rows[1..], p, q);
      assert ([rows[0]] + Filter(rows[1..], p))[1..] == Filter(rows[1..], p);
    }
  }

  lemma {:induction false} FilterIsDistinct(rows: Rows, p: Row -> bool)
    requires Distinct(rows)
    ensures Distinct(Filter(rows, p))
  {
    if rows != [] {
      FilterIsDistinct(rows[1..], p);
      var rest := Filter(rows[1..], p);
      forall i | 0 <= i < |rest| ensures rest[i].id != rows[0].id && rest[i].key != rows[0].key {
        assert rest[i] in rows[1..];
      }
    }
  }

  /** Taking rows away raises no total. */
  lemma FewerRowsStillFit(rows: Rows, p: Row -> bool, scope: Option<string>)
    ensures Total(Scoped(Filter(rows, p), scope)) <= Total(Scoped(rows, scope))
  {
    FilterTwice(rows, p, (r: Row) => InScope(r, scope));
    TotalIsMonotone(rows, (r: Row) => p(r) && ((r: Row) => InScope(r, scope))(r), (r: Row) => InScope(r, scope));
  }

  lemma EveryRowIsInNoScope(rows: Rows)
    ensures Scoped(rows, None) == rows
  {
    FilterAll(rows, (r: Row) => InScope(r, None));
  }

  lemma FilteredRowsFit(rows: Rows, p: Row -> bool, limits: Limits)
    requires Fits(rows, limits)
    ensures Fits(Filter(rows, p), limits)
  {
    EveryRowIsInNoScope(rows);
    EveryRowIsInNoScope(Filter(rows, p));
    FewerRowsStillFit(rows, p, None);
    forall repository { FewerRowsStillFit(rows, p, Some(repository)); }
  }

  lemma {:induction false} CostsIgnoreUse(a: Rows, b: Rows, scope: Option<string>, d: nat)
    requires |a| == |b|
    requires forall i | 0 <= i < |a| :: a[i].key == b[i].key && a[i].digest == b[i].digest && a[i].size == b[i].size
    ensures SizeOf(Scoped(a, scope), d) == SizeOf(Scoped(b, scope), d)
    ensures Total(Scoped(a, scope)) == Total(Scoped(b, scope))
  {
    if a != [] {
      CostsIgnoreUse(a[1..], b[1..], scope, d);
      if InScope(a[0], scope) {
        CostsIgnoreUse(a[1..], b[1..], scope, a[0].digest);
        assert ([a[0]] + Scoped(a[1..], scope))[1..] == Scoped(a[1..], scope);
        assert ([b[0]] + Scoped(b[1..], scope))[1..] == Scoped(b[1..], scope);
      }
    }
  }

  lemma TouchedRowsFit(rows: Rows, key: Key, now: real, limits: Limits)
    requires Fits(rows, limits)
    ensures Fits(Touched(rows, key, now), limits)
  {
    EveryRowIsInNoScope(rows);
    EveryRowIsInNoScope(Touched(rows, key, now));
    CostsIgnoreUse(rows, Touched(rows, key, now), None, 0);
    forall repository { CostsIgnoreUse(rows, Touched(rows, key, now), Some(repository), 0); }
  }

  lemma SweptAgrees(s: State, rows: Rows, hash: Bytes -> nat)
    requires Distinct(rows) && (forall r | r in rows :: Genuine(r, hash))
    requires forall d | Named(rows, d) :: d in s.blobs
    requires forall d | d in s.blobs :: hash(s.blobs[d]) == d
    ensures Agrees(s.(rows := rows, blobs := Collected(s.blobs, rows)), hash)
  {
  }

  lemma NamedInFewer(rows: Rows, few: Rows, d: nat)
    requires Named(few, d) && forall r | r in few :: r in rows
    ensures Named(rows, d)
  {
    var i :| 0 <= i < |few| && few[i].digest == d;
    assert few[i] in rows;
  }

  lemma ExpiryAgrees(s: State, limits: Limits, hash: Bytes -> nat, now: real)
    requires Agrees(s, hash)
    ensures var rows := Expired(s.rows, limits, now);
            Agrees(s.(rows := rows, blobs := Collected(s.blobs, rows)), hash)
  {
    var rows := Expired(s.rows, limits, now);
    FilterIsDistinct(s.rows, (r: Row) => r.accessed >= now - limits.ttl as real);
    forall d | Named(rows, d) { NamedInFewer(s.rows, rows, d); }
    SweptAgrees(s, rows, hash);
  }

  lemma TouchedNames(rows: Rows, key: Key, now: real)
    requires Distinct(rows)
    ensures Distinct(Touched(rows, key, now))
    ensures forall d :: Named(Touched(rows, key, now), d) <==> Named(rows, d)
  {
    var touched := Touched(rows, key, now);
    forall d ensures Named(touched, d) <==> Named(rows, d) {
      if Named(rows, d) {
        var i :| 0 <= i < |rows| && rows[i].digest == d;
        assert touched[i].digest == d;
      }
    }
  }

  /** A lookup leaves index and blobs agreeing, and its answer's blob is there. */
  lemma LookupsAgree(s: State, limits: Limits, hash: Bytes -> nat, key: Key, prefixes: seq<string>, now: real)
    requires Agrees(s, hash)
    ensures Agrees(Looked(s, limits, key, prefixes, now).1, hash)
    ensures Looked(s, limits, key, prefixes, now).0
            == match Answer(Expired(s.rows, limits, now), key, prefixes) {
               case None => None
               case Some(row) => Some(EntryOf(row))
             }
  {
    ExpiryAgrees(s, limits, hash, now);
    var rows := Expired(s.rows, limits, now);
    match Answer(rows, key, prefixes)
    case None =>
    case Some(row) =>
      assert Named(rows, row.digest) by { var i :| 0 <= i < |rows| && rows[i] == row; }
      TouchedNames(rows, row.key, now);
      TouchedRowsAreGenuine(rows, row.key, now, hash);
  }

  lemma TouchedRowsAreGenuine(rows: Rows, key: Key, now: real, hash: Bytes -> nat)
    requires forall r | r in rows :: Genuine(r, hash)
    ensures forall r | r in Touched(rows, key, now) :: Genuine(r, hash)
  {
    var touched := Touched(rows, key, now);
    forall r | r in touched ensures Genuine(r, hash) {
      var i :| 0 <= i < |touched| && touched[i] == r;
      assert Genuine(rows[i], hash);
    }
  }

  lemma EnforcedIsFiltered(rows: Rows, limits: Limits, repository: string) returns (p: Row -> bool, q: Row -> bool)
    requires Distinct(rows)
    ensures Enforced(rows, limits, repository) == Filter(Filter(rows, p), q)
    ensures Filter(rows, p) == Evict(rows, Some(repository), limits.repositoryQuota)
    ensures Distinct(Filter(rows, p)) && Distinct(Enforced(rows, limits, repository))
  {
    p := (r: Row) => Stays(rows, r, Some(repository), limits.repositoryQuota);
    EvictionKeepsWhatFits(rows, Some(repository), limits.repositoryQuota);
    var first := Filter(rows, p);
    FilterIsDistinct(rows, p);
    q := (r: Row) => Stays(first, r, None, limits.storageQuota);
    EvictionKeepsWhatFits(first, None, limits.storageQuota);
    FilterIsDistinct(first, q);
  }

  lemma {:induction false} FilterOfConcat(a: Rows, b: Rows, p: Row -> bool)
    ensures Filter(a + b, p) == Filter(a, p) + Filter(b, p)
  {
    if a == [] {
      assert a + b == b;
    } else {
      assert (a + b)[1..] == a[1..] + b;
      FilterOfConcat(a[1..], b, p);
    }
  }

  /** Another repository's rows are no dearer for an upload to this one. */
  lemma AnUploadConcernsItsRepository(rows: Rows, row: Row, repository: string)
    requires row.key.repository != repository
    ensures Scoped(rows + [row], Some(repository)) == Scoped(rows, Some(repository))
  {
    FilterOfConcat(rows, [row], (r: Row) => InScope(r, Some(repository)));
  }

  /** Once the quotas are enforced for the repository written to, all of them hold. */
  lemma EnforcedRowsFit(rows: Rows, row: Row, limits: Limits)
    requires Fits(rows, limits) && Distinct(rows + [row])
    ensures Fits(Enforced(rows + [row], limits, row.key.repository), limits)
  {
    var all, own := rows + [row], row.key.repository;
    var p, q := EnforcedIsFiltered(all, limits, own);
    var first := Filter(all, p);
    var kept := Filter(first, q);
    EvictionFits(first, None, limits.storageQuota);
    EveryRowIsInNoScope(kept);
    forall repository ensures Total(Scoped(kept, Some(repository))) <= limits.repositoryQuota {
      FewerRowsStillFit(first, q, Some(repository));
      if repository == own {
        EvictionFits(all, Some(own), limits.repositoryQuota);
      } else {
        FewerRowsStillFit(all, p, Some(repository));
        AnUploadConcernsItsRepository(rows, row, repository);
      }
    }
  }

  lemma WithOneMoreIsDistinct(rows: Rows, row: Row)
    requires Distinct(rows) && forall r | r in rows :: r.id < row.id && r.key != row.key
    ensures Distinct(rows + [row])
  {
  }

  lemma NothingExpiresTwice(rows: Rows, row: Row, limits: Limits, now: real)
    requires row.accessed == now
    ensures Expired(Expired(rows, limits, now) + [row], limits, now) == Expired(rows, limits, now) + [row]
  {
    FilterAll(Expired(rows, limits, now) + [row], (r: Row) => r.accessed >= now - limits.ttl as real);
  }

  lemma {:induction false} UnexpiredRowsAreAll(rows: Rows, p: Row -> bool)
    requires |Filter(rows, p)| == |rows|
    ensures Filter(rows, p) == rows
  {
    if rows != [] { UnexpiredRowsAreAll(rows[1..], p); }
  }

  /** What is there once the spent entries are gone, swept or not, agrees and fits. */
  lemma AnUploadStartsSound(s: State, limits: Limits, hash: Bytes -> nat, now: real)
    requires Agrees(s, hash) && Fits(s.rows, limits)
    ensures
      var rows := Expired(s.rows, limits, now);
      var blobs := if |rows| < |s.rows| then Collected(s.blobs, rows) else s.blobs;
      Agrees(s.(rows := rows, blobs := blobs), hash) && Fits(rows, limits)
  {
    var p := (r: Row) => r.accessed >= now - limits.ttl as real;
    FilteredRowsFit(s.rows, p, limits);
    ExpiryAgrees(s, limits, hash, now);
    if |Filter(s.rows, p)| == |s.rows| { UnexpiredRowsAreAll(s.rows, p); }
  }

  lemma ARowNamesItsDigest(rows: Rows, row: Row)
    requires row in rows
    ensures Named(rows, row.digest)
  {
    var i :| 0 <= i < |rows| && rows[i] == row;
  }

  lemma KeptRowsAgree(s: State, hash: Bytes -> nat, row: Row, content: Bytes, kept: Rows)
    requires Agrees(s, hash) && Distinct(kept) && forall r | r in kept :: r in s.rows || r == row
    requires row.digest == hash(content) && row.size == |content|
    ensures Agrees(s.(rows := kept, blobs := Collected(WithBlob(s.blobs, row.digest, content), kept)), hash)
  {
    var written := WithBlob(s.blobs, row.digest, content);
    assert Genuine(row, hash);
    hide Genuine;
    forall d | Named(kept, d) ensures d in written {
      var i :| 0 <= i < |kept| && kept[i].digest == d;
      if kept[i] in s.rows { ARowNamesItsDigest(s.rows, kept[i]); }
    }
    hide Distinct;
    SweptAgrees(s.(blobs := written), kept, hash);
  }

  lemma InsertedRows(s: State, limits: Limits, row: Row, content: Bytes)
    requires Distinct(s.rows + [row]) && Expired(s.rows + [row], limits, row.accessed) == s.rows + [row]
    ensures Distinct(Inserted(s, limits, row, content).rows)
    ensures forall r | r in Inserted(s, limits, row, content).rows :: r in s.rows || r == row
  {
    var p, q := EnforcedIsFiltered(s.rows + [row], limits, row.key.repository);
  }

  lemma AnInsertionAgrees(s: State, limits: Limits, hash: Bytes -> nat, row: Row, content: Bytes)
    requires Agrees(s, hash) && Distinct(s.rows + [row])
    requires row.digest == hash(content) && row.size == |content|
    requires Expired(s.rows + [row], limits, row.accessed) == s.rows + [row]
    ensures Agrees(Inserted(s, limits, row, content), hash)
  {
    InsertedRows(s, limits, row, content);
    KeptRowsAgree(s, hash, row, content, Inserted(s, limits, row, content).rows);
    hide Distinct, Expired, Enforced, Collected, Named, Genuine;
  }

  lemma AnInsertionIsSound(s: State, limits: Limits, hash: Bytes -> nat, row: Row, content: Bytes)
    requires Agrees(s, hash) && Fits(s.rows, limits) && (forall r | r in s.rows :: r.id < row.id && r.key != row.key)
    requires row.digest == hash(content) && row.size == |content|
    requires Expired(s.rows + [row], limits, row.accessed) == s.rows + [row]
    ensures Agrees(Inserted(s, limits, row, content), hash) && Fits(Inserted(s, limits, row, content).rows, limits)
  {
    WithOneMoreIsDistinct(s.rows, row);
    EnforcedRowsFit(s.rows, row, limits);
    AnInsertionAgrees(s, limits, hash, row, content);
  }

  /** The state an upload leaves agrees and fits, whether or not it made an entry. */
  lemma UploadsAgree(s: State, limits: Limits, hash: Bytes -> nat, key: Key, source: Bytes, length: int, now: real)
    requires Agrees(s, hash) && Fits(s.rows, limits)
    ensures
      match Put(s, limits, hash, key, source, length, now)
      case Err(_) => true
      case Ok(stored) => Agrees(stored.state, hash) && Fits(stored.state.rows, limits)
  {
    hide Agrees, Fits, Inserted, Collected, Expired;
    AnUploadStartsSound(s, limits, hash, now);
    if Put(s, limits, hash, key, source, length, now).Ok? {
      var rows := Expired(s.rows, limits, now);
      var blobs := if |rows| < |s.rows| then Collected(s.blobs, rows) else s.blobs;
      if Find(rows, key).None? {
        var row := Row(FreshId(rows), key, hash(source[..length]), length, now, now);
        NothingExpiresTwice(s.rows, row, limits, now);
        AnInsertionIsSound(s.(rows := rows, blobs := blobs), limits, hash, row, source[..length]);
      }
    }
  }

  lemma LookupsFit(s: State, limits: Limits, hash: Bytes -> nat, key: Key, prefixes: seq<string>, now: real)
    requires Fits(s.rows, limits)
    ensures Fits(Looked(s, limits, key, prefixes, now).1.rows, limits)
  {
    var rows := Expired(s.rows, limits, now);
    FilteredRowsFit(s.rows, (r: Row) => r.accessed >= now - limits.ttl as real, limits);
    match Answer(rows, key, prefixes)
    case None =>
    case Some(row) =>
      TouchedRowsFit(rows, row.key, now, limits);
      FilteredRowsFit(Touched(rows, row.key, now), (r: Row) => r.key != row.key, limits);
  }

  /**
   * From an empty store, whatever is looked up and uploaded: the blobs are exactly those the index
   * names, each under its own digest; the store and every repository are within their quotas; and
   * hits and misses add up to the lookups made.
   */
  lemma {:induction false} EveryRunKeepsTheStoreSound(s: State, limits: Limits, hash: Bytes -> nat, events: seq<Event>)
    requires Agrees(s, hash) && Fits(s.rows, limits)
    ensures
      var t := Run(s, limits, hash, events);
      && Agrees(t, hash) && Fits(t.rows, limits)
      && t.hits + t.misses == s.hits + s.misses + Lookups(events)
    decreases |events|
  {
    hide Agrees, Fits, Collected, Expired, Answer;
    if events != [] {
      match events[0]
      {
        case Look(key, prefixes, now) =>
          LookupsAgree(s, limits, hash, key, prefixes, now);
          LookupsFit(s, limits, hash, key, prefixes, now);
        case Upload(key, source, length, now) =>
          UploadsAgree(s, limits, hash, key, source, length, now);
      }
      EveryRunKeepsTheStoreSound(Next(s, limits, hash, events[0]), limits, hash, events[1..]);
    }
  }

  lemma TheEmptyStoreIsSound(limits: Limits, hash: Bytes -> nat)
    ensures Agrees(EMPTY, hash) && Fits(EMPTY.rows, limits)
  {
  }

  // ---- what the counters of writes cover ----

  ghost predicate Covered(s: State) {
    |s.rows| <= s.writes && Total(s.rows) <= s.bytesWritten
  }

  lemma {:induction false} OneMoreRowCosts(rows: Rows, row: Row, d: nat)
    ensures SizeOf(rows, d) <= SizeOf(rows + [row], d)
    ensures Total(rows + [row]) <= Total(rows) + row.size
  {
    if rows == [] {
      assert rows + [row] == [row];
    } else {
      assert (rows + [row])[1..] == rows[1..] + [row];
      OneMoreRowCosts(rows[1..], row, d);
      OneMoreRowCosts(rows[1..], row, rows[0].digest);
    }
  }

  lemma FewerRowsCostLess(rows: Rows, p: Row -> bool)
    ensures |Filter(rows, p)| <= |rows| && Total(Filter(rows, p)) <= Total(rows)
  {
    FilterAll(rows, (r: Row) => true);
    TotalIsMonotone(rows, p, (r: Row) => true);
  }

  lemma AnInsertionIsCovered(s: State, limits: Limits, row: Row, content: Bytes)
    requires Covered(s) && Distinct(s.rows + [row])
    requires Expired(s.rows + [row], limits, row.accessed) == s.rows + [row]
    ensures Covered(Inserted(s, limits, row, content))
  {
    var all := s.rows + [row];
    var p, q := EnforcedIsFiltered(all, limits, row.key.repository);
    OneMoreRowCosts(s.rows, row, 0);
    FewerRowsCostLess(all, p);
    FewerRowsCostLess(Filter(all, p), q);
    hide Expired, Enforced, Total;
  }

  lemma ExpiryIsCovered(s: State, limits: Limits, now: real)
    requires Covered(s)
    ensures var rows := Expired(s.rows, limits, now); |rows| <= s.writes && Total(rows) <= s.bytesWritten
  {
    FewerRowsCostLess(s.rows, (r: Row) => r.accessed >= now - limits.ttl as real);
  }

  lemma LookupsWriteNothing(s: State, limits: Limits, key: Key, prefixes: seq<string>, now: real)
    ensures Looked(s, limits, key, prefixes, now).1.writes == s.writes
    ensures Looked(s, limits, key, prefixes, now).1.bytesWritten == s.bytesWritten
  {
  }

  lemma ALookupIsCovered(s: State, limits: Limits, hash: Bytes -> nat, key: Key, prefixes: seq<string>, now: real)
    requires Agrees(s, hash) && Covered(s)
    ensures Covered(Looked(s, limits, key, prefixes, now).1)
  {
    LookedIsLive(s, limits, hash, key, prefixes, now);
    LookupsWriteNothing(s, limits, key, prefixes, now);
    ExpiryIsCovered(s, limits, now);
    hide Agrees, Expired, Total, Answer, Looked, IsAnswer, Touched;
    var rows := Expired(s.rows, limits, now);
    var found := Looked(s, limits, key, prefixes, now).0;
    if found.Some? { TouchingCostsNothing(rows, found.value.key, now); }
  }

  lemma TouchingCostsNothing(rows: Rows, key: Key, now: real)
    ensures Total(Touched(rows, key, now)) == Total(rows)
    ensures |Touched(rows, key, now)| == |rows|
  {
    var touched := Touched(rows, key, now);
    EveryRowIsInNoScope(rows);
    EveryRowIsInNoScope(touched);
    CostsIgnoreUse(rows, touched, None, 0);
  }

  lemma AnUploadIsCovered(s: State, limits: Limits, hash: Bytes -> nat, key: Key, source: Bytes, length: int, now: real)
    requires Agrees(s, hash) && Covered(s)
    requires Put(s, limits, hash, key, source, length, now).Ok?
    ensures Covered(Put(s, limits, hash, key, source, length, now).value.state)
  {
    ExpiryIsCovered(s, limits, now);
    UnexpiredRows(s, limits, hash, key, now);
    hide Agrees, Expired, Total, Collected, Inserted;
    var rows := Expired(s.rows, limits, now);
    if Find(rows, key).None? {
      var row := Row(FreshId(rows), key, hash(source[..length]), length, now, now);
      NothingExpiresTwice(s.rows, row, limits, now);
      WithOneMoreIsDistinct(rows, row);
      var blobs := if |rows| < |s.rows| then Collected(s.blobs, rows) else s.blobs;
      AnInsertionIsCovered(s.(rows := rows, blobs := blobs), limits, row, source[..length]);
    }
  }

  lemma AStepIsCovered(s: State, limits: Limits, hash: Bytes -> nat, e: Event)
    requires Agrees(s, hash) && Covered(s)
    ensures Covered(Next(s, limits, hash, e))
  {
    hide Agrees, Covered, Looked, Put;
    match e
    case Look(key, prefixes, now) => ALookupIsCovered(s, limits, hash, key, prefixes, now);
    case Upload(key, source, length, now) =>
      if Put(s, limits, hash, key, source, length, now).Ok? {
        AnUploadIsCovered(s, limits, hash, key, source, length, now);
      }
  }

  /** However much was evicted or shared, what is stored never exceeds what was written. */
  lemma {:induction false} EverythingStoredWasWritten(s: State, limits: Limits, hash: Bytes -> nat, events: seq<Event>)
    requires Agrees(s, hash) && Fits(s.rows, limits) && Covered(s)
    ensures Covered(Run(s, limits, hash, events))
    decreases |events|
  {
    hide Agrees, Fits, Covered, Next;
    if events != [] {
      AStepIsCovered(s, limits, hash, events[0]);
      EveryRunKeepsTheStoreSound(s, limits, hash, [events[0]]);
      assert Run(s, limits, hash, [events[0]]) == Run(Next(s, limits, hash, events[0]), limits, hash, []);
      EverythingStoredWasWritten(Next(s, limits, hash, events[0]), limits, hash, events[1..]);
    }
  }

  // ---- what the quota means on disk ----

  ghost predicate CollisionFree(hash: Bytes -> nat) {
    forall a, b | hash(a) == hash(b) :: a == b
  }

  /** The bytes of the blobs with a digest below `n`. */
  ghost function DiskUse(blobs: map<nat, Bytes>, n: nat): nat {
    if n == 0 then 0 else DiskUse(blobs, n - 1) + if n - 1 in blobs then |blobs[n - 1]| else 0
  }

  lemma {:induction false} AllSizesAgree(rows: Rows, d: nat, size: nat)
    requires forall r | r in rows :: r.digest == d ==> r.size == size
    ensures SizeOf(rows, d) == if Named(rows, d) then size else 0
  {
    if rows != [] {
      AllSizesAgree(rows[1..], d, size);
      if Named(rows, d) && rows[0].digest != d {
        var i :| 0 <= i < |rows| && rows[i].digest == d;
        assert rows[1..][i - 1].digest == d;
      }
      if Named(rows[1..], d) {
        var i :| 0 <= i < |rows[1..]| && rows[1..][i].digest == d;
        assert rows[i + 1].digest == d;
      }
      assert rows[0] in rows;
    }
  }

  lemma {:induction false} SumIsDiskUse(s: State, hash: Bytes -> nat, n: nat)
    requires Agrees(s, hash) && CollisionFree(hash)
    ensures SumBelow(s.rows, n) == DiskUse(s.blobs, n)
  {
    if n > 0 {
      SumIsDiskUse(s, hash, n - 1);
      var d := n - 1;
      if d in s.blobs {
        forall r | r in s.rows && r.digest == d ensures r.size == |s.blobs[d]| { assert Genuine(r, hash); }
        AllSizesAgree(s.rows, d, |s.blobs[d]|);
      } else {
        assert !Named(s.rows, d);
        forall r | r in s.rows ensures r.digest != d {
          ARowNamesItsDigest(s.rows, r);
        }
        AllSizesAgree(s.rows, d, 0);
      }
    }
  }

  /** The total the quota is held against is what the blobs take up, and so are they within it. */
  lemma TheQuotaBoundsTheDisk(s: State, limits: Limits, hash: Bytes -> nat, n: nat)
    requires Agrees(s, hash) && Fits(s.rows, limits) && CollisionFree(hash)
    requires DigestsBelow(s.rows, n)
    ensures DiskUse(s.blobs, n) == Total(s.rows) <= limits.storageQuota
    ensures forall d | d in s.blobs :: d < n
  {
    SumIsDiskUse(s, hash, n);
    TotalCountsEachDigestOnce(s.rows, n);
  }

  // ---- reading back ----

  // What can be read straight after an upload, under the entry it reported.
  ghost predicate ReadsBack(stored: Stored, limits: Limits, hash: Bytes -> nat, key: Key, content: Bytes, now: real) {
    var entry := stored.entry;
    var read := OpenBlob(stored.state, limits, entry.digest, key, now);
    && entry.key == key
    && (stored.created ==> entry.size == |content| && entry.digest == hash(content))
    && (read.Some? ==> hash(read.value) == entry.digest && |read.value| == entry.size)
    && (read.Some? && stored.created ==> read.value == content)
    && (read.None? <==> Find(stored.state.rows, key).None?)
    && (read.None? ==> stored.created)
  }

  lemma AnExistingEntryReadsBack(s: State, limits: Limits, hash: Bytes -> nat, row: Row, content: Bytes, now: real)
    requires Agrees(s, hash) && CollisionFree(hash)
    requires Find(s.rows, row.key) == Some(row) && row.accessed >= now - limits.ttl as real
    ensures ReadsBack(Stored(EntryOf(row), false, s), limits, hash, row.key, content, now)
  {
    assert Genuine(row, hash);
    ARowNamesItsDigest(s.rows, row);
    var i :| 0 <= i < |s.rows| && s.rows[i] == row;
  }

  lemma ANewEntryReadsBack(s: State, limits: Limits, hash: Bytes -> nat, row: Row, content: Bytes, now: real)
    requires Agrees(s, hash) && CollisionFree(hash)
    requires forall r | r in s.rows && r.key == row.key :: r == row
    requires row.digest == hash(content) && row.size == |content| && row.accessed == now
    ensures ReadsBack(Stored(EntryOf(row), true, s), limits, hash, row.key, content, now)
  {
    if i: nat :| i < |s.rows| && s.rows[i].key == row.key {
      assert s.rows[i] == row;
      assert Named(s.rows, row.digest);
    }
  }

  /**
   * An upload reads back straight away: the very bytes if it made the entry, the bytes already
   * there if it did not. Only an entry it made can be missing, and then it was evicted at once.
   */
  lemma AnUploadReadsBack(s: State, limits: Limits, hash: Bytes -> nat, key: Key, source: Bytes, length: int, now: real)
    requires Agrees(s, hash) && Fits(s.rows, limits) && CollisionFree(hash)
    requires Put(s, limits, hash, key, source, length, now).Ok?
    ensures 0 <= length <= |source|
    ensures ReadsBack(Put(s, limits, hash, key, source, length, now).value, limits, hash, key, source[..length], now)
  {
    UploadsAgree(s, limits, hash, key, source, length, now);
    UnexpiredRows(s, limits, hash, key, now);
    var rows := Expired(s.rows, limits, now);
    var blobs := if |rows| < |s.rows| then Collected(s.blobs, rows) else s.blobs;
    var swept := s.(rows := rows, blobs := blobs);
    var content := source[..length];
    hide Expired, Agrees, Fits, Inserted, Collected, CollisionFree, ReadsBack;
    if Find(rows, key).Some? {
      AnExistingEntryReadsBack(swept, limits, hash, Find(rows, key).value, content, now);
    } else {
      var row := Row(FreshId(rows), key, hash(content), length, now, now);
      NothingExpiresTwice(s.rows, row, limits, now);
      WithOneMoreIsDistinct(rows, row);
      InsertedRows(swept, limits, row, content);
      ANewEntryReadsBack(Inserted(swept, limits, row, content), limits, hash, row, content, now);
    }
  }

  lemma UnexpiredRows(s: State, limits: Limits, hash: Bytes -> nat, key: Key, now: real)
    requires Agrees(s, hash)
    ensures
      var rows := Expired(s.rows, limits, now);
      && Distinct(rows)
      && (Find(rows, key).Some? ==> Find(rows, key).value.accessed >= now - limits.ttl as real)
  {
    FilterIsDistinct(s.rows, (r: Row) => r.accessed >= now - limits.ttl as real);
  }

  /** A row a prefix asks for: of the key's repository, branch and architecture, with a name that starts with it. */
  ghost predicate AskedFor(r: Row, key: Key, prefix: string) {
    && r.key.repository == key.repository && r.key.branch == key.branch && r.key.architecture == key.architecture
    && |prefix| <= |r.key.name| && r.key.name[..|prefix|] == prefix
  }

  /** Used later, or at the same instant and named first. */
  ghost predicate Better(r: Row, s: Row) {
    s.accessed < r.accessed || (s.accessed == r.accessed && ComesBefore(r.key.name, s.key.name))
  }

  lemma WhatIsAskedFor(r: Row, s: Row, key: Key, prefix: string)
    ensures Matches(r, key, prefix) <==> AskedFor(r, key, prefix)
    ensures Preferred(r, s) <==> Better(r, s)
  {
    TextOrderIsByTheFirstDifference(r.key.name, s.key.name);
    hide Precedes, ComesBefore;
  }

  // The row prefix `i` answers with: no earlier prefix matches, and of those it matches, the preferred one.
  ghost predicate MatchedBy(rows: Rows, key: Key, prefixes: seq<string>, row: Row, i: nat)
    requires i < |prefixes|
  {
    && row in rows && AskedFor(row, key, prefixes[i])
    && (forall j, r | 0 <= j < i && r in rows :: !AskedFor(r, key, prefixes[j]))
    && (forall r | r in rows && AskedFor(r, key, prefixes[i]) && r != row :: Better(row, r))
  }

  /** What a lookup should answer with: the exact key, or the row a first matching prefix prefers. */
  ghost predicate IsAnswer(rows: Rows, key: Key, prefixes: seq<string>, answer: Option<Row>) {
    match answer
    case Some(row) =>
      || (row in rows && row.key == key)
      || ((forall r | r in rows :: r.key != key)
          && exists i | 0 <= i < |prefixes| :: MatchedBy(rows, key, prefixes, row, i))
    case None => forall r | r in rows :: r.key != key && forall p | p in prefixes :: !AskedFor(r, key, p)
  }

  lemma PreferenceIsTransitive(r: Row, s: Row, t: Row)
    requires Preferred(r, s) && Preferred(s, t)
    ensures Preferred(r, t)
  {
    if Precedes(r.key.name, s.key.name) && Precedes(s.key.name, t.key.name) {
      TextOrderIsTransitive(r.key.name, s.key.name, t.key.name);
    }
  }

  lemma {:induction false} TheLatestIsPreferred(rows: Rows, key: Key, prefix: string, r: Row)
    requires Distinct(rows) && r in rows && Matches(r, key, prefix)
    ensures Latest(rows, key, prefix).Some?
    ensures var found := Latest(rows, key, prefix).value; found == r || Preferred(found, r)
  {
    var found, rest := Latest(rows, key, prefix), Latest(rows[1..], key, prefix);
    if r in rows[1..] {
      TheLatestIsPreferred(rows[1..], key, prefix, r);
      if found.value != rest.value {
        AKeyIsTakenOnce(rows, rest.value);
        TextsAreOrdered(rows[0].key.name, rest.value.key.name);
        if rest.value != r { PreferenceIsTransitive(found.value, rest.value, r); }
      }
    }
  }

  lemma AKeyIsTakenOnce(rows: Rows, r: Row)
    requires Distinct(rows) && rows != [] && r in rows[1..]
    ensures r.key != rows[0].key
  {
    var i :| 0 <= i < |rows[1..]| && rows[1..][i] == r;
    assert rows[i + 1] == r;
  }

  lemma {:induction false} TheFirstMatchIsPreferred(rows: Rows, key: Key, prefixes: seq<string>)
    requires Distinct(rows)
    ensures
      var answer := FirstMatch(rows, key, prefixes);
      if answer.None? then forall p, r | p in prefixes && r in rows :: !AskedFor(r, key, p)
      else exists i | 0 <= i < |prefixes| :: MatchedBy(rows, key, prefixes, answer.value, i)
  {
    forall r, p { WhatIsAskedFor(r, r, key, p); }
    hide Matches, AskedFor, Preferred, Better;
    if prefixes != [] {
      TheFirstMatchIsPreferred(rows, key, prefixes[1..]);
      var answer := FirstMatch(rows, key, prefixes);
      if Latest(rows, key, prefixes[0]).Some? {
        forall r | r in rows && AskedFor(r, key, prefixes[0]) && r != answer.value ensures Better(answer.value, r) {
          TheLatestIsPreferred(rows, key, prefixes[0], r);
          WhatIsAskedFor(answer.value, r, key, prefixes[0]);
        }
        assert MatchedBy(rows, key, prefixes, answer.value, 0);
      } else if answer.Some? {
        var i :| 0 <= i < |prefixes[1..]| && MatchedBy(rows, key, prefixes[1..], answer.value, i);
        assert MatchedBy(rows, key, prefixes, answer.value, i + 1);
      }
    }
  }

  /**
   * A lookup answers with the row its key and prefixes ask for, among those used within the time to
   * live, in their order. It leaves those rows, and the answer's was used now.
   */
  lemma ALookupAnswersWhatWasAsked(s: State, limits: Limits, hash: Bytes -> nat, key: Key, prefixes: seq<string>,
                                   now: real)
    requires Agrees(s, hash)
    ensures
      var live := Filter(s.rows, (r: Row) => r.accessed >= now - limits.ttl as real);
      var (found, t) := Looked(s, limits, key, prefixes, now);
      exists answer ::
        && IsAnswer(live, key, prefixes, answer)
        && (found.Some? <==> answer.Some?)
        && (found.Some? ==>
              && found.value == Entry(answer.value.key, answer.value.digest, answer.value.size, answer.value.created)
              && found.value.digest in t.blobs)
        && |t.rows| == |live|
        && forall i | 0 <= i < |live| ::
             t.rows[i] == if answer == Some(live[i]) then live[i].(accessed := now) else live[i]
  {
    var live := Filter(s.rows, (r: Row) => r.accessed >= now - limits.ttl as real);
    assert live == Expired(s.rows, limits, now);
    FilterIsDistinct(s.rows, (r: Row) => r.accessed >= now - limits.ttl as real);
    var answer := Answer(live, key, prefixes);
    hide *;
    AnAnswerIsRight(live, key, prefixes);
    AnAnswerIsReported(s, limits, hash, key, prefixes, now, live);
    LookedRows(s, limits, key, prefixes, now, live, answer);
    var (found, t) := Looked(s, limits, key, prefixes, now);
    assert IsAnswer(live, key, prefixes, answer);
  }

  lemma AnAnswerIsRight(live: Rows, key: Key, prefixes: seq<string>)
    requires Distinct(live)
    ensures IsAnswer(live, key, prefixes, Answer(live, key, prefixes))
  {
    TheFirstMatchIsPreferred(live, key, prefixes);
    hide MatchedBy, AskedFor;
  }

  lemma AnAnswerIsReported(s: State, limits: Limits, hash: Bytes -> nat, key: Key, prefixes: seq<string>, now: real,
                           live: Rows)
    requires Agrees(s, hash) && live == Expired(s.rows, limits, now)
    ensures
      var (found, t) := Looked(s, limits, key, prefixes, now);
      var answer := Answer(live, key, prefixes);
      && (found.Some? <==> answer.Some?)
      && (answer.Some? ==>
            && found == Some(Entry(answer.value.key, answer.value.digest, answer.value.size, answer.value.created))
            && found.value.digest in t.blobs && answer.value.digest in Collected(s.blobs, live))
  {
    LookupsAgree(s, limits, hash, key, prefixes, now);
    ExpiryAgrees(s, limits, hash, now);
    hide Expired, Answer, Find, FirstMatch;
    var answer := Answer(live, key, prefixes);
    if answer.Some? { ARowNamesItsDigest(live, answer.value); }
    hide Agrees;
  }

  lemma LookedRows(s: State, limits: Limits, key: Key, prefixes: seq<string>, now: real, live: Rows,
                   answer: Option<Row>)
    requires live == Expired(s.rows, limits, now) && Distinct(live) && answer == Answer(live, key, prefixes)
    requires answer.Some? ==> answer.value.digest in Collected(s.blobs, live)
    ensures
      var (found, t) := Looked(s, limits, key, prefixes, now);
      && |t.rows| == |live|
      && forall i | 0 <= i < |live| ::
           t.rows[i] == if answer == Some(live[i]) then live[i].(accessed := now) else live[i]
  {
    hide Answer, Expired, Filter;
    if answer.Some? {
      var k :| 0 <= k < |live| && live[k] == answer.value;
    }
  }

  lemma LookedIsLive(s: State, limits: Limits, hash: Bytes -> nat, key: Key, prefixes: seq<string>, now: real)
    requires Agrees(s, hash)
    ensures
      var live := Expired(s.rows, limits, now);
      var (found, t) := Looked(s, limits, key, prefixes, now);
      t.rows == (if found.Some? then Touched(live, found.value.key, now) else live)
  {
    LookupsAgree(s, limits, hash, key, prefixes, now);
    ExpiryAgrees(s, limits, hash, now);
    var live := Expired(s.rows, limits, now);
    if Answer(live, key, prefixes).Some? { ARowNamesItsDigest(live, Answer(live, key, prefixes).value); }
    hide Expired, Agrees, Answer;
  }

  // ---- whether an upload is still there when it returns ----

  lemma {:induction false} OnlyTheNewestIsNotOlder(rows: Rows, row: Row, scope: Option<string>)
    requires Distinct(rows) && row in rows && InScope(row, scope)
    requires forall r | r in rows && r != row :: Older(r, row)
    ensures NotOlder(rows, row, scope) == [row]
  {
    AgesAreOrdered(row, row);
    if rows[0] == row {
      AgesOfTheRest(rows, row);
      NoneIsKept(rows[1..], (s: Row) => InScope(s, scope) && !Older(s, row));
    } else {
      OnlyTheNewestIsNotOlder(rows[1..], row, scope);
    }
  }

  lemma AgesOfTheRest(rows: Rows, row: Row)
    requires Distinct(rows) && rows != [] && rows[0] == row
    requires forall r | r in rows && r != row :: Older(r, row)
    ensures forall r | r in rows[1..] :: Older(r, row)
  {
    forall r | r in rows[1..] ensures Older(r, row) { AKeyIsTakenOnce(rows, r); }
  }

  lemma {:induction false} NoneIsKept(rows: Rows, p: Row -> bool)
    requires forall r | r in rows :: !p(r)
    ensures Filter(rows, p) == []
  {
    if rows != [] { NoneIsKept(rows[1..], p); }
  }

  lemma OneRowCostsItsSize(row: Row)
    ensures Total([row]) == row.size
  {
  }

  /** A row every other is older than survives one pass exactly when it fits the quota by itself. */
  lemma TheNewestStaysWhenItFits(rows: Rows, row: Row, scope: Option<string>, quota: nat)
    requires Distinct(rows) && row in rows && InScope(row, scope)
    requires forall r | r in rows && r != row :: Older(r, row)
    ensures row in Evict(rows, scope, quota) <==> row.size <= quota
  {
    EvictionKeepsWhatFits(rows, scope, quota);
    OnlyTheNewestIsNotOlder(rows, row, scope);
    OneRowCostsItsSize(row);
  }

  // The row an upload adds.
  function NewRow(s: State, limits: Limits, hash: Bytes -> nat, key: Key, content: Bytes, now: real): Row {
    Row(FreshId(Expired(s.rows, limits, now)), key, hash(content), |content|, now, now)
  }

  /**
   * A new entry is still there when its upload returns if and only if both quotas have room for it
   * beside everything not older: its repository's among all rows, and the store's among those the
   * repository's pass left.
   */
  lemma ANewEntryStaysExactlyWhenThereIsRoom(s: State, limits: Limits, hash: Bytes -> nat, key: Key, source: Bytes,
                                             length: int, now: real)
    requires Agrees(s, hash)
    requires var put := Put(s, limits, hash, key, source, length, now); put.Ok? && put.value.created
    ensures 0 <= length <= |source|
    ensures
      var stored := Put(s, limits, hash, key, source, length, now).value;
      var row := NewRow(s, limits, hash, key, source[..length], now);
      var all := Expired(s.rows, limits, now) + [row];
      var first := Evict(all, Some(key.repository), limits.repositoryQuota);
      && Distinct(all) && Distinct(first) && (forall r | r in first :: r in all)
      && row.size == length <= limits.repositoryQuota
      && (Find(stored.state.rows, key).Some? <==>
            && Stays(all, row, Some(key.repository), limits.repositoryQuota)
            && Stays(first, row, None, limits.storageQuota))
  {
    UnexpiredRows(s, limits, hash, key, now);
    var rows := Expired(s.rows, limits, now);
    var row := NewRow(s, limits, hash, key, source[..length], now);
    var all := rows + [row];
    NothingExpiresTwice(s.rows, row, limits, now);
    WithOneMoreIsDistinct(rows, row);
    var p, q := EnforcedIsFiltered(all, limits, key.repository);
    var first := Evict(all, Some(key.repository), limits.repositoryQuota);
    EvictionKeepsWhatFits(all, Some(key.repository), limits.repositoryQuota);
    EvictionKeepsWhatFits(first, None, limits.storageQuota);
    var kept := Enforced(all, limits, key.repository);
    hide Stays, Evict, Expired, Agrees;
    assert row in all;
    assert forall r | r in kept && r.key == key :: r == row;
  }

  /**
   * When no entry was used later, the new one stays exactly when the whole store has room for it;
   * nothing refuses an upload for the lack of that room.
   */
  lemma ANewEntryStaysExactlyWhenItFitsTheStore(s: State, limits: Limits, hash: Bytes -> nat, key: Key, source: Bytes,
                                                 length: int, now: real)
    requires Agrees(s, hash)
    requires var put := Put(s, limits, hash, key, source, length, now); put.Ok? && put.value.created
    requires 0 <= length <= |source|
    requires forall r | r in s.rows :: Older(r, NewRow(s, limits, hash, key, source[..length], now))
    ensures
      var stored := Put(s, limits, hash, key, source, length, now).value;
      Find(stored.state.rows, key).Some? <==> length <= limits.storageQuota
  {
    ANewEntryStaysExactlyWhenThereIsRoom(s, limits, hash, key, source, length, now);
    var rows := Expired(s.rows, limits, now);
    var row := NewRow(s, limits, hash, key, source[..length], now);
    var all := rows + [row];
    var first := Evict(all, Some(key.repository), limits.repositoryQuota);
    assert forall r | r in all && r != row :: r in s.rows;
    OneRowCostsItsSize(row);
    hide Agrees, Put, Expired, Evict, NewRow;
    OnlyTheNewestIsNotOlder(all, row, Some(key.repository));
    if row in first {
      OnlyTheNewestIsNotOlder(first, row, None);
    } else {
      EvictionKeepsWhatFits(all, Some(key.repository), limits.repositoryQuota);
    }
  }
}
