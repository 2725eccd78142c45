/** The cache store as it runs: an index, blobs and counters, changed in place. */
module CacheStore {
  import opened Prelude
  import opened CacheTotals
  import opened Cache
  import opened CacheGuarantees

  class Store {
    const limits: Limits
    const hash: Bytes -> nat
    var rows: Rows
    var blobs: map<nat, Bytes>
    var hits: int
    var misses: int
    var writes: nat
    var bytesWritten: nat

    constructor (limits: Limits, hash: Bytes -> nat)
      requires limits.ttl > 0 && limits.repositoryQuota > 0 && limits.storageQuota > 0 && limits.blobLimit > 0
      ensures Value() == EMPTY && this.limits == limits && this.hash == hash
      ensures Agrees(Value(), hash) && Fits(rows, limits)
    {
      this.limits, this.hash := limits, hash;
      rows, blobs, hits, misses, writes, bytesWritten := [], map[], 0, 0, 0, 0;
      new;
      TheEmptyStoreIsSound(limits, hash);
    }

    function Value(): State
      reads this
    {
      State(rows, blobs, hits, misses, writes, bytesWritten)
    }

    method Expire(now: real) returns (some: bool)
      modifies this`rows
      ensures rows == Expired(old(rows), limits, now)
      ensures some == (|rows| < |old(rows)|)
    {
      var before := |rows|;
      rows := Expired(rows, limits, now);
      some := |rows| < before;
    }

    /** Delete every blob the index does not name. */
    method CollectBlobs()
      modifies this`blobs
      ensures blobs == Collected(old(blobs), rows)
    {
      ghost var stored := blobs;
      var left := blobs.Keys;
      while left != {}
        invariant left <= blobs.Keys <= stored.Keys
        invariant forall d | d in blobs :: blobs[d] == stored[d]
        invariant forall d | d in stored && d !in left :: d in blobs <==> Named(rows, d)
        decreases |left|
      {
        var d: nat :| d in left;
        if !Named(rows, d) {
          blobs := blobs - {d};
        }
        left := left - {d};
      }
    }

    method EvictToQuota(scope: Option<string>, quota: nat)
      modifies this`rows
      ensures rows == Evict(old(rows), scope, quota)
    {
      while Total(Scoped(rows, scope)) > quota
        invariant Evict(rows, scope, quota) == Evict(old(rows), scope, quota)
        decreases |rows|
      {
        match Oldest(rows, scope)
        case None => return;
        case Some(k) => rows := Without(rows, k);
      }
    }

    /** The exact key's row, or that of the first prefix with one. */
    method Chosen(key: Key, prefixes: seq<string>) returns (row: Option<Row>)
      ensures row == Answer(rows, key, prefixes)
    {
      hide Find, Latest;
      row := Find(rows, key);
      if row.Some? {
        return;
      }
      for k := 0 to |prefixes|
        invariant row.None? && FirstMatch(rows, key, prefixes[k..]) == FirstMatch(rows, key, prefixes)
      {
        assert prefixes[k..][1..] == prefixes[k + 1..];
        row := Latest(rows, key, prefixes[k]);
        if row.Some? {
          return;
        }
      }
    }

    method Lookup(key: Key, prefixes: seq<string>, now: real) returns (found: Option<Entry>)
      modifies this
      ensures (found, Value()) == Looked(old(Value()), limits, key, prefixes, now)
    {
      hide Expired, Collected, Answer, Touched, Filter;
      var _ := Expire(now);
      CollectBlobs();
      var row := Chosen(key, prefixes);
      if row.None? {
        misses := misses + 1;
        return None;
      }
      hits := hits + 1;
      rows := Touched(rows, row.value.key, now);
      if row.value.digest !in blobs {
        rows := Filter(rows, (r: Row) => r.key != row.value.key);
        hits := hits - 1;
        misses := misses + 1;
        return None;
      }
      return Some(EntryOf(row.value));
    }

    method EnforceQuota(repository: string)
      modifies this`rows, this`blobs
      ensures rows == Enforced(old(rows), limits, repository) && blobs == Collected(old(blobs), rows)
    {
      EvictToQuota(Some(repository), limits.repositoryQuota);
      EvictToQuota(None, limits.storageQuota);
      CollectBlobs();
    }

    method Put(key: Key, source: Bytes, length: int, now: real) returns (result: Result<(Entry, bool), PutError>)
      modifies this
      ensures
        match Cache.Put(old(Value()), limits, hash, key, source, length, now)
        case Err(error) => result == Err(error) && Value() == old(Value())
        case Ok(stored) => result == Ok((stored.entry, stored.created)) && Value() == stored.state
    {
      hide Expired, Collected, Enforced, Find, FreshId;
      if length < 0 || length > limits.blobLimit {
        return Err(BlobTooLarge);
      }
      if length > limits.repositoryQuota {
        return Err(OverRepositoryQuota);
      }
      if |source| < length {
        return Err(EndedEarly);
      }
      var content := source[..length];
      var some := Expire(now);
      if some {
        CollectBlobs();
      }
      var existing := Find(rows, key);
      if existing.Some? {
        return Ok((EntryOf(existing.value), false));
      }
      var row := Row(FreshId(rows), key, hash(content), length, now, now);
      if row.digest !in blobs {
        blobs := blobs[row.digest := content];
      }
      rows := rows + [row];
      writes, bytesWritten := writes + 1, bytesWritten + length;
      var _ := Expire(now);
      EnforceQuota(key.repository);
      return Ok((EntryOf(row), true));
    }

    method Open(digest: nat, key: Key, now: real) returns (read: Option<Bytes>)
      ensures read == OpenBlob(Value(), limits, digest, key, now)
    {
      for k := 0 to |rows|
        invariant forall i | 0 <= i < k ::
                    !(rows[i].key == key && rows[i].digest == digest && rows[i].accessed >= now - limits.ttl as real)
      {
        var row := rows[k];
        if row.key == key && row.digest == digest && row.accessed >= now - limits.ttl as real {
          return if digest in blobs then Some(blobs[digest]) else None;
        }
      }
      return None;
    }
  }
}
