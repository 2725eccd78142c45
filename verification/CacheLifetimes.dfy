/** How long an entry can be found and read: while it was used within the time to live, and no longer. */
module CacheLifetimes {
  import opened Prelude
  import opened CacheTotals
  import opened Cache
  import opened CacheGuarantees

  lemma OneRowPerKey(s: State, hash: Bytes -> nat, row: Row, other: Row)
    requires Agrees(s, hash) && row in s.rows && other in s.rows && row.key == other.key
    ensures row == other
  {
    var i :| 0 <= i < |s.rows| && s.rows[i] == row;
    var j :| 0 <= j < |s.rows| && s.rows[j] == other;
  }

  /**
   * An entry is found by its own key exactly while the time to live since its last use has not passed;
   * finding it uses it, and a lookup made later takes it away with every other as old.
   */
  lemma AnEntryIsFoundExactlyWhileItLives(s: State, limits: Limits, hash: Bytes -> nat, row: Row,
                                          prefixes: seq<string>, now: real)
    requires Agrees(s, hash) && row in s.rows
    ensures
      var (found, t) := Looked(s, limits, row.key, prefixes, now);
      if now <= row.accessed + limits.ttl as real then
        found == Some(Entry(row.key, row.digest, row.size, row.created)) && row.(accessed := now) in t.rows
      else forall other | other in t.rows :: other.key != row.key
  {
    var live := Filter(s.rows, (r: Row) => r.accessed >= now - limits.ttl as real);
    var (found, t) := Looked(s, limits, row.key, prefixes, now);
    hide *;
    ALookupAnswersWhatWasAsked(s, limits, hash, row.key, prefixes, now);
    LiveRowsOfAKey(s, limits, hash, row, now);
    var answer :|
      && IsAnswer(live, row.key, prefixes, answer)
      && (found.Some? <==> answer.Some?)
      && (found.Some? ==>
            && found.value == Entry(answer.value.key, answer.value.digest, answer.value.size, answer.value.created)
            && found.value.digest in t.blobs)
      && |t.rows| == |live|
      && forall i | 0 <= i < |live| ::
           t.rows[i] == if answer == Some(live[i]) then live[i].(accessed := now) else live[i];
    if row in live { TheKeysOwnRowAnswers(live, row, prefixes, answer); }
    UsingARowKeepsTheOthers(live, t.rows, row, answer, now);
  }

  lemma LiveRowsOfAKey(s: State, limits: Limits, hash: Bytes -> nat, row: Row, now: real)
    requires Agrees(s, hash) && row in s.rows
    ensures
      var live := Filter(s.rows, (r: Row) => r.accessed >= now - limits.ttl as real);
      && (row in live <==> now <= row.accessed + limits.ttl as real)
      && forall other | other in live && other.key == row.key :: other == row
  {
    var live := Filter(s.rows, (r: Row) => r.accessed >= now - limits.ttl as real);
    forall other | other in live && other.key == row.key ensures other == row {
      OneRowPerKey(s, hash, row, other);
    }
  }

  lemma UsingARowKeepsTheOthers(live: Rows, used: Rows, row: Row, answer: Option<Row>, now: real)
    requires |used| == |live|
    requires forall i | 0 <= i < |live| ::
               used[i] == if answer == Some(live[i]) then live[i].(accessed := now) else live[i]
    requires forall other | other in live && other.key == row.key :: other == row
    ensures row in live && answer == Some(row) ==> row.(accessed := now) in used
    ensures row !in live ==> forall other | other in used :: other.key != row.key
  {
    if row in live && answer == Some(row) {
      var k :| 0 <= k < |live| && live[k] == row;
      assert used[k] == row.(accessed := now);
    } else if row !in live {
      forall other | other in used ensures other.key != row.key {
        var k :| 0 <= k < |used| && used[k] == other;
        assert live[k] in live;
      }
    }
  }

  lemma TheKeysOwnRowAnswers(live: Rows, row: Row, prefixes: seq<string>, answer: Option<Row>)
    requires row in live && (forall other | other in live && other.key == row.key :: other == row)
    requires IsAnswer(live, row.key, prefixes, answer)
    ensures answer == Some(row)
  {
    hide MatchedBy;
  }

  /** Whatever is in the index after an upload is found by its key until the time to live has passed since. */
  lemma AnUploadIsFoundForItsTime(s: State, limits: Limits, hash: Bytes -> nat, key: Key, source: Bytes, length: int,
                                  now: real, prefixes: seq<string>, later: real)
    requires Agrees(s, hash) && Fits(s.rows, limits)
    requires var put := Put(s, limits, hash, key, source, length, now); put.Ok? && put.value.created
    ensures
      var stored := Put(s, limits, hash, key, source, length, now).value;
      var (found, _) := Looked(stored.state, limits, key, prefixes, later);
      (exists r :: r in stored.state.rows && r.key == key) ==>
        if later <= now + limits.ttl as real then found == Some(stored.entry)
        else forall other | other in Looked(stored.state, limits, key, prefixes, later).1.rows :: other.key != key
  {
    UploadsAgree(s, limits, hash, key, source, length, now);
    var stored := Put(s, limits, hash, key, source, length, now).value;
    TheNewRowIsTheUploads(s, limits, hash, key, source, length, now);
    hide Agrees, Fits, Put, Looked;
    if r :| r in stored.state.rows && r.key == key {
      AnEntryIsFoundExactlyWhileItLives(stored.state, limits, hash, r, prefixes, later);
    }
  }

  lemma TheNewRowIsTheUploads(s: State, limits: Limits, hash: Bytes -> nat, key: Key, source: Bytes, length: int,
                              now: real)
    requires Agrees(s, hash)
    requires var put := Put(s, limits, hash, key, source, length, now); put.Ok? && put.value.created
    ensures
      var stored := Put(s, limits, hash, key, source, length, now).value;
      forall r | r in stored.state.rows && r.key == key ::
        r.accessed == now && stored.entry == Entry(r.key, r.digest, r.size, r.created)
        && r.created == now && r.size == length
  {
    UnexpiredRows(s, limits, hash, key, now);
    var rows := Expired(s.rows, limits, now);
    var blobs := if |rows| < |s.rows| then Collected(s.blobs, rows) else s.blobs;
    var row := Row(FreshId(rows), key, hash(source[..length]), length, now, now);
    NothingExpiresTwice(s.rows, row, limits, now);
    WithOneMoreIsDistinct(rows, row);
    InsertedRows(s.(rows := rows, blobs := blobs), limits, row, source[..length]);
    hide Agrees, Expired, Inserted, Collected;
  }

  /** The bytes of an entry can be read exactly while it is in the index and was used within the time to live. */
  lemma AnEntryOpensExactlyWhileItLives(s: State, limits: Limits, hash: Bytes -> nat, digest: nat, key: Key, now: real)
    requires Agrees(s, hash)
    ensures
      var read := OpenBlob(s, limits, digest, key, now);
      && (read.Some? <==>
            exists r :: r in s.rows && r.key == key && r.digest == digest && now <= r.accessed + limits.ttl as real)
      && (read.Some? ==> digest in s.blobs && read.value == s.blobs[digest] && hash(read.value) == digest)
  {
    if r :| r in s.rows && r.key == key && r.digest == digest && now <= r.accessed + limits.ttl as real {
      var i :| 0 <= i < |s.rows| && s.rows[i] == r;
      ARowNamesItsDigest(s.rows, r);
    }
  }

  /** An upload is refused for its length alone: out of bounds, past the quota, or more than was sent. */
  lemma AnUploadIsRefusedExactlyWhen(s: State, limits: Limits, hash: Bytes -> nat, key: Key, source: Bytes,
                                     length: int, now: real)
    ensures Put(s, limits, hash, key, source, length, now).Ok? <==>
            0 <= length <= limits.blobLimit && length <= limits.repositoryQuota && length <= |source|
    ensures
      var put := Put(s, limits, hash, key, source, length, now);
      put.Ok? ==>
        (put.value.created <==>
           forall r | r in s.rows && r.key == key :: r.accessed + limits.ttl as real < now)
  {
  }

  /**
   * Each lookup counts one hit when it answers and one miss when it does not, each upload one write and
   * the bytes it sent when it made an entry, and nothing else is counted.
   */
  lemma EachStepIsCountedOnce(s: State, limits: Limits, hash: Bytes -> nat, e: Event)
    requires Agrees(s, hash)
    ensures
      var t := Next(s, limits, hash, e);
      match e
      case Look(key, prefixes, now) =>
        var found := Looked(s, limits, key, prefixes, now).0.Some?;
        && t.hits == s.hits + (if found then 1 else 0) && t.misses == s.misses + (if found then 0 else 1)
        && t.writes == s.writes && t.bytesWritten == s.bytesWritten
      case Upload(key, source, length, now) =>
        var put := Put(s, limits, hash, key, source, length, now);
        var made := put.Ok? && put.value.created;
        && t.hits == s.hits && t.misses == s.misses
        && t.writes == s.writes + (if made then 1 else 0)
        && t.bytesWritten == s.bytesWritten + (if made then length else 0)
  {
    hide Agrees, Expired, Answer, Collected, Enforced, Find;
    if e.Look? { LookupsAgree(s, limits, hash, e.key, e.prefixes, e.now); }
  }

  /** No step rewrites the bytes a live entry names: while they are kept they stay as they were. */
  lemma LiveBytesAreNeverRewritten(s: State, limits: Limits, hash: Bytes -> nat, e: Event, row: Row)
    requires row in s.rows && e.now <= row.accessed + limits.ttl as real
    requires row.digest in s.blobs && row.digest in Next(s, limits, hash, e).blobs
    ensures Next(s, limits, hash, e).blobs[row.digest] == s.blobs[row.digest]
  {
    var live := Expired(s.rows, limits, e.now);
    assert row in live;
    ARowNamesItsDigest(live, row);
    hide Expired, Answer, Named, Enforced, Find, Touched, Filter;
  }

  /** A row whose bytes are gone is a miss, and is taken away with whatever is spent. */
  lemma ARowWithoutItsBytesIsAMiss(s: State, limits: Limits, row: Row, prefixes: seq<string>, now: real)
    requires row in s.rows && now <= row.accessed + limits.ttl as real && row.digest !in s.blobs
    requires forall other | other in s.rows && other.key == row.key :: other == row
    ensures
      var (found, t) := Looked(s, limits, row.key, prefixes, now);
      && found.None? && t.misses == s.misses + 1 && t.hits == s.hits
      && forall other | other in t.rows :: other.key != row.key
  {
    var live := Expired(s.rows, limits, now);
    assert row in live;
    assert Find(live, row.key) == Some(row);
    hide Expired;
  }
}
