/** An index of entries over content-addressed blobs, and what lookups and uploads make of it. */
module Cache {
  import opened Prelude
  import opened CacheTotals

  type Bytes = seq<bv8>

  datatype Limits = Limits(ttl: nat, repositoryQuota: nat, storageQuota: nat, blobLimit: nat)

  datatype State = State(rows: Rows, blobs: map<nat, Bytes>, hits: int, misses: int, writes: nat, bytesWritten: nat)

  datatype Entry = Entry(key: Key, digest: nat, size: nat, created: real)

  datatype PutError = BlobTooLarge | OverRepositoryQuota | EndedEarly

  datatype Stored = Stored(entry: Entry, created: bool, state: State)

  const EMPTY := State([], map[], 0, 0, 0, 0)

  function EntryOf(r: Row): Entry {
    Entry(r.key, r.digest, r.size, r.created)
  }

  // ---- the statements the operations are made of ----

  function Expired(rows: Rows, limits: Limits, now: real): Rows {
    Filter(rows, (r: Row) => r.accessed >= now - limits.ttl as real)
  }

  predicate Named(rows: Rows, digest: nat) {
    exists i | 0 <= i < |rows| :: rows[i].digest == digest
  }

  function Collected(blobs: map<nat, Bytes>, rows: Rows): map<nat, Bytes> {
    map d | d in blobs && Named(rows, d) :: blobs[d]
  }

  function WithBlob(blobs: map<nat, Bytes>, digest: nat, content: Bytes): map<nat, Bytes> {
    if digest in blobs then blobs else blobs[digest := content]
  }

  function Find(rows: Rows, key: Key): (found: Option<Row>)
    ensures found.Some? ==> found.value in rows && found.value.key == key
    ensures found.None? ==> forall r | r in rows :: r.key != key
  {
    if rows == [] then None else if rows[0].key == key then Some(rows[0]) else Find(rows[1..], key)
  }

  /** A row of the same repository, branch and architecture whose key starts with `prefix`. */
  predicate Matches(r: Row, key: Key, prefix: string) {
    && r.key.repository == key.repository && r.key.branch == key.branch && r.key.architecture == key.architecture
    && prefix <= r.key.name
  }

  /** Used more recently, then by key. */
  predicate Preferred(r: Row, s: Row) {
    r.accessed > s.accessed || (r.accessed == s.accessed && Precedes(r.key.name, s.key.name))
  }

  function Latest(rows: Rows, key: Key, prefix: string): (found: Option<Row>)
    ensures found.Some? ==> found.value in rows && Matches(found.value, key, prefix)
    ensures found.None? ==> forall r | r in rows :: !Matches(r, key, prefix)
  {
    if rows == [] then None
    else
      var rest := Latest(rows[1..], key, prefix);
      if !Matches(rows[0], key, prefix) || (rest.Some? && Preferred(rest.value, rows[0])) then rest else Some(rows[0])
  }

  function FirstMatch(rows: Rows, key: Key, prefixes: seq<string>): (found: Option<Row>)
    ensures found.Some? ==> found.value in rows
  {
    if prefixes == [] then None
    else
      var row := Latest(rows, key, prefixes[0]);
      if row.Some? then row else FirstMatch(rows, key, prefixes[1..])
  }

  function Answer(rows: Rows, key: Key, prefixes: seq<string>): (found: Option<Row>)
    ensures found.Some? ==> found.value in rows
  {
    var exact := Find(rows, key);
    if exact.Some? then exact else FirstMatch(rows, key, prefixes)
  }

  function Touched(rows: Rows, key: Key, now: real): (touched: Rows)
    ensures |touched| == |rows|
    ensures forall i | 0 <= i < |rows| ::
              touched[i] == if rows[i].key == key then rows[i].(accessed := now) else rows[i]
  {
    seq(|rows|, i requires 0 <= i < |rows| => if rows[i].key == key then rows[i].(accessed := now) else rows[i])
  }

  function FreshId(rows: Rows): (id: nat)
    ensures forall r | r in rows :: r.id < id
  {
    if rows == [] then 0
    else
      var rest := FreshId(rows[1..]);
      if rows[0].id >= rest then rows[0].id + 1 else rest
  }

  // ---- the operations ----

  function Looked(s: State, limits: Limits, key: Key, prefixes: seq<string>, now: real): (Option<Entry>, State) {
    var rows := Expired(s.rows, limits, now);
    var swept := s.(rows := rows, blobs := Collected(s.blobs, rows));
    match Answer(rows, key, prefixes)
    case None => (None, swept.(misses := s.misses + 1))
    case Some(row) =>
      if row.digest in swept.blobs then
        (Some(EntryOf(row)), swept.(rows := Touched(rows, row.key, now), hits := s.hits + 1))
      else
        var others := Filter(Touched(rows, row.key, now), (r: Row) => r.key != row.key);
        (None, swept.(rows := others, misses := s.misses + 1))
  }

  function Enforced(rows: Rows, limits: Limits, repository: string): Rows {
    Evict(Evict(rows, Some(repository), limits.repositoryQuota), None, limits.storageQuota)
  }

  /** A new entry with its blob, once the quotas are enforced. */
  function Inserted(s: State, limits: Limits, row: Row, content: Bytes): State {
    var written := WithBlob(s.blobs, row.digest, content);
    var kept := Enforced(Expired(s.rows + [row], limits, row.accessed), limits, row.key.repository);
    State(kept, Collected(written, kept), s.hits, s.misses, s.writes + 1, s.bytesWritten + row.size)
  }

  function Put(s: State, limits: Limits, hash: Bytes -> nat, key: Key, source: Bytes, length: int, now: real)
    : (result: Result<Stored, PutError>)
  {
    if length < 0 || length > limits.blobLimit then Err(BlobTooLarge)
    else if length > limits.repositoryQuota then Err(OverRepositoryQuota)
    else if |source| < length then Err(EndedEarly)
    else
      var content := source[..length];
      var rows := Expired(s.rows, limits, now);
      var blobs := if |rows| < |s.rows| then Collected(s.blobs, rows) else s.blobs;
      match Find(rows, key)
      case Some(existing) => Ok(Stored(EntryOf(existing), false, s.(rows := rows, blobs := blobs)))
      case None =>
        var row := Row(FreshId(rows), key, hash(content), length, now, now);
        Ok(Stored(EntryOf(row), true, Inserted(s.(rows := rows, blobs := blobs), limits, row, content)))
  }

  /** The bytes of an entry that is still in the index. */
  function OpenBlob(s: State, limits: Limits, digest: nat, key: Key, now: real): Option<Bytes> {
    if (exists i | 0 <= i < |s.rows| ::
          s.rows[i].key == key && s.rows[i].digest == digest && s.rows[i].accessed >= now - limits.ttl as real)
       && digest in s.blobs
    then Some(s.blobs[digest]) else None
  }

  datatype Event = Look(key: Key, prefixes: seq<string>, now: real)
                 | Upload(key: Key, source: Bytes, length: int, now: real)

  function Next(s: State, limits: Limits, hash: Bytes -> nat, e: Event): State {
    match e
    case Look(key, prefixes, now) => Looked(s, limits, key, prefixes, now).1
    case Upload(key, source, length, now) =>
      match Put(s, limits, hash, key, source, length, now)
      case Err(_) => s
      case Ok(stored) => stored.state
  }

  function Run(s: State, limits: Limits, hash: Bytes -> nat, events: seq<Event>): State
    decreases |events|
  {
    if events == [] then s else Run(Next(s, limits, hash, events[0]), limits, hash, events[1..])
  }

  function Lookups(events: seq<Event>): nat {
    if events == [] then 0 else (if events[0].Look? then 1 else 0) + Lookups(events[1..])
  }
}
