/** The cache's table, the size its rows stand for, and which of them go when a quota is exceeded. */
module CacheTotals {
  import opened Prelude

  datatype Key = Key(repository: string, branch: string, architecture: string, name: string)

  // A row's `id` is its place in the order of insertion; it decides between rows that tie.
  datatype Row = Row(id: nat, key: Key, digest: nat, size: nat, created: real, accessed: real)

  type Rows = seq<Row>

  // ---- rows and the order in which they are given up ----

  /** Used longer ago, then written longer ago, then by key. */
  predicate Older(r: Row, s: Row) {
    || r.accessed < s.accessed
    || (r.accessed == s.accessed
        && (|| r.created < s.created
            || (r.created == s.created
                && (Precedes(r.key.name, s.key.name) || (r.key.name == s.key.name && r.id < s.id)))))
  }

  lemma AgesAreOrdered(r: Row, s: Row)
    ensures !(Older(r, s) && Older(s, r))
    ensures r.id != s.id ==> Older(r, s) || Older(s, r)
  {
    TextsAreOrdered(r.key.name, s.key.name);
  }

  lemma AgeIsTransitive(r: Row, s: Row, t: Row)
    requires Older(r, s) && Older(s, t)
    ensures Older(r, t)
  {
    if Precedes(r.key.name, s.key.name) && Precedes(s.key.name, t.key.name) {
      TextOrderIsTransitive(r.key.name, s.key.name, t.key.name);
    }
  }

  ghost predicate Distinct(rows: Rows) {
    && (forall i, j | 0 <= i < j < |rows| :: rows[i].id != rows[j].id)
    && (forall i, j | 0 <= i < j < |rows| :: rows[i].key != rows[j].key)
  }

  /** A repository's rows, or every row. */
  predicate InScope(r: Row, scope: Option<string>) {
    scope.None? || r.key.repository == scope.value
  }

  function Filter(rows: Rows, keep: Row -> bool): (kept: Rows)
    ensures |kept| <= |rows|
    ensures forall r :: r in kept <==> r in rows && keep(r)
  {
    if rows == [] then []
    else if keep(rows[0]) then [rows[0]] + Filter(rows[1..], keep)
    else Filter(rows[1..], keep)
  }

  function Scoped(rows: Rows, scope: Option<string>): Rows {
    Filter(rows, (r: Row) => InScope(r, scope))
  }

  // ---- what rows cost ----

  /** The largest size recorded for a digest. */
  function SizeOf(rows: Rows, digest: nat): nat {
    if rows == [] then 0
    else
      var rest := SizeOf(rows[1..], digest);
      if rows[0].digest == digest && rows[0].size > rest then rows[0].size else rest
  }

  /** The size of the blobs that rows name, each counted once. */
  function Total(rows: Rows): nat {
    if rows == [] then 0
    else
      var counted := SizeOf(rows[1..], rows[0].digest);
      Total(rows[1..]) + if rows[0].size > counted then rows[0].size - counted else 0
  }

  // The same size, digest by digest.
  ghost function SumBelow(rows: Rows, n: nat): nat {
    if n == 0 then 0 else SumBelow(rows, n - 1) + SizeOf(rows, n - 1)
  }

  ghost predicate DigestsBelow(rows: Rows, n: nat) {
    forall i | 0 <= i < |rows| :: rows[i].digest < n
  }

  lemma {:induction false} SumOfOneMore(r: Row, rest: Rows, n: nat)
    ensures
      var counted := SizeOf(rest, r.digest);
      SumBelow([r] + rest, n)
      == SumBelow(rest, n) + if r.digest < n && r.size > counted then r.size - counted else 0
  {
    if n > 0 {
      SumOfOneMore(r, rest, n - 1);
      assert ([r] + rest)[1..] == rest;
    }
  }

  lemma {:induction false} NoRowsNoSum(n: nat)
    ensures SumBelow([], n) == 0
  {
    if n > 0 { NoRowsNoSum(n - 1); }
  }

  /** The total counts every digest once, at the largest size recorded for it. */
  lemma {:induction false} TotalCountsEachDigestOnce(rows: Rows, n: nat)
    requires DigestsBelow(rows, n)
    ensures Total(rows) == SumBelow(rows, n)
  {
    if rows == [] {
      NoRowsNoSum(n);
    } else {
      assert rows == [rows[0]] + rows[1..];
      SumOfOneMore(rows[0], rows[1..], n);
      TotalCountsEachDigestOnce(rows[1..], n);
    }
  }

  lemma {:induction false} SumGrows(few: Rows, many: Rows, n: nat)
    requires forall d: nat :: SizeOf(few, d) <= SizeOf(many, d)
    ensures SumBelow(few, n) <= SumBelow(many, n)
  {
    if n > 0 { SumGrows(few, many, n - 1); }
  }

  lemma {:induction false} ABoundOnDigests(rows: Rows) returns (n: nat)
    ensures DigestsBelow(rows, n)
  {
    if rows == [] { return 0; }
    n := ABoundOnDigests(rows[1..]);
    if rows[0].digest >= n { n := rows[0].digest + 1; }
    forall i | 0 <= i < |rows| ensures rows[i].digest < n {
      if i > 0 { assert rows[i] == rows[1..][i - 1]; }
    }
  }

  lemma {:induction false} KeepingMoreCostsMore(rows: Rows, p: Row -> bool, q: Row -> bool, d: nat)
    requires forall r | r in rows :: p(r) ==> q(r)
    ensures SizeOf(Filter(rows, p), d) <= SizeOf(Filter(rows, q), d)
  {
    if rows != [] {
      KeepingMoreCostsMore(rows[1..], p, q, d);
      assert ([rows[0]] + Filter(rows[1..], p))[1..] == Filter(rows[1..], p);
      assert ([rows[0]] + Filter(rows[1..], q))[1..] == Filter(rows[1..], q);
    }
  }

  /** Fewer rows never cost more. */
  lemma {:induction false} TotalIsMonotone(rows: Rows, p: Row -> bool, q: Row -> bool)
    requires forall r | r in rows :: p(r) ==> q(r)
    ensures Total(Filter(rows, p)) <= Total(Filter(rows, q))
  {
    forall d: nat { KeepingMoreCostsMore(rows, p, q, d); }
    var n := ABoundOnDigests(rows);
    var few, many := Filter(rows, p), Filter(rows, q);
    forall i | 0 <= i < |few| ensures few[i].digest < n { assert few[i] in rows; }
    forall i | 0 <= i < |many| ensures many[i].digest < n { assert many[i] in rows; }
    TotalCountsEachDigestOnce(few, n);
    TotalCountsEachDigestOnce(many, n);
    SumGrows(few, many, n);
  }

  // ---- eviction ----

  /** Where the row to be given up next stands. */
  function Oldest(rows: Rows, scope: Option<string>): (found: Option<nat>)
    ensures found.Some? ==> found.value < |rows| && InScope(rows[found.value], scope)
    ensures found.None? ==> forall i | 0 <= i < |rows| :: !InScope(rows[i], scope)
  {
    if rows == [] then None
    else
      match Oldest(rows[1..], scope)
      case None => if InScope(rows[0], scope) then Some(0) else None
      case Some(k) => if InScope(rows[0], scope) && Older(rows[0], rows[1..][k]) then Some(0) else Some(k + 1)
  }

  /** Give up the oldest row in scope until the rest fits the quota. */
  function Evict(rows: Rows, scope: Option<string>, quota: nat): Rows
    decreases |rows|
  {
    if Total(Scoped(rows, scope)) <= quota then rows
    else
      match Oldest(rows, scope)
      case None => rows
      case Some(k) => Evict(Without(rows, k), scope, quota)
  }

  lemma {:induction false} NothingIsOlder(rows: Rows, scope: Option<string>, i: nat)
    requires Distinct(rows) && i < |rows| && InScope(rows[i], scope)
    ensures Oldest(rows, scope).Some?
    ensures var k := Oldest(rows, scope).value; k == i || Older(rows[k], rows[i])
  {
    if i > 0 {
      NothingIsOlder(rows[1..], scope, i - 1);
      var j := Oldest(rows[1..], scope).value;
      if Older(rows[0], rows[1..][j]) && j != i - 1 {
        AgeIsTransitive(rows[0], rows[1..][j], rows[i]);
      }
    } else if Oldest(rows[1..], scope).Some? {
      var j := Oldest(rows[1..], scope).value;
      AgesAreOrdered(rows[0], rows[1..][j]);
    }
  }

  /** The rows in scope that are not older than `r`. */
  function NotOlder(rows: Rows, r: Row, scope: Option<string>): Rows {
    Filter(rows, (s: Row) => InScope(s, scope) && !Older(s, r))
  }

  /** Whether the quota leaves room for `r` and everything in scope that was used after it. */
  predicate Stays(rows: Rows, r: Row, scope: Option<string>, quota: nat) {
    !InScope(r, scope) || Total(NotOlder(rows, r, scope)) <= quota
  }

  lemma {:induction false} FilterAgrees(rows: Rows, p: Row -> bool, q: Row -> bool)
    requires forall r | r in rows :: p(r) == q(r)
    ensures Filter(rows, p) == Filter(rows, q)
  {
    if rows != [] { FilterAgrees(rows[1..], p, q); }
  }

  lemma {:induction false} FilterAll(rows: Rows, p: Row -> bool)
    requires forall r | r in rows :: p(r)
    ensures Filter(rows, p) == rows
  {
    if rows != [] { FilterAll(rows[1..], p); }
  }

  lemma {:induction false} FilterWithout(rows: Rows, k: nat, p: Row -> bool)
    requires k < |rows| && !p(rows[k])
    ensures Filter(Without(rows, k), p) == Filter(rows, p)
  {
    if k == 0 {
      assert Without(rows, 0) == rows[1..];
    } else {
      assert Without(rows, k)[1..] == Without(rows[1..], k - 1);
      FilterWithout(rows[1..], k - 1, p);
    }
  }

  lemma WithoutIsDistinct(rows: Rows, k: nat)
    requires Distinct(rows) && k < |rows|
    ensures Distinct(Without(rows, k))
    ensures rows[k] !in Without(rows, k)
    ensures forall r | r in Without(rows, k) :: r in rows
  {
  }

  lemma TheOldestGoes(rows: Rows, scope: Option<string>, quota: nat, k: nat)
    requires Distinct(rows) && Oldest(rows, scope) == Some(k) && Total(Scoped(rows, scope)) > quota
    ensures !Stays(rows, rows[k], scope, quota)
  {
    forall s | s in rows && InScope(s, scope) ensures !Older(s, rows[k]) {
      var i :| 0 <= i < |rows| && rows[i] == s;
      NothingIsOlder(rows, scope, i);
      AgesAreOrdered(s, rows[k]);
    }
    FilterAgrees(rows, (s: Row) => InScope(s, scope) && !Older(s, rows[k]), (s: Row) => InScope(s, scope));
  }

  lemma TheOthersAreJudgedAlike(rows: Rows, scope: Option<string>, quota: nat, k: nat, r: Row)
    requires Distinct(rows) && Oldest(rows, scope) == Some(k) && r in Without(rows, k)
    ensures Stays(Without(rows, k), r, scope, quota) == Stays(rows, r, scope, quota)
  {
    WithoutIsDistinct(rows, k);
    if InScope(r, scope) {
      var i :| 0 <= i < |rows| && rows[i] == r;
      NothingIsOlder(rows, scope, i);
      FilterWithout(rows, k, (s: Row) => InScope(s, scope) && !Older(s, r));
    }
  }

  /**
   * Eviction row by row keeps exactly the rows for which there is room beside everything in scope
   * that was used after them, in their order, and every row out of scope.
   */
  lemma {:induction false} EvictionKeepsWhatFits(rows: Rows, scope: Option<string>, quota: nat)
    requires Distinct(rows)
    ensures Evict(rows, scope, quota) == Filter(rows, (r: Row) => Stays(rows, r, scope, quota))
    decreases |rows|
  {
    var stays := (r: Row) => Stays(rows, r, scope, quota);
    if Total(Scoped(rows, scope)) <= quota {
      forall r | r in rows ensures stays(r) {
        TotalIsMonotone(rows, (s: Row) => InScope(s, scope) && !Older(s, r), (s: Row) => InScope(s, scope));
      }
      FilterAll(rows, stays);
    } else {
      if Oldest(rows, scope).None? { NothingInScopeCostsNothing(rows, scope); }
      var k := Oldest(rows, scope).value;
      var rest := Without(rows, k);
      WithoutIsDistinct(rows, k);
      EvictionKeepsWhatFits(rest, scope, quota);
      TheOldestGoes(rows, scope, quota, k);
      FilterWithout(rows, k, stays);
      forall r | r in rest { TheOthersAreJudgedAlike(rows, scope, quota, k, r); }
      FilterAgrees(rest, (r: Row) => Stays(rest, r, scope, quota), stays);
    }
  }

  lemma {:induction false} NothingInScopeCostsNothing(rows: Rows, scope: Option<string>)
    requires Oldest(rows, scope).None?
    ensures Scoped(rows, scope) == []
  {
    if rows != [] {
      NothingInScopeCostsNothing(rows[1..], scope);
      assert !InScope(rows[0], scope);
    }
  }

  /** What is left fits the quota. */
  lemma {:induction false} EvictionFits(rows: Rows, scope: Option<string>, quota: nat)
    ensures Total(Scoped(Evict(rows, scope, quota), scope)) <= quota
    decreases |rows|
  {
    if Total(Scoped(rows, scope)) > quota {
      if Oldest(rows, scope).None? { NothingInScopeCostsNothing(rows, scope); }
      EvictionFits(Without(rows, Oldest(rows, scope).value), scope, quota);
    }
  }

  /** Every row given up was used before every row kept in the same scope. */
  lemma EvictionIsLeastRecentlyUsed(rows: Rows, scope: Option<string>, quota: nat, gone: Row, kept: Row)
    requires Distinct(rows) && gone in rows && kept in rows && InScope(kept, scope)
    requires gone !in Evict(rows, scope, quota) && kept in Evict(rows, scope, quota)
    ensures Older(gone, kept) && (scope.Some? ==> gone.key.repository == scope.value)
    ensures
      || gone.accessed < kept.accessed
      || (gone.accessed == kept.accessed && gone.created < kept.created)
      || (gone.accessed == kept.accessed && gone.created == kept.created
          && (ComesBefore(gone.key.name, kept.key.name) || (gone.key.name == kept.key.name && gone.id < kept.id)))
  {
    TextOrderIsByTheFirstDifference(gone.key.name, kept.key.name);
    hide Precedes, ComesBefore;
    EvictionKeepsWhatFits(rows, scope, quota);
    assert !Stays(rows, gone, scope, quota) && Stays(rows, kept, scope, quota);
    if !Older(gone, kept) {
      forall s | s in rows && InScope(s, scope) && !Older(s, gone) ensures !Older(s, kept) {
        if Older(s, kept) { NotOlderThanIsTransitive(s, gone, kept, rows); }
      }
      TotalIsMonotone(rows, (s: Row) => InScope(s, scope) && !Older(s, gone),
                      (s: Row) => InScope(s, scope) && !Older(s, kept));
    }
  }

  lemma NotOlderThanIsTransitive(s: Row, r: Row, t: Row, rows: Rows)
    requires Distinct(rows) && s in rows && r in rows && t in rows
    requires !Older(s, r) && !Older(r, t)
    ensures !Older(s, t)
  {
    AgesAreOrdered(s, r);
    AgesAreOrdered(r, t);
    AgesAreOrdered(s, t);
    if Older(s, t) {
      if r.id != s.id { AgeIsTransitive(r, s, t); }
    }
  }
}
