/**
 * The scheduler's memory within a process
 * (utils/schedule.ts, TransientAttempts): how often a transaction failed at
 * a revision, how long a failed withdrawal backs off, and where the retry
 * tier's cursor stands. Both memories forget their oldest entries beyond a
 * limit.
 */
module Attempts {
  import opened Common
  import opened Documents

  datatype Pass = Publish | Unpublish

  /** One document at one revision, in one pass. */
  datatype AttemptKey = AttemptKey(ref: Ref, revision: nat, pass: Pass)

  /** A withdrawal that failed for good at `revision` and waits until `at`. */
  datatype Deferral = Deferral(failures: nat, at: int, revision: nat)

  const SCHEDULE_TRANSIENT_ATTEMPTS: nat := 5
  const MINUTE: int := 60000

  /** Minutes before the next attempt, by the number of failed episodes. */
  function BackoffMinutes(failures: nat): int {
    if failures <= 1 then 5 else if failures == 2 then 15 else 60
  }

  // ---------------------------------------------------------------------
  // A memory: its entries in the order they were set last.

  datatype Kept<K, V> = Kept(key: K, value: V)

  function Get<K(==), V>(m: seq<Kept<K, V>>, key: K): Option<V> {
    if m == [] then None else if m[0].key == key then Some(m[0].value) else Get(m[1..], key)
  }

  function Without<K(==), V>(m: seq<Kept<K, V>>, key: K): (rest: seq<Kept<K, V>>)
    ensures |rest| <= |m|
  {
    if m == [] then [] else if m[0].key == key then Without(m[1..], key) else [m[0]] + Without(m[1..], key)
  }

  function Newest<K, V>(m: seq<Kept<K, V>>, limit: nat): seq<Kept<K, V>> {
    if |m| <= limit then m else m[|m| - limit..]
  }

  /** The memory with an entry set: it is the newest now, and the oldest beyond the limit are gone. */
  function Put<K(==), V>(m: seq<Kept<K, V>>, key: K, value: V, limit: nat): seq<Kept<K, V>> {
    Newest(Without(m, key) + [Kept(key, value)], limit)
  }

  ghost predicate Distinct<K, V>(m: seq<Kept<K, V>>) {
    forall i, j :: 0 <= i < j < |m| ==> m[i].key != m[j].key
  }

  lemma {:induction false} GetMeans<K, V>(m: seq<Kept<K, V>>, key: K)
    ensures Get(m, key).None? <==> forall i :: 0 <= i < |m| ==> m[i].key != key
    ensures Distinct(m) ==> forall i :: 0 <= i < |m| && m[i].key == key ==> Get(m, key) == Some(m[i].value)
  {
    if m != [] {
      GetMeans(m[1..], key);
      assert forall i :: 0 < i < |m| ==> m[i] == m[1..][i - 1];
    }
  }

  lemma {:induction false} OthersStay<K, V>(m: seq<Kept<K, V>>, key: K, k: K)
    requires k != key
    ensures Get(Without(m, key), k) == Get(m, k)
  {
    if m != [] {
      OthersStay(m[1..], key, k);
      assert ([m[0]] + Without(m[1..], key))[1..] == Without(m[1..], key);
    }
  }

  lemma {:induction false} KeyIsGone<K, V>(m: seq<Kept<K, V>>, key: K, other: K)
    requires other == key || forall i :: 0 <= i < |m| ==> m[i].key != other
    ensures forall i :: 0 <= i < |Without(m, key)| ==> Without(m, key)[i].key != other
  {
    if m != [] { KeyIsGone(m[1..], key, other); }
  }

  lemma {:induction false} WithoutIsDistinct<K, V>(m: seq<Kept<K, V>>, key: K)
    requires Distinct(m)
    ensures Distinct(Without(m, key)) && |Without(m, key)| == if Get(m, key).Some? then |m| - 1 else |m|
    ensures Get(m, key).None? ==> Without(m, key) == m
  {
    if m != [] {
      var tail := m[1..];
      assert forall i :: 0 < i < |m| ==> m[i] == tail[i - 1];
      WithoutIsDistinct(tail, key);
      KeyIsGone(tail, key, m[0].key);
      GetMeans(tail, key);
    }
  }

  lemma {:induction false} GetAppended<K, V>(m: seq<Kept<K, V>>, entry: Kept<K, V>, key: K)
    ensures Get(m + [entry], key) ==
      if Get(m, key).Some? then Get(m, key) else if entry.key == key then Some(entry.value) else None
  {
    if m != [] {
      assert (m + [entry])[1..] == m[1..] + [entry];
      GetAppended(m[1..], entry, key);
    }
  }

  /**
   * A full memory that sets a new key forgets its oldest entry; nothing else
   * is ever forgotten, and it never holds more than its limit.
   */
  lemma OnlyTheOldestIsForgotten<K, V>(m: seq<Kept<K, V>>, key: K, value: V, limit: nat, k: K)
    requires Distinct(m) && |m| <= limit && 0 < limit
    ensures var after := Put(m, key, value, limit);
      && Distinct(after) && |after| <= limit
      && Get(after, k) ==
        if k == key then Some(value)
        else if |m| == limit && Get(m, key).None? && m[0].key == k then None
        else Get(m, k)
  {
    WithoutIsDistinct(m, key);
    if k != key { OthersStay(m, key, k); }
    var rest := Without(m, key);
    KeyIsGone(m, key, key);
    hide Without;
    if |rest| < limit {
      Appended(rest, key, value, k);
    } else {
      var tail := rest[1..];
      assert Newest(rest + [Kept(key, value)], limit) == tail + [Kept(key, value)];
      GetMeans(tail, k);
      Appended(tail, key, value, k);
    }
  }

  lemma Appended<K, V>(rest: seq<Kept<K, V>>, key: K, value: V, k: K)
    requires Distinct(rest) && forall i :: 0 <= i < |rest| ==> rest[i].key != key
    ensures Distinct(rest + [Kept(key, value)])
    ensures Get(rest + [Kept(key, value)], k) == if k == key then Some(value) else Get(rest, k)
  {
    GetMeans(rest, key);
    GetAppended(rest, Kept(key, value), k);
  }

  /** Never deferred, or the document moved since, or the backoff is over. */
  predicate BackoffOver(withdrawals: seq<Kept<Ref, Deferral>>, ref: Ref, now: int, revision: nat) {
    match Get(withdrawals, ref)
    case None => true
    case Some(d) => d.failures == 0 || d.revision != revision || d.at <= now
  }

  /** The pause before the next attempt: five minutes after the first failure, then fifteen, then an hour each time. */
  function Pause(failures: nat): int {
    if failures <= 1 then 300000 else if failures == 2 then 900000 else 3600000
  }

  /**
   * A withdrawal deferred at `now` after that many failures is held back
   * until its pause is over, unless the document moves on; no other
   * withdrawal is held back by it.
   */
  lemma DeferredUntil(m: seq<Kept<Ref, Deferral>>, ref: Ref, failures: nat, now: int, revision: nat, limit: nat)
    requires Distinct(m) && |m| <= limit && 0 < limit && 0 < failures
    ensures var after := Put(m, ref, Deferral(failures, now + BackoffMinutes(failures) * MINUTE, revision), limit);
      && (forall t, r :: BackoffOver(after, ref, t, r) <==> r != revision || now + Pause(failures) <= t)
      && (forall other, t, r :: other != ref && BackoffOver(m, other, t, r) ==> BackoffOver(after, other, t, r))
  {
    var entry := Deferral(failures, now + BackoffMinutes(failures) * MINUTE, revision);
    OnlyTheOldestIsForgotten(m, ref, entry, limit, ref);
    forall other, t, r | other != ref && BackoffOver(m, other, t, r)
      ensures BackoffOver(Put(m, ref, entry, limit), other, t, r)
    {
      OnlyTheOldestIsForgotten(m, ref, entry, limit, other);
    }
  }

  /** A withdrawal that was never deferred, or was cleared, is held back by nothing. */
  lemma ClearedIsReady(m: seq<Kept<Ref, Deferral>>, ref: Ref, now: int, revision: nat)
    ensures BackoffOver(Without(m, ref), ref, now, revision) && BackoffOver([], ref, now, revision)
  {
    KeyIsGone(m, ref, ref);
    GetMeans(Without(m, ref), ref);
  }

  class TransientAttempts {
    /** How many entries each memory holds at most; 10,000 in the source. */
    const limit: nat
    var counts: seq<Kept<AttemptKey, nat>>
    var withdrawals: seq<Kept<Ref, Deferral>>
    /** For each type, the id of the last draft row its retry tier examined; 0 is the start. */
    var cursors: map<Uid, nat>

    constructor (limit: nat)
      ensures this.limit == limit && counts == [] && withdrawals == [] && cursors == map[]
    {
      this.limit, counts, withdrawals, cursors := limit, [], [], map[];
    }

    function CountOf(key: AttemptKey): nat
      reads this
    {
      match Get(counts, key) case None => 0 case Some(count) => count
    }

    function CursorOf(uid: Uid): nat
      reads this
    {
      if uid in cursors then cursors[uid] else 0
    }

    function WithdrawalFailures(ref: Ref): nat
      reads this
    {
      match Get(withdrawals, ref) case None => 0 case Some(d) => d.failures
    }

    /** Counts one more failure; true when the bound is reached. */
    method Fail(key: AttemptKey) returns (exhausted: bool)
      modifies this`counts
      ensures counts == Put(old(counts), key, old(CountOf(key)) + 1, limit)
      ensures exhausted <==> SCHEDULE_TRANSIENT_ATTEMPTS <= old(CountOf(key)) + 1
    {
      var count := CountOf(key) + 1;
      counts := Without(counts, key) + [Kept(key, count)];
      ghost var all := counts;
      while limit < |counts|
        invariant Newest(counts, limit) == Newest(all, limit)
      {
        counts := counts[1..];
      }
      exhausted := SCHEDULE_TRANSIENT_ATTEMPTS <= count;
    }

    method Clear(key: AttemptKey)
      modifies this`counts
      ensures counts == Without(old(counts), key)
    {
      counts := Without(counts, key);
    }

    /** Defers a failed withdrawal by the next backoff step from `now`. */
    method DeferWithdrawal(ref: Ref, now: int, revision: nat) returns (at: int)
      modifies this`withdrawals
      ensures var failures := old(WithdrawalFailures(ref)) + 1;
        at == now + BackoffMinutes(failures) * MINUTE &&
        withdrawals == Put(old(withdrawals), ref, Deferral(failures, at, revision), limit)
    {
      var failures := WithdrawalFailures(ref) + 1;
      at := now + BackoffMinutes(failures) * MINUTE;
      withdrawals := Without(withdrawals, ref) + [Kept(ref, Deferral(failures, at, revision))];
      ghost var all := withdrawals;
      while limit < |withdrawals|
        invariant Newest(withdrawals, limit) == Newest(all, limit)
      {
        withdrawals := withdrawals[1..];
      }
    }

    method ClearWithdrawal(ref: Ref)
      modifies this`withdrawals
      ensures withdrawals == Without(old(withdrawals), ref)
    {
      withdrawals := Without(withdrawals, ref);
    }
  }
}
