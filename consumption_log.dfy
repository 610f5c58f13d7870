/**
 * The consumption ledger: one entry per cycle, keyed by the cycle's start time.
 * The table is a sequence in insertion order; a lookup by key returns the first
 * matching row, as a filtered query's `first()` does.
 */
module ConsumptionLog {
  import opened Wrappers

  /** One row of the ledger. `consumptionLimit` is nullable: the row that a
      rollover creates for a cycle without consumption does not set it. */
  datatype LogEntry = LogEntry(
    cycleStart: int,
    cycleEnd: int,
    count: int,
    limitExceeded: bool,
    consumptionLimit: Option<int>)

  type Log = seq<LogEntry>

  /** The history query returns at most this many entries. */
  const HistoryLimit: nat := 30

  predicate HasKey(log: Log, key: int) {
    exists k :: 0 <= k < |log| && log[k].cycleStart == key
  }

  /** At most one entry per cycle start. */
  predicate KeysUnique(log: Log) {
    forall i, j :: 0 <= i < j < |log| ==> log[i].cycleStart != log[j].cycleStart
  }

  /** Index of the first entry whose cycle start is `key`. */
  function FindEntry(log: Log, key: int): (r: Option<nat>)
    ensures r.Some? ==> r.value < |log| && log[r.value].cycleStart == key
    ensures r.Some? ==> forall k :: 0 <= k < r.value ==> log[k].cycleStart != key
    ensures r.None? <==> !HasKey(log, key)
  {
    if |log| == 0 then None
    else if log[0].cycleStart == key then Some(0)
    else
      match FindEntry(log[1..], key)
      case None =>
        assert forall k :: 1 <= k < |log| ==> log[k] == log[1..][k - 1];
        None
      case Some(i) => Some(i + 1)
  }

  function Lookup(log: Log, key: int): Option<LogEntry> {
    match FindEntry(log, key)
    case Some(i) => Some(log[i])
    case None => None
  }

  /** The count recorded so far for the cycle starting at `key` (0 when it has no entry). */
  function CountOf(log: Log, key: int): int {
    match Lookup(log, key)
    case Some(e) => e.count
    case None => 0
  }

  /** Replacing the first entry for a key by another entry with the same key keeps it
      the first one found, and keeps the keys unique. */
  lemma {:induction false} ReplaceFound(log: Log, i: nat, e: LogEntry)
    requires FindEntry(log, e.cycleStart) == Some(i)
    ensures FindEntry(log[i := e], e.cycleStart) == Some(i)
    ensures KeysUnique(log) ==> KeysUnique(log[i := e])
  {
    var r := log[i := e];
    assert r[i].cycleStart == e.cycleStart;
    assert forall k :: 0 <= k < i ==> r[k] == log[k];
  }

  /** Appending an entry with a key not yet present makes it the entry found for that key. */
  lemma {:induction false} AppendNew(log: Log, e: LogEntry)
    requires !HasKey(log, e.cycleStart)
    ensures FindEntry(log + [e], e.cycleStart) == Some(|log|)
    ensures KeysUnique(log) ==> KeysUnique(log + [e])
  {
    var r := log + [e];
    assert r[|log|].cycleStart == e.cycleStart;
    assert forall k :: 0 <= k < |log| ==> r[k] == log[k];
  }

  /**
   * Adds `delta` drinks to the entry of the cycle starting at `key`, recomputing its
   * exceeded flag and limit, or creates that entry. A new entry's flag compares the
   * device's whole count `deviceCount`, not `delta`, against the limit.
   */
  function MergeConsumption(log: Log, key: int, cycleEnd: int, delta: int, deviceCount: int, limit: int): (r: Log)
    ensures KeysUnique(log) ==> KeysUnique(r)
    ensures Lookup(r, key).Some? && Lookup(r, key).value.cycleStart == key
    ensures CountOf(r, key) == CountOf(log, key) + delta
    ensures Lookup(r, key).value.consumptionLimit == Some(limit)
    ensures HasKey(log, key) ==>
              |r| == |log| &&
              Lookup(r, key).value.cycleEnd == Lookup(log, key).value.cycleEnd &&
              Lookup(r, key).value.limitExceeded == (CountOf(r, key) > limit)
    ensures !HasKey(log, key) ==>
              r == log + [LogEntry(key, cycleEnd, delta, deviceCount > limit, Some(limit))]
    ensures forall k :: 0 <= k < |log| && log[k].cycleStart != key ==> r[k] == log[k]
  {
    match FindEntry(log, key)
    case Some(i) =>
      var c := log[i].count + delta;
      var e := log[i].(count := c, limitExceeded := c > limit, consumptionLimit := Some(limit));
      ReplaceFound(log, i, e);
      log[i := e]
    case None =>
      var e := LogEntry(key, cycleEnd, delta, deviceCount > limit, Some(limit));
      AppendNew(log, e);
      log + [e]
  }

  /**
   * Closes the cycle starting at `key`: its entry ends with `count` drinks and the
   * given exceeded flag. The entry is created, without a limit, when it is missing.
   */
  function FinalizeEntry(log: Log, key: int, cycleEnd: int, count: int, exceeded: bool): (r: Log)
    ensures KeysUnique(log) ==> KeysUnique(r)
    ensures Lookup(r, key).Some? && Lookup(r, key).value.cycleStart == key
    ensures CountOf(r, key) == count && Lookup(r, key).value.limitExceeded == exceeded
    ensures HasKey(log, key) ==>
              |r| == |log| &&
              Lookup(r, key).value == Lookup(log, key).value.(count := count, limitExceeded := exceeded)
    ensures !HasKey(log, key) ==> r == log + [LogEntry(key, cycleEnd, count, exceeded, None)]
    ensures forall k :: 0 <= k < |log| && log[k].cycleStart != key ==> r[k] == log[k]
  {
    match FindEntry(log, key)
    case Some(i) =>
      var e := log[i].(count := count, limitExceeded := exceeded);
      ReplaceFound(log, i, e);
      log[i := e]
    case None =>
      var e := LogEntry(key, cycleEnd, count, exceeded, None);
      AppendNew(log, e);
      log + [e]
  }

  /** Entries ordered by non-increasing cycle start. */
  predicate NewestFirst(log: Log) {
    forall i, j :: 0 <= i < j < |log| ==> log[i].cycleStart >= log[j].cycleStart
  }

  /** Inserts `e` before the first entry that is not newer than it. */
  function Insert(e: LogEntry, s: Log): Log {
    if s == [] || s[0].cycleStart <= e.cycleStart then [e] + s
    else [s[0]] + Insert(e, s[1..])
  }

  lemma {:induction false} InsertPermutes(e: LogEntry, s: Log)
    ensures |Insert(e, s)| == |s| + 1
    ensures multiset(Insert(e, s)) == multiset(s) + multiset{e}
  {
    if s == [] || s[0].cycleStart <= e.cycleStart {
    } else {
      InsertPermutes(e, s[1..]);
      assert s == [s[0]] + s[1..];
    }
  }

  lemma {:induction false} InsertKeepsOrder(e: LogEntry, s: Log)
    requires NewestFirst(s)
    ensures NewestFirst(Insert(e, s))
  {
    if s == [] || s[0].cycleStart <= e.cycleStart {
      var r := [e] + s;
      forall i, j | 0 <= i < j < |r| ensures r[i].cycleStart >= r[j].cycleStart {
        if i > 0 {
          assert r[i] == s[i - 1] && r[j] == s[j - 1];
        } else {
          assert r[j] == s[j - 1];
        }
      }
    } else {
      var t := Insert(e, s[1..]);
      InsertKeepsOrder(e, s[1..]);
      InsertPermutes(e, s[1..]);
      var r := [s[0]] + t;
      forall i, j | 0 <= i < j < |r| ensures r[i].cycleStart >= r[j].cycleStart {
        if i > 0 {
          assert r[i] == t[i - 1] && r[j] == t[j - 1];
        } else {
          var x := t[j - 1];
          assert r[j] == x && x in multiset(t);
          if x != e {
            assert x in multiset(s[1..]);
            var p :| 0 <= p < |s[1..]| && s[1..][p] == x;
            assert s[p + 1] == x;
          }
        }
      }
    }
  }

  /** The whole ledger, newest cycle first: a newest-first permutation of it. */
  function SortNewestFirst(log: Log): (r: Log)
    ensures |r| == |log|
    ensures multiset(r) == multiset(log)
    ensures NewestFirst(r)
  {
    if log == [] then []
    else
      var t := SortNewestFirst(log[1..]);
      InsertPermutes(log[0], t);
      InsertKeepsOrder(log[0], t);
      assert log == [log[0]] + log[1..];
      Insert(log[0], t)
  }

  /**
   * The history query: the `HistoryLimit` entries with the latest cycle start, newest
   * first. Every entry it leaves out is no newer than any entry it returns.
   */
  function History(log: Log): (r: Log)
    ensures |r| == Min(HistoryLimit, |log|)
    ensures NewestFirst(r)
    ensures multiset(r) <= multiset(log)
    ensures |log| <= HistoryLimit ==> multiset(r) == multiset(log)
    ensures forall e, k :: e in multiset(log) - multiset(r) && 0 <= k < |r| ==> e.cycleStart <= r[k].cycleStart
  {
    var s := SortNewestFirst(log);
    if |s| <= HistoryLimit then s
    else
      PrefixOfNewestFirst(s, HistoryLimit);
      s[..HistoryLimit]
  }

  /** Cutting a newest-first sequence at `n`: the prefix is newest-first, the two parts
      together are the whole, and nothing in the rest is newer than the prefix. */
  lemma PrefixOfNewestFirst(s: Log, n: nat)
    requires NewestFirst(s) && n <= |s|
    ensures NewestFirst(s[..n])
    ensures multiset(s) == multiset(s[..n]) + multiset(s[n..])
    ensures forall e, k :: e in multiset(s[n..]) && 0 <= k < n ==> e.cycleStart <= s[..n][k].cycleStart
  {
    assert s == s[..n] + s[n..];
    forall e, k | e in multiset(s[n..]) && 0 <= k < n ensures e.cycleStart <= s[..n][k].cycleStart {
      var q :| 0 <= q < |s[n..]| && s[n..][q] == e;
      assert s[n + q] == e;
    }
  }
}
