/** The telemetry history (aggregator/src/one_mail_agg/fleet_metrics.py): one row per
    account, day and five-minute bucket, overwritten in place, with the day's high-water
    marks and the streak of valid samples read back from the rows themselves.

    Times are seconds since the epoch and days are day numbers, both in UTC. The table is the
    list of its rows; a query is a scan of that list. */
module FleetHistory {
  import opened Wrappers

  const MAX_SAFE_INTEGER: nat := 9_007_199_254_740_991
  const MAX_ACCOUNTS: nat := 12
  const MAX_DATABASES: nat := 10
  const SAMPLE_SECONDS: nat := 300
  const DAY_SECONDS: nat := 86_400
  const DAY_BUCKETS: nat := 288
  const FRESH_SECONDS: nat := 900
  const HISTORY_DAYS: nat := 8
  const MAX_ROWS: nat := MAX_ACCOUNTS * HISTORY_DAYS * DAY_BUCKETS

  /** Rows read, rows written and worker requests; a counter that was not measured is None. */
  type Counters = c: seq<Option<nat>> | |c| == 3 witness [None, None, None]

  datatype Confidence = Authoritative | Partial | Stale

  datatype Snapshot = Snapshot(
    account: string,
    day: int,
    observed: int,
    counters: Counters,
    confidence: Confidence,
    shards: nat,
    issues: seq<string>)

  datatype Sample = Sample(confidence: Confidence, issues: seq<string>, consecutive: nat, eligible: bool)

  datatype Row = Row(account: string, day: int, bucket: int, observed: int, counters: Counters, valid: bool)

  datatype Error = InvalidCount | InvalidCounter | InvalidDatabases | OutOfOrder | WriteFailed

  // ----- Queries -----

  predicate Of(r: Row, account: string, day: int) { r.account == account && r.day == day }

  function Larger(x: Option<nat>, y: Option<nat>): Option<nat> {
    if x.None? then y
    else if y.None? then x
    else if x.value < y.value then y else x
  }

  /** `SELECT MAX(counter)` for one account and day. */
  function High(t: seq<Row>, account: string, day: int, c: nat): Option<nat>
    requires c < 3
  {
    if t == [] then None
    else
      var r := t[|t| - 1];
      var rest := High(t[..|t| - 1], account, day, c);
      if Of(r, account, day) then Larger(rest, r.counters[c]) else rest
  }

  function Highs(t: seq<Row>, account: string, day: int): Counters {
    [High(t, account, day, 0), High(t, account, day, 1), High(t, account, day, 2)]
  }

  /** `SELECT MAX(observed_at)` for one account and day. */
  function LastObserved(t: seq<Row>, account: string, day: int): Option<int> {
    if t == [] then None
    else
      var r := t[|t| - 1];
      var rest := LastObserved(t[..|t| - 1], account, day);
      if Of(r, account, day) && (rest.None? || rest.value < r.observed) then Some(r.observed) else rest
  }

  /** The latest row of one account, day and bucket. A table has at most one. */
  function Last(t: seq<Row>, account: string, day: int, bucket: int): Option<Row> {
    if t == [] then None
    else
      var r := t[|t| - 1];
      if Of(r, account, day) && r.bucket == bucket then Some(r) else Last(t[..|t| - 1], account, day, bucket)
  }

  /** The row of the highest bucket below `bucket`. */
  function Below(t: seq<Row>, account: string, day: int, bucket: int): Option<Row> {
    if t == [] then None
    else
      var r := t[|t| - 1];
      var rest := Below(t[..|t| - 1], account, day, bucket);
      if Of(r, account, day) && r.bucket < bucket && (rest.None? || rest.value.bucket < r.bucket) then Some(r)
      else rest
  }

  /** `... bucket < ? ORDER BY bucket DESC LIMIT 2`. */
  function Previous(t: seq<Row>, account: string, day: int, bucket: int): seq<Row> {
    match Below(t, account, day, bucket)
    case None => []
    case Some(r) =>
      match Below(t, account, day, r.bucket)
      case None => [r]
      case Some(q) => [r, q]
  }

  // ----- Updates -----

  predicate SameKey(r: Row, q: Row) { Of(r, q.account, q.day) && r.bucket == q.bucket }

  function Position(t: seq<Row>, row: Row): (i: nat)
    ensures i <= |t| && (i < |t| ==> SameKey(t[i], row))
  {
    if t == [] || SameKey(t[0], row) then 0 else 1 + Position(t[1..], row)
  }

  /** `INSERT ... ON CONFLICT DO UPDATE`. */
  function Upsert(t: seq<Row>, row: Row): seq<Row> {
    var i := Position(t, row);
    if i < |t| then t[i := row] else t + [row]
  }

  function Keep(p: Row -> bool, t: seq<Row>): (r: seq<Row>)
    ensures |r| <= |t|
  {
    if t == [] then []
    else
      var rest := Keep(p, t[..|t| - 1]);
      if p(t[|t| - 1]) then rest + [t[|t| - 1]] else rest
  }

  function Purged(t: seq<Row>, cutoff: int): seq<Row> { Keep((r: Row) => r.day >= cutoff, t) }

  predicate TextLess(a: string, b: string) {
    if b == [] then false
    else if a == [] then true
    else a[0] < b[0] || (a[0] == b[0] && TextLess(a[1..], b[1..]))
  }

  /** `ORDER BY utc_date DESC, bucket DESC, account_key`. */
  predicate Before(r: Row, q: Row) {
    r.day > q.day
    || (r.day == q.day && (r.bucket > q.bucket || (r.bucket == q.bucket && TextLess(r.account, q.account))))
  }

  function Rank(t: seq<Row>, row: Row): nat {
    if t == [] then 0
    else Rank(t[..|t| - 1], row) + if Before(t[|t| - 1], row) then 1 else 0
  }

  /** Only the first MAX_ROWS rows in that order stay. */
  function Bounded(t: seq<Row>): seq<Row> { Keep(r => Rank(t, r) < MAX_ROWS, t) }

  // ----- Judging and storing one sample -----

  function DayOf(time: int): int { time / DAY_SECONDS }

  function Bucket(s: Snapshot): int {
    var dayEnd := (s.day + 1) * DAY_SECONDS - 1;
    (if s.observed < dayEnd then s.observed else dayEnd) / SAMPLE_SECONDS
  }

  predicate IsStale(s: Snapshot, now: int) {
    s.day != DayOf(now) || DayOf(s.observed) != s.day || !(0 <= now - s.observed <= FRESH_SECONDS)
  }

  predicate Regressed(current: Counters, high: Counters) {
    exists c | 0 <= c < 3 :: current[c].Some? && high[c].Some? && current[c].value < high[c].value
  }

  function Issues(s: Snapshot, now: int, high: Counters): seq<string> {
    s.issues
    + (if IsStale(s, now) then ["STALE_METRICS"] else [])
    + (if None in s.counters || s.shards == 0 then ["MISSING_METRICS"] else [])
    + (if Regressed(s.counters, high) then ["COUNTER_REGRESSION"] else [])
  }

  predicate IsValid(s: Snapshot, now: int, high: Counters) {
    s.confidence == Authoritative && Issues(s, now, high) == []
  }

  /** The loop over the previous rows: how far the streak reaches. */
  function Streak(valid: bool, previous: seq<Row>, bucket: int, consecutive: nat): nat {
    if previous == [] || !valid || !previous[0].valid || previous[0].bucket != bucket - consecutive || consecutive >= 3
    then consecutive
    else Streak(valid, previous[1..], bucket, consecutive + 1)
  }

  /** `_evaluate`. */
  function Evaluate(s: Snapshot, now: int, high: Counters, previous: seq<Row>, bucket: int): Sample {
    var issues := Issues(s, now, high);
    var valid := IsValid(s, now, high);
    var consecutive := Streak(valid, previous, bucket, if valid then 1 else 0);
    Sample(if IsStale(s, now) then Stale else if issues != [] then Partial else s.confidence,
           issues, consecutive, valid && consecutive >= 3)
  }

  function Merged(current: Counters, high: Counters): Counters {
    [Larger(current[0], high[0]), Larger(current[1], high[1]), Larger(current[2], high[2])]
  }

  predicate CountersInRange(c: Counters) {
    forall i | 0 <= i < 3 :: c[i].Some? ==> c[i].value <= MAX_SAFE_INTEGER
  }

  /** One snapshot inside the transaction. */
  function Store(t: seq<Row>, s: Snapshot, now: int): Result<(seq<Row>, Sample), Error> {
    if !CountersInRange(s.counters) then Err(InvalidCounter)
    else if s.shards > MAX_DATABASES then Err(InvalidDatabases)
    else
      var b := Bucket(s);
      var high := Highs(t, s.account, s.day);
      var sample := Evaluate(s, now, high, Previous(t, s.account, s.day, b), b);
      var last := LastObserved(t, s.account, s.day);
      if last.Some? && last.value > s.observed then Err(OutOfOrder)
      else
        var row := Row(s.account, s.day, b, s.observed, Merged(s.counters, high), sample.confidence == Authoritative);
        Ok((Upsert(t, row), sample))
  }

  function StoreAll(t: seq<Row>, snapshots: seq<Snapshot>, now: int): Result<(seq<Row>, seq<Sample>), Error> {
    if snapshots == [] then Ok((t, []))
    else
      match StoreAll(t, snapshots[..|snapshots| - 1], now)
      case Err(e) => Err(e)
      case Ok((t1, samples)) =>
        match Store(t1, snapshots[|snapshots| - 1], now)
        case Err(e) => Err(e)
        case Ok((t2, sample)) => Ok((t2, samples + [sample]))
  }

  predicate DistinctAccounts(snapshots: seq<Snapshot>) {
    forall i, j | 0 <= i < j < |snapshots| :: snapshots[i].account != snapshots[j].account
  }

  /** The report transaction: purge, store each snapshot, bound the table; or nothing at all. */
  function Report(t: seq<Row>, snapshots: seq<Snapshot>, now: int): Result<(seq<Row>, seq<Sample>), Error> {
    if !(1 <= |snapshots| <= MAX_ACCOUNTS) || !DistinctAccounts(snapshots) then Err(InvalidCount)
    else
      match StoreAll(Purged(t, DayOf(now) - (HISTORY_DAYS - 1)), snapshots, now)
      case Err(e) => Err(e)
      case Ok((t1, samples)) => Ok((Bounded(t1), samples))
  }

  class History {
    var rows: seq<Row>

    constructor ()
      ensures rows == []
    {
      rows := [];
    }

    /** `record_history`: `commits` says whether the database lets the transaction through. */
    method Record(snapshots: seq<Snapshot>, now: int, commits: bool) returns (r: Result<seq<Sample>, Error>)
      modifies this
      ensures match Report(old(rows), snapshots, now)
              case Err(e) => r == Err(e) && rows == old(rows)
              case Ok((t, samples)) =>
                if commits then r == Ok(samples) && rows == t else r == Err(WriteFailed) && rows == old(rows)
    {
      if !(1 <= |snapshots| <= MAX_ACCOUNTS) || !DistinctAccounts(snapshots) {
        return Err(InvalidCount);
      }
      var t := Purged(rows, DayOf(now) - (HISTORY_DAYS - 1));
      ghost var start := t;
      var samples: seq<Sample> := [];
      for i := 0 to |snapshots|
        invariant StoreAll(start, snapshots[..i], now) == Ok((t, samples))
      {
        assert snapshots[..i + 1][..i] == snapshots[..i];
        var stored := Store(t, snapshots[i], now);
        if stored.Err? {
          StoreAllStops(start, snapshots, i + 1, now);
          return Err(stored.error);
        }
        t, samples := stored.value.0, samples + [stored.value.1];
      }
      assert snapshots[..|snapshots|] == snapshots;
      if !commits {
        return Err(WriteFailed);
      }
      rows := Bounded(t);
      r := Ok(samples);
    }
  }

  lemma {:induction false} StoreAllStops(t: seq<Row>, snapshots: seq<Snapshot>, n: nat, now: int)
    requires n <= |snapshots| && StoreAll(t, snapshots[..n], now).Err?
    ensures StoreAll(t, snapshots, now) == StoreAll(t, snapshots[..n], now)
    decreases |snapshots| - n
  {
    if n == |snapshots| {
      assert snapshots[..n] == snapshots;
    } else {
      assert snapshots[..n + 1][..n] == snapshots[..n];
      StoreAllStops(t, snapshots, n + 1, now);
    }
  }
}
