/** Whole histories of telemetry reports, against a log that nothing is ever removed from.

    The collector produces each report: at most twelve accounts, a day within the retained
    window of the observation, an observation not after the recording. Clocks may jump back. */
module FleetRuns {
  import opened Wrappers
  import opened FleetHistory

  // ----- What the queries mean -----

  predicate AtMost(x: Option<nat>, y: Option<nat>) { x.Some? ==> y.Some? && x.value <= y.value }

  lemma {:induction false} HighBounds(t: seq<Row>, a: string, d: int, c: nat)
    requires c < 3
    ensures forall r | r in t && Of(r, a, d) :: AtMost(r.counters[c], High(t, a, d, c))
    ensures High(t, a, d, c).Some? ==> exists r :: r in t && Of(r, a, d) && r.counters[c] == High(t, a, d, c)
  {
    if t != [] {
      HighBounds(t[..|t| - 1], a, d, c);
      assert t == t[..|t| - 1] + [t[|t| - 1]];
      assert t[|t| - 1] in t;
    }
  }

  lemma {:induction false} HighIs(t: seq<Row>, a: string, d: int, c: nat, h: Option<nat>)
    requires c < 3
    requires forall r | r in t && Of(r, a, d) :: AtMost(r.counters[c], h)
    requires h.Some? ==> exists r :: r in t && Of(r, a, d) && r.counters[c] == h
    ensures High(t, a, d, c) == h
  {
    HighBounds(t, a, d, c);
  }

  predicate NoLater(x: Option<int>, time: int) { x.Some? ==> x.value <= time }

  lemma {:induction false} ObservedBounds(t: seq<Row>, a: string, d: int)
    ensures forall r | r in t && Of(r, a, d) :: LastObserved(t, a, d).Some? && r.observed <= LastObserved(t, a, d).value
    ensures LastObserved(t, a, d).Some? ==>
              exists r :: r in t && Of(r, a, d) && Some(r.observed) == LastObserved(t, a, d)
  {
    if t != [] {
      ObservedBounds(t[..|t| - 1], a, d);
      assert t == t[..|t| - 1] + [t[|t| - 1]];
      assert t[|t| - 1] in t;
    }
  }

  lemma {:induction false} ObservedIs(t: seq<Row>, a: string, d: int, h: Option<int>)
    requires forall r | r in t && Of(r, a, d) :: h.Some? && r.observed <= h.value
    requires h.Some? ==> exists r :: r in t && Of(r, a, d) && Some(r.observed) == h
    ensures LastObserved(t, a, d) == h
  {
    ObservedBounds(t, a, d);
  }

  ghost predicate UniqueKeys(t: seq<Row>) {
    forall i, j | 0 <= i < j < |t| :: !SameKey(t[i], t[j])
  }

  lemma {:induction false} LastFinds(t: seq<Row>, a: string, d: int, b: int)
    ensures match Last(t, a, d, b)
            case Some(r) => r in t && Of(r, a, d) && r.bucket == b
            case None => forall r | r in t :: !(Of(r, a, d) && r.bucket == b)
  {
    if t != [] {
      LastFinds(t[..|t| - 1], a, d, b);
      assert t == t[..|t| - 1] + [t[|t| - 1]];
    }
  }

  lemma {:induction false} UniqueRow(t: seq<Row>, r: Row, q: Row)
    requires UniqueKeys(t) && r in t && q in t && SameKey(r, q)
    ensures r == q
  {
    var i :| 0 <= i < |t| && t[i] == r;
    var j :| 0 <= j < |t| && t[j] == q;
    assert !(i < j) && !(j < i);
  }

  lemma {:induction false} LastIs(t: seq<Row>, r: Row)
    requires UniqueKeys(t) && r in t
    ensures Last(t, r.account, r.day, r.bucket) == Some(r)
  {
    LastFinds(t, r.account, r.day, r.bucket);
    UniqueRow(t, Last(t, r.account, r.day, r.bucket).value, r);
  }

  lemma {:induction false} BelowFinds(t: seq<Row>, a: string, d: int, b: int)
    ensures match Below(t, a, d, b)
            case Some(r) => r in t && Of(r, a, d) && r.bucket < b
                            && forall q | q in t && Of(q, a, d) && q.bucket < b :: q.bucket <= r.bucket
            case None => forall q | q in t && Of(q, a, d) :: q.bucket >= b
  {
    if t != [] {
      BelowFinds(t[..|t| - 1], a, d, b);
      assert t == t[..|t| - 1] + [t[|t| - 1]];
    }
  }

  /** The latest sample of a bucket exists and was valid. */
  predicate ValidAt(t: seq<Row>, a: string, d: int, b: int) {
    Last(t, a, d, b).Some? && Last(t, a, d, b).value.valid
  }

  /** The nearest lower row is the one just below exactly when that bucket has one. */
  lemma {:induction false} BelowAdjacent(t: seq<Row>, a: string, d: int, b: int)
    requires UniqueKeys(t)
    ensures Below(t, a, d, b).Some? && Below(t, a, d, b).value.bucket == b - 1
            ==> Last(t, a, d, b - 1) == Below(t, a, d, b)
    ensures Last(t, a, d, b - 1).Some? ==> Below(t, a, d, b) == Last(t, a, d, b - 1)
  {
    BelowFinds(t, a, d, b);
    LastFinds(t, a, d, b - 1);
    if Last(t, a, d, b - 1).Some? {
      var r := Last(t, a, d, b - 1).value;
      UniqueRow(t, r, Below(t, a, d, b).value);
    } else if Below(t, a, d, b).Some? {
      assert Below(t, a, d, b).value in t;
    }
  }

  /** The streak reaches exactly as far back as adjacent buckets hold a valid latest sample. */
  lemma {:induction false} StreakCounts(t: seq<Row>, a: string, d: int, b: int, valid: bool)
    requires UniqueKeys(t)
    ensures Streak(valid, Previous(t, a, d, b), b, if valid then 1 else 0) ==
            if !valid then 0
            else if !ValidAt(t, a, d, b - 1) then 1
            else if !ValidAt(t, a, d, b - 2) then 2
            else 3
  {
    var previous := Previous(t, a, d, b);
    FirstPrevious(t, a, d, b);
    if valid && ValidAt(t, a, d, b - 1) {
      FirstPrevious(t, a, d, b - 1);
      LastFinds(t, a, d, b - 1);
      assert previous[0] == Last(t, a, d, b - 1).value;
      assert previous[1..] == Previous(t, a, d, b - 1)[..|previous| - 1];
      StreakTail(previous[1..], b);
    }
  }

  /** The first previous row continues the streak exactly when the bucket just below does. */
  lemma {:induction false} FirstPrevious(t: seq<Row>, a: string, d: int, b: int)
    requires UniqueKeys(t)
    ensures var p := Previous(t, a, d, b);
            ValidAt(t, a, d, b - 1) <==> p != [] && p[0].valid && p[0].bucket == b - 1
    ensures ValidAt(t, a, d, b - 1) ==> Previous(t, a, d, b)[0] == Last(t, a, d, b - 1).value
  {
    BelowAdjacent(t, a, d, b);
    BelowFinds(t, a, d, b);
    LastFinds(t, a, d, b - 1);
  }

  lemma {:induction false} StreakTail(rest: seq<Row>, b: int)
    requires |rest| <= 1
    ensures Streak(true, rest, b, 2) == if rest != [] && rest[0].valid && rest[0].bucket == b - 2 then 3 else 2
  {
  }

  // ----- What the updates do to the queries -----

  lemma {:induction false} UpsertContains(t: seq<Row>, row: Row)
    ensures row in Upsert(t, row)
    ensures forall x | x in Upsert(t, row) :: x == row || x in t
    ensures forall x | x in t && !SameKey(x, row) :: x in Upsert(t, row)
  {
    var i := Position(t, row);
    var u := Upsert(t, row);
    if i < |t| {
      assert u[i] == row;
    } else {
      assert u[|t|] == row;
    }
    forall x | x in t && !SameKey(x, row)
      ensures x in u
    {
      var j :| 0 <= j < |t| && t[j] == x;
      assert u[j] == x;
    }
  }

  lemma {:induction false} PositionFirst(t: seq<Row>, row: Row)
    ensures forall k | 0 <= k < Position(t, row) :: !SameKey(t[k], row)
  {
    if t != [] && !SameKey(t[0], row) {
      PositionFirst(t[1..], row);
      assert forall k | 0 < k < Position(t, row) :: t[k] == t[1..][k - 1];
    }
  }

  lemma {:induction false} UpsertUnique(t: seq<Row>, row: Row)
    requires UniqueKeys(t)
    ensures UniqueKeys(Upsert(t, row))
  {
    PositionFirst(t, row);
  }

  /** Overwriting a row in place cannot lower a high-water mark the new row carries. */
  lemma {:induction false} UpsertHigh(t: seq<Row>, row: Row, a: string, d: int, c: nat)
    requires c < 3 && AtMost(High(t, row.account, row.day, c), row.counters[c])
    ensures High(Upsert(t, row), a, d, c) == if Of(row, a, d) then row.counters[c] else High(t, a, d, c)
  {
    UpsertContains(t, row);
    HighBounds(t, a, d, c);
    var u := Upsert(t, row);
    if Of(row, a, d) {
      HighIs(u, a, d, c, row.counters[c]);
    } else {
      if High(t, a, d, c).Some? {
        var r :| r in t && Of(r, a, d) && r.counters[c] == High(t, a, d, c);
        assert r in u;
      }
      HighIs(u, a, d, c, High(t, a, d, c));
    }
  }

  /** Nor can it lower the day's last observation. */
  lemma {:induction false} UpsertObserved(t: seq<Row>, row: Row, a: string, d: int)
    requires NoLater(LastObserved(t, row.account, row.day), row.observed)
    ensures LastObserved(Upsert(t, row), a, d) == if Of(row, a, d) then Some(row.observed) else LastObserved(t, a, d)
  {
    UpsertContains(t, row);
    ObservedBounds(t, a, d);
    var u := Upsert(t, row);
    if Of(row, a, d) {
      ObservedIs(u, a, d, Some(row.observed));
    } else {
      if LastObserved(t, a, d).Some? {
        var r :| r in t && Of(r, a, d) && Some(r.observed) == LastObserved(t, a, d);
        assert r in u;
      }
      ObservedIs(u, a, d, LastObserved(t, a, d));
    }
  }

  lemma {:induction false} UpsertLast(t: seq<Row>, row: Row, a: string, d: int, b: int)
    requires UniqueKeys(t)
    ensures Last(Upsert(t, row), a, d, b) == if Of(row, a, d) && row.bucket == b then Some(row) else Last(t, a, d, b)
  {
    UpsertContains(t, row);
    UpsertUnique(t, row);
    var u := Upsert(t, row);
    LastFinds(t, a, d, b);
    LastFinds(u, a, d, b);
    if Of(row, a, d) && row.bucket == b {
      LastIs(u, row);
    } else if Last(t, a, d, b).Some? {
      LastIs(u, Last(t, a, d, b).value);
    }
  }

  lemma {:induction false} KeepIn(p: Row -> bool, t: seq<Row>)
    ensures forall r :: r in Keep(p, t) <==> r in t && p(r)
  {
    if t != [] {
      KeepIn(p, t[..|t| - 1]);
      assert t == t[..|t| - 1] + [t[|t| - 1]];
    }
  }

  lemma {:induction false} KeepUnique(p: Row -> bool, t: seq<Row>)
    requires UniqueKeys(t)
    ensures UniqueKeys(Keep(p, t))
  {
    if t != [] {
      var init, r := t[..|t| - 1], t[|t| - 1];
      KeepUnique(p, init);
      KeepIn(p, init);
      forall q | q in Keep(p, init)
        ensures !SameKey(q, r)
      {
        var i :| 0 <= i < |init| && init[i] == q;
        assert t[i] == q;
      }
    }
  }

  /** Deleting rows of other accounts or days changes neither query. */
  lemma {:induction false} KeepHigh(p: Row -> bool, t: seq<Row>, a: string, d: int, c: nat)
    requires c < 3 && forall r | r in t && Of(r, a, d) :: p(r)
    ensures High(Keep(p, t), a, d, c) == High(t, a, d, c)
  {
    var k := Keep(p, t);
    KeepIn(p, t);
    HighBounds(t, a, d, c);
    if High(t, a, d, c).Some? {
      var r :| r in t && Of(r, a, d) && r.counters[c] == High(t, a, d, c);
      assert r in k;
    }
    HighIs(k, a, d, c, High(t, a, d, c));
  }

  lemma {:induction false} KeepObserved(p: Row -> bool, t: seq<Row>, a: string, d: int)
    requires forall r | r in t && Of(r, a, d) :: p(r)
    ensures LastObserved(Keep(p, t), a, d) == LastObserved(t, a, d)
  {
    var k := Keep(p, t);
    KeepIn(p, t);
    ObservedBounds(t, a, d);
    if LastObserved(t, a, d).Some? {
      var r :| r in t && Of(r, a, d) && Some(r.observed) == LastObserved(t, a, d);
      assert r in k;
    }
    ObservedIs(k, a, d, LastObserved(t, a, d));
  }

  lemma {:induction false} KeepLast(p: Row -> bool, t: seq<Row>, a: string, d: int, b: int)
    requires UniqueKeys(t) && forall r | r in t && Of(r, a, d) :: p(r)
    ensures Last(Keep(p, t), a, d, b) == Last(t, a, d, b)
  {
    var k := Keep(p, t);
    KeepIn(p, t);
    KeepUnique(p, t);
    LastFinds(t, a, d, b);
    LastFinds(k, a, d, b);
    if Last(t, a, d, b).Some? {
      LastIs(k, Last(t, a, d, b).value);
    }
  }

  /** Keeping every row of the days from `horizon` on keeps the agreement with the log. */
  lemma {:induction false} KeepAgrees(p: Row -> bool, t: seq<Row>, log: seq<Row>, horizon: int)
    requires UniqueKeys(t) && Agrees(t, log, horizon)
    requires forall r | r in t && r.day >= horizon :: p(r)
    ensures UniqueKeys(Keep(p, t)) && Agrees(Keep(p, t), log, horizon)
  {
    KeepUnique(p, t);
    forall a, d, c | d >= horizon && 0 <= c < 3
      ensures High(Keep(p, t), a, d, c) == High(log, a, d, c)
    {
      KeepHigh(p, t, a, d, c);
    }
    forall a, d, b | d >= horizon
      ensures ValidAt(Keep(p, t), a, d, b) == ValidAt(log, a, d, b)
    {
      KeepLast(p, t, a, d, b);
      assert ValidAt(t, a, d, b) == ValidAt(log, a, d, b);
    }
    forall a, d | d >= horizon
      ensures LastObserved(Keep(p, t), a, d) == LastObserved(log, a, d)
    {
      KeepObserved(p, t, a, d);
    }
  }

  // ----- The size bound never reaches a retained day -----

  predicate WellPlaced(r: Row, accounts: set<string>, lastDay: int) {
    r.account in accounts && r.day <= lastDay
    && r.day * DAY_BUCKETS <= r.bucket < (r.day + 1) * DAY_BUCKETS
  }

  ghost predicate AllWellPlaced(t: seq<Row>, accounts: set<string>, lastDay: int) {
    forall r | r in t :: WellPlaced(r, accounts, lastDay)
  }

  type Slot = (string, int)

  function SlotOf(r: Row): Slot { (r.account, r.bucket) }

  lemma {:induction false} SlotsOfOneAccount(slots: set<Slot>, a: string, lo: int, n: nat)
    requires forall s | s in slots :: s.0 == a && lo <= s.1 < lo + n
    ensures |slots| <= n
    decreases n
  {
    if n == 0 {
      assert forall s | s in slots :: lo <= s.1 < lo;
    } else {
      var top := (a, lo + n - 1);
      SlotsOfOneAccount(slots - {top}, a, lo, n - 1);
    }
  }

  lemma {:induction false} SlotsOfAccounts(slots: set<Slot>, accounts: set<string>, lo: int, n: nat)
    requires forall s | s in slots :: s.0 in accounts && lo <= s.1 < lo + n
    ensures |slots| <= |accounts| * n
    decreases accounts
  {
    if accounts == {} {
      assert forall s | s in slots :: s.0 in {};
    } else {
      var a :| a in accounts;
      var mine := set s | s in slots && s.0 == a;
      SlotsOfOneAccount(mine, a, lo, n);
      SlotsOfAccounts(slots - mine, accounts - {a}, lo, n);
      assert slots == mine + (slots - mine);
      assert |slots| == |mine| + |slots - mine|;
      assert (|accounts| - 1) * n + n == |accounts| * n;
    }
  }

  function SlotsBefore(t: seq<Row>, row: Row): set<Slot> {
    set r | r in t && Before(r, row) :: SlotOf(r)
  }

  /** A row's rank is the number of slots filled before it. */
  lemma {:induction false} RankCounts(t: seq<Row>, row: Row, accounts: set<string>, lastDay: int)
    requires UniqueKeys(t) && AllWellPlaced(t, accounts, lastDay)
    ensures Rank(t, row) == |SlotsBefore(t, row)|
  {
    if t == [] {
      assert SlotsBefore(t, row) == {};
    } else {
      var init, last := t[..|t| - 1], t[|t| - 1];
      RankCounts(init, row, accounts, lastDay);
      NewSlot(t, accounts, lastDay);
      SlotsGrow(init, last, row);
      assert t == init + [last];
    }
  }

  lemma {:induction false} NewSlot(t: seq<Row>, accounts: set<string>, lastDay: int)
    requires t != [] && UniqueKeys(t) && AllWellPlaced(t, accounts, lastDay)
    ensures forall r | r in t[..|t| - 1] :: SlotOf(r) != SlotOf(t[|t| - 1])
  {
    var init, last := t[..|t| - 1], t[|t| - 1];
    forall r | r in init
      ensures SlotOf(r) != SlotOf(last)
    {
      var i :| 0 <= i < |init| && init[i] == r;
      assert !SameKey(t[i], last);
      assert WellPlaced(r, accounts, lastDay) && WellPlaced(last, accounts, lastDay);
    }
  }

  lemma {:induction false} SlotsGrow(init: seq<Row>, last: Row, row: Row)
    requires forall r | r in init :: SlotOf(r) != SlotOf(last)
    ensures |SlotsBefore(init + [last], row)| == |SlotsBefore(init, row)| + if Before(last, row) then 1 else 0
  {
    if Before(last, row) {
      assert SlotsBefore(init + [last], row) == SlotsBefore(init, row) + {SlotOf(last)};
    } else {
      assert SlotsBefore(init + [last], row) == SlotsBefore(init, row);
    }
  }

  lemma {:induction false} TextIrreflexive(a: string)
    ensures !TextLess(a, a)
  {
    if a != [] {
      TextIrreflexive(a[1..]);
    }
  }

  /** With at most twelve accounts, a row of the last eight days is never beyond the bound. */
  lemma {:induction false} RetainedRankFits(t: seq<Row>, row: Row, accounts: set<string>, lastDay: int)
    requires UniqueKeys(t) && AllWellPlaced(t, accounts, lastDay) && |accounts| <= MAX_ACCOUNTS
    requires row in t && row.day > lastDay - HISTORY_DAYS
    ensures Rank(t, row) < MAX_ROWS
  {
    RankCounts(t, row, accounts, lastDay);
    var before := SlotsBefore(t, row);
    var lo := (lastDay - HISTORY_DAYS + 1) * DAY_BUCKETS;
    var n := HISTORY_DAYS * DAY_BUCKETS;
    var all := before + {SlotOf(row)};
    forall s | s in all
      ensures s.0 in accounts && lo <= s.1 < lo + n
    {
      var r :| r in t && SlotOf(r) == s && (Before(r, row) || r == row);
    }
    SlotsOfAccounts(all, accounts, lo, n);
    TextIrreflexive(row.account);
    assert forall r | r in t && Before(r, row) :: SlotOf(r) != SlotOf(row) || r.day != row.day;
    assert SlotOf(row) !in before;
    assert |accounts| * n <= MAX_ACCOUNTS * n;
  }

  // ----- Histories -----

  /** `log` holds every accepted sample as it was measured; `horizon` is the highest purge
      cutoff so far: days from it on are retained. */
  datatype World = World(rows: seq<Row>, log: seq<Row>, horizon: int)

  /** The sample as accepted: raw counters, and the verdict given. */
  function Entry(t: seq<Row>, s: Snapshot, now: int): Row {
    Row(s.account, s.day, Bucket(s), s.observed, s.counters, IsValid(s, now, Highs(t, s.account, s.day)))
  }

  /** The samples a report accepts, in order. */
  function Entries(t: seq<Row>, snapshots: seq<Snapshot>, now: int): seq<Row>
    requires StoreAll(t, snapshots, now).Ok?
  {
    if snapshots == [] then []
    else
      var init := snapshots[..|snapshots| - 1];
      Entries(t, init, now) + [Entry(StoreAll(t, init, now).value.0, snapshots[|snapshots| - 1], now)]
  }

  function Cutoff(now: int): int { DayOf(now) - (HISTORY_DAYS - 1) }

  function AfterReport(w: World, snapshots: seq<Snapshot>, now: int): World {
    if Report(w.rows, snapshots, now).Err? then w
    else
      World(Report(w.rows, snapshots, now).value.0,
            w.log + Entries(Purged(w.rows, Cutoff(now)), snapshots, now),
            Horizon(w, now))
  }

  /** A snapshot as the collector makes it. */
  predicate Collected(s: Snapshot, accounts: set<string>, now: int) {
    s.account in accounts && s.observed <= now
    && DayOf(s.observed) - (HISTORY_DAYS - 1) <= s.day <= DayOf(s.observed)
  }

  predicate CollectedAll(snapshots: seq<Snapshot>, accounts: set<string>, now: int) {
    forall s | s in snapshots :: Collected(s, accounts, now)
  }

  /** From `horizon` on, the overwritten table and the full log answer alike. */
  ghost predicate Agrees(t: seq<Row>, log: seq<Row>, horizon: int) {
    && (forall a, d, c | d >= horizon && 0 <= c < 3 :: High(t, a, d, c) == High(log, a, d, c))
    && (forall a, d, b | d >= horizon :: ValidAt(t, a, d, b) == ValidAt(log, a, d, b))
    && (forall a, d | d >= horizon :: LastObserved(t, a, d) == LastObserved(log, a, d))
  }

  ghost predicate Inv(w: World, accounts: set<string>) {
    UniqueKeys(w.rows) && AllWellPlaced(w.rows, accounts, w.horizon + HISTORY_DAYS - 1)
    && Agrees(w.rows, w.log, w.horizon)
  }

  lemma {:induction false} StoredValid(s: Snapshot, now: int, high: Counters, previous: seq<Row>, b: int)
    ensures Evaluate(s, now, high, previous, b).confidence == Authoritative <==> IsValid(s, now, high)
  {
    var issues := Issues(s, now, high);
    if IsStale(s, now) {
      assert "STALE_METRICS" in issues;
    }
  }

  /** The row a sample leaves: the entry with the day's maxima merged in. */
  function StoredRow(t: seq<Row>, s: Snapshot, now: int): Row {
    Entry(t, s, now).(counters := Merged(s.counters, Highs(t, s.account, s.day)))
  }

  lemma {:induction false} StoreUpserts(t: seq<Row>, s: Snapshot, now: int)
    requires Store(t, s, now).Ok?
    ensures Store(t, s, now).value.0 == Upsert(t, StoredRow(t, s, now))
  {
    var b := Bucket(s);
    StoredValid(s, now, Highs(t, s.account, s.day), Previous(t, s.account, s.day, b), b);
  }

  /** Upserting the merged row and logging the raw sample keeps the two in agreement. */
  lemma {:induction false} UpsertAgrees(t: seq<Row>, log: seq<Row>, horizon: int, e: Row, row: Row)
    requires UniqueKeys(t) && Agrees(t, log, horizon) && SameKey(e, row) && e.valid == row.valid
    requires forall c | 0 <= c < 3 :: row.counters[c] == Larger(e.counters[c], High(t, e.account, e.day, c))
    requires e.observed == row.observed && NoLater(LastObserved(t, e.account, e.day), e.observed)
    ensures Agrees(Upsert(t, row), log + [e], horizon)
  {
    assert (log + [e])[..|log|] == log;
    forall a, d, c | d >= horizon && 0 <= c < 3
      ensures High(Upsert(t, row), a, d, c) == High(log + [e], a, d, c)
    {
      UpsertHigh(t, row, a, d, c);
      assert High(t, a, d, c) == High(log, a, d, c);
    }
    forall a, d, b | d >= horizon
      ensures ValidAt(Upsert(t, row), a, d, b) == ValidAt(log + [e], a, d, b)
    {
      UpsertLast(t, row, a, d, b);
      assert ValidAt(t, a, d, b) == ValidAt(log, a, d, b);
    }
    forall a, d | d >= horizon
      ensures LastObserved(Upsert(t, row), a, d) == LastObserved(log + [e], a, d)
    {
      UpsertObserved(t, row, a, d);
      assert LastObserved(t, a, d) == LastObserved(log, a, d);
    }
  }

  lemma {:induction false} StoreAgrees(t: seq<Row>, log: seq<Row>, horizon: int, s: Snapshot, now: int)
    requires UniqueKeys(t) && Agrees(t, log, horizon) && Store(t, s, now).Ok?
    ensures UniqueKeys(Store(t, s, now).value.0)
    ensures Agrees(Store(t, s, now).value.0, log + [Entry(t, s, now)], horizon)
  {
    StoreUpserts(t, s, now);
    UpsertUnique(t, StoredRow(t, s, now));
    UpsertAgrees(t, log, horizon, Entry(t, s, now), StoredRow(t, s, now));
  }

  lemma {:induction false} StorePlaced(t: seq<Row>, s: Snapshot, now: int, accounts: set<string>, lastDay: int)
    requires AllWellPlaced(t, accounts, lastDay) && Collected(s, accounts, now) && DayOf(now) <= lastDay
    requires Store(t, s, now).Ok?
    ensures AllWellPlaced(Store(t, s, now).value.0, accounts, lastDay)
  {
    StoreUpserts(t, s, now);
    UpsertContains(t, StoredRow(t, s, now));
    BucketInDay(s.day, s.observed);
    DayMonotone(s.observed, now);
  }

  lemma {:induction false} BucketInDay(day: int, observed: int)
    requires day <= DayOf(observed)
    ensures var end := (day + 1) * DAY_SECONDS - 1;
            day * DAY_BUCKETS <= (if observed < end then observed else end) / SAMPLE_SECONDS < (day + 1) * DAY_BUCKETS
  {
  }

  lemma {:induction false} DayMonotone(a: int, b: int)
    requires a <= b
    ensures DayOf(a) <= DayOf(b)
  {
  }

  lemma {:induction false} StoreAllKeeps(t: seq<Row>, log: seq<Row>, horizon: int, snapshots: seq<Snapshot>, now: int,
                                        accounts: set<string>, lastDay: int)
    requires UniqueKeys(t) && Agrees(t, log, horizon) && AllWellPlaced(t, accounts, lastDay)
    requires CollectedAll(snapshots, accounts, now) && DayOf(now) <= lastDay
    requires StoreAll(t, snapshots, now).Ok?
    ensures var t' := StoreAll(t, snapshots, now).value.0;
            UniqueKeys(t') && AllWellPlaced(t', accounts, lastDay)
            && Agrees(t', log + Entries(t, snapshots, now), horizon)
  {
    if snapshots == [] {
      assert log + [] == log;
    } else {
      var init, s := snapshots[..|snapshots| - 1], snapshots[|snapshots| - 1];
      assert s in snapshots;
      StoreAllKeeps(t, log, horizon, init, now, accounts, lastDay);
      var t1, log1 := StoreAll(t, init, now).value.0, log + Entries(t, init, now);
      StoreAgrees(t1, log1, horizon, s, now);
      StorePlaced(t1, s, now, accounts, lastDay);
      assert log1 + [Entry(t1, s, now)] == log + Entries(t, snapshots, now);
    }
  }

  lemma {:induction false} PurgeKeeps(w: World, now: int, accounts: set<string>)
    requires Inv(w, accounts)
    ensures var w' := World(Purged(w.rows, Cutoff(now)), w.log,
                           Horizon(w, now));
            Inv(w', accounts)
  {
    var p := (r: Row) => r.day >= Cutoff(now);
    var horizon := if w.horizon < Cutoff(now) then Cutoff(now) else w.horizon;
    KeepIn(p, w.rows);
    KeepAgrees(p, w.rows, w.log, horizon);
  }

  lemma {:induction false} BoundKeeps(w: World, accounts: set<string>)
    requires Inv(w, accounts) && |accounts| <= MAX_ACCOUNTS
    ensures Inv(w.(rows := Bounded(w.rows)), accounts)
  {
    var p := r => Rank(w.rows, r) < MAX_ROWS;
    KeepIn(p, w.rows);
    forall r | r in w.rows && r.day >= w.horizon
      ensures p(r)
    {
      RetainedRankFits(w.rows, r, accounts, w.horizon + HISTORY_DAYS - 1);
    }
    KeepAgrees(p, w.rows, w.log, w.horizon);
  }

  lemma {:induction false} ReportKeeps(w: World, snapshots: seq<Snapshot>, now: int, accounts: set<string>)
    requires Inv(w, accounts) && |accounts| <= MAX_ACCOUNTS && CollectedAll(snapshots, accounts, now)
    ensures Inv(AfterReport(w, snapshots, now), accounts)
  {
    if Report(w.rows, snapshots, now).Ok? {
      PurgeKeeps(w, now, accounts);
      var t := Purged(w.rows, Cutoff(now));
      var w' := AfterReport(w, snapshots, now);
      StoreAllKeeps(t, w.log, w'.horizon, snapshots, now, accounts, w'.horizon + HISTORY_DAYS - 1);
      BoundKeeps(World(StoreAll(t, snapshots, now).value.0, w'.log, w'.horizon), accounts);
    }
  }

  datatype Event = Event(snapshots: seq<Snapshot>, now: int)

  function AfterAll(w: World, events: seq<Event>): World {
    if events == [] then w
    else AfterReport(AfterAll(w, events[..|events| - 1]), events[|events| - 1].snapshots, events[|events| - 1].now)
  }

  lemma {:induction false} ReportsKeep(w: World, events: seq<Event>, accounts: set<string>)
    requires Inv(w, accounts) && |accounts| <= MAX_ACCOUNTS
    requires forall e | e in events :: CollectedAll(e.snapshots, accounts, e.now)
    ensures Inv(AfterAll(w, events), accounts)
  {
    if events != [] {
      var e := events[|events| - 1];
      assert e in events;
      ReportsKeep(w, events[..|events| - 1], accounts);
      ReportKeeps(AfterAll(w, events[..|events| - 1]), e.snapshots, e.now, accounts);
    }
  }

  /** After any sequence of reports for at most twelve accounts: on every retained day the
      stored maximum of each counter is the maximum of every value ever accepted for it,
      although the rows were overwritten in place and the table was cut to its bound. */
  lemma {:induction false} HighWaterMarksSurvive(events: seq<Event>, accounts: set<string>, start: int, a: string,
                                                 d: int, c: nat)
    requires |accounts| <= MAX_ACCOUNTS && c < 3
    requires forall e | e in events :: CollectedAll(e.snapshots, accounts, e.now)
    requires d >= AfterAll(World([], [], start), events).horizon
    ensures var w := AfterAll(World([], [], start), events);
            High(w.rows, a, d, c) == High(w.log, a, d, c)
  {
    ReportsKeep(World([], [], start), events, accounts);
  }

  // ----- What a verdict means -----

  /** Samples of other accounts in the same report do not touch this account's log. */
  lemma {:induction false} EntriesApart(t: seq<Row>, log: seq<Row>, snapshots: seq<Snapshot>, now: int, a: string,
                                        d: int)
    requires StoreAll(t, snapshots, now).Ok? && forall s | s in snapshots :: s.account != a
    ensures SameFor(log + Entries(t, snapshots, now), log, a, d)
  {
    if snapshots == [] {
      assert log + [] == log;
    } else {
      var init, s := snapshots[..|snapshots| - 1], snapshots[|snapshots| - 1];
      assert s in snapshots;
      EntriesApart(t, log, init, now, a, d);
      var e := Entry(StoreAll(t, init, now).value.0, s, now);
      ApartOne(log + Entries(t, init, now), e, a, d);
      assert log + Entries(t, snapshots, now) == log + Entries(t, init, now) + [e];
    }
  }

  /** All queries give the same for one account and day. */
  ghost predicate SameFor(t: seq<Row>, u: seq<Row>, a: string, d: int) {
    (forall c | 0 <= c < 3 :: High(t, a, d, c) == High(u, a, d, c))
    && (forall b :: ValidAt(t, a, d, b) == ValidAt(u, a, d, b))
    && LastObserved(t, a, d) == LastObserved(u, a, d)
  }

  lemma {:induction false} ApartOne(log: seq<Row>, e: Row, a: string, d: int)
    requires e.account != a
    ensures SameFor(log + [e], log, a, d)
  {
    assert (log + [e])[..|log|] == log;
  }

  lemma {:induction false} StoreAllPrefix(t: seq<Row>, snapshots: seq<Snapshot>, i: nat, now: int)
    requires i < |snapshots| && StoreAll(t, snapshots, now).Ok?
    ensures StoreAll(t, snapshots[..i], now).Ok?
    ensures Store(StoreAll(t, snapshots[..i], now).value.0, snapshots[i], now).Ok?
    ensures |StoreAll(t, snapshots, now).value.1| == |snapshots|
    ensures StoreAll(t, snapshots, now).value.1[i]
            == Store(StoreAll(t, snapshots[..i], now).value.0, snapshots[i], now).value.1
    decreases |snapshots|
  {
    var init := snapshots[..|snapshots| - 1];
    StoreAllLength(t, init, now);
    if i < |init| {
      StoreAllPrefix(t, init, i, now);
      assert init[..i] == snapshots[..i];
    }
  }

  lemma {:induction false} StoreAllLength(t: seq<Row>, snapshots: seq<Snapshot>, now: int)
    requires StoreAll(t, snapshots, now).Ok?
    ensures |StoreAll(t, snapshots, now).value.1| == |snapshots|
  {
    if snapshots != [] {
      StoreAllLength(t, snapshots[..|snapshots| - 1], now);
    }
  }

  function Horizon(w: World, now: int): int { if w.horizon < Cutoff(now) then Cutoff(now) else w.horizon }

  /** The table as the i-th snapshot of a report finds it answers like the log before the report. */
  lemma {:induction false} MidStore(w: World, snapshots: seq<Snapshot>, now: int, accounts: set<string>, i: nat)
    requires Inv(w, accounts) && CollectedAll(snapshots, accounts, now) && i < |snapshots|
    requires StoreAll(Purged(w.rows, Cutoff(now)), snapshots[..i], now).Ok? && DistinctAccounts(snapshots)
    requires snapshots[i].day >= Horizon(w, now)
    ensures var t := StoreAll(Purged(w.rows, Cutoff(now)), snapshots[..i], now).value.0;
            UniqueKeys(t) && SameFor(t, w.log, snapshots[i].account, snapshots[i].day)
  {
    PurgeKeeps(w, now, accounts);
    var purged, before, horizon := Purged(w.rows, Cutoff(now)), snapshots[..i], Horizon(w, now);
    var a, d := snapshots[i].account, snapshots[i].day;
    assert CollectedAll(before, accounts, now);
    StoreAllKeeps(purged, w.log, horizon, before, now, accounts, horizon + HISTORY_DAYS - 1);
    forall s | s in before
      ensures s.account != a
    {
      var j :| 0 <= j < i && snapshots[j] == s;
    }
    EntriesApart(purged, w.log, before, now, a, d);
    AgreesFor(StoreAll(purged, before, now).value.0, w.log + Entries(purged, before, now), w.log, horizon, a, d);
  }

  lemma {:induction false} MidReport(w: World, snapshots: seq<Snapshot>, now: int, accounts: set<string>,
                                     i: nat) returns (t: seq<Row>)
    requires Inv(w, accounts) && CollectedAll(snapshots, accounts, now)
    requires Report(w.rows, snapshots, now).Ok? && i < |snapshots|
    requires snapshots[i].day >= Horizon(w, now)
    ensures UniqueKeys(t) && SameFor(t, w.log, snapshots[i].account, snapshots[i].day)
    ensures Store(t, snapshots[i], now).Ok?
    ensures |Report(w.rows, snapshots, now).value.1| == |snapshots|
    ensures Report(w.rows, snapshots, now).value.1[i] == Store(t, snapshots[i], now).value.1
  {
    StoreAllPrefix(Purged(w.rows, Cutoff(now)), snapshots, i, now);
    MidStore(w, snapshots, now, accounts, i);
    t := StoreAll(Purged(w.rows, Cutoff(now)), snapshots[..i], now).value.0;
  }

  lemma {:induction false} AgreesFor(t: seq<Row>, log: seq<Row>, log0: seq<Row>, horizon: int, a: string, d: int)
    requires Agrees(t, log, horizon) && d >= horizon && SameFor(log, log0, a, d)
    ensures SameFor(t, log0, a, d)
  {
    forall b
      ensures ValidAt(t, a, d, b) == ValidAt(log0, a, d, b)
    {
      assert ValidAt(t, a, d, b) == ValidAt(log, a, d, b);
    }
  }

  /** The day and the five-minute bucket of a time. A late observation counts for its day's end. */
  function BucketOf(s: Snapshot): int {
    var end := (s.day + 1) * 86_400 - 1;
    (if s.observed < end then s.observed else end) / 300
  }

  /** Observed on the day it is recorded, which is that of the recording, at most fifteen minutes
      before. */
  predicate Fresh(s: Snapshot, now: int) {
    s.observed / 86_400 == s.day == now / 86_400 && now - 900 <= s.observed <= now
  }

  predicate Complete(s: Snapshot) {
    s.counters[0].Some? && s.counters[1].Some? && s.counters[2].Some? && s.shards >= 1
  }

  /** No counter is below a value accepted before for that account and day. */
  ghost predicate NeverFell(log: seq<Row>, s: Snapshot) {
    forall c, r | 0 <= c < 3 && r in log && r.account == s.account && r.day == s.day ::
      s.counters[c].Some? && r.counters[c].Some? ==> r.counters[c].value <= s.counters[c].value
  }

  /** What a verdict says, in terms of everything accepted before. A sample is authoritative
      exactly when the snapshot says so and reports no issue, is fresh and complete, and has no
      counter below an earlier value of its day, even one from a partial sample; the issues say
      which of these failed; the streak counts the adjacent earlier buckets whose latest sample
      was valid, whatever was polled in the same bucket before; and a sample is eligible exactly
      when it and the latest samples of both buckets before it are valid. */
  ghost predicate Means(log: seq<Row>, s: Snapshot, now: int, sample: Sample) {
    var a, d, b, valid := s.account, s.day, BucketOf(s), sample.confidence == Authoritative;
    && (valid <==> s.confidence == Authoritative && s.issues == [] && Fresh(s, now) && Complete(s) && NeverFell(log, s))
    && (sample.confidence == Stale <==> !Fresh(s, now) || (s.confidence == Stale && sample.issues == []))
    && sample.issues == s.issues + (if Fresh(s, now) then [] else ["STALE_METRICS"])
                        + (if Complete(s) then [] else ["MISSING_METRICS"])
                        + (if NeverFell(log, s) then [] else ["COUNTER_REGRESSION"])
    && sample.consecutive <= 3
    && (sample.consecutive == 0 <==> !valid)
    && (sample.consecutive >= 2 <==> valid && ValidAt(log, a, d, b - 1))
    && (sample.eligible <==> valid && ValidAt(log, a, d, b - 1) && ValidAt(log, a, d, b - 2))
    && (sample.eligible <==> sample.consecutive == 3)
  }

  /** Every verdict of every report means that, against the log before the report. */
  lemma {:induction false} VerdictMeaning(w: World, snapshots: seq<Snapshot>, now: int, accounts: set<string>, i: nat)
    requires Inv(w, accounts) && CollectedAll(snapshots, accounts, now)
    requires Report(w.rows, snapshots, now).Ok? && i < |snapshots|
    requires snapshots[i].day >= Horizon(w, now)
    ensures |Report(w.rows, snapshots, now).value.1| == |snapshots|
    ensures Means(w.log, snapshots[i], now, Report(w.rows, snapshots, now).value.1[i])
  {
    var t := MidReport(w, snapshots, now, accounts, i);
    SampleMeaning(t, w.log, snapshots[i], now);
  }

  lemma {:induction false} SampleMeaning(t: seq<Row>, log: seq<Row>, s: Snapshot, now: int)
    requires UniqueKeys(t) && SameFor(t, log, s.account, s.day) && Store(t, s, now).Ok?
    ensures Means(log, s, now, Store(t, s, now).value.1)
  {
    var a, d, b := s.account, s.day, Bucket(s);
    var high, previous := Highs(t, a, d), Previous(t, a, d, b);
    StoredValid(s, now, high, previous, b);
    StreakCounts(t, a, d, b, IsValid(s, now, high));
    assert ValidAt(t, a, d, b - 1) == ValidAt(log, a, d, b - 1);
    assert ValidAt(t, a, d, b - 2) == ValidAt(log, a, d, b - 2);
    FellExactlyWhen(log, s, high);
    IssuesExactly(s, now, high);
  }

  lemma {:induction false} FellExactlyWhen(log: seq<Row>, s: Snapshot, high: Counters)
    requires forall c | 0 <= c < 3 :: high[c] == High(log, s.account, s.day, c)
    ensures Regressed(s.counters, high) <==> !NeverFell(log, s)
  {
    forall c | 0 <= c < 3
      ensures forall r | r in log && r.account == s.account && r.day == s.day :: AtMost(r.counters[c], high[c])
      ensures high[c].Some? ==> exists r :: r in log && r.account == s.account && r.day == s.day
                                            && r.counters[c] == high[c]
    {
      HighBounds(log, s.account, s.day, c);
    }
  }

  /** The checks of one snapshot, and whether it passes them all. */
  lemma {:induction false} IssuesExactly(s: Snapshot, now: int, high: Counters)
    ensures IsStale(s, now) <==> !Fresh(s, now)
    ensures (None in s.counters || s.shards == 0) <==> !Complete(s)
    ensures Issues(s, now, high) == [] <==>
              s.issues == [] && Fresh(s, now) && Complete(s) && !Regressed(s.counters, high)
  {
    var first := s.issues + (if IsStale(s, now) then ["STALE_METRICS"] else []);
    var second := first + (if None in s.counters || s.shards == 0 then ["MISSING_METRICS"] else []);
    assert |Issues(s, now, high)| == |second| + if Regressed(s.counters, high) then 1 else 0;
    if None in s.counters {
      var c :| 0 <= c < 3 && s.counters[c] == None;
    }
  }
}
