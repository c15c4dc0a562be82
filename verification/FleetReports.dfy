/** Which reports are refused, and what an accepted one leaves in the table
    (aggregator/src/one_mail_agg/fleet_metrics.py). */
module FleetReports {
  import opened Wrappers
  import opened FleetHistory
  import opened FleetRuns

  // ----- When a report is refused -----

  predicate Repeats(snapshots: seq<Snapshot>) {
    exists i, j | 0 <= i < j < |snapshots| :: snapshots[i].account == snapshots[j].account
  }

  /** What is wrong with a snapshot, given everything accepted before: a counter above 2^53 - 1,
      more than ten databases, or an observation older than one accepted for its day. */
  ghost function Problem(log: seq<Row>, s: Snapshot): Option<Error> {
    if exists c | 0 <= c < 3 :: s.counters[c].Some? && s.counters[c].value > 9_007_199_254_740_991 then
      Some(InvalidCounter)
    else if s.shards > 10 then Some(InvalidDatabases)
    else if exists r :: r in log && r.account == s.account && r.day == s.day && r.observed > s.observed then
      Some(OutOfOrder)
    else None
  }

  /** The first snapshot with a problem, if any, decides. */
  ghost predicate Decides(log: seq<Row>, snapshots: seq<Snapshot>, r: Option<Error>) {
    if r.None? then forall i | 0 <= i < |snapshots| :: Problem(log, snapshots[i]).None?
    else
      exists i | 0 <= i < |snapshots| ::
        Problem(log, snapshots[i]) == r && forall j | 0 <= j < i :: Problem(log, snapshots[j]).None?
  }

  /** A report is refused exactly when it has no snapshot, more than twelve, two of one account,
      or a snapshot with a problem; the first of these is the error. */
  lemma {:induction false} RefusedExactlyWhen(w: World, snapshots: seq<Snapshot>, now: int, accounts: set<string>)
    requires Inv(w, accounts) && CollectedAll(snapshots, accounts, now)
    requires forall s | s in snapshots :: s.day >= Horizon(w, now)
    ensures var r := Report(w.rows, snapshots, now);
            if |snapshots| == 0 || |snapshots| > 12 || Repeats(snapshots) then r == Err(InvalidCount)
            else Decides(w.log, snapshots, Verdict(r))
  {
    if DistinctAccounts(snapshots) {
      StoresUntilProblem(w, snapshots, |snapshots|, now, accounts);
      assert snapshots[..|snapshots|] == snapshots;
    }
  }

  lemma {:induction false} StoresUntilProblem(w: World, snapshots: seq<Snapshot>, n: nat, now: int,
                                             accounts: set<string>)
    requires Inv(w, accounts) && CollectedAll(snapshots, accounts, now) && n <= |snapshots|
    requires DistinctAccounts(snapshots) && forall s | s in snapshots :: s.day >= Horizon(w, now)
    ensures var r := StoreAll(Purged(w.rows, Cutoff(now)), snapshots[..n], now);
            Decides(w.log, snapshots[..n], Verdict(r))
  {
    if n > 0 {
      var t := Purged(w.rows, Cutoff(now));
      var before := StoreAll(t, snapshots[..n - 1], now);
      StoresUntilProblem(w, snapshots, n - 1, now, accounts);
      StoreAllNext(t, snapshots, n - 1, now);
      if before.Ok? {
        MidStore(w, snapshots, now, accounts, n - 1);
        StoreRefused(before.value.0, w.log, snapshots[n - 1], now);
      }
      DecidesNext(w.log, snapshots[..n - 1], snapshots[n - 1], Verdict(before),
                  Verdict(StoreAll(t, snapshots[..n], now)));
    }
  }

  function Verdict<T>(r: Result<T, Error>): Option<Error> { if r.Ok? then None else Some(r.error) }

  lemma {:induction false} StoreAllNext(t: seq<Row>, snapshots: seq<Snapshot>, n: nat, now: int)
    requires n < |snapshots|
    ensures snapshots[..n + 1] == snapshots[..n] + [snapshots[n]]
    ensures var before, r := StoreAll(t, snapshots[..n], now), StoreAll(t, snapshots[..n] + [snapshots[n]], now);
            Verdict(r) == if before.Err? then Verdict(before) else Verdict(Store(before.value.0, snapshots[n], now))
  {
    assert (snapshots[..n] + [snapshots[n]])[..n] == snapshots[..n];
  }

  lemma {:induction false} DecidesNext(log: seq<Row>, init: seq<Snapshot>, s: Snapshot, before: Option<Error>,
                                      after: Option<Error>)
    requires Decides(log, init, before)
    requires after == if before.Some? then before else Problem(log, s)
    ensures Decides(log, init + [s], after)
  {
    var all := init + [s];
    assert all[|init|] == s && forall i | 0 <= i < |init| :: all[i] == init[i];
    if before.Some? {
      var i :| 0 <= i < |init| && Problem(log, init[i]) == before
               && forall j | 0 <= j < i :: Problem(log, init[j]).None?;
      assert Problem(log, all[i]) == after && forall j | 0 <= j < i :: Problem(log, all[j]).None?;
    } else if after.Some? {
      assert Problem(log, all[|init|]) == after;
    }
  }

  lemma {:induction false} StoreRefused(t: seq<Row>, log: seq<Row>, s: Snapshot, now: int)
    requires SameFor(t, log, s.account, s.day)
    ensures Problem(log, s) == Verdict(Store(t, s, now))
  {
    ObservedBounds(log, s.account, s.day);
    assert CountersInRange(s.counters)
           <==> !(exists c | 0 <= c < 3 :: s.counters[c].Some? && s.counters[c].value > 9_007_199_254_740_991);
  }

  // ----- What an accepted report leaves in the table -----

  lemma {:induction false} TextTotal(a: string, b: string)
    ensures a == b || TextLess(a, b) || TextLess(b, a)
    ensures !(TextLess(a, b) && TextLess(b, a))
  {
    if a != [] && b != [] && a[0] == b[0] {
      TextTotal(a[1..], b[1..]);
      assert a == [a[0]] + a[1..] && b == [b[0]] + b[1..];
    }
  }

  lemma {:induction false} TextTransitive(a: string, b: string, c: string)
    requires TextLess(a, b) && TextLess(b, c)
    ensures TextLess(a, c)
  {
    if a != [] && b[0] == a[0] && c[0] == a[0] {
      TextTransitive(a[1..], b[1..], c[1..]);
    }
  }

  lemma {:induction false} BeforeTransitive(r: Row, q: Row, x: Row)
    requires Before(r, q) && Before(q, x)
    ensures Before(r, x)
  {
    if TextLess(r.account, q.account) && TextLess(q.account, x.account) {
      TextTransitive(r.account, q.account, x.account);
    }
  }

  /** A row before another has the lower rank. */
  lemma {:induction false} RankRises(t: seq<Row>, r: Row, q: Row)
    requires Before(r, q)
    ensures Rank(t, r) <= Rank(t, q)
    ensures r in t ==> Rank(t, r) < Rank(t, q)
  {
    if t != [] {
      var init, x := t[..|t| - 1], t[|t| - 1];
      RankRises(init, r, q);
      assert t == init + [x];
      TextIrreflexive(r.account);
      if Before(x, r) {
        BeforeTransitive(x, r, q);
      }
    }
  }

  /** Different keys have different ranks. */
  lemma {:induction false} RanksApart(t: seq<Row>, r: Row, q: Row)
    requires r in t && q in t && !SameKey(r, q)
    ensures Rank(t, r) != Rank(t, q)
  {
    TextTotal(r.account, q.account);
    if Before(r, q) {
      RankRises(t, r, q);
    } else {
      RankRises(t, q, r);
    }
  }

  function Ranks(t: seq<Row>, kept: seq<Row>): set<nat> { set r | r in kept :: Rank(t, r) }

  lemma {:induction false} RanksCount(t: seq<Row>, kept: seq<Row>)
    requires UniqueKeys(kept) && forall r | r in kept :: r in t
    ensures |Ranks(t, kept)| == |kept|
  {
    if kept != [] {
      var init, x := kept[..|kept| - 1], kept[|kept| - 1];
      assert kept == init + [x];
      RanksCount(t, init);
      forall r | r in init
        ensures Rank(t, r) != Rank(t, x)
      {
        var i :| 0 <= i < |init| && init[i] == r;
        assert !SameKey(kept[i], x);
        RanksApart(t, r, x);
      }
      assert Ranks(t, kept) == Ranks(t, init) + {Rank(t, x)};
    }
  }

  lemma {:induction false} BelowCount(s: set<nat>, n: nat)
    requires forall x | x in s :: x < n
    ensures |s| <= n
  {
    if n > 0 {
      BelowCount(s - {n - 1}, n - 1);
    } else {
      assert s == {};
    }
  }

  predicate RowOf(s: Snapshot, r: Row) {
    r.account == s.account && r.day == s.day && r.bucket == BucketOf(s) && r.observed == s.observed
  }

  /** The row of a snapshot of this report. */
  ghost predicate Reported(snapshots: seq<Snapshot>, r: Row) { exists s | s in snapshots :: RowOf(s, r) }

  lemma {:induction false} StoreUnique(t: seq<Row>, s: Snapshot, now: int)
    requires UniqueKeys(t) && Store(t, s, now).Ok?
    ensures UniqueKeys(Store(t, s, now).value.0)
    ensures forall r | r in Store(t, s, now).value.0 :: r in t || RowOf(s, r)
  {
    StoreUpserts(t, s, now);
    UpsertUnique(t, StoredRow(t, s, now));
    UpsertContains(t, StoredRow(t, s, now));
  }

  lemma {:induction false} StoreAllUnique(t: seq<Row>, snapshots: seq<Snapshot>, now: int)
    requires UniqueKeys(t) && StoreAll(t, snapshots, now).Ok?
    ensures UniqueKeys(StoreAll(t, snapshots, now).value.0)
    ensures forall r | r in StoreAll(t, snapshots, now).value.0 :: r in t || Reported(snapshots, r)
  {
    if snapshots != [] {
      var init, s := snapshots[..|snapshots| - 1], snapshots[|snapshots| - 1];
      StoreAllUnique(t, init, now);
      StoreUnique(StoreAll(t, init, now).value.0, s, now);
      assert forall x | x in init :: x in snapshots;
      assert s in snapshots;
    }
  }

  /** After a report the table has at most 27648 rows, one for each key; all of them are rows of
      the report or were there before and are of the last eight days. */
  lemma {:induction false} TableBounded(t: seq<Row>, snapshots: seq<Snapshot>, now: int)
    requires UniqueKeys(t) && Report(t, snapshots, now).Ok?
    ensures var t' := Report(t, snapshots, now).value.0;
            && |t'| <= 12 * 8 * 288 && UniqueKeys(t')
            && forall r | r in t' :: (r in t && r.day >= now / 86_400 - 7) || Reported(snapshots, r)
  {
    var purged := Purged(t, Cutoff(now));
    KeepIn((r: Row) => r.day >= Cutoff(now), t);
    KeepUnique((r: Row) => r.day >= Cutoff(now), t);
    StoreAllUnique(purged, snapshots, now);
    var full := StoreAll(purged, snapshots, now).value.0;
    KeepIn(r => Rank(full, r) < MAX_ROWS, full);
    KeepUnique(r => Rank(full, r) < MAX_ROWS, full);
    RanksCount(full, Bounded(full));
    BelowCount(Ranks(full, Bounded(full)), MAX_ROWS);
  }
}
