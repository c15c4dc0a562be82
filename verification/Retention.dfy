/** The scheduled retention cleanup (worker/src/scheduled.ts): a lock row with an expiry and
    two key-value markers keep overlapping cron invocations from cleaning together or too
    often.

    Storage is linearizable and one clock serves every invocation. A critical section, from
    the clock reading that dates its lock to its release, is shorter than the lock's TTL. */
module Retention {
  import opened Wrappers

  const COOLDOWN_MS: int := 6 * 60 * 60 * 1000
  const LOCK_TTL_MS: int := 30 * 60 * 1000
  const MARKER_TTL_MS: int := 24 * 60 * 60 * 1000

  // ----- The lock row -----

  datatype LockRow = LockRow(owner: nat, until: int)

  /** The conditional upsert: it takes a missing row, or one expired at the caller's reading. */
  predicate Takes(row: Option<LockRow>, now: int) { row.None? || row.value.until <= now }

  function Acquired(row: Option<LockRow>, owner: nat, now: int): Option<LockRow> {
    if Takes(row, now) then Some(LockRow(owner, now + LOCK_TTL_MS)) else row
  }

  /** `DELETE ... WHERE name = ? AND owner = ?`. */
  function AfterRelease(row: Option<LockRow>, owner: nat): Option<LockRow> {
    if row.Some? && row.value.owner == owner then None else row
  }

  /** What invocations send to the row, dated by the caller's own clock reading. */
  datatype LockCall = Acquire(owner: nat, now: int) | ReleaseBy(owner: nat)

  function AfterCall(row: Option<LockRow>, c: LockCall): Option<LockRow> {
    match c
    case Acquire(owner, now) => Acquired(row, owner, now)
    case ReleaseBy(owner) => AfterRelease(row, owner)
  }

  function AfterCalls(row: Option<LockRow>, calls: seq<LockCall>): Option<LockRow> {
    if calls == [] then row else AfterCall(AfterCalls(row, calls[..|calls| - 1]), calls[|calls| - 1])
  }

  /** The calls that end a lock: its owner's release, and an acquire whose reading is past the expiry. */
  predicate EndsLock(held: LockRow, c: LockCall) {
    match c
    case Acquire(_, now) => held.until <= now
    case ReleaseBy(owner) => owner == held.owner
  }

  ghost predicate HeldThroughout(held: LockRow, calls: seq<LockCall>) {
    forall n | 0 <= n <= |calls| :: AfterCalls(Some(held), calls[..n]) == Some(held)
  }

  /** Whoever calls whatever in between, and however their clocks differ: a lock stays with its
      owner, expiry unchanged, exactly as long as nobody reads a time past the expiry and the
      owner has not released it; and then that release frees the row. */
  lemma {:induction false} LockHeldExactlyWhen(held: LockRow, calls: seq<LockCall>)
    ensures HeldThroughout(held, calls) <==> forall k | 0 <= k < |calls| :: !EndsLock(held, calls[k])
    ensures HeldThroughout(held, calls) ==> AfterCalls(Some(held), calls + [ReleaseBy(held.owner)]) == None
    decreases |calls|
  {
    assert calls[..|calls|] == calls && (calls + [ReleaseBy(held.owner)])[..|calls|] == calls;
    if calls != [] {
      var init, last := calls[..|calls| - 1], calls[|calls| - 1];
      LockHeldExactlyWhen(held, init);
      HeldOneMore(held, calls);
      assert forall k | 0 <= k < |init| :: init[k] == calls[k];
    }
  }

  lemma {:induction false} HeldOneMore(held: LockRow, calls: seq<LockCall>)
    requires calls != []
    ensures HeldThroughout(held, calls)
            <==> HeldThroughout(held, calls[..|calls| - 1]) && !EndsLock(held, calls[|calls| - 1])
  {
    var init := calls[..|calls| - 1];
    assert calls[..|calls|] == calls;
    forall n | 0 <= n <= |init|
      ensures init[..n] == calls[..n]
    {
    }
    assert init[..|init|] == init;
  }

  // ----- The cooldown -----

  function Latest(success: Option<int>, attempt: Option<int>): int {
    var s := if success.Some? && success.value > 0 then success.value else 0;
    var a := if attempt.Some? && attempt.value > 0 then attempt.value else 0;
    if s > a then s else a
  }

  predicate Cooling(success: Option<int>, attempt: Option<int>, now: int) {
    Latest(success, attempt) > 0 && now - Latest(success, attempt) < COOLDOWN_MS
  }

  /** A marker of a run less than six hours ago; one that is not a positive number does not count. */
  predicate Recent(marker: Option<int>, now: int) {
    marker.Some? && marker.value > 0 && now - marker.value < 6 * 60 * 60 * 1000
  }

  /** An invocation holds back exactly when one of the two markers is recent. */
  lemma {:induction false} CoolingExactlyWhen(success: Option<int>, attempt: Option<int>, now: int)
    ensures Cooling(success, attempt, now) <==> Recent(success, now) || Recent(attempt, now)
  {
    var latest := Latest(success, attempt);
    assert latest == 0 || Some(latest) == success || Some(latest) == attempt;
  }

  /** How the calls of one invocation end. */
  datatype Conditions = Conditions(
    lockNow: int, acquires: bool, hasMarkers: bool, now: int,
    attemptStored: bool, cleans: bool, endNow: int, successStored: bool, releases: bool)

  class Store {
    var row: Option<LockRow>
    var success: Option<int>
    var attempt: Option<int>

    constructor ()
      ensures row == None && success == None && attempt == None
    {
      row, success, attempt := None, None, None;
    }

    method AcquireRetentionLock(owner: nat, now: int, answers: bool) returns (held: bool)
      modifies this`row
      ensures row == Acquired(old(row), owner, now)
      ensures held == (answers && Takes(old(row), now))
      ensures var free := old(row).None? || old(row).value.until <= now;
              held == (answers && free) && row == if free then Some(LockRow(owner, now + 30 * 60 * 1000)) else old(row)
    {
      var changes := row.None? || row.value.until <= now;
      if changes {
        row := Some(LockRow(owner, now + LOCK_TTL_MS));
      }
      held := answers && changes;
    }

    method ReleaseRetentionLock(owner: nat, answers: bool)
      modifies this`row
      ensures row == if answers then AfterRelease(old(row), owner) else old(row)
    {
      if answers && row.Some? && row.value.owner == owner {
        row := None;
      }
    }

    /** `scheduled`, alone: what one invocation does to lock and markers, and whether it cleaned. */
    method Scheduled(owner: nat, c: Conditions) returns (started: bool, succeeded: bool)
      modifies this
      ensures started <==> c.acquires && Takes(old(row), c.lockNow) && c.hasMarkers
                           && !Recent(old(success), c.now) && !Recent(old(attempt), c.now) && c.attemptStored
      ensures attempt == if started then Some(c.now) else old(attempt)
      ensures succeeded <==> started && c.cleans && c.successStored
      ensures success == if succeeded then Some(c.endNow) else old(success)
      ensures row == if c.acquires && Takes(old(row), c.lockNow) && c.releases then None
                     else Acquired(old(row), owner, c.lockNow)
    {
      started, succeeded := false, false;
      var held := AcquireRetentionLock(owner, c.lockNow, c.acquires);
      if !held {
        return;
      }
      CoolingExactlyWhen(success, attempt, c.now);
      if c.hasMarkers {
        var lastRun := Latest(success, attempt);
        if !(lastRun > 0 && c.now - lastRun < COOLDOWN_MS) && c.attemptStored {
          attempt := Some(c.now);
          started := true;
          if c.cleans && c.successStored {
            success := Some(c.endNow);
            succeeded := true;
          }
        }
      }
      ReleaseRetentionLock(owner, c.releases);
    }
  }

  // ----- Overlapping invocations -----

  /** Where an invocation is: it has read the clock for its lock; holds the lock; has read the
      clock for the cooldown; passed the cooldown; is cleaning; or is about to release. */
  datatype Phase =
    | Clocked(lockNow: int)
    | Locked(lockNow: int)
    | Timed(lockNow: int, now: int)
    | Passed(lockNow: int, now: int)
    | Cleaning(lockNow: int, now: int)
    | Releasing(lockNow: int)
  {
    predicate Critical() { !Clocked? }
  }

  datatype Marker = Marker(value: int, storedAt: int)

  datatype World = World(
    time: int,
    row: Option<LockRow>,
    success: Option<Marker>,
    attempt: Option<Marker>,
    running: map<nat, Phase>,
    used: set<nat>,  // owner identifiers ever drawn
    starts: seq<int>)  // the readings under which cleanups were started

  datatype Event =
    | Tick(ms: nat)
    | ReadLockClock(i: nat)
    | TakeLock(i: nat, answers: bool)
    | ReadClock(i: nat)
    | ReadMarkers(i: nat)
    | StoreAttempt(i: nat, stored: bool, answers: bool)
    | EndCleanup(i: nat, cleans: bool, stored: bool)
    | Release(i: nat, answers: bool)
    | Crash(i: nat)
    | ExpireAttempt
    | ExpireSuccess

  function ValueOf(m: Option<Marker>): Option<int> { if m.Some? then Some(m.value.value) else None }

  ghost predicate Enabled(w: World, e: Event) {
    match e
    case Tick(ms) =>
      forall i | i in w.running && w.running[i].Critical() :: w.time + ms < w.running[i].lockNow + LOCK_TTL_MS
    case ReadLockClock(i) => i !in w.used
    case TakeLock(i, answers) => i in w.running && w.running[i].Clocked?
                                 && (answers ==> w.time < w.running[i].lockNow + LOCK_TTL_MS)
    case ReadClock(i) => i in w.running && w.running[i].Locked?
    case ReadMarkers(i) => i in w.running && w.running[i].Timed?
    case StoreAttempt(i, stored, answers) => i in w.running && w.running[i].Passed? && (answers ==> stored)
    case EndCleanup(i, _, _) => i in w.running && w.running[i].Cleaning?
    case Release(i, _) => i in w.running && w.running[i].Critical() && !w.running[i].Cleaning?
    case Crash(i) => i in w.running
    case ExpireAttempt => w.attempt.Some? && w.time >= w.attempt.value.storedAt + MARKER_TTL_MS
    case ExpireSuccess => w.success.Some? && w.time >= w.success.value.storedAt + MARKER_TTL_MS
  }

  ghost function Step(w: World, e: Event): World
    requires Enabled(w, e)
  {
    match e
    case Tick(ms) => w.(time := w.time + ms)
    case ReadLockClock(i) => w.(running := w.running[i := Clocked(w.time)], used := w.used + {i})
    case TakeLock(i, answers) =>
      var now := w.running[i].lockNow;
      w.(row := Acquired(w.row, i, now),
         running := if Takes(w.row, now) && answers then w.running[i := Locked(now)] else w.running - {i})
    case ReadClock(i) => w.(running := w.running[i := Timed(w.running[i].lockNow, w.time)])
    case ReadMarkers(i) =>
      var p := w.running[i];
      w.(running := w.running[i :=
         if Cooling(ValueOf(w.success), ValueOf(w.attempt), p.now) then Releasing(p.lockNow)
         else Passed(p.lockNow, p.now)])
    case StoreAttempt(i, stored, answers) =>
      var p := w.running[i];
      w.(attempt := if stored then Some(Marker(p.now, w.time)) else w.attempt,
         starts := if answers then w.starts + [p.now] else w.starts,
         running := w.running[i := if answers then Cleaning(p.lockNow, p.now) else Releasing(p.lockNow)])
    case EndCleanup(i, cleans, stored) =>
      w.(success := if cleans && stored then Some(Marker(w.time, w.time)) else w.success,
         running := w.running[i := Releasing(w.running[i].lockNow)])
    case Release(i, answers) =>
      w.(row := if answers then AfterRelease(w.row, i) else w.row, running := w.running - {i})
    case Crash(i) => w.(running := w.running - {i})
    case ExpireAttempt => w.(attempt := None)
    case ExpireSuccess => w.(success := None)
  }

  /** The lock row of a critical section is its own and has not expired. */
  predicate OwnsRow(w: World, i: nat)
    requires i in w.running
  {
    w.row == Some(LockRow(i, w.running[i].lockNow + LOCK_TTL_MS))
    && w.running[i].lockNow <= w.time < w.running[i].lockNow + LOCK_TTL_MS
  }

  /** Every start so far is at least a cooldown behind this reading. */
  predicate CooledDown(w: World, now: int) {
    w.starts != [] ==> now >= w.starts[|w.starts| - 1] + COOLDOWN_MS
  }

  /** The last start is still marked, or longer ago than markers live. */
  predicate StartMarked(w: World) {
    w.starts != [] ==>
      (w.attempt.Some? && w.starts[|w.starts| - 1] <= w.attempt.value.value)
      || w.time >= w.starts[|w.starts| - 1] + MARKER_TTL_MS
  }

  ghost predicate Spaced(starts: seq<int>) {
    forall k | 0 < k < |starts| :: starts[k] >= starts[k - 1] + COOLDOWN_MS
  }

  predicate PhaseOk(w: World, i: nat)
    requires i in w.running
  {
    var p := w.running[i];
    p.lockNow <= w.time && i in w.used
    && (p.Critical() ==> OwnsRow(w, i))
    && (p.Timed? || p.Passed? || p.Cleaning? ==> p.lockNow <= p.now <= w.time)
    && (p.Passed? ==> CooledDown(w, p.now))
  }

  ghost predicate Inv(w: World) {
    && w.time > 0
    && (forall i | i in w.running :: PhaseOk(w, i))
    && StartMarked(w) && Spaced(w.starts)
    && (w.attempt.Some? ==> 0 < w.attempt.value.value <= w.attempt.value.storedAt <= w.time)
    && (forall i | i in w.running :: w.running[i].lockNow > 0)
  }

  /** Two critical sections would both own the one row. */
  lemma {:induction false} CriticalIsUnique(w: World, i: nat, j: nat)
    requires Inv(w) && i in w.running && j in w.running && w.running[i].Critical() && w.running[j].Critical()
    ensures i == j
  {
    assert PhaseOk(w, i) && PhaseOk(w, j);
  }

  lemma {:induction false} TakeLockKeeps(w: World, i: nat, answers: bool)
    requires Inv(w) && Enabled(w, TakeLock(i, answers))
    ensures Inv(Step(w, TakeLock(i, answers)))
  {
    var w', now := Step(w, TakeLock(i, answers)), w.running[i].lockNow;
    assert PhaseOk(w, i);
    forall j | j in w'.running
      ensures PhaseOk(w', j)
    {
      assert PhaseOk(w, j);
      if j != i && w.running[j].Critical() {
        assert !Takes(w.row, now);
      }
    }
  }

  lemma {:induction false} ReadMarkersKeeps(w: World, i: nat)
    requires Inv(w) && Enabled(w, ReadMarkers(i))
    ensures Inv(Step(w, ReadMarkers(i)))
  {
    var w', p := Step(w, ReadMarkers(i)), w.running[i];
    assert PhaseOk(w, i);
    assert w'.running[i].Passed? ==> CooledDown(w, p.now);
    forall j | j in w'.running
      ensures PhaseOk(w', j)
    {
      assert PhaseOk(w, j);
    }
  }

  lemma {:induction false} StoreAttemptKeeps(w: World, i: nat, stored: bool, answers: bool)
    requires Inv(w) && Enabled(w, StoreAttempt(i, stored, answers))
    ensures Inv(Step(w, StoreAttempt(i, stored, answers)))
  {
    var w' := Step(w, StoreAttempt(i, stored, answers));
    assert PhaseOk(w, i);
    forall j | j in w'.running
      ensures PhaseOk(w', j)
    {
      assert PhaseOk(w, j);
      if j != i && w.running[j].Critical() {
        CriticalIsUnique(w, i, j);
      }
    }
  }

  lemma {:induction false} StepKeeps(w: World, e: Event)
    requires Inv(w) && Enabled(w, e)
    ensures Inv(Step(w, e))
  {
    match e
    case TakeLock(i, answers) => TakeLockKeeps(w, i, answers);
    case ReadMarkers(i) => ReadMarkersKeeps(w, i);
    case StoreAttempt(i, stored, answers) => StoreAttemptKeeps(w, i, stored, answers);
    case Release(i, answers) => ReleaseKeeps(w, i, answers);
    case Tick(ms) => TickKeeps(w, ms);
    case _ => OtherStepKeeps(w, e);
  }

  lemma {:induction false} ReleaseKeeps(w: World, i: nat, answers: bool)
    requires Inv(w) && Enabled(w, Release(i, answers))
    ensures Inv(Step(w, Release(i, answers)))
  {
    var w' := Step(w, Release(i, answers));
    forall j | j in w'.running
      ensures PhaseOk(w', j)
    {
      assert PhaseOk(w, j);
      if w.running[j].Critical() {
        CriticalIsUnique(w, i, j);
      }
    }
  }

  lemma {:induction false} TickKeeps(w: World, ms: nat)
    requires Inv(w) && Enabled(w, Tick(ms))
    ensures Inv(Step(w, Tick(ms)))
  {
    var w' := Step(w, Tick(ms));
    forall j | j in w'.running
      ensures PhaseOk(w', j)
    {
      assert PhaseOk(w, j);
    }
  }

  lemma {:induction false} OtherStepKeeps(w: World, e: Event)
    requires Inv(w) && Enabled(w, e) && !e.TakeLock? && !e.ReadMarkers? && !e.StoreAttempt? && !e.Release? && !e.Tick?
    ensures Inv(Step(w, e))
  {
    var w' := Step(w, e);
    forall j | j in w'.running
      ensures PhaseOk(w', j)
    {
      assert j in w.running ==> PhaseOk(w, j);
    }
  }

  ghost predicate Runs(w: World, es: seq<Event>, w': World)
    decreases |es|
  {
    if es == [] then w' == w else Enabled(w, es[0]) && Runs(Step(w, es[0]), es[1..], w')
  }

  ghost predicate Start(w: World) {
    w.time > 0 && w.running == map[] && w.starts == [] && w.attempt == None
  }

  lemma {:induction false} RunsKeep(w: World, es: seq<Event>, w': World)
    requires Inv(w) && Runs(w, es, w')
    ensures Inv(w')
    decreases |es|
  {
    if es != [] {
      StepKeeps(w, es[0]);
      RunsKeep(Step(w, es[0]), es[1..], w');
    }
  }

  /** For every interleaving of invocations, crashes, lost replies and expiring markers: no two
      cleanups run at once, and any two were started at readings six hours apart or more,
      whether or not they succeeded. */
  lemma {:induction false} CleanupsApart(w: World, es: seq<Event>, w': World)
    requires Start(w) && Runs(w, es, w')
    ensures forall i, j | i in w'.running && j in w'.running && w'.running[i].Cleaning? && w'.running[j].Cleaning? ::
              i == j
    ensures forall a, b | 0 <= a < b < |w'.starts| :: w'.starts[b] >= w'.starts[a] + 6 * 60 * 60 * 1000
  {
    RunsKeep(w, es, w');
    forall i, j | i in w'.running && j in w'.running && w'.running[i].Cleaning? && w'.running[j].Cleaning?
      ensures i == j
    {
      CriticalIsUnique(w', i, j);
    }
    forall a, b | 0 <= a < b < |w'.starts|
      ensures w'.starts[b] >= w'.starts[a] + COOLDOWN_MS
    {
      SpacedApart(w'.starts, a, b);
    }
  }

  lemma {:induction false} SpacedApart(starts: seq<int>, a: nat, b: nat)
    requires Spaced(starts) && a < b < |starts|
    ensures starts[b] >= starts[a] + COOLDOWN_MS
    decreases b
  {
    if a + 1 < b {
      SpacedApart(starts, a, b - 1);
    }
  }

  /** A release by an invocation in its critical section frees the lock it holds; by any other
      it changes nothing. */
  lemma {:induction false} ReleaseIsOwn(w: World, es: seq<Event>, w': World, i: nat)
    requires Start(w) && Runs(w, es, w') && Enabled(w', Release(i, true))
    ensures w'.row.Some? && w'.row.value.owner == i && Step(w', Release(i, true)).row == None
  {
    RunsKeep(w, es, w');
    assert PhaseOk(w', i);
  }

  /** One invocation from its clock reading to the start of its cleanup. */
  function OneStart(i: nat): seq<Event> {
    [ReadLockClock(i), TakeLock(i, true), ReadClock(i), ReadMarkers(i), StoreAttempt(i, true, true)]
  }

  /** An invocation of its own that nothing disturbs starts a cleanup exactly when the lock is free
      and neither marker is recent: whatever happened before, a due cleanup is not held back. */
  lemma {:induction false} StartsExactlyWhenDue(w: World, i: nat)
    requires i !in w.used && i !in w.running
    ensures (exists w' :: Runs(w, OneStart(i), w') && w'.starts == w.starts + [w.time])
            <==> (w.row.None? || w.row.value.until <= w.time)
                 && !Recent(ValueOf(w.success), w.time) && !Recent(ValueOf(w.attempt), w.time)
  {
    CoolingExactlyWhen(ValueOf(w.success), ValueOf(w.attempt), w.time);
    var w1 := Step(w, ReadLockClock(i));
    var w2 := Step(w1, TakeLock(i, true));
    TwoEvents(w, i);
    if Takes(w.row, w.time) {
      ThreeEvents(w2, i, w.time);
    }
    forall w' | Runs(w, OneStart(i), w')
      ensures Takes(w.row, w.time)
    {
      assert Runs(w2, OneStart(i)[2..], w') && Enabled(w2, OneStart(i)[2..][0]);
    }
  }

  lemma {:induction false} TwoEvents(w: World, i: nat)
    requires i !in w.used && i !in w.running
    ensures Enabled(w, ReadLockClock(i)) && Enabled(Step(w, ReadLockClock(i)), TakeLock(i, true))
    ensures forall w' :: Runs(w, OneStart(i), w')
                         <==> Runs(Step(Step(w, ReadLockClock(i)), TakeLock(i, true)), OneStart(i)[2..], w')
  {
    assert OneStart(i)[1..][1..] == OneStart(i)[2..];
    assert OneStart(i)[1..][0] == TakeLock(i, true);
  }

  lemma {:induction false} ThreeEvents(w: World, i: nat, lockNow: int)
    requires i in w.running && w.running[i] == Locked(lockNow)
    ensures (exists w' :: Runs(w, OneStart(i)[2..], w') && w'.starts == w.starts + [w.time])
            <==> !Cooling(ValueOf(w.success), ValueOf(w.attempt), w.time)
    ensures forall w' :: Runs(w, OneStart(i)[2..], w')
                         ==> !Cooling(ValueOf(w.success), ValueOf(w.attempt), w.time)
  {
    var es := OneStart(i)[2..];
    var w1 := Step(w, ReadClock(i));
    var w2 := Step(w1, ReadMarkers(i));
    assert es[0] == ReadClock(i) && es[1..][0] == ReadMarkers(i) && es[1..][1..] == [StoreAttempt(i, true, true)];
    assert [StoreAttempt(i, true, true)][1..] == [];
    if !Cooling(ValueOf(w.success), ValueOf(w.attempt), w.time) {
      var w3 := Step(w2, StoreAttempt(i, true, true));
      assert Runs(w2, [StoreAttempt(i, true, true)], w3);
      assert Runs(w, es, w3);
    }
    forall w' | Runs(w, es, w')
      ensures !Cooling(ValueOf(w.success), ValueOf(w.attempt), w.time)
    {
      assert Runs(w1, es[1..], w') && Runs(w2, es[1..][1..], w');
      assert Enabled(w2, StoreAttempt(i, true, true));
    }
  }
}
