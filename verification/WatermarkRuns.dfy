/** Whole histories of one IMAP folder under its single UID watermark, with any failures: what
    lies at or below the watermark, and when a run strands mail there
    (aggregator/src/one_mail_agg/imap_base.py and sync.py). */
module WatermarkRuns {
  import opened SyncStates
  import opened ImapWatermark

  /** The window pass never moves the watermark to or past a UID of unknown size. */
  lemma {:induction false} UnknownSizeIsABoundary(st: Copies, key: string, env: Env, u: nat)
    requires Ascending(env.present) && SameValidity(st.mem, key, env)
    requires u in env.present && u !in env.size && u > LastUid(st.mem, key)
    requires u !in RunFolder(st, key, env).skipped
    ensures LastUid(RunFolder(st, key, env).copies.mem, key) < u
  {
    var a, b, rest := FolderRun(st, key, env);
    var o := RunFolder(st, key, env);
    BelowUnknown(o, env, LastUid(st.mem, key), LastUid(o.copies.mem, key), a, b, rest, u);
  }

  lemma {:induction false} BelowUnknown(o: Outcome, env: Env, mark: int, mark': int, a: seq<nat>, b: seq<nat>,
                                        rest: seq<nat>, u: nat)
    requires Parts(o, env, mark, a, b, rest) && Marks(o, mark, mark')
    requires u in env.present && u !in env.size && u > mark && u !in a
    ensures mark' < u
  {
    assert u in rest;
  }

  // ----- What the scan reaches -----

  predicate Small(size: map<nat, nat>, u: nat) { u in size && size[u] <= 30 * 1024 * 1024 }

  predicate Large(size: map<nat, nat>, u: nat) { u in size && size[u] > 30 * 1024 * 1024 }

  /** How many of the UIDs are small enough, and what those take together. */
  function SmallCount(size: map<nat, nat>, uids: seq<nat>): nat {
    if uids == [] then 0
    else SmallCount(size, uids[..|uids| - 1]) + if Small(size, uids[|uids| - 1]) then 1 else 0
  }

  function SmallBytes(size: map<nat, nat>, uids: seq<nat>): nat {
    if uids == [] then 0
    else
      var u := uids[|uids| - 1];
      SmallBytes(size, uids[..|uids| - 1]) + if Small(size, u) then size[u] else 0
  }

  predicate SizesKnown(size: map<nat, nat>, uids: seq<nat>) { forall i | 0 <= i < |uids| :: uids[i] in size }

  /** Candidate `j` is too large, and the scan comes as far: every size up to it is known, and
      the small ones before it fit into one batch. */
  predicate LargeAt(size: map<nat, nat>, c: seq<nat>, j: nat) {
    j < |c| && Large(size, c[j]) && SizesKnown(size, c[..j])
    && SmallCount(size, c[..j]) < 50 && SmallBytes(size, c[..j]) <= 64 * 1024 * 1024
  }

  /** Candidate `i` is small and fits, together with the small ones before it. */
  predicate SmallAt(size: map<nat, nat>, c: seq<nat>, i: nat) {
    i < |c| && Small(size, c[i]) && SizesKnown(size, c[..i])
    && SmallCount(size, c[..i]) < 50 && SmallBytes(size, c[..i + 1]) <= 64 * 1024 * 1024
  }

  lemma {:induction false} CountsNext(size: map<nat, nat>, c: seq<nat>, i: nat)
    requires i < |c|
    ensures SmallCount(size, c[..i + 1]) == SmallCount(size, c[..i]) + if Small(size, c[i]) then 1 else 0
    ensures SmallBytes(size, c[..i + 1]) == SmallBytes(size, c[..i]) + if Small(size, c[i]) then size[c[i]] else 0
  {
    assert c[..i + 1][..i] == c[..i];
  }

  lemma {:induction false} CountsGrow(size: map<nat, nat>, c: seq<nat>, i: nat, j: nat)
    requires i <= j <= |c|
    ensures SmallCount(size, c[..i]) <= SmallCount(size, c[..j])
    ensures SmallBytes(size, c[..i]) <= SmallBytes(size, c[..j])
    decreases j
  {
    if i < j {
      CountsGrow(size, c, i, j - 1);
      CountsNext(size, c, j - 1);
    }
  }

  ghost predicate LargeFrom(size: map<nat, nat>, c: seq<nat>, i: nat, u: nat) {
    exists j: nat :: i <= j < |c| && c[j] == u && LargeAt(size, c, j)
  }

  ghost predicate SmallFrom(size: map<nat, nat>, c: seq<nat>, i: nat, u: nat) {
    exists j: nat :: i <= j < |c| && c[j] == u && SmallAt(size, c, j)
  }

  lemma {:induction false} FromNext(size: map<nat, nat>, c: seq<nat>, i: nat, u: nat)
    requires i < |c|
    ensures LargeFrom(size, c, i, u) <==> (c[i] == u && LargeAt(size, c, i)) || LargeFrom(size, c, i + 1, u)
    ensures SmallFrom(size, c, i, u) <==> (c[i] == u && SmallAt(size, c, i)) || SmallFrom(size, c, i + 1, u)
  {
  }

  /** Where the scan stops, nothing further can be reached. */
  lemma {:induction false} NothingFurther(size: map<nat, nat>, c: seq<nat>, i: nat, u: nat)
    requires i < |c|
    requires SmallCount(size, c[..i]) >= BATCH_SIZE || c[i] !in size
             || (Small(size, c[i]) && SmallBytes(size, c[..i + 1]) > BATCH_BYTES)
    ensures !LargeFrom(size, c, i, u) && !SmallFrom(size, c, i, u)
  {
    forall j: nat | i <= j < |c|
      ensures !LargeAt(size, c, j) && !SmallAt(size, c, j)
    {
      CountsGrow(size, c, i, j);
      if i < j {
        CountsGrow(size, c, i + 1, j);
        CountsGrow(size, c, i + 1, j + 1);
        assert c[..j][i] == c[i];
      }
    }
  }

  /** A window holds what was settled already and what the scan reaches from candidate `i` on. */
  ghost predicate Reaches(w: Window, size: map<nat, nat>, c: seq<nat>, i: nat, picked: seq<nat>, oversize: seq<nat>) {
    && (forall u :: u in w.oversize <==> u in oversize || LargeFrom(size, c, i, u))
    && (forall u :: u in w.picked <==> u in picked || SmallFrom(size, c, i, u))
  }

  lemma {:induction false} ReachesLarge(w: Window, size: map<nat, nat>, c: seq<nat>, i: nat, picked: seq<nat>,
                                        oversize: seq<nat>)
    requires i < |c| && LargeAt(size, c, i) && !SmallAt(size, c, i)
    requires Reaches(w, size, c, i + 1, picked, oversize + [c[i]])
    ensures Reaches(w, size, c, i, picked, oversize)
  {
    forall u: nat
      ensures u in w.oversize <==> u in oversize || LargeFrom(size, c, i, u)
      ensures u in w.picked <==> u in picked || SmallFrom(size, c, i, u)
    {
      FromNext(size, c, i, u);
    }
  }

  lemma {:induction false} ReachesSmall(w: Window, size: map<nat, nat>, c: seq<nat>, i: nat, picked: seq<nat>,
                                        oversize: seq<nat>)
    requires i < |c| && SmallAt(size, c, i) && !LargeAt(size, c, i)
    requires Reaches(w, size, c, i + 1, picked + [c[i]], oversize)
    ensures Reaches(w, size, c, i, picked, oversize)
  {
    forall u: nat
      ensures u in w.oversize <==> u in oversize || LargeFrom(size, c, i, u)
      ensures u in w.picked <==> u in picked || SmallFrom(size, c, i, u)
    {
      FromNext(size, c, i, u);
    }
  }

  lemma {:induction false} ReachesNone(size: map<nat, nat>, c: seq<nat>, i: nat, picked: seq<nat>, oversize: seq<nat>)
    requires i < |c|
    requires SmallCount(size, c[..i]) >= BATCH_SIZE || c[i] !in size
             || (Small(size, c[i]) && SmallBytes(size, c[..i + 1]) > BATCH_BYTES)
    ensures Reaches(Window(picked, oversize), size, c, i, picked, oversize)
  {
    forall u: nat
      ensures !LargeFrom(size, c, i, u) && !SmallFrom(size, c, i, u)
    {
      NothingFurther(size, c, i, u);
    }
  }

  /** The scan from candidate `i` on, with what the ones before it came to. */
  lemma {:induction false} ScanReaches(size: map<nat, nat>, c: seq<nat>, i: nat, picked: seq<nat>,
                                       oversize: seq<nat>, total: nat)
    requires i <= |c| && SizesKnown(size, c[..i])
    requires |picked| == SmallCount(size, c[..i]) && total == SmallBytes(size, c[..i]) <= BATCH_BYTES
    requires picked == [] ==> total == 0
    ensures Reaches(Scan(size, c[i..], picked, oversize, total), size, c, i, picked, oversize)
    decreases |c| - i
  {
    if i < |c| {
      var u := c[i];
      assert c[i..][0] == u && c[i..][1..] == c[i + 1..];
      CountsNext(size, c, i);
      if |picked| >= BATCH_SIZE || u !in size || (Small(size, u) && total + size[u] > BATCH_BYTES) {
        ReachesNone(size, c, i, picked, oversize);
      } else {
        assert c[..i + 1] == c[..i] + [u];
        if Large(size, u) {
          ScanReaches(size, c, i + 1, picked, oversize + [u], total);
          ReachesLarge(Scan(size, c[i + 1..], picked, oversize + [u], total), size, c, i, picked, oversize);
        } else {
          ScanReaches(size, c, i + 1, picked + [u], oversize, total + size[u]);
          ReachesSmall(Scan(size, c[i + 1..], picked + [u], oversize, total + size[u]), size, c, i, picked, oversize);
        }
      }
    }
  }

  /** The window in terms of the sizes alone. */
  lemma {:induction false} WindowExactly(size: map<nat, nat>, c: seq<nat>)
    ensures var w := Scan(size, c, [], [], 0);
            && (forall u :: u in w.oversize <==> LargeFrom(size, c, 0, u))
            && (forall u :: u in w.picked <==> SmallFrom(size, c, 0, u))
  {
    assert c[..0] == [] && c[0..] == c;
    ScanReaches(size, c, 0, [], [], 0);
  }

  // ----- The run that strands mail -----

  /** What a run's loop can come to: its candidates beyond those a first sync passes over, up to
      the first too large one whose save fails. */
  function Considered(st: Copies, key: string, env: Env): seq<nat> {
    var c := Candidates(env.present, LastUid(st.mem, key));
    var n := SkipCount(LastUid(st.mem, key), env.limit, c);
    UptoBreak(env, c[n..])
  }

  predicate BreaksAt(env: Env, u: nat) { Large(env.size, u) && u in env.unsaved }

  function UptoBreak(env: Env, uids: seq<nat>): seq<nat> {
    if uids == [] then []
    else if BreaksAt(env, uids[0]) then [uids[0]]
    else [uids[0]] + UptoBreak(env, uids[1..])
  }

  /** A UID that breaks the loop can only be the last one. */
  lemma {:induction false} UptoBreakIs(env: Env, uids: seq<nat>)
    ensures UptoBreak(env, uids) <= uids
    ensures var p := UptoBreak(env, uids); forall i | 0 <= i < |p| && BreaksAt(env, p[i]) :: i == |p| - 1
  {
    if uids != [] && !BreaksAt(env, uids[0]) {
      UptoBreakIs(env, uids[1..]);
      var p, rest := UptoBreak(env, uids), UptoBreak(env, uids[1..]);
      assert forall i | 0 < i < |p| :: p[i] == rest[i - 1];
    }
  }

  lemma {:induction false} UptoBreakAll(env: Env, uids: seq<nat>)
    requires env.unsaved == {}
    ensures UptoBreak(env, uids) == uids
  {
    if uids != [] {
      UptoBreakAll(env, uids[1..]);
    }
  }

  /** Above the watermark and in ascending order, every too large UID saves. */
  lemma {:induction false} UptoIs(env: Env, mark: int, uids: seq<nat>)
    requires Ascending(uids) && (forall i | 0 <= i < |uids| :: uids[i] > mark)
    ensures Upto(env, mark, uids) == UptoBreak(env, uids)
    decreases |uids|
  {
    if uids != [] && !BreaksAt(env, uids[0]) {
      UptoIs(env, MarkPast(env, mark, uids[0]), uids[1..]);
    }
  }

  /** The run gets its sizes but not its bodies, or not its upload, of which there is one, or a
      save fails at a too large UID it reaches. */
  ghost predicate FailsLate(st: Copies, key: string, env: Env, c: seq<nat>) {
    && GetsSizes(st, key, env)
    && (!env.fetches
        || (!env.uploads && exists k: nat :: SmallAt(env.size, c, k) && c[k] in env.parses)
        || exists k: nat :: LargeAt(env.size, c, k) && c[k] in env.unsaved)
  }

  /** A small candidate lies before a too large one that the scan reaches. */
  ghost predicate Overtaken(size: map<nat, nat>, c: seq<nat>) {
    exists i: nat, j: nat :: i < j && LargeAt(size, c, j) && Small(size, c[i])
  }

  /** A present message that this run left at or below the watermark with nothing done about it. */
  ghost predicate Stranded(st: Copies, key: string, env: Env, u: nat) {
    var o := RunFolder(st, key, env);
    u in env.present && LastUid(st.mem, key) < u <= LastUid(o.copies.mem, key)
    && u !in o.acked && u !in o.dropped && u !in o.window.oversize && u !in o.skipped
  }

  lemma {:induction false} SuffixAscending(c: seq<nat>, n: nat)
    requires Ascending(c) && n <= |c|
    ensures Ascending(c[n..])
  {
  }

  lemma {:induction false} PrefixAscending(p: seq<nat>, c: seq<nat>)
    requires Ascending(c) && p <= c
    ensures Ascending(p)
  {
  }

  lemma {:induction false} SkippedBelow(st: Copies, key: string, env: Env, c: seq<nat>, n: nat)
    requires Ascending(c) && n <= |c| && forall u | u in c :: u > LastUid(st.mem, key)
    ensures forall i | 0 <= i < |c[n..]| :: c[n..][i] > LastUid(Skipped(st, key, env, c[..n]).mem, key)
  {
    forall i | 0 <= i < |c[n..]|
      ensures c[n..][i] > LastUid(Skipped(st, key, env, c[..n]).mem, key)
    {
      assert c[n + i] in c;
      if n > 0 {
        var k :| 0 <= k < n && c[..n][k] == MaxOf(c[..n]);
        assert c[k] < c[n + i];
      }
    }
  }

  lemma {:induction false} ConsideredIs(st: Copies, key: string, env: Env)
    requires Ascending(env.present) && SameValidity(st.mem, key, env)
    ensures Ascending(Considered(st, key, env))
    ensures RunFolder(st, key, env).window
            == if GetsSizes(st, key, env) then Scan(env.size, Considered(st, key, env), [], [], 0) else Window([], [])
  {
    var last := LastUid(st.mem, key);
    var c := Candidates(env.present, last);
    var n := SkipCount(last, env.limit, c);
    var st1 := Selected(st, key, env);
    CandidatesExact(env.present, last);
    SuffixAscending(c, n);
    UptoBreakIs(env, c[n..]);
    PrefixAscending(UptoBreak(env, c[n..]), c[n..]);
    WindowOf(st1, key, env, last, c);
    SkippedBelow(st1, key, env, c, n);
    UptoIs(env, LastUid(Skipped(st1, key, env, c[..n]).mem, key), c[n..]);
  }

  lemma {:induction false} OversizeAscends(size: map<nat, nat>, uids: seq<nat>, picked: seq<nat>,
                                           oversize: seq<nat>, total: nat)
    requires Ascending(oversize) && Ascending(uids)
    requires forall i, j | 0 <= i < |oversize| && 0 <= j < |uids| :: oversize[i] < uids[j]
    ensures Ascending(Scan(size, uids, picked, oversize, total).oversize)
    decreases |uids|
  {
    if uids != [] && |picked| < BATCH_SIZE && uids[0] in size {
      if size[uids[0]] > MAX_SINGLE_BYTES {
        OversizeAscends(size, uids[1..], picked, oversize + [uids[0]], total);
      } else if !(total + size[uids[0]] > BATCH_BYTES && picked != []) {
        OversizeAscends(size, uids[1..], picked + [uids[0]], oversize, total + size[uids[0]]);
      }
    }
  }

  lemma {:induction false} MarkAfterIs(mark: int, uids: seq<nat>)
    ensures MarkAfter(mark, uids) == mark || MarkAfter(mark, uids) in uids
  {
    if uids != [] {
      MarkAfterIs(mark, uids[..|uids| - 1]);
    }
  }

  lemma {:induction false} LastIsAbove(mark: int, s: seq<nat>)
    requires Ascending(s) && s != [] && s[|s| - 1] > mark
    ensures s[|s| - 1] > MarkAfter(mark, s[..|s| - 1])
  {
    MarkAfterIs(mark, s[..|s| - 1]);
    if MarkAfter(mark, s[..|s| - 1]) in s[..|s| - 1] {
      var k :| 0 <= k < |s| - 1 && s[k] == MarkAfter(mark, s[..|s| - 1]);
    }
  }

  /** A save failed at the last too large UID exactly when one that breaks was reached. */
  lemma {:induction false} BrokenIs(env: Env, mark: int, p: seq<nat>)
    requires Ascending(p) && (forall i | 0 <= i < |p| :: p[i] > mark)
    requires forall i | 0 <= i < |p| && BreaksAt(env, p[i]) :: i == |p| - 1
    ensures Broken(env, mark, Scan(env.size, p, [], [], 0).oversize)
            <==> exists k: nat :: LargeAt(env.size, p, k) && p[k] in env.unsaved
  {
    var over := Scan(env.size, p, [], [], 0).oversize;
    WindowExactly(env.size, p);
    OversizeAscends(env.size, p, [], [], 0);
    if over != [] {
      var last := over[|over| - 1];
      assert last in over && LargeFrom(env.size, p, 0, last);
      LastIsAbove(mark, over);
    }
    if k: nat :| LargeAt(env.size, p, k) && p[k] in env.unsaved {
      assert BreaksAt(env, p[k]) && LargeFrom(env.size, p, 0, p[k]);
      var i :| 0 <= i < |over| && over[i] == p[k];
      assert over[|over| - 1] in over && over[|over| - 1] in p;
    }
  }

  lemma {:induction false} FailureIs(st: Copies, key: string, env: Env)
    requires Ascending(env.present) && SameValidity(st.mem, key, env)
    ensures var o := RunFolder(st, key, env);
            o.window.picked != [] ==> (!o.Delivered() <==> FailsLate(st, key, env, Considered(st, key, env)))
    ensures var o := RunFolder(st, key, env);
            !o.Delivered() ==> o.acked == [] && o.dropped == []
  {
    var o, c := RunFolder(st, key, env), Considered(st, key, env);
    ConsideredIs(st, key, env);
    if GetsSizes(st, key, env) && Candidates(env.present, LastUid(st.mem, key)) != [] {
      FailureOver(st, key, env);
    }
  }

  /** What the uploads make of the window: nothing is delivered exactly when a body or an upload
      that is needed fails. */
  lemma {:induction false} DeliverFails(st: Copies, key: string, env: Env, window: Window,
                                        skipped: seq<nat>, c: seq<nat>)
    requires window == Scan(env.size, c, [], [], 0)
    ensures var o := Deliver(st, key, env, window, skipped);
            && (window.picked != [] ==>
                  (!o.Delivered() <==>
                   !env.fetches || (!env.uploads && exists k: nat :: SmallAt(env.size, c, k) && c[k] in env.parses)))
            && (!o.Delivered() ==> o.acked == [] && o.dropped == [])
  {
    WindowExactly(env.size, c);
    KeepIn((u: nat) => u in env.parses, window.picked);
    var batch := Parsed(env, window.picked);
    if batch != [] {
      assert batch[0] in batch;
      assert SmallFrom(env.size, c, 0, batch[0]);
    }
    if k: nat :| SmallAt(env.size, c, k) && c[k] in env.parses {
      assert SmallFrom(env.size, c, 0, c[k]);
      assert c[k] in batch;
    }
  }

  /** The same of the window as a whole, its saves included. */
  lemma {:induction false} WindowFails(st: Copies, key: string, env: Env, window: Window,
                                       skipped: seq<nat>, p: seq<nat>)
    requires window == Scan(env.size, p, [], [], 0)
    requires Ascending(p) && (forall i | 0 <= i < |p| :: p[i] > LastUid(st.mem, key))
    requires forall i | 0 <= i < |p| && BreaksAt(env, p[i]) :: i == |p| - 1
    ensures var o := RunWindow(st, key, env, skipped, window);
            && (window.picked != [] ==>
                  (!o.Delivered() <==>
                   || !env.fetches || (!env.uploads && exists k: nat :: SmallAt(env.size, p, k) && p[k] in env.parses)
                   || exists k: nat :: LargeAt(env.size, p, k) && p[k] in env.unsaved))
            && (!o.Delivered() ==> o.acked == [] && o.dropped == [])
  {
    BrokenIs(env, LastUid(st.mem, key), p);
    DeliverFails(Raised(st, key, window.oversize, env.unsaved), key, env, window, skipped, p);
  }

  /** A run that gets its sizes is what its window comes to. */
  lemma {:induction false} RunIsWindow(st: Copies, key: string, env: Env)
    requires SameValidity(st.mem, key, env) && GetsSizes(st, key, env)
    requires Candidates(env.present, LastUid(st.mem, key)) != []
    ensures var last := LastUid(st.mem, key);
            var c := Candidates(env.present, last);
            var skipped := c[..SkipCount(last, env.limit, c)];
            var st1 := Skipped(Selected(st, key, env), key, env, skipped);
            RunFolder(st, key, env)
            == RunWindow(st1, key, env, skipped, WindowOver(env, LastUid(st1.mem, key), c[|skipped|..]))
  {
  }

  lemma {:induction false} FailureOver(st: Copies, key: string, env: Env)
    requires Ascending(env.present) && SameValidity(st.mem, key, env) && GetsSizes(st, key, env)
    requires Candidates(env.present, LastUid(st.mem, key)) != []
    ensures var o := RunFolder(st, key, env);
            && (o.window.picked != [] ==> (!o.Delivered() <==> FailsLate(st, key, env, Considered(st, key, env))))
            && (!o.Delivered() ==> o.acked == [] && o.dropped == [])
  {
    var last := LastUid(st.mem, key);
    var c, p := Candidates(env.present, last), Considered(st, key, env);
    var n := SkipCount(last, env.limit, c);
    var st1 := Skipped(Selected(st, key, env), key, env, c[..n]);
    CandidatesExact(env.present, last);
    SkippedBelow(Selected(st, key, env), key, env, c, n);
    SuffixAscending(c, n);
    UptoBreakIs(env, c[n..]);
    PrefixAscending(p, c[n..]);
    UptoIs(env, LastUid(st1.mem, key), c[n..]);
    RunIsWindow(st, key, env);
    WindowFails(st1, key, env, WindowOver(env, LastUid(st1.mem, key), c[n..]), c[..n], p);
  }

  lemma {:induction false} SmallBefore(size: map<nat, nat>, c: seq<nat>, i: nat, j: nat)
    requires i < j && LargeAt(size, c, j) && Small(size, c[i])
    ensures SmallAt(size, c, i)
  {
    CountsGrow(size, c, i, j);
    CountsGrow(size, c, i + 1, j);
    assert forall k | 0 <= k < i :: c[..i][k] == c[..j][k];
  }

  /** What a failed run strands are its picked messages below a too-large one. */
  lemma {:induction false} StrandedIs(st: Copies, key: string, env: Env, u: nat)
    requires Ascending(env.present) && SameValidity(st.mem, key, env)
    ensures var o := RunFolder(st, key, env);
            Stranded(st, key, env, u)
            <==> !o.Delivered() && u in o.window.picked && exists big :: big in o.window.oversize && u < big
  {
    var a, b, rest := FolderRun(st, key, env);
    FailureIs(st, key, env);
    DeliveredAll(st, key, env);
    var o := RunFolder(st, key, env);
    var mark, mark' := LastUid(st.mem, key), LastUid(o.copies.mem, key);
    if Stranded(st, key, env, u) {
      PassedParts(o, env, mark, mark', a, b, rest, u);
    }
    if big :| !o.Delivered() && u in o.window.picked && big in o.window.oversize && u < big {
      OvertakenParts(o, env, mark, mark', a, b, rest, u, big);
    }
  }

  /** A run that split its candidates and moved the watermark as it should, and either
      delivered or dropped everything picked or nothing. */
  ghost predicate Settled(o: Outcome, env: Env, mark: int, mark': int, a: seq<nat>, b: seq<nat>, rest: seq<nat>) {
    && Parts(o, env, mark, a, b, rest) && Marks(o, mark, mark')
    && (o.Delivered() ==> forall x | x in o.window.picked :: x in o.acked || x in o.dropped)
    && (!o.Delivered() ==> o.acked == [] && o.dropped == [])
  }

  lemma {:induction false} PassedParts(o: Outcome, env: Env, mark: int, mark': int,
                                      a: seq<nat>, b: seq<nat>, rest: seq<nat>, u: nat)
    requires Settled(o, env, mark, mark', a, b, rest) && u in env.present && mark < u <= mark'
    requires u !in o.acked && u !in o.dropped && u !in o.window.oversize && u !in o.skipped
    ensures !o.Delivered() && u in o.window.picked && mark' in o.window.oversize && u < mark'
  {
    assert u !in rest;
    assert u in o.window.picked;
  }

  lemma {:induction false} OvertakenParts(o: Outcome, env: Env, mark: int, mark': int,
                                         a: seq<nat>, b: seq<nat>, rest: seq<nat>, u: nat, big: nat)
    requires Settled(o, env, mark, mark', a, b, rest)
    requires !o.Delivered() && u in o.window.picked && big in o.window.oversize && u < big
    ensures u in env.present && mark < u <= mark'
    ensures u !in o.acked && u !in o.dropped && u !in o.window.oversize && u !in o.skipped
  {
    assert u in b && big <= mark';
  }

  lemma {:induction false} DeliverSplits(st: Copies, key: string, env: Env, window: Window, skipped: seq<nat>)
    ensures var o := Deliver(st, key, env, window, skipped);
            o.window == window && o.skipped == skipped
            && (o.Delivered() ==> forall u | u in window.picked :: u in o.acked || u in o.dropped)
  {
    KeepIn((u: nat) => u in env.parses, window.picked);
    KeepIn((u: nat) => u !in env.parses, window.picked);
  }

  lemma {:induction false} DeliveredAll(st: Copies, key: string, env: Env)
    ensures var o := RunFolder(st, key, env);
            o.Delivered() ==> forall u | u in o.window.picked :: u in o.acked || u in o.dropped
  {
    var last := StartUid(st.mem, key, env.validity);
    var c := Candidates(env.present, last);
    if GetsSizes(st, key, env) && c != [] {
      var n := SkipCount(last, env.limit, c);
      var st1 := Skipped(Selected(st, key, env), key, env, c[..n]);
      var window := WindowOver(env, LastUid(st1.mem, key), c[n..]);
      DeliverSplits(Raised(st1, key, window.oversize, env.unsaved), key, env, window, c[..n]);
    }
  }

  lemma {:induction false} StrandedIsOvertaken(st: Copies, key: string, env: Env, u: nat)
    requires Ascending(env.present) && SameValidity(st.mem, key, env) && Stranded(st, key, env, u)
    ensures FailsLate(st, key, env, Considered(st, key, env)) && Overtaken(env.size, Considered(st, key, env))
  {
    var o, c := RunFolder(st, key, env), Considered(st, key, env);
    StrandedIs(st, key, env, u);
    FailureIs(st, key, env);
    ConsideredIs(st, key, env);
    WindowExactly(env.size, c);
    var big :| big in o.window.oversize && u < big;
    assert LargeFrom(env.size, c, 0, big) && SmallFrom(env.size, c, 0, u);
    var j: nat :| 0 <= j < |c| && c[j] == big && LargeAt(env.size, c, j);
    var i: nat :| 0 <= i < |c| && c[i] == u && SmallAt(env.size, c, i);
    assert !(j < i) && j != i;
  }

  lemma {:induction false} OvertakenIsStranded(st: Copies, key: string, env: Env, i: nat, j: nat)
    requires Ascending(env.present) && SameValidity(st.mem, key, env)
    requires var c := Considered(st, key, env);
             FailsLate(st, key, env, c) && i < j && LargeAt(env.size, c, j) && Small(env.size, c[i])
    ensures Stranded(st, key, env, Considered(st, key, env)[i])
  {
    var o, c := RunFolder(st, key, env), Considered(st, key, env);
    FailureIs(st, key, env);
    ConsideredIs(st, key, env);
    WindowExactly(env.size, c);
    SmallBefore(env.size, c, i, j);
    assert SmallFrom(env.size, c, 0, c[i]) && LargeFrom(env.size, c, 0, c[j]);
    assert c[i] < c[j] && c[i] in o.window.picked && c[j] in o.window.oversize;
    StrandedIs(st, key, env, c[i]);
  }

  /** A run strands mail exactly when it fails after it got its sizes and, among its candidates,
      a small one lies before a too large one that the scan reaches. */
  lemma {:induction false} StrandsExactlyWhen(st: Copies, key: string, env: Env)
    requires Ascending(env.present) && SameValidity(st.mem, key, env)
    ensures var c := Considered(st, key, env);
            (exists u: nat :: Stranded(st, key, env, u)) <==> FailsLate(st, key, env, c) && Overtaken(env.size, c)
  {
    var c := Considered(st, key, env);
    if u: nat :| Stranded(st, key, env, u) {
      StrandedIsOvertaken(st, key, env, u);
    }
    if FailsLate(st, key, env, c) && Overtaken(env.size, c) {
      var i: nat, j: nat :| i < j && LargeAt(env.size, c, j) && Small(env.size, c[i]);
      OvertakenIsStranded(st, key, env, i, j);
    }
  }

  /** For example: UID 1 is small, UID 2 is over the limit, and the upload fails. The watermark
      then passes UID 1, and no later search returns it. */
  lemma {:induction false} StrandedExample() returns (env: Env, st: Copies)
    ensures env.present == [1, 2] && env.size == map[1 := 10, 2 := MAX_SINGLE_BYTES + 1]
    ensures st == Copies(EMPTY_DATA, EMPTY_DATA) && Stranded(st, "a|INBOX", env, 1)
    ensures 1 !in Candidates([1, 2], LastUid(RunFolder(st, "a|INBOX", env).copies.mem, "a|INBOX"))
  {
    var size := map[1 := 10, 2 := MAX_SINGLE_BYTES + 1];
    env := Env(9, [1, 2], size, 50, {1}, true, true, true, true, false, true, true, {}, true);
    st := Copies(EMPTY_DATA, EMPTY_DATA);
    ExampleCandidates();
    ExampleReached(size, [1, 2]);
    ExampleStranded(st, env, "a|INBOX");
  }

  lemma {:induction false} ExampleStranded(st: Copies, env: Env, key: string)
    requires st == Copies(EMPTY_DATA, EMPTY_DATA)
    requires Ascending(env.present) && Candidates(env.present, 0) == [1, 2] && env.limit == 50
    requires env.selects && env.selectSaves && env.searches && env.sizes && !env.uploads && 1 in env.parses
    requires env.unsaved == {} && SmallAt(env.size, [1, 2], 0) && LargeAt(env.size, [1, 2], 1)
    ensures Stranded(st, key, env, 1)
    ensures 1 !in Candidates(env.present, LastUid(RunFolder(st, key, env).copies.mem, key))
  {
    var c: seq<nat> := [1, 2];
    assert LastUid(EMPTY_DATA, key) == 0;
    UptoBreakAll(env, c);
    assert c[0..] == c && Considered(st, key, env) == c;
    assert c[0] in env.parses;
    OvertakenIsStranded(st, key, env, 0, 1);
    CandidatesExact(env.present, LastUid(RunFolder(st, key, env).copies.mem, key));
  }

  lemma {:induction false} KeepAll(p: nat -> bool, s: seq<nat>)
    requires forall i | 0 <= i < |s| :: p(s[i])
    ensures Keep(p, s) == s
  {
    if s != [] {
      KeepAll(p, s[..|s| - 1]);
    }
  }

  lemma {:induction false} ExampleCandidates()
    ensures Candidates([1, 2], 0) == [1, 2]
  {
    KeepAll((u: nat) => u >= 1, [1, 2]);
    KeepAll((u: nat) => u > 0, [1, 2]);
  }

  lemma {:induction false} ExampleReached(size: map<nat, nat>, c: seq<nat>)
    requires c == [1, 2] && size == map[1 := 10, 2 := MAX_SINGLE_BYTES + 1]
    ensures SmallAt(size, c, 0) && LargeAt(size, c, 1)
  {
    assert c[..0] == [] && c[..1] == [1] && [1][..0] == [];
  }

  // ----- Whole histories of one folder -----

  /** `next` is above every UID the folder has ever used; `stranded` are the messages that runs
      left at or below the watermark with nothing done about them, and that no restart with an
      older file has brought back above it. */
  datatype World = World(
    present: seq<nat>,
    next: nat,
    copies: Copies,
    acked: set<nat>,
    dropped: set<nat>,
    oversize: set<nat>,
    skipped: set<nat>,
    stranded: set<nat>)
  {
    function Handled(): set<nat> { acked + dropped + oversize + skipped }
  }

  datatype Event = Arrive(uid: nat) | Delete(index: nat) | Run(env: Env) | SaveElsewhere | Restart

  function Elems(s: seq<nat>): set<nat> { set x | x in s }

  function Mark(w: World, key: string): int { LastUid(w.copies.mem, key) }

  predicate Enabled(w: World, validity: int, e: Event) {
    match e
    case Arrive(uid) => uid >= w.next
    case Delete(i) => i < |w.present|
    case Run(env) => env.present == w.present && env.validity == validity
    case SaveElsewhere => true
    case Restart => true
  }

  function Without(s: seq<nat>, i: nat): seq<nat>
    requires i < |s|
  {
    s[..i] + s[i + 1..]
  }

  ghost function AfterRun(w: World, key: string, env: Env): World {
    var o := RunFolder(w.copies, key, env);
    w.(copies := o.copies, acked := w.acked + Elems(o.acked), dropped := w.dropped + Elems(o.dropped),
       oversize := w.oversize + Elems(o.window.oversize), skipped := w.skipped + Elems(o.skipped),
       stranded := w.stranded + set u | u in w.present && Stranded(w.copies, key, env, u))
  }

  ghost function Step(w: World, key: string, validity: int, e: Event): World
    requires Enabled(w, validity, e)
  {
    match e
    case Arrive(uid) => w.(present := w.present + [uid], next := uid + 1)
    case Delete(i) => w.(present := Without(w.present, i))
    case Run(env) => AfterRun(w, key, env)
    case SaveElsewhere => w.(copies := w.copies.Saved(w.copies.mem, true))
    case Restart =>
      w.(copies := w.copies.(mem := w.copies.disk),
         stranded := set u | u in w.stranded && u <= LastUid(w.copies.disk, key))
  }

  ghost predicate Inv(w: World, key: string, validity: int) {
    && Ascending(w.present) && (forall u | u in w.present :: u < w.next) && Mark(w, key) < w.next
    && DiskBehind(w.copies, key, validity, 0)
    && (forall u | u in w.present && u <= Mark(w, key) :: u in w.Handled() || u in w.stranded)
    && (forall u | u in w.stranded :: u <= Mark(w, key)) && (forall u | u in w.skipped :: u < w.next)
  }

  lemma {:induction false} RunKeeps(w: World, key: string, validity: int, env: Env)
    requires Inv(w, key, validity) && Enabled(w, validity, Run(env))
    ensures Inv(Step(w, key, validity, Run(env)), key, validity)
  {
    var o := RunFolder(w.copies, key, env);
    var a, b, rest := FolderRun(w.copies, key, env);
    RunDisk(w.copies, key, env, 0);
    var w' := AfterRun(w, key, env);
    var mark, mark' := Mark(w, key), LastUid(o.copies.mem, key);
    forall u | u in w.present && u <= mark'
      ensures u in w'.Handled() || u in w'.stranded
    {
      if u > mark && u !in Elems(o.acked) + Elems(o.dropped) + Elems(o.window.oversize) + Elems(o.skipped) {
        assert Stranded(w.copies, key, env, u);
      }
    }
    MarkBelowNext(o, env, mark, mark', a, b, rest, w.next);
  }

  lemma {:induction false} MarkBelowNext(o: Outcome, env: Env, mark: int, mark': int, a: seq<nat>, b: seq<nat>,
                                         rest: seq<nat>, next: nat)
    requires Parts(o, env, mark, a, b, rest) && Marks(o, mark, mark')
    requires mark < next && forall u | u in env.present :: u < next
    ensures mark' < next
  {
  }

  lemma {:induction false} AscendingRemove(s: seq<nat>, i: nat)
    requires Ascending(s) && i < |s|
    ensures Ascending(Without(s, i))
    ensures forall x | x in Without(s, i) :: x in s
  {
  }

  lemma {:induction false} StepKeeps(w: World, key: string, validity: int, e: Event)
    requires Inv(w, key, validity) && Enabled(w, validity, e)
    ensures Inv(Step(w, key, validity, e), key, validity)
  {
    match e
    case Arrive(uid) => AscendingAppend(w.present, uid);
    case Delete(i) => AscendingRemove(w.present, i);
    case Run(env) => RunKeeps(w, key, validity, env);
    case SaveElsewhere =>
    case Restart =>
  }

  ghost predicate Leads(w: World, key: string, validity: int, es: seq<Event>, w': World)
    decreases |es|
  {
    if es == [] then w' == w
    else Enabled(w, validity, es[0]) && Leads(Step(w, key, validity, es[0]), key, validity, es[1..], w')
  }

  lemma {:induction false} RunsKeep(w: World, key: string, validity: int, es: seq<Event>, w': World)
    requires Inv(w, key, validity) && Leads(w, key, validity, es, w')
    ensures Inv(w', key, validity)
    decreases |es|
  {
    if es != [] {
      StepKeeps(w, key, validity, es[0]);
      RunsKeep(Step(w, key, validity, es[0]), key, validity, es[1..], w');
    }
  }

  /** The process's watermark never falls but by a restart, and then to that of the file. */
  lemma {:induction false} MarkFallsOnlyByRestart(w: World, key: string, validity: int, e: Event)
    requires Inv(w, key, validity) && Enabled(w, validity, e)
    ensures Mark(Step(w, key, validity, e), key) < Mark(w, key)
            <==> e.Restart? && LastUid(w.copies.disk, key) < Mark(w, key)
  {
    if e.Run? {
      var a, b, rest := FolderRun(w.copies, key, e.env);
    }
  }

  /** No run of the history fails late with a small candidate overtaken by a too large one. */
  ghost predicate NeverOvertaken(w: World, key: string, validity: int, es: seq<Event>)
    decreases |es|
  {
    es != [] && Enabled(w, validity, es[0]) ==>
      && (es[0].Run? ==>
            var c := Considered(w.copies, key, es[0].env);
            !(FailsLate(w.copies, key, es[0].env, c) && Overtaken(es[0].env.size, c)))
      && NeverOvertaken(Step(w, key, validity, es[0]), key, validity, es[1..])
  }

  lemma {:induction false} NothingStranded(w: World, key: string, validity: int, es: seq<Event>, w': World)
    requires Inv(w, key, validity) && Leads(w, key, validity, es, w') && NeverOvertaken(w, key, validity, es)
    ensures w'.stranded <= w.stranded
    decreases |es|
  {
    if es != [] {
      var w1 := Step(w, key, validity, es[0]);
      StepKeeps(w, key, validity, es[0]);
      if es[0].Run? {
        StrandsExactlyWhen(w.copies, key, es[0].env);
        assert w1.stranded == w.stranded;
      }
      NothingStranded(w1, key, validity, es[1..], w');
    }
  }

  function Begins(present: seq<nat>, next: nat): World {
    World(present, next, Copies(EMPTY_DATA, EMPTY_DATA), {}, {}, {}, {}, {})
  }

  /** Over every history of arrivals, deletions, runs and restarts from an empty state, whatever
      fails, saves included: every present UID at or below the watermark was acknowledged,
      dropped by normalisation, too large, passed over by the first-sync limit, or stranded; the
      next search finds exactly the present UIDs above the watermark, so every other unhandled
      one and no stranded one; and nothing is stranded unless some run fails late with a small
      candidate overtaken. */
  lemma {:induction false} NothingBelowTheWatermark(present: seq<nat>, next: nat, key: string, validity: int,
                                                    es: seq<Event>, w': World)
    requires Ascending(present) && next > 0 && forall u | u in present :: 0 < u < next
    requires Leads(Begins(present, next), key, validity, es, w')
    ensures forall u | u in w'.present && u <= Mark(w', key) :: u in w'.Handled() || u in w'.stranded
    ensures forall u | u in w'.present && u !in w'.Handled() ::
              u in Candidates(w'.present, Mark(w', key)) <==> u !in w'.stranded
    ensures NeverOvertaken(Begins(present, next), key, validity, es) ==> w'.stranded == {}
  {
    var w := Begins(present, next);
    RunsKeep(w, key, validity, es, w');
    CandidatesExact(w'.present, Mark(w', key));
    if NeverOvertaken(w, key, validity, es) {
      NothingStranded(w, key, validity, es, w');
    }
  }
}
