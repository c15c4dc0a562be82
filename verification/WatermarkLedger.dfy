/** What IMAP folder runs report, in terms of what the server, the Worker and the disk answered:
    which UIDs a first sync passes over, which are delivered, dropped or too large, what is left
    on disk, and what a changed UIDVALIDITY does (aggregator/src/one_mail_agg/imap_base.py and
    sync.py). */
module WatermarkLedger {
  import opened Wrappers
  import opened SyncStates
  import opened ImapWatermark
  import opened WatermarkRuns

  // ----- What a first sync passes over -----

  function Above(present: seq<nat>, u: int): set<nat> { set v | v in present && v > u }

  /** The run gets the list of UIDs above its watermark. */
  predicate GetsCandidates(st: Copies, key: string, env: Env) {
    env.selects && (NewValidity(st.mem, key, env.validity) ==> env.selectSaves) && env.searches
  }

  /** With an unchanged UIDVALIDITY and a watermark above 0 a run passes over nothing; a first sync
      passes over exactly the present UIDs that have at least `limit` present ones above them. */
  lemma {:induction false} SkippedExactly(st: Copies, key: string, env: Env)
    requires Ascending(env.present) && SameValidity(st.mem, key, env)
    ensures var o, mark := RunFolder(st, key, env), LastUid(st.mem, key);
            && (mark > 0 ==> o.skipped == [])
            && (mark == 0 ==> forall u :: u in o.skipped <==>
                  GetsCandidates(st, key, env) && u in env.present && u > 0 && 0 < env.limit <= |Above(env.present, u)|)
  {
    var mark := LastUid(st.mem, key);
    var c := Candidates(env.present, mark);
    CandidatesExact(env.present, mark);
    if GetsCandidates(st, key, env) {
      var n := SkipCount(mark, env.limit, c);
      WindowOf(Selected(st, key, env), key, env, mark, c);
      if mark == 0 {
        forall u: nat
          ensures u in c[..n] <==> u in env.present && u > 0 && 0 < env.limit <= |Above(env.present, u)|
        {
          if u in c {
            SkippedAt(env, c, u);
          }
        }
      }
    }
  }

  lemma {:induction false} SkippedAt(env: Env, c: seq<nat>, u: nat)
    requires Ascending(c) && u in c && forall v :: v in c <==> v in env.present && v > 0
    ensures u in c[..SkipCount(0, env.limit, c)] <==> 0 < env.limit <= |Above(env.present, u)|
  {
    var i :| 0 <= i < |c| && c[i] == u;
    AboveCount(env.present, c, i);
    var n := SkipCount(0, env.limit, c);
    if i < n {
      assert c[..n][i] == u;
    } else {
      assert forall j | 0 <= j < n :: c[..n][j] == c[j] < c[i];
    }
  }

  lemma {:induction false} AboveCount(present: seq<nat>, c: seq<nat>, i: nat)
    requires Ascending(c) && i < |c| && forall v :: v in c <==> v in present && v > 0
    ensures |Above(present, c[i])| == |c| - i - 1
  {
    var tail := c[i + 1..];
    forall v
      ensures v in Above(present, c[i]) <==> v in tail
    {
      if v in Above(present, c[i]) {
        var j :| 0 <= j < |c| && c[j] == v;
        assert j > i;
        assert tail[j - i - 1] == v;
      }
    }
    assert Above(present, c[i]) == Elems(tail);
    ElemsCount(tail);
  }

  lemma {:induction false} ElemsCount(s: seq<nat>)
    requires Ascending(s)
    ensures |Elems(s)| == |s|
  {
    if s != [] {
      var init, last := s[..|s| - 1], s[|s| - 1];
      ElemsCount(init);
      assert s == init + [last];
      assert Elems(s) == Elems(init) + {last};
      assert last !in init;
    }
  }

  // ----- What a run reports -----

  /** Delivered are the picked ones that decode, once their bodies and their upload went through;
      dropped the picked ones that do not; nothing of a run that got neither. */
  ghost predicate Reports(env: Env, o: Outcome) {
    && (forall u :: u in o.acked <==> o.Delivered() && u in o.window.picked && u in env.parses)
    && (forall u :: u in o.dropped <==> o.Delivered() && u in o.window.picked && u !in env.parses)
    && (o.acked != [] ==> env.fetches && env.uploads) && (o.dropped != [] ==> env.fetches)
  }

  lemma {:induction false} DeliverReports(st: Copies, key: string, env: Env, window: Window, skipped: seq<nat>)
    ensures var o := Deliver(st, key, env, window, skipped);
            Reports(env, o) && o.window == window
  {
    KeepIn((u: nat) => u in env.parses, window.picked);
    KeepIn((u: nat) => u !in env.parses, window.picked);
    var batch := Parsed(env, window.picked);
    if batch != [] {
      assert batch[0] in batch;
    }
  }

  lemma {:induction false} CandidatesReport(st: Copies, key: string, env: Env, last: int, c: seq<nat>)
    ensures Reports(env, RunCandidates(st, key, env, last, c))
  {
    if c != [] {
      var n := SkipCount(last, env.limit, c);
      var st1 := Skipped(st, key, env, c[..n]);
      var window := WindowOver(env, LastUid(st1.mem, key), c[n..]);
      DeliverReports(Raised(st1, key, window.oversize, env.unsaved), key, env, window, c[..n]);
    }
  }

  /** What every run reports of the UIDs above its watermark. */
  lemma {:induction false} ReportsExactly(st: Copies, key: string, env: Env)
    requires Ascending(env.present) && SameValidity(st.mem, key, env)
    ensures var o, mark := RunFolder(st, key, env), LastUid(st.mem, key);
            && Reports(env, o)
            && (forall u | u in o.window.picked :: u in env.present && u > mark && Small(env.size, u))
            && (forall u | u in o.window.oversize :: u in env.present && u > mark && Large(env.size, u))
  {
    var a, b, rest := FolderRun(st, key, env);
    PartsAre(RunFolder(st, key, env), env, LastUid(st.mem, key), a, b, rest);
    RunReports(st, key, env);
  }

  lemma {:induction false} PartsAre(o: Outcome, env: Env, mark: int, a: seq<nat>, b: seq<nat>, rest: seq<nat>)
    requires Parts(o, env, mark, a, b, rest)
    ensures forall u | u in o.window.picked :: u in env.present && u > mark && Small(env.size, u)
    ensures forall u | u in o.window.oversize :: u in env.present && u > mark && Large(env.size, u)
  {
  }

  lemma {:induction false} RunReports(st: Copies, key: string, env: Env)
    ensures Reports(env, RunFolder(st, key, env))
  {
    var last := StartUid(st.mem, key, env.validity);
    CandidatesReport(Selected(st, key, env), key, env, last, Candidates(env.present, last));
  }

  // ----- What a run leaves on disk -----

  /** Nothing was saved because nothing changed, or the file is what the process has. */
  ghost predicate InStep(before: Copies, after: Copies) { after == before || after.disk == after.mem }

  /** No save failed at any of these. */
  ghost predicate Unbroken(env: Env, mark: int, uids: seq<nat>) {
    forall i | 0 <= i < |uids| :: uids[i] in env.unsaved ==> uids[i] <= MarkAfter(mark, uids[..i])
  }

  lemma {:induction false} UnbrokenNext(env: Env, mark: int, uids: seq<nat>, u: nat)
    requires Unbroken(env, mark, uids) && (u in env.unsaved ==> u <= MarkAfter(mark, uids))
    ensures Unbroken(env, mark, uids + [u])
  {
    assert (uids + [u])[..|uids|] == uids;
    assert forall i | 0 <= i < |uids| :: (uids + [u])[..i] == uids[..i];
  }

  lemma {:induction false} UnbrokenInit(env: Env, mark: int, uids: seq<nat>, n: nat)
    requires Unbroken(env, mark, uids) && n <= |uids|
    ensures Unbroken(env, mark, uids[..n])
  {
    assert forall i | 0 <= i < n :: uids[..n][..i] == uids[..i];
  }

  lemma {:induction false} RaisedInStep(before: Copies, st: Copies, key: string, uids: seq<nat>, env: Env)
    requires InStep(before, st) && Unbroken(env, LastUid(st.mem, key), uids)
    ensures InStep(before, Raised(st, key, uids, env.unsaved))
  {
    if uids != [] {
      var init := uids[..|uids| - 1];
      UnbrokenInit(env, LastUid(st.mem, key), uids, |init|);
      RaisedInStep(before, st, key, init, env);
      RaisedMarkIs(st, key, init, env.unsaved);
    }
  }

  lemma {:induction false} RaisedUnsaved(st: Copies, key: string, uids: seq<nat>, unsaved: set<nat>)
    requires forall u | u in uids :: u in unsaved
    ensures Raised(st, key, uids, unsaved).disk == st.disk
  {
    if uids != [] {
      RaisedUnsaved(st, key, uids[..|uids| - 1], unsaved);
    }
  }

  /** Only the last of these can have failed to save. */
  ghost predicate BrokenLast(env: Env, mark: int, uids: seq<nat>) {
    Unbroken(env, mark, uids)
    || (uids != [] && Unbroken(env, mark, uids[..|uids| - 1]) && Broken(env, mark, uids))
  }

  lemma {:induction false} TakenBreaks(env: Env, mark: int, over: seq<nat>, u: nat)
    requires Unbroken(env, mark, over) && TooLarge(env, u)
    ensures BrokenLast(env, mark, over + [u])
    ensures !Breaks(env, MarkAfter(mark, over), u) ==>
              Unbroken(env, mark, over + [u])
              && MarkAfter(mark, over + [u]) == MarkPast(env, MarkAfter(mark, over), u)
  {
    assert (over + [u])[..|over|] == over;
    if !Breaks(env, MarkAfter(mark, over), u) {
      UnbrokenNext(env, mark, over, u);
    }
  }

  lemma {:induction false} UptoNext(env: Env, m: int, uids: seq<nat>)
    requires uids != []
    ensures var p := Upto(env, m, uids);
            p != [] && p[0] == uids[0]
            && p[1..] == if Breaks(env, m, uids[0]) then [] else Upto(env, MarkPast(env, m, uids[0]), uids[1..])
  {
  }

  /** In a window only the last too large UID can. */
  lemma {:induction false} OnlyLastBreaks(env: Env, mark: int, uids: seq<nat>, w: Window, total: nat)
    requires Unbroken(env, mark, w.oversize)
    ensures BrokenLast(env, mark, Scan(env.size, Upto(env, MarkAfter(mark, w.oversize), uids), w.picked, w.oversize,
                                       total).oversize)
    decreases |uids|
  {
    if uids != [] {
      var m, u := MarkAfter(mark, w.oversize), uids[0];
      UptoNext(env, m, uids);
      ScanNext(env.size, Upto(env, m, uids), w, total);
      if GoesOn(env.size, w, total, u) {
        if TooLarge(env, u) {
          TakenBreaks(env, mark, w.oversize, u);
        }
        if !Breaks(env, m, u) {
          OnlyLastBreaks(env, mark, uids[1..], Taken(w, env.size, u),
                         if TooLarge(env, u) then total else total + env.size[u]);
        }
      }
    }
  }

  /** A save failed, and the run ended there. */
  predicate SaveEnded(o: Outcome) { o.failed == Some(SaveFailed) || o.failed == Some(EndSaveFailed) }

  /** No save of this run can succeed. */
  ghost predicate NothingSaves(env: Env) {
    !env.selectSaves && !env.skipSaves && !env.endSaves && forall u: nat | u in env.size :: u in env.unsaved
  }

  /** After a run in which no save failed the file is what the process has; if all saves succeed,
      none fails; if none can, the file stays as it was. */
  lemma {:induction false} SavesExactly(st: Copies, key: string, env: Env)
    ensures var o := RunFolder(st, key, env);
            && (!SaveEnded(o) ==> InStep(st, o.copies))
            && (env.selectSaves && env.skipSaves && env.unsaved == {} && env.endSaves ==> !SaveEnded(o))
            && (NothingSaves(env) ==> o.copies.disk == st.disk)
  {
    var last := StartUid(st.mem, key, env.validity);
    var c := Candidates(env.present, last);
    if GetsCandidates(st, key, env) && c != [] {
      var n, st1 := SkipCount(last, env.limit, c), Selected(st, key, env);
      if !SkipFails(st1, key, env, c[..n]) && env.sizes {
        WindowSaves(st, Skipped(st1, key, env, c[..n]), key, env, c[..n], c[n..]);
      }
    }
  }

  lemma {:induction false} WindowSaves(before: Copies, st: Copies, key: string, env: Env, skipped: seq<nat>,
                                      uids: seq<nat>)
    requires InStep(before, st)
    ensures var o := RunWindow(st, key, env, skipped, WindowOver(env, LastUid(st.mem, key), uids));
            && (!SaveEnded(o) ==> InStep(before, o.copies))
            && (env.unsaved == {} && env.endSaves ==> !SaveEnded(o))
            && (NothingSaves(env) ==> o.copies.disk == st.disk)
  {
    var mark := LastUid(st.mem, key);
    var window := WindowOver(env, mark, uids);
    OnlyLastBreaks(env, mark, uids, Window([], []), 0);
    if Unbroken(env, mark, window.oversize) {
      RaisedInStep(before, st, key, window.oversize, env);
    }
    if NothingSaves(env) {
      var m := WindowShape(env, mark, uids);
      RaisedUnsaved(st, key, window.oversize, env.unsaved);
    }
  }

  // ----- Which call is named when a run fails -----

  /** The failure named is the first call that went wrong. */
  ghost predicate Named(st: Copies, key: string, env: Env, o: Outcome) {
    && (o.failed == Some(SelectFailed) <==> !env.selects)
    && (o.failed == Some(SearchFailed)
        <==> env.selects && (NewValidity(st.mem, key, env.validity) ==> env.selectSaves) && !env.searches)
    && (o.failed == Some(SizesFailed) ==> GetsCandidates(st, key, env) && !env.sizes)
    && (o.failed == Some(FetchFailed) ==> env.sizes && !env.fetches && o.window.picked != [])
    && (o.failed == Some(UploadFailed)
        ==> env.sizes && env.fetches && !env.uploads && exists u :: u in o.window.picked && u in env.parses)
    && (o.failed.None? ==> GetsCandidates(st, key, env) && (o.window.picked != [] ==> env.sizes && env.fetches))
  }

  lemma {:induction false} DeliverNamed(st: Copies, key: string, env: Env, window: Window, skipped: seq<nat>)
    ensures var o := Deliver(st, key, env, window, skipped);
            && o.window == window
            && o.failed != Some(SelectFailed) && o.failed != Some(SearchFailed) && o.failed != Some(SizesFailed)
            && (o.failed == Some(FetchFailed) <==> window.picked != [] && !env.fetches)
            && (o.failed == Some(UploadFailed)
                <==> env.fetches && !env.uploads && exists u :: u in window.picked && u in env.parses)
  {
    KeepIn((u: nat) => u in env.parses, window.picked);
    var batch := Parsed(env, window.picked);
    if batch != [] {
      assert batch[0] in batch;
    }
  }

  lemma {:induction false} FailureNamed(st: Copies, key: string, env: Env)
    ensures Named(st, key, env, RunFolder(st, key, env))
  {
    var last := StartUid(st.mem, key, env.validity);
    var c := Candidates(env.present, last);
    var n, st1 := SkipCount(last, env.limit, c), Selected(st, key, env);
    var st2 := Skipped(st1, key, env, c[..n]);
    var window := WindowOver(env, LastUid(st2.mem, key), c[n..]);
    DeliverNamed(Raised(st2, key, window.oversize, env.unsaved), key, env, window, c[..n]);
  }

  // ----- What a run leaves alone -----

  /** Nothing but this folder's watermark and UIDVALIDITY differs. */
  ghost predicate SameElsewhere(d: Data, d': Data, key: string) {
    && d'.pop3Seen == d.pop3Seen && d'.fallback == d.fallback
    && (forall k | k != key :: LastUid(d', k) == LastUid(d, k))
    && (forall k | k != key :: (k in d'.uidvalidity <==> k in d.uidvalidity)
                               && (k in d.uidvalidity ==> d'.uidvalidity[k] == d.uidvalidity[k]))
  }

  lemma {:induction false} RaisedElsewhere(d: Data, st: Copies, key: string, uids: seq<nat>, unsaved: set<nat>)
    requires SameElsewhere(d, st.mem, key)
    ensures SameElsewhere(d, Raised(st, key, uids, unsaved).mem, key)
  {
    if uids != [] {
      RaisedElsewhere(d, st, key, uids[..|uids| - 1], unsaved);
    }
  }

  lemma {:induction false} WindowElsewhere(d: Data, st: Copies, key: string, env: Env, skipped: seq<nat>,
                                          window: Window)
    requires SameElsewhere(d, st.mem, key)
    ensures SameElsewhere(d, RunWindow(st, key, env, skipped, window).copies.mem, key)
  {
    RaisedElsewhere(d, st, key, window.oversize, env.unsaved);
  }

  /** A run changes its own folder's watermark and UIDVALIDITY alone. */
  lemma {:induction false} RunTouchesOneFolder(st: Copies, key: string, env: Env)
    ensures SameElsewhere(st.mem, RunFolder(st, key, env).copies.mem, key)
  {
    var last := StartUid(st.mem, key, env.validity);
    var c := Candidates(env.present, last);
    var n, st1 := SkipCount(last, env.limit, c), Selected(st, key, env);
    var st2 := Skipped(st1, key, env, c[..n]);
    WindowElsewhere(st.mem, st2, key, env, c[..n], WindowOver(env, LastUid(st2.mem, key), c[n..]));
  }

  // ----- A changed UIDVALIDITY -----

  /** With a changed UIDVALIDITY the run starts over: it splits all present UIDs, as a first sync
      does. But the recorded watermark stays where it was, or above: of what the run leaves for
      later, though the new UIDVALIDITY may have given these UIDs to other messages, the next one
      finds exactly the UIDs above the old watermark. */
  lemma {:induction false} ResetHidesExactly(st: Copies, key: string, env: Env)
    returns (a: seq<nat>, b: seq<nat>, rest: seq<nat>)
    requires Ascending(env.present) && !SameValidity(st.mem, key, env) && GetsCandidates(st, key, env)
    ensures var o := RunFolder(st, key, env);
            && Parts(o, env, 0, a, b, rest)
            && forall u | u in rest ::
                 u in Candidates(env.present, StartUid(o.copies.mem, key, env.validity)) <==> u > LastUid(st.mem, key)
  {
    a, b, rest := SearchedRun(Selected(st, key, env), key, env, 0);
    RunMarks(Selected(st, key, env), key, env, 0, Candidates(env.present, 0));
    CandidatesExact(env.present, StartUid(RunFolder(st, key, env).copies.mem, key, env.validity));
  }

  /** For example: the watermark stands at 100, the UIDVALIDITY changes, and the sizes cannot be
      had. The next search does not return UID 1, and nothing was done about it. */
  lemma {:induction false} ResetExample(key: string, env: Env) returns (st: Copies)
    requires env.present == [1] && env.validity == 9 && env.selects && env.selectSaves && env.searches && !env.sizes
    requires env.limit == 0
    ensures !SameValidity(st.mem, key, env) && LastUid(st.mem, key) == 100
    ensures var o := RunFolder(st, key, env);
            && o.acked == [] && o.dropped == [] && o.window == Window([], []) && o.skipped == []
            && 1 !in Candidates(env.present, StartUid(o.copies.mem, key, env.validity))
  {
    st := Copies(Data(map[key := 100], map[key := 7], map[], map[]), EMPTY_DATA);
    var st1 := Selected(st, key, env);
    CandidatesExact(env.present, 0);
    CandidatesExact(env.present, 100);
    UnsizedRun(st1, key, env, Candidates(env.present, 0));
    assert RunFolder(st, key, env) == RunCandidates(st1, key, env, 0, Candidates(env.present, 0));
    assert StartUid(st1.mem, key, env.validity) == 100;
  }

  lemma {:induction false} UnsizedRun(st: Copies, key: string, env: Env, c: seq<nat>)
    requires !env.sizes && env.limit == 0 && c != []
    ensures RunCandidates(st, key, env, 0, c) == NoWindow(st, [], SizesFailed)
  {
    assert c[..0] == [];
  }

  // ----- What histories report -----

  /** What may become of a UID. */
  datatype Fate = Delivered | Dropped | Oversized | PassedOver

  /** The answers of this event give the UID that fate. */
  ghost predicate Gives(w: World, key: string, e: Event, u: nat, fate: Fate) {
    e.Run? && u in w.present && u > Mark(w, key) &&
    match fate
    case Delivered => Small(e.env.size, u) && e.env.fetches && e.env.uploads && u in e.env.parses
    case Dropped => Small(e.env.size, u) && e.env.fetches && u !in e.env.parses
    case Oversized => Large(e.env.size, u)
    case PassedOver => Mark(w, key) == 0 && 0 < e.env.limit <= |Above(w.present, u)|
  }

  ghost predicate Given(w: World, key: string, validity: int, es: seq<Event>, u: nat, fate: Fate)
    decreases |es|
  {
    es != [] && Enabled(w, validity, es[0])
    && (Gives(w, key, es[0], u, fate) || Given(Step(w, key, validity, es[0]), key, validity, es[1..], u, fate))
  }

  function Ledger(w: World, fate: Fate): set<nat> {
    match fate
    case Delivered => w.acked
    case Dropped => w.dropped
    case Oversized => w.oversize
    case PassedOver => w.skipped
  }

  lemma {:induction false} RunIsEarned(w: World, key: string, validity: int, env: Env, u: nat, fate: Fate)
    requires Inv(w, key, validity) && Enabled(w, validity, Run(env))
    requires u in Ledger(AfterRun(w, key, env), fate) && u !in Ledger(w, fate)
    ensures Gives(w, key, Run(env), u, fate)
  {
    SkippedExactly(w.copies, key, env);
    ReportsExactly(w.copies, key, env);
  }

  /** Whatever a history reports of a UID, the answers of one of its runs allowed. */
  lemma {:induction false} LedgerIsEarned(w: World, key: string, validity: int, es: seq<Event>, w': World, u: nat,
                                         fate: Fate)
    requires Inv(w, key, validity) && Leads(w, key, validity, es, w')
    requires u in Ledger(w', fate) && u !in Ledger(w, fate)
    ensures Given(w, key, validity, es, u, fate)
    decreases |es|
  {
    if es != [] {
      var w1 := Step(w, key, validity, es[0]);
      StepKeeps(w, key, validity, es[0]);
      if u in Ledger(w1, fate) {
        RunIsEarned(w, key, validity, es[0].env, u, fate);
      } else {
        LedgerIsEarned(w1, key, validity, es[1..], w', u, fate);
      }
    }
  }

  ghost predicate HasFate(w: World, key: string, validity: int, es: seq<Event>, u: nat) {
    exists fate :: Given(w, key, validity, es, u, fate)
  }

  /** Over every history from an empty state, every present UID at or below the watermark was
      given its fate by the answers of some run, or is stranded. */
  lemma {:induction false} EveryUidHasItsFate(present: seq<nat>, next: nat, key: string, validity: int,
                                             es: seq<Event>, w': World, u: nat)
    requires Ascending(present) && next > 0 && forall v | v in present :: 0 < v < next
    requires Leads(Begins(present, next), key, validity, es, w') && u in w'.present && u <= Mark(w', key)
    ensures u in w'.stranded || HasFate(Begins(present, next), key, validity, es, u)
  {
    var w := Begins(present, next);
    NothingBelowTheWatermark(present, next, key, validity, es, w');
    if u !in w'.stranded {
      var fate := if u in w'.acked then Delivered else if u in w'.dropped then Dropped
                  else if u in w'.oversize then Oversized else PassedOver;
      assert u in Ledger(w', fate) && u !in Ledger(w, fate);
      assert Inv(w, key, validity);
      LedgerIsEarned(w, key, validity, es, w', u, fate);
    }
  }

  // ----- When mail that arrives later is passed over -----

  /** While the watermark is above 0, and the file's too or nothing restarts, nothing is. */
  lemma {:induction false} PositiveMarkSkipsNothing(w: World, key: string, validity: int, es: seq<Event>, w': World)
    requires Inv(w, key, validity) && Leads(w, key, validity, es, w') && Mark(w, key) > 0
    requires LastUid(w.copies.disk, key) > 0 || Restart !in es
    ensures w'.skipped == w.skipped
    decreases |es|
  {
    if es != [] {
      var w1 := Step(w, key, validity, es[0]);
      StepKeeps(w, key, validity, es[0]);
      if es[0].Run? {
        var env := es[0].env;
        SkippedExactly(w.copies, key, env);
        RunDisk(w.copies, key, env, LastUid(w.copies.disk, key));
        var a, b, rest := FolderRun(w.copies, key, env);
      }
      PositiveMarkSkipsNothing(w1, key, validity, es[1..], w');
    }
  }

  /** Some continuation passes over a UID that is yet to arrive. */
  ghost predicate MayPassOverNew(w: World, key: string, validity: int) {
    exists es, w', u :: PassesOverNew(w, key, validity, es, w', u)
  }

  ghost predicate PassesOverNew(w: World, key: string, validity: int, es: seq<Event>, w': World, u: nat) {
    Leads(w, key, validity, es, w') && u >= w.next && u in w'.skipped
  }

  lemma {:induction false} LeadsFirst(w: World, key: string, validity: int, e: Event, es: seq<Event>, w': World)
    returns (all: seq<Event>)
    requires Enabled(w, validity, e) && Leads(Step(w, key, validity, e), key, validity, es, w')
    ensures Leads(w, key, validity, all, w')
  {
    all := [e] + es;
    assert all[1..] == es;
  }

  /** A run in which everything answers, with a first-sync limit of one. */
  function LimitOne(present: seq<nat>, validity: int): Env {
    Env(validity, present, map[], 1, {}, true, true, true, true, true, true, true, {}, true)
  }

  /** The process restarts from the file, and syncs as if for the first time. */
  lemma {:induction false} RestartsAgain(w: World, key: string, validity: int, u: nat)
    returns (es: seq<Event>, w': World)
    requires Inv(w, key, validity) && LastUid(w.copies.disk, key) == 0
    requires u > 0 && u in w.present && u + 1 in w.present
    ensures Leads(w, key, validity, es, w') && u in w'.skipped
  {
    var w1 := Step(w, key, validity, Restart);
    StepKeeps(w, key, validity, Restart);
    FirstAgain(w1, key, validity, u);
    var run := Run(LimitOne(w1.present, validity));
    w' := Step(w1, key, validity, run);
    es := LeadsFirst(w1, key, validity, run, [], w');
    es := LeadsFirst(w, key, validity, Restart, es, w');
  }

  /** The same after two messages arrived: the first of them is passed over. */
  lemma {:induction false} RestartPassesOverNew(w: World, key: string, validity: int)
    returns (es: seq<Event>, w': World)
    requires Inv(w, key, validity) && LastUid(w.copies.disk, key) == 0 && w.next > 0
    ensures PassesOverNew(w, key, validity, es, w', w.next)
  {
    var w1 := Step(w, key, validity, Arrive(w.next));
    StepKeeps(w, key, validity, Arrive(w.next));
    var w2 := Step(w1, key, validity, Arrive(w1.next));
    StepKeeps(w1, key, validity, Arrive(w1.next));
    assert w1.present[|w1.present| - 1] == w.next && w2.present[|w2.present| - 1] == w.next + 1;
    assert w.next in w1.present && w.next in w2.present;
    es, w' := RestartsAgain(w2, key, validity, w.next);
    es := LeadsFirst(w1, key, validity, Arrive(w1.next), es, w');
    es := LeadsFirst(w, key, validity, Arrive(w.next), es, w');
  }

  lemma {:induction false} FirstAgain(w: World, key: string, validity: int, u: nat)
    requires Inv(w, key, validity) && Mark(w, key) == 0 && u > 0 && u in w.present && u + 1 in w.present
    ensures u in AfterRun(w, key, LimitOne(w.present, validity)).skipped
  {
    SkippedExactly(w.copies, key, LimitOne(w.present, validity));
    var above := Above(w.present, u);
    assert u + 1 in above;
    assert |above - {u + 1}| == |above| - 1;
  }

  /** After a run left a watermark above 0, mail that arrives later can be passed over exactly
      when the file still has a watermark of 0, and then only through a restart. */
  lemma {:induction false} NewMailPassedOverExactlyWhen(w: World, key: string, validity: int)
    requires Inv(w, key, validity) && Mark(w, key) > 0
    ensures MayPassOverNew(w, key, validity) <==> LastUid(w.copies.disk, key) == 0
    ensures forall es, w', u | PassesOverNew(w, key, validity, es, w', u) :: Restart in es
  {
    forall es, w', u | PassesOverNew(w, key, validity, es, w', u)
      ensures Restart in es && LastUid(w.copies.disk, key) == 0
    {
      if LastUid(w.copies.disk, key) > 0 || Restart !in es {
        PositiveMarkSkipsNothing(w, key, validity, es, w');
      }
    }
    if LastUid(w.copies.disk, key) == 0 {
      var es, w' := RestartPassesOverNew(w, key, validity);
    }
  }
}
