/** Incremental IMAP sync of one folder (aggregator/src/one_mail_agg/imap_base.py and sync.py):
    a single UID watermark says how far the folder has been worked through. Saves of the cursor
    file may fail; the process then goes on from its own copy. */
module ImapWatermark {
  import opened Wrappers
  import opened SyncStates

  const BATCH_SIZE: nat := 50
  const BATCH_BYTES: nat := 64 * 1024 * 1024
  const MAX_SINGLE_BYTES: nat := 30 * 1024 * 1024

  /** One run: the folder's UIDs in ascending order, the sizes the server answers with, the
      account's first-sync limit, which bodies decode; whether SELECT, SEARCH, the request for
      sizes, that for bodies, and the upload succeed; and whether the saves do: that of a new
      UIDVALIDITY, that of a first sync's skip, those at too large UIDs except the `unsaved`
      ones, and the last one. */
  datatype Env = Env(
    validity: int,
    present: seq<nat>,
    size: map<nat, nat>,
    limit: int,
    parses: set<nat>,
    selects: bool,
    searches: bool,
    sizes: bool,
    fetches: bool,
    uploads: bool,
    selectSaves: bool,
    skipSaves: bool,
    unsaved: set<nat>,
    endSaves: bool)

  /** What ended a run; all but the last before anything was delivered. */
  datatype Failure =
    | SelectFailed | SearchFailed | SizesFailed | FetchFailed | UploadFailed | SaveFailed | EndSaveFailed

  predicate Ascending(s: seq<nat>) { forall i, j | 0 <= i < j < |s| :: s[i] < s[j] }

  /** What `SEARCH UID first:*` returns: everything from `first` on, and never less than the
      last message, because `*` is the last UID even when `first` lies beyond it. */
  function SearchFrom(present: seq<nat>, first: int): seq<nat> {
    var r := Keep((u: nat) => u >= first, present);
    if r == [] && present != [] then [present[|present| - 1]] else r
  }

  function Keep(p: nat -> bool, s: seq<nat>): seq<nat> {
    if s == [] then []
    else
      var rest := Keep(p, s[..|s| - 1]);
      if p(s[|s| - 1]) then rest + [s[|s| - 1]] else rest
  }

  /** The UIDs above the watermark. */
  function Candidates(present: seq<nat>, last: int): seq<nat> {
    Keep((u: nat) => u > last, SearchFrom(present, last + 1))
  }

  function MaxOf(s: seq<nat>): (m: nat)
    requires s != []
    ensures m in s && forall x | x in s :: x <= m
  {
    if |s| == 1 then s[0]
    else
      var rest := MaxOf(s[1..]);
      assert s == [s[0]] + s[1..];
      if rest > s[0] then rest else s[0]
  }

  // ----- The window -----

  datatype Window = Window(picked: seq<nat>, oversize: seq<nat>)

  /** The scan over the candidates: it stops at a full batch, at a size the server did not
      give, or when the next message would break the byte budget; too large ones are passed. */
  function Scan(size: map<nat, nat>, uids: seq<nat>, picked: seq<nat>, oversize: seq<nat>, total: nat): Window {
    if uids == [] || |picked| >= BATCH_SIZE || uids[0] !in size then Window(picked, oversize)
    else if size[uids[0]] > MAX_SINGLE_BYTES then Scan(size, uids[1..], picked, oversize + [uids[0]], total)
    else if total + size[uids[0]] > BATCH_BYTES && picked != [] then Window(picked, oversize)
    else Scan(size, uids[1..], picked + [uids[0]], oversize, total + size[uids[0]])
  }

  /** How many of the candidates a first sync passes over. */
  function SkipCount(last: int, limit: int, candidates: seq<nat>): nat {
    if last == 0 && 0 < limit < |candidates| then |candidates| - limit else 0
  }

  /** The candidates up to the first too large one whose save fails, when there is anything to
      save above `mark`: the loop gets no further. */
  function Upto(env: Env, mark: int, uids: seq<nat>): seq<nat>
    decreases |uids|
  {
    if uids == [] then []
    else if Breaks(env, mark, uids[0]) then [uids[0]]
    else [uids[0]] + Upto(env, MarkPast(env, mark, uids[0]), uids[1..])
  }

  predicate TooLarge(env: Env, u: nat) { u in env.size && env.size[u] > MAX_SINGLE_BYTES }

  predicate Breaks(env: Env, mark: int, u: nat) { TooLarge(env, u) && u > mark && u in env.unsaved }

  function MarkPast(env: Env, mark: int, u: nat): int { if TooLarge(env, u) && u > mark then u else mark }

  function WindowOver(env: Env, mark: int, uids: seq<nat>): Window { Scan(env.size, Upto(env, mark, uids), [], [], 0) }

  /** A failed save ended the loop: the one at the last too large UID. */
  predicate Broken(env: Env, mark: int, oversize: seq<nat>) {
    oversize != [] &&
    var u := oversize[|oversize| - 1];
    u in env.unsaved && u > MarkAfter(mark, oversize[..|oversize| - 1])
  }

  function MarkAfter(mark: int, uids: seq<nat>): int {
    if uids == [] then mark
    else
      var m, u := MarkAfter(mark, uids[..|uids| - 1]), uids[|uids| - 1];
      if u > m then u else m
  }

  /** `set_last_uid_max` on both copies. */
  function RaisedTo(st: Copies, key: string, uid: int, saves: bool): Copies {
    if uid > LastUid(st.mem, key) then st.Saved(RaisedUid(st.mem, key, uid), saves) else st
  }

  function Raised(st: Copies, key: string, uids: seq<nat>, unsaved: set<nat>): Copies {
    if uids == [] then st
    else
      var u := uids[|uids| - 1];
      RaisedTo(Raised(st, key, uids[..|uids| - 1], unsaved), key, u, u !in unsaved)
  }

  /** Whether SELECT answered with a new or changed UIDVALIDITY, which is then recorded. */
  predicate NewValidity(d: Data, key: string, validity: int) {
    !(key in d.uidvalidity && d.uidvalidity[key] == validity)
  }

  function Selected(st: Copies, key: string, env: Env): Copies {
    if !NewValidity(st.mem, key, env.validity) then st
    else st.Saved(st.mem.(uidvalidity := st.mem.uidvalidity[key := env.validity]), env.selectSaves)
  }

  /** The watermark this run starts from: a changed UIDVALIDITY starts over. */
  function StartUid(d: Data, key: string, validity: int): int {
    if key in d.uidvalidity && d.uidvalidity[key] != validity then 0 else LastUid(d, key)
  }

  /** What a run does: its window, what was passed over at first, what was delivered or
      dropped, the state left behind, and its failure. */
  datatype Outcome = Outcome(
    copies: Copies,
    window: Window,
    skipped: seq<nat>,
    acked: seq<nat>,
    dropped: seq<nat>,
    failed: Option<Failure>)
  {
    /** Everything picked was delivered or dropped. */
    predicate Delivered() { failed.None? || failed.value.EndSaveFailed? }
  }

  /** A run that ended before it had a window. */
  function NoWindow(st: Copies, skipped: seq<nat>, failed: Failure): Outcome {
    Outcome(st, Window([], []), skipped, [], [], Some(failed))
  }

  function RunFolder(st: Copies, key: string, env: Env): Outcome {
    if !env.selects then NoWindow(st, [], SelectFailed)
    else if NewValidity(st.mem, key, env.validity) && !env.selectSaves then
      NoWindow(Selected(st, key, env), [], SaveFailed)
    else if !env.searches then NoWindow(Selected(st, key, env), [], SearchFailed)
    else
      var last := StartUid(st.mem, key, env.validity);
      RunCandidates(Selected(st, key, env), key, env, last, Candidates(env.present, last))
  }

  /** Passing over some candidates saves, and the save fails. */
  predicate SkipFails(st: Copies, key: string, env: Env, skipped: seq<nat>) {
    skipped != [] && MaxOf(skipped) > LastUid(st.mem, key) && !env.skipSaves
  }

  function RunCandidates(st: Copies, key: string, env: Env, last: int, candidates: seq<nat>): Outcome {
    if candidates == [] then Outcome(st, Window([], []), [], [], [], None)
    else
      var n := SkipCount(last, env.limit, candidates);
      var skipped, st1 := candidates[..n], Skipped(st, key, env, candidates[..n]);
      if SkipFails(st, key, env, skipped) then NoWindow(st1, skipped, SaveFailed)
      else if !env.sizes then NoWindow(st1, skipped, SizesFailed)
      else RunWindow(st1, key, env, skipped, WindowOver(env, LastUid(st1.mem, key), candidates[n..]))
  }

  function RunWindow(st: Copies, key: string, env: Env, skipped: seq<nat>, window: Window): Outcome {
    var st1 := Raised(st, key, window.oversize, env.unsaved);
    if Broken(env, LastUid(st.mem, key), window.oversize) then Outcome(st1, window, skipped, [], [], Some(SaveFailed))
    else Deliver(st1, key, env, window, skipped)
  }

  function Skipped(st: Copies, key: string, env: Env, skipped: seq<nat>): Copies {
    if skipped == [] then st else RaisedTo(st, key, MaxOf(skipped), env.skipSaves)
  }

  function Parsed(env: Env, uids: seq<nat>): seq<nat> { Keep((u: nat) => u in env.parses, uids) }
  function Unparsed(env: Env, uids: seq<nat>): seq<nat> { Keep((u: nat) => u !in env.parses, uids) }

  /** Fetch, normalise, upload; only then does the watermark pass the picked messages. */
  function Deliver(st: Copies, key: string, env: Env, window: Window, skipped: seq<nat>): Outcome {
    var picked := window.picked;
    if picked == [] then Outcome(st, window, skipped, [], [], None)
    else if !env.fetches then Outcome(st, window, skipped, [], [], Some(FetchFailed))
    else if Parsed(env, picked) != [] && !env.uploads then Outcome(st, window, skipped, [], [], Some(UploadFailed))
    else
      Outcome(RaisedTo(st, key, MaxOf(picked), env.endSaves), window, skipped, Parsed(env, picked),
              Unparsed(env, picked),
              if MaxOf(picked) > LastUid(st.mem, key) && !env.endSaves then Some(EndSaveFailed) else None)
  }

  // ----- The code's own loops -----

  /** What a run comes to from its window on, or from the failure that ended it before. */
  function Continued(st: Copies, key: string, env: Env, failed: Option<Failure>, window: Window,
                     skipped: seq<nat>): Outcome {
    if failed.Some? then Outcome(st, window, skipped, [], [], failed) else Deliver(st, key, env, window, skipped)
  }

  /** SELECT, and `fetch_new_messages` up to the body fetch. */
  method FetchWindow(account: string, folder: string, env: Env, state: SyncState)
    returns (failed: Option<Failure>, window: Window, skipped: seq<nat>)
    modifies state
    ensures RunFolder(Copies(old(state.data), old(state.disk)), Key(account, folder), env)
            == Continued(Copies(state.data, state.disk), Key(account, folder), env, failed, window, skipped)
  {
    failed, window, skipped := None, Window([], []), [];
    if !env.selects {
      failed := Some(SelectFailed);
      return;
    }
    var key := Key(account, folder);
    var last := LastUid(state.data, key);
    var raised := false;
    if key in state.data.uidvalidity && state.data.uidvalidity[key] != env.validity {
      raised := state.SetUidvalidity(account, folder, env.validity, env.selectSaves);
      last := 0;
    } else if key !in state.data.uidvalidity {
      raised := state.SetUidvalidity(account, folder, env.validity, env.selectSaves);
    }
    assert Copies(state.data, state.disk) == Selected(Copies(old(state.data), old(state.disk)), key, env);
    if raised {
      failed := Some(SaveFailed);
      return;
    }
    if !env.searches {
      failed := Some(SearchFailed);
      return;
    }
    assert last == StartUid(old(state.data), key, env.validity);
    failed, window, skipped := WalkCandidates(account, folder, env, last, Candidates(env.present, last), state);
  }

  method WalkCandidates(account: string, folder: string, env: Env, last: int, candidates: seq<nat>, state: SyncState)
    returns (failed: Option<Failure>, window: Window, skipped: seq<nat>)
    modifies state
    ensures RunCandidates(Copies(old(state.data), old(state.disk)), Key(account, folder), env, last, candidates)
            == Continued(Copies(state.data, state.disk), Key(account, folder), env, failed, window, skipped)
  {
    failed, window, skipped := None, Window([], []), [];
    var uids := candidates;
    if uids == [] {
      return;
    }
    var raised := false;
    if last == 0 && env.limit > 0 && |uids| > env.limit {
      var n := |uids| - env.limit;
      skipped := uids[..n];
      uids := uids[n..];
      raised := state.SetLastUidMax(account, folder, MaxOf(skipped), env.skipSaves);
    } else {
      assert candidates[..0] == [] && candidates[0..] == candidates;
    }
    if raised {
      failed := Some(SaveFailed);
      return;
    }
    if !env.sizes {
      failed := Some(SizesFailed);
      return;
    }
    window, raised := ScanCandidates(account, folder, env, uids, state);
    if raised {
      failed := Some(SaveFailed);
    }
  }

  /** The size loop, on what is left of the candidates: the watermark stands at the last of the
      too large ones passed, and no save has failed yet. */
  ghost predicate ScansOn(env: Env, mark: int, uids: seq<nat>, i: nat, w: Window, total: nat)
    requires i <= |uids|
  {
    && WindowOver(env, mark, uids)
       == Scan(env.size, Upto(env, MarkAfter(mark, w.oversize), uids[i..]), w.picked, w.oversize, total)
    && !Broken(env, mark, w.oversize)
  }

  lemma {:induction false} ScanStep(env: Env, mark: int, uids: seq<nat>, i: nat, w: Window, total: nat)
    requires i < |uids| && ScansOn(env, mark, uids, i, w, total)
    ensures !GoesOn(env.size, w, total, uids[i]) ==> WindowOver(env, mark, uids) == w
    ensures GoesOn(env.size, w, total, uids[i]) ==>
              var t := Taken(w, env.size, uids[i]);
              if Breaks(env, MarkAfter(mark, w.oversize), uids[i]) then
                WindowOver(env, mark, uids) == t && Broken(env, mark, t.oversize)
              else
                ScansOn(env, mark, uids, i + 1, t, if TooLarge(env, uids[i]) then total else total + env.size[uids[i]])
  {
    TakeOne(uids, i);
    var m, u := MarkAfter(mark, w.oversize), uids[i];
    var rest := Upto(env, m, uids[i..]);
    assert rest[0] == u;
    assert rest[1..] == if Breaks(env, m, u) then [] else Upto(env, MarkPast(env, m, u), uids[i + 1..]);
    ScanNext(env.size, rest, w, total);
    assert (w.oversize + [u])[..|w.oversize|] == w.oversize;
  }

  lemma {:induction false} ScanOver(env: Env, mark: int, uids: seq<nat>, i: nat, w: Window, total: nat)
    requires i == |uids| && ScansOn(env, mark, uids, i, w, total)
    ensures WindowOver(env, mark, uids) == w
  {
    assert uids[i..] == [];
  }

  lemma {:induction false} RaisedMarkIs(st: Copies, key: string, uids: seq<nat>, unsaved: set<nat>)
    ensures LastUid(Raised(st, key, uids, unsaved).mem, key) == MarkAfter(LastUid(st.mem, key), uids)
    ensures Raised(st, key, uids, unsaved).mem.uidvalidity == st.mem.uidvalidity
  {
    if uids != [] {
      RaisedMarkIs(st, key, uids[..|uids| - 1], unsaved);
    }
  }

  method ScanCandidates(account: string, folder: string, env: Env, uids: seq<nat>, state: SyncState)
    returns (window: Window, raised: bool)
    modifies state
    ensures var mark := LastUid(old(state.data), Key(account, folder));
            window == WindowOver(env, mark, uids) && raised == Broken(env, mark, window.oversize)
    ensures Copies(state.data, state.disk)
            == Raised(Copies(old(state.data), old(state.disk)), Key(account, folder), window.oversize, env.unsaved)
  {
    var total: nat := 0;
    window, raised := Window([], []), false;
    ghost var st, key := Copies(state.data, state.disk), Key(account, folder);
    ghost var mark := LastUid(st.mem, key);
    var i := 0;
    assert uids[0..] == uids;
    while i < |uids|
      invariant 0 <= i <= |uids| && ScansOn(env, mark, uids, i, window, total) && !raised
      invariant Copies(state.data, state.disk) == Raised(st, key, window.oversize, env.unsaved)
    {
      ScanStep(env, mark, uids, i, window, total);
      if |window.picked| >= BATCH_SIZE {
        return;
      }
      var u := uids[i];
      if u !in env.size {
        return;
      }
      if env.size[u] > MAX_SINGLE_BYTES {
        RaisedMarkIs(st, key, window.oversize, env.unsaved);
        assert (window.oversize + [u])[..|window.oversize|] == window.oversize;
        raised := state.SetLastUidMax(account, folder, u, u !in env.unsaved);
        window := Window(window.picked, window.oversize + [u]);
        if raised {
          return;
        }
      } else {
        if total + env.size[u] > BATCH_BYTES && window.picked != [] {
          return;
        }
        total := total + env.size[u];
        window := Window(window.picked + [u], window.oversize);
      }
      i := i + 1;
    }
    ScanOver(env, mark, uids, i, window, total);
  }

  /** The body of `sync_imap` for one folder. */
  method SyncFolder(account: string, folder: string, env: Env, state: SyncState)
    returns (failed: Option<Failure>, acked: seq<nat>, dropped: seq<nat>)
    modifies state
    ensures var o := RunFolder(Copies(old(state.data), old(state.disk)), Key(account, folder), env);
            Copies(state.data, state.disk) == o.copies && failed == o.failed && acked == o.acked && dropped == o.dropped
  {
    var window, skipped;
    acked, dropped := [], [];
    failed, window, skipped := FetchWindow(account, folder, env, state);
    if failed.Some? {
      return;
    }
    var picked := window.picked;
    if picked == [] {
      return None, acked, dropped;
    }
    if !env.fetches {
      return Some(FetchFailed), acked, dropped;
    }
    var batch, bad := Normalize(env, picked);
    if batch != [] && !env.uploads {
      return Some(UploadFailed), acked, dropped;
    }
    var raised := state.SetLastUidMax(account, folder, MaxOf(picked), env.endSaves);
    failed, acked, dropped := if raised then Some(EndSaveFailed) else None, batch, bad;
  }

  method Normalize(env: Env, picked: seq<nat>) returns (batch: seq<nat>, bad: seq<nat>)
    ensures batch == Parsed(env, picked) && bad == Unparsed(env, picked)
  {
    batch, bad := [], [];
    for i := 0 to |picked|
      invariant batch == Parsed(env, picked[..i]) && bad == Unparsed(env, picked[..i])
    {
      assert picked[..i + 1][..i] == picked[..i];
      if picked[i] in env.parses {
        batch := batch + [picked[i]];
      } else {
        bad := bad + [picked[i]];
      }
    }
    assert picked[..|picked|] == picked;
  }

  // ----- What a run does to the watermark -----

  lemma {:induction false} RaisedMark(st: Copies, key: string, uids: seq<nat>, unsaved: set<nat>)
    ensures var mark, st' := LastUid(st.mem, key), Raised(st, key, uids, unsaved);
            var mark' := LastUid(st'.mem, key);
            && mark' >= mark && (forall u | u in uids :: u <= mark') && (mark' == mark || mark' in uids)
            && st'.mem.uidvalidity == st.mem.uidvalidity
  {
    if uids != [] {
      RaisedMark(st, key, uids[..|uids| - 1], unsaved);
      assert uids == uids[..|uids| - 1] + [uids[|uids| - 1]];
    }
  }

  lemma {:induction false} KeepIn(p: nat -> bool, s: seq<nat>)
    ensures forall x :: x in Keep(p, s) <==> x in s && p(x)
  {
    if s != [] {
      KeepIn(p, s[..|s| - 1]);
      assert s == s[..|s| - 1] + [s[|s| - 1]];
    }
  }

  lemma {:induction false} KeepAscending(p: nat -> bool, s: seq<nat>)
    requires Ascending(s)
    ensures Ascending(Keep(p, s))
  {
    if s != [] {
      var init, last := s[..|s| - 1], s[|s| - 1];
      KeepAscending(p, init);
      KeepIn(p, init);
      forall x | x in init
        ensures x < last
      {
        var i :| 0 <= i < |init| && init[i] == x;
        assert s[i] < s[|s| - 1];
      }
      AscendingAppend(Keep(p, init), last);
    }
  }

  lemma {:induction false} AscendingAppend(s: seq<nat>, u: nat)
    requires Ascending(s) && forall x | x in s :: x < u
    ensures Ascending(s + [u])
  {
    forall i, j | 0 <= i < j < |s + [u]|
      ensures (s + [u])[i] < (s + [u])[j]
    {
      assert s[i] in s;
    }
  }

  /** The candidates are exactly the present UIDs above the watermark, ascending. */
  lemma {:induction false} CandidatesExact(present: seq<nat>, last: int)
    requires Ascending(present)
    ensures Ascending(Candidates(present, last))
    ensures forall u :: u in Candidates(present, last) <==> u in present && u > last
  {
    var found := SearchFrom(present, last + 1);
    KeepAscending((u: nat) => u >= last + 1, present);
    KeepIn((u: nat) => u >= last + 1, present);
    KeepAscending((u: nat) => u > last, found);
    KeepIn((u: nat) => u > last, found);
    assert forall u :: u in Candidates(present, last) ==> u in found && u > last;
    if found == [] {
      assert present == [];
    } else {
      assert present[|present| - 1] in present;
    }
  }

  /** Picked and oversize are, between them, exactly the UIDs of `b`, all of known size. */
  ghost predicate Settles(w: Window, size: map<nat, nat>, b: seq<nat>) {
    && (forall u :: u in w.picked <==> u in b && u in size && size[u] <= MAX_SINGLE_BYTES)
    && (forall u :: u in w.oversize <==> u in b && u in size && size[u] > MAX_SINGLE_BYTES)
    && (forall u | u in b :: u in size)
  }

  /** The window with one more UID, picked or too large. */
  function Taken(w: Window, size: map<nat, nat>, u: nat): Window
    requires u in size
  {
    if size[u] > MAX_SINGLE_BYTES then Window(w.picked, w.oversize + [u]) else Window(w.picked + [u], w.oversize)
  }

  lemma {:induction false} TakenSettles(w: Window, size: map<nat, nat>, b: seq<nat>, u: nat)
    requires Settles(w, size, b) && u in size
    ensures Settles(Taken(w, size, u), size, b + [u])
  {
  }

  /** Whether the scan, at `u`, goes on past it. */
  predicate GoesOn(size: map<nat, nat>, w: Window, total: nat, u: nat) {
    |w.picked| < BATCH_SIZE && u in size
    && (size[u] > MAX_SINGLE_BYTES || total + size[u] <= BATCH_BYTES || w.picked == [])
  }

  lemma {:induction false} ScanNext(size: map<nat, nat>, uids: seq<nat>, w: Window, total: nat)
    requires uids != []
    ensures var u := uids[0];
            Scan(size, uids, w.picked, w.oversize, total)
            == if !GoesOn(size, w, total, u) then w
               else
                 var t := Taken(w, size, u);
                 var more := if size[u] > MAX_SINGLE_BYTES then total else total + size[u];
                 Scan(size, uids[1..], t.picked, t.oversize, more)
  {
  }

  lemma {:induction false} TakeOne(s: seq<nat>, i: nat)
    requires i < |s|
    ensures s[i..][0] == s[i] && s[i..][1..] == s[i + 1..] && s[..i + 1] == s[..i] + [s[i]]
  {
  }

  /** The window settles a prefix of the candidates, from the front and without a gap. */
  lemma {:induction false} ScanPrefix(size: map<nat, nat>, all: seq<nat>, i: nat, w: Window,
                                      total: nat) returns (n: nat)
    requires i <= |all| && Settles(w, size, all[..i]) && |w.picked| <= BATCH_SIZE
    ensures n <= |all| && Settles(Scan(size, all[i..], w.picked, w.oversize, total), size, all[..n])
    ensures |Scan(size, all[i..], w.picked, w.oversize, total).picked| <= BATCH_SIZE
    decreases |all| - i
  {
    n := i;
    if i < |all| {
      TakeOne(all, i);
      ScanNext(size, all[i..], w, total);
      var u := all[i];
      if GoesOn(size, w, total, u) {
        TakenSettles(w, size, all[..i], u);
        n := ScanPrefix(size, all, i + 1, Taken(w, size, u),
                        if size[u] > MAX_SINGLE_BYTES then total else total + size[u]);
      }
    }
  }

  predicate SameValidity(d: Data, key: string, env: Env) {
    key in d.uidvalidity ==> d.uidvalidity[key] == env.validity
  }

  /** The run gets as far as the sizes of its candidates. */
  predicate GetsSizes(st: Copies, key: string, env: Env) {
    && env.selects && (NewValidity(st.mem, key, env.validity) ==> env.selectSaves) && env.searches && env.sizes
    && var last := StartUid(st.mem, key, env.validity);
       var c := Candidates(env.present, last);
       c != [] ==> !SkipFails(st, key, env, c[..SkipCount(last, env.limit, c)])
  }

  /** What a run makes of its candidates: those a first sync passes over, and its window. */
  lemma {:induction false} WindowOf(st: Copies, key: string, env: Env, last: int, c: seq<nat>)
    ensures var n, o := SkipCount(last, env.limit, c), RunCandidates(st, key, env, last, c);
            && n <= |c| && o.skipped == c[..n]
            && o.window == if env.sizes && (c != [] ==> !SkipFails(st, key, env, c[..n]))
                           then WindowOver(env, LastUid(Skipped(st, key, env, c[..n]).mem, key), c[n..])
                           else Window([], [])
  {
  }

  lemma {:induction false} UptoPrefix(env: Env, mark: int, uids: seq<nat>)
    ensures Upto(env, mark, uids) <= uids
    decreases |uids|
  {
    if uids != [] && !Breaks(env, mark, uids[0]) {
      UptoPrefix(env, MarkPast(env, mark, uids[0]), uids[1..]);
    }
  }

  /** A window settles the first candidates, without a gap. */
  lemma {:induction false} WindowShape(env: Env, mark: int, c: seq<nat>) returns (m: nat)
    ensures m <= |c| && Settles(WindowOver(env, mark, c), env.size, c[..m])
    ensures |WindowOver(env, mark, c).picked| <= BATCH_SIZE
  {
    var p := Upto(env, mark, c);
    UptoPrefix(env, mark, c);
    assert p[0..] == p;
    m := ScanPrefix(env.size, p, 0, Window([], []), 0);
    assert p[..m] == c[..m];
  }

  lemma {:induction false} Slice(c: seq<nat>, n: nat, m: nat)
    requires n + m <= |c|
    ensures c[n..][..m] == c[n..n + m]
  {
  }

  /** Where the watermark may stand after a run: no lower, and at a UID it may count. */
  ghost predicate Marks(o: Outcome, mark: int, mark': int) {
    && mark' >= mark
    && (forall u | u in o.skipped || u in o.window.oversize :: u <= mark')
    && (o.Delivered() ==> forall u | u in o.window.picked :: u <= mark')
    && (mark' == mark || mark' in o.skipped || mark' in o.window.oversize
        || (o.Delivered() && mark' in o.window.picked))
  }

  lemma {:induction false} RunMarks(st: Copies, key: string, env: Env, last: int, c: seq<nat>)
    ensures var o := RunCandidates(st, key, env, last, c);
            Marks(o, LastUid(st.mem, key), LastUid(o.copies.mem, key)) && o.copies.mem.uidvalidity == st.mem.uidvalidity
  {
    if c != [] {
      var n := SkipCount(last, env.limit, c);
      var st1 := Skipped(st, key, env, c[..n]);
      SkippedMark(st, key, env, c[..n]);
      if !SkipFails(st, key, env, c[..n]) && env.sizes {
        WindowMarks(st1, key, env, c[..n], WindowOver(env, LastUid(st1.mem, key), c[n..]));
      }
    }
  }

  lemma {:induction false} SkippedMark(st: Copies, key: string, env: Env, skipped: seq<nat>)
    ensures var mark, st' := LastUid(st.mem, key), Skipped(st, key, env, skipped);
            var mark' := LastUid(st'.mem, key);
            && mark' >= mark && (forall u | u in skipped :: u <= mark') && (mark' == mark || mark' in skipped)
            && st'.mem.uidvalidity == st.mem.uidvalidity
  {
  }

  lemma {:induction false} WindowMarks(st: Copies, key: string, env: Env, skipped: seq<nat>, window: Window)
    ensures var o := RunWindow(st, key, env, skipped, window);
            var mark, mark' := LastUid(st.mem, key), LastUid(o.copies.mem, key);
            && o.skipped == skipped && o.window == window && o.copies.mem.uidvalidity == st.mem.uidvalidity
            && mark' >= mark && (forall u | u in window.oversize :: u <= mark')
            && (o.Delivered() ==> forall u | u in window.picked :: u <= mark')
            && (mark' == mark || mark' in window.oversize || (o.Delivered() && mark' in window.picked))
  {
    RaisedMark(st, key, window.oversize, env.unsaved);
    DeliverMarks(Raised(st, key, window.oversize, env.unsaved), key, env, window, skipped);
  }

  lemma {:induction false} DeliverMarks(st: Copies, key: string, env: Env, window: Window, skipped: seq<nat>)
    ensures var o := Deliver(st, key, env, window, skipped);
            var mark, mark' := LastUid(st.mem, key), LastUid(o.copies.mem, key);
            && o.skipped == skipped && o.window == window
            && o.copies.mem.uidvalidity == st.mem.uidvalidity && mark' >= mark
            && (o.Delivered() ==> forall u | u in window.picked :: u <= mark')
            && (mark' == mark || (o.Delivered() && mark' in window.picked))
  {
  }

  /** A run splits the present UIDs above the watermark into three: passed over, settled (each
      picked or too large, all of known size) and left for later, each above the ones before. */
  ghost predicate Parts(o: Outcome, env: Env, mark: int, a: seq<nat>, b: seq<nat>, rest: seq<nat>) {
    && o.skipped == a
    && (forall u :: u in env.present && u > mark <==> u in a || u in b || u in rest)
    && (forall u, v | u in a && (v in b || v in rest) :: u < v)
    && (forall u, v | u in b && v in rest :: u < v)
    && Settles(o.window, env.size, b)
  }

  lemma {:induction false} CandidateParts(present: seq<nat>, mark: int, c: seq<nat>, n: nat, m: nat)
    requires Ascending(c) && n + m <= |c|
    requires forall u :: u in c <==> u in present && u > mark
    ensures var a, b, rest := c[..n], c[n..n + m], c[n + m..];
            (forall u :: u in present && u > mark <==> u in a || u in b || u in rest)
            && (forall u, v | u in a && (v in b || v in rest) :: u < v)
            && (forall u, v | u in b && v in rest :: u < v)
  {
    assert c == c[..n] + c[n..n + m] + c[n + m..];
  }

  /** Every run that gets its candidates. */
  lemma {:induction false} SearchedRun(st: Copies, key: string, env: Env, last: int)
    returns (a: seq<nat>, b: seq<nat>, rest: seq<nat>)
    requires Ascending(env.present)
    ensures Parts(RunCandidates(st, key, env, last, Candidates(env.present, last)), env, last, a, b, rest)
  {
    var c := Candidates(env.present, last);
    CandidatesExact(env.present, last);
    var n := SkipCount(last, env.limit, c);
    WindowOf(st, key, env, last, c);
    var m := 0;
    if RunCandidates(st, key, env, last, c).window != Window([], []) {
      m := WindowShape(env, LastUid(Skipped(st, key, env, c[..n]).mem, key), c[n..]);
    }
    Slice(c, n, m);
    CandidateParts(env.present, last, c, n, m);
    a, b, rest := c[..n], c[n..n + m], c[n + m..];
  }

  /** Every run of a folder whose UIDVALIDITY has not changed. */
  lemma {:induction false} FolderRun(st: Copies, key: string, env: Env)
    returns (a: seq<nat>, b: seq<nat>, rest: seq<nat>)
    requires Ascending(env.present) && SameValidity(st.mem, key, env)
    ensures var o := RunFolder(st, key, env);
            && Parts(o, env, LastUid(st.mem, key), a, b, rest)
            && Marks(o, LastUid(st.mem, key), LastUid(o.copies.mem, key))
            && SameValidity(o.copies.mem, key, env)
  {
    var last := LastUid(st.mem, key);
    var c := Candidates(env.present, last);
    if env.selects && (NewValidity(st.mem, key, env.validity) ==> env.selectSaves) && env.searches {
      a, b, rest := SearchedRun(Selected(st, key, env), key, env, last);
      RunMarks(Selected(st, key, env), key, env, last, c);
    } else {
      CandidatesExact(env.present, last);
      a, b, rest := [], [], c;
    }
  }

  // ----- What a run leaves on disk -----

  /** The file is no further than the process, and neither watermark is below the floor. */
  ghost predicate DiskBehind(st: Copies, key: string, validity: int, floor: int) {
    && floor <= LastUid(st.disk, key) <= LastUid(st.mem, key)
    && (key in st.disk.uidvalidity ==> st.disk.uidvalidity[key] == validity)
    && (key in st.mem.uidvalidity ==> st.mem.uidvalidity[key] == validity)
  }

  lemma {:induction false} RaisedDisk(st: Copies, key: string, uids: seq<nat>, unsaved: set<nat>, validity: int,
                                       floor: int)
    requires DiskBehind(st, key, validity, floor)
    ensures DiskBehind(Raised(st, key, uids, unsaved), key, validity, floor)
  {
    if uids != [] {
      RaisedDisk(st, key, uids[..|uids| - 1], unsaved, validity, floor);
    }
  }

  lemma {:induction false} CandidatesDisk(st: Copies, key: string, env: Env, last: int, c: seq<nat>, floor: int)
    requires DiskBehind(st, key, env.validity, floor)
    ensures DiskBehind(RunCandidates(st, key, env, last, c).copies, key, env.validity, floor)
  {
    if c != [] {
      var n := SkipCount(last, env.limit, c);
      var st1 := Skipped(st, key, env, c[..n]);
      RaisedDisk(st1, key, WindowOver(env, LastUid(st1.mem, key), c[n..]).oversize, env.unsaved, env.validity, floor);
    }
  }

  lemma {:induction false} RunDisk(st: Copies, key: string, env: Env, floor: int)
    requires DiskBehind(st, key, env.validity, floor)
    ensures DiskBehind(RunFolder(st, key, env).copies, key, env.validity, floor)
  {
    var last := StartUid(st.mem, key, env.validity);
    CandidatesDisk(Selected(st, key, env), key, env, last, Candidates(env.present, last), floor);
  }
}
