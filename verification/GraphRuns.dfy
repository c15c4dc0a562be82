/** Whole histories of one Graph folder: syncs with any faults, arrivals at the newest end,
    deletions, saves made for other accounts, and restarts from the state file.

    A ledger says what each run reported of each message: acknowledged by the Worker, too
    large, undecodable, or passed over by a first sync. What the provider and the Worker
    answered says which of these could be reported at all. */
module GraphRuns {
  import opened Wrappers
  import opened SyncStates
  import opened GraphSource

  datatype World = World(
    mail: seq<Id>,  // newest first
    ever: set<Id>,  // every id the provider has used
    mem: seq<string>,
    disk: seq<string>,
    acked: set<Id>,
    oversize: set<Id>,
    dropped: set<Id>,
    skipped: set<Id>)
  {
    function Handled(): set<Id> { acked + oversize + dropped + skipped }
  }

  datatype Event =
    | Arrive(id: Id)
    | Delete(index: nat)
    | Sync(limit: int, env: Env)
    | SaveElsewhere
    | Restart

  function Least(a: nat, b: nat): nat { if a < b then a else b }

  function Elems(s: seq<Id>): set<Id> { set x | x in s }

  ghost predicate Enabled(w: World, e: Event) {
    match e
    case Arrive(id) => id !in w.ever
    case Delete(i) => i < |w.mail|
    case Sync(_, env) => Serves(env.pages, env.start, {}, w.mail)
    case SaveElsewhere => true
    case Restart => true
  }

  /** What a first sync that leaves a seen list behind has passed over. */
  function PassedOver(w: World, o: Outcome): set<Id> {
    if w.mem == [] && o.mem != [] then Elems(w.mail) - Elems(o.window) else {}
  }

  function AfterSync(w: World, o: Outcome): World {
    w.(mem := o.mem, disk := o.disk,
       acked := w.acked + Elems(o.acked),
       oversize := w.oversize + Elems(o.oversize),
       dropped := w.dropped + Elems(o.dropped),
       skipped := w.skipped + PassedOver(w, o))
  }

  /** How many of the newest messages a first sync takes: those on the first page, up to its limit. */
  function FirstTake(limit: int, env: Env): nat {
    var page := if env.start in env.pages && env.pages[env.start].Page? then |Ids(env.pages[env.start].values)| else 0;
    if 0 < limit < page then limit else page
  }

  ghost function Step(f: Folder, w: World, e: Event): World
    requires Enabled(w, e)
  {
    match e
    case Arrive(id) => w.(mail := [id] + w.mail, ever := w.ever + {id})
    case Delete(i) => w.(mail := w.mail[..i] + w.mail[i + 1..])
    case Sync(limit, env) => AfterSync(w, SyncFolder(f, limit, env, w.mem, w.disk))
    case SaveElsewhere => w.(disk := w.mem)
    case Restart => w.(mem := w.disk)
  }

  /** `w'` is reached from `w` by these events, each enabled when it happens. */
  ghost predicate Leads(f: Folder, w: World, es: seq<Event>, w': World)
    decreases |es|
  {
    if es == [] then w' == w
    else Enabled(w, es[0]) && Leads(f, Step(f, w, es[0]), es[1..], w')
  }

  ghost predicate Fresh(w: World) {
    Distinct(w.mail) && Elems(w.mail) <= w.ever && w.mem == [] && w.disk == []
    && w.Handled() == {}
  }

  // ----- No message is stranded -----

  /** Every present message at or below a seen one has been handled. */
  ghost predicate Covered(f: Folder, mail: seq<Id>, seen: seq<string>, handled: set<Id>) {
    forall i | 0 <= i < |mail| && UidKey(f, mail[i]) in seen :: AllFrom(mail, i, handled)
  }

  ghost predicate AllFrom(mail: seq<Id>, i: nat, handled: set<Id>) {
    forall j | i <= j < |mail| :: mail[j] in handled
  }

  ghost predicate Inv(f: Folder, w: World) {
    && Distinct(w.mail)
    && Elems(w.mail) <= w.ever
    && KeysKnown(f, w.mem, w.ever)
    && KeysKnown(f, w.disk, w.ever)
    && Covered(f, w.mail, w.mem, w.Handled())
    && Covered(f, w.mail, w.disk, w.Handled())
  }

  /** Recording keys of messages from position `from` on keeps the cover, once those and
      everything older are handled. Trimming can only remove keys. */
  lemma {:induction false} CoveredExtends(f: Folder, mail: seq<Id>, from: nat, mem: seq<string>, mem': seq<string>,
                       handled: set<Id>, handled': set<Id>)
    requires Distinct(mail) && Covered(f, mail, mem, handled) && handled <= handled'
    requires AllFrom(mail, from, handled')
    requires forall k | k in mem' :: k in mem || exists j :: from <= j < |mail| && k == UidKey(f, mail[j])
    ensures Covered(f, mail, mem', handled')
  {
    forall i | 0 <= i < |mail| && UidKey(f, mail[i]) in mem'
      ensures AllFrom(mail, i, handled')
    {
      if UidKey(f, mail[i]) in mem {
        assert AllFrom(mail, i, handled);
      } else {
        var j :| from <= j < |mail| && UidKey(f, mail[i]) == UidKey(f, mail[j]);
        UidKeyInjective(f, mail[i], mail[j]);
      }
    }
  }

  lemma {:induction false} CoveredWeaken(f: Folder, mail: seq<Id>, mem: seq<string>, handled: set<Id>,
                                         handled': set<Id>)
    requires Covered(f, mail, mem, handled) && handled <= handled'
    ensures Covered(f, mail, mem, handled')
  {
    forall i | 0 <= i < |mail| && UidKey(f, mail[i]) in mem
      ensures AllFrom(mail, i, handled')
    {
      assert AllFrom(mail, i, handled);
    }
  }

  /** Working on `mail[lo..hi]` is safe when everything from `hi` on is handled already. */
  lemma {:induction false} SettleWindowCovers(f: Folder, env: Env, mail: seq<Id>, lo: nat, hi: nat,
                           mem: seq<string>, disk: seq<string>, handled: set<Id>)
    requires lo <= hi <= |mail| && Distinct(mail)
    requires Covered(f, mail, mem, handled) && Covered(f, mail, disk, handled)
    requires AllFrom(mail, hi, handled)
    ensures var o := SettleWindow(f, env, mail[lo..hi], mem, disk);
            Covered(f, mail, o.mem, handled + Settled(o)) && Covered(f, mail, o.disk, handled + Settled(o))
            && KeysFrom(f, o.mem, mem, mail) && KeysFrom(f, o.disk, mem + disk, mail)
            && (mem != [] ==> o.mem != []) && (o.mem == [] ==> o.disk == disk)
  {
    var n := SettleEffect(f, env, mail[lo..hi], mem, disk);
    if n > 0 {
      var oldest := mail[lo..hi][hi - lo - n..];
      assert oldest == mail[hi - n..hi];
      OldestCovers(f, mail, hi - n, hi, mem, disk, handled, SettleWindow(f, env, mail[lo..hi], mem, disk));
    }
  }

  /** The same of any outcome that settled `mail[from..hi]` and wrote only keys of it. */
  lemma {:induction false} OldestCovers(f: Folder, mail: seq<Id>, from: nat, hi: nat, mem: seq<string>,
                                        disk: seq<string>,
                     handled: set<Id>, o: Outcome)
    requires from <= hi <= |mail| && Distinct(mail)
    requires Covered(f, mail, mem, handled) && Covered(f, mail, disk, handled) && AllFrom(mail, hi, handled)
    requires (o.disk == o.mem || o.disk == disk) && forall x | x in mail[from..hi] :: x in Settled(o)
    requires forall k | k in o.mem :: k in mem || exists id :: id in mail[from..hi] && k == UidKey(f, id)
    ensures Covered(f, mail, o.mem, handled + Settled(o)) && Covered(f, mail, o.disk, handled + Settled(o))
    ensures KeysFrom(f, o.mem, mem, mail) && KeysFrom(f, o.disk, mem + disk, mail)
  {
    var oldest := mail[from..hi];
    forall j | from <= j < |mail|
      ensures mail[j] in handled + Settled(o)
    {
      if j < hi {
        assert oldest[j - from] == mail[j];
      }
    }
    forall k | k in o.mem && k !in mem
      ensures exists j :: from <= j < |mail| && k == UidKey(f, mail[j])
    {
      var id :| id in oldest && k == UidKey(f, id);
      var j :| 0 <= j < |oldest| && oldest[j] == id;
      assert k == UidKey(f, mail[from + j]);
    }
    CoveredExtends(f, mail, from, mem, o.mem, handled, handled + Settled(o));
    CoveredWeaken(f, mail, disk, handled, handled + Settled(o));
  }

  /** Every key of `now` was in `before` or is that of a message in `mail`. */
  ghost predicate KeysFrom(f: Folder, now: seq<string>, before: seq<string>, mail: seq<Id>) {
    forall k | k in now :: k in before || exists id :: id in mail && k == UidKey(f, id)
  }

  ghost predicate KeysKnown(f: Folder, keys: seq<string>, ever: set<Id>) {
    forall k | k in keys :: exists id :: id in ever && k == UidKey(f, id)
  }

  lemma {:induction false} KeysStayKnown(f: Folder, now: seq<string>, before: seq<string>, mail: seq<Id>, ever: set<Id>)
    requires KeysFrom(f, now, before, mail) && KeysKnown(f, before, ever) && Elems(mail) <= ever
    ensures KeysKnown(f, now, ever)
  {
    forall k | k in now
      ensures exists id :: id in ever && k == UidKey(f, id)
    {
      if k !in before {
        var id :| id in mail && k == UidKey(f, id);
        assert id in Elems(mail);
      }
    }
  }

  /** The state after an established sync, or a first sync within its limit, or a first sync
      that marked older messages: in each case the run worked on one window of the folder. */
  lemma {:induction false} SyncKeepsInv(f: Folder, w: World, limit: int, env: Env)
    requires Inv(f, w) && Enabled(w, Sync(limit, env))
    ensures Inv(f, Step(f, w, Sync(limit, env)))
  {
    var walk := Walk(f, env.pages, env.start, {}, [], w.mem);
    if walk.Err? {
      assert AfterSync(w, SyncFolder(f, limit, env, w.mem, w.disk)) == w;
    } else if w.mem == [] {
      WalkFirstPage(f, env.pages, env.start, w.mail);
      FirstSyncKeepsInv(f, w, limit, env, walk.value);
    } else {
      EstablishedSyncKeepsInv(f, w, limit, env, walk.value);
    }
  }

  /** An established run works on the oldest part of what lies above the newest seen message. */
  lemma {:induction false} EstablishedWindow(f: Folder, limit: int, env: Env, mail: seq<Id>, mem: seq<string>,
                                             disk: seq<string>)
    returns (lo: nat, hi: nat)
    requires mem != [] && Serves(env.pages, env.start, {}, mail)
    requires Walk(f, env.pages, env.start, {}, [], mem).Ok?
    ensures hi == |TakeUnseen(f, mail, mem)| && lo == hi - Least(BATCH_SIZE, hi)
    ensures SyncFolder(f, limit, env, mem, disk) == SettleWindow(f, env, mail[lo..hi], mem, disk)
  {
    WalkFindsAnchor(f, env.pages, env.start, {}, [], mem, mail);
    var found := TakeUnseen(f, mail, mem);
    assert Walk(f, env.pages, env.start, {}, [], mem).value == found;
    hi := |found|;
    lo := hi - Least(BATCH_SIZE, hi);
    assert found == mail[..hi];
    assert Window(limit, false, found) == mail[lo..hi];
  }

  /** The invariant of the next state from the facts about one run's outcome. */
  lemma {:induction false} OutcomeKeepsInv(f: Folder, w: World, o: Outcome)
    requires Distinct(w.mail) && Elems(w.mail) <= w.ever
    requires KeysKnown(f, w.mem, w.ever) && KeysKnown(f, w.disk, w.ever)
    requires KeysFrom(f, o.mem, w.mem, w.mail) && KeysFrom(f, o.disk, w.mem + w.disk, w.mail)
    requires Covered(f, w.mail, o.mem, w.Handled() + PassedOver(w, o) + Settled(o))
    requires Covered(f, w.mail, o.disk, w.Handled() + PassedOver(w, o) + Settled(o))
    ensures Inv(f, AfterSync(w, o))
  {
    KeysStayKnown(f, o.mem, w.mem, w.mail, w.ever);
    KeysStayKnown(f, o.disk, w.mem + w.disk, w.mail, w.ever);
    assert AfterSync(w, o).Handled() == w.Handled() + PassedOver(w, o) + Settled(o);
  }

  lemma {:induction false} EstablishedSyncKeepsInv(f: Folder, w: World, limit: int, env: Env, found: seq<Id>)
    requires Inv(f, w) && Enabled(w, Sync(limit, env)) && w.mem != []
    requires Walk(f, env.pages, env.start, {}, [], w.mem) == Ok(found)
    ensures Inv(f, Step(f, w, Sync(limit, env)))
  {
    var lo, hi := EstablishedWindow(f, limit, env, w.mail, w.mem, w.disk);
    if hi < |w.mail| {
      assert AllFrom(w.mail, hi, w.Handled());
    }
    SettleWindowCovers(f, env, w.mail, lo, hi, w.mem, w.disk, w.Handled());
    var o := SettleWindow(f, env, w.mail[lo..hi], w.mem, w.disk);
    assert w.Handled() + PassedOver(w, o) + Settled(o) == w.Handled() + Settled(o);
    OutcomeKeepsInv(f, w, o);
  }

  /** What a first sync does: it may mark the messages beyond its limit, then works on the rest. */
  lemma {:induction false} FirstWindow(f: Folder, limit: int, env: Env, mail: seq<Id>, disk: seq<string>,
                                       found: seq<Id>)
    returns (n: nat, mem1: seq<string>, disk1: seq<string>)
    requires Walk(f, env.pages, env.start, {}, [], []) == Ok(found) && found <= mail
    ensures n <= |found| && (disk1 == disk || disk1 == mem1)
    ensures mem1 == if n < |found| then AppendSeen([], Keys(f, found[n..])) else []
    ensures n == |found| ==> disk1 == disk
    ensures var o := SyncFolder(f, limit, env, [], disk);
            o.window == mail[0..n] &&
            (o == SettleWindow(f, env, mail[0..n], mem1, disk1)
             || (o.mem == mem1 && o.disk == disk1 && Settled(o) == {}))
  {
    var window := Window(limit, true, found);
    n := |window|;
    assert window == mail[0..n];
    mem1 := if n < |found| then AppendSeen([], Keys(f, found[n..])) else [];
    disk1 := if n < |found| && env.savesOlder then mem1 else disk;
    var o := SyncFolder(f, limit, env, [], disk);
    if n < |found| && !env.savesOlder {
      assert o == Outcome(mem1, disk, window, [], [], [], Some(SaveFailed));
    } else {
      assert o == SettleWindow(f, env, window, mem1, disk1);
    }
  }

  lemma {:induction false} FirstSyncKeepsInv(f: Folder, w: World, limit: int, env: Env, found: seq<Id>)
    requires Inv(f, w) && Enabled(w, Sync(limit, env)) && w.mem == []
    requires Walk(f, env.pages, env.start, {}, [], []) == Ok(found) && found <= w.mail
    ensures Inv(f, Step(f, w, Sync(limit, env)))
  {
    var n, mem1, disk1 := FirstWindow(f, limit, env, w.mail, w.disk, found);
    var o := SyncFolder(f, limit, env, w.mem, w.disk);
    FirstOutcomeCovers(f, env, w, found, n, mem1, disk1, o);
    OutcomeKeepsInv(f, w, o);
  }

  lemma {:induction false} FirstOutcomeCovers(f: Folder, env: Env, w: World, found: seq<Id>, n: nat,
                           mem1: seq<string>, disk1: seq<string>, o: Outcome)
    requires Distinct(w.mail) && w.mem == [] && found <= w.mail && n <= |found|
    requires Covered(f, w.mail, w.disk, w.Handled())
    requires mem1 == if n < |found| then AppendSeen([], Keys(f, found[n..])) else []
    requires disk1 == w.disk || disk1 == mem1
    requires n == |found| ==> disk1 == w.disk
    requires o.window == w.mail[0..n]
    requires o == SettleWindow(f, env, w.mail[0..n], mem1, disk1)
             || (o.mem == mem1 && o.disk == disk1 && Settled(o) == {})
    ensures var handled := w.Handled() + PassedOver(w, o) + Settled(o);
            Covered(f, w.mail, o.mem, handled) && Covered(f, w.mail, o.disk, handled)
            && KeysFrom(f, o.mem, w.mem, w.mail) && KeysFrom(f, o.disk, w.mem + w.disk, w.mail)
  {
    var passed := Elems(w.mail) - Elems(o.window);
    var handled := w.Handled() + passed;
    AllBeyond(w.mail, n, w.Handled());
    CoveredWeaken(f, w.mail, w.disk, w.Handled(), handled);
    if n < |found| {
      OlderKeysCover(f, w.mail, found, n, handled);
    }
    if Settled(o) == {} && o.mem == mem1 && o.disk == disk1 {
      assert handled + Settled(o) == handled;
    } else {
      SettleWindowCovers(f, env, w.mail, 0, n, mem1, disk1, handled);
    }
    if o.mem == [] {
      CoveredWeaken(f, w.mail, w.disk, w.Handled(), w.Handled() + PassedOver(w, o) + Settled(o));
    }
  }

  /** What lies beyond the first `n` of distinct messages, counted as passed over. */
  lemma {:induction false} AllBeyond(mail: seq<Id>, n: nat, handled: set<Id>)
    requires n <= |mail| && Distinct(mail)
    ensures AllFrom(mail, n, handled + (Elems(mail) - Elems(mail[0..n])))
  {
    forall j | n <= j < |mail|
      ensures mail[j] in Elems(mail) - Elems(mail[0..n])
    {
      assert mail[j] !in mail[0..n];
    }
  }

  /** The keys a first sync writes for the messages beyond its limit. */
  lemma {:induction false} OlderKeysCover(f: Folder, mail: seq<Id>, found: seq<Id>, n: nat, handled: set<Id>)
    requires n < |found| && found <= mail && Distinct(mail)
    requires AllFrom(mail, n, handled)
    ensures var mem1 := AppendSeen([], Keys(f, found[n..]));
            mem1 != [] && Covered(f, mail, mem1, handled) && KeysFrom(f, mem1, [], mail)
  {
    var keys := Keys(f, found[n..]);
    AppendSeenBounded([], keys);
    assert keys[0] in keys;
    forall k | k in AppendSeen([], keys)
      ensures exists j :: n <= j < |mail| && k == UidKey(f, mail[j])
    {
      var i :| 0 <= i < |keys| && keys[i] == k;
      assert k == UidKey(f, mail[n + i]);
    }
    CoveredExtends(f, mail, n, [], AppendSeen([], keys), handled, handled);
  }

  lemma {:induction false} ArriveKeepsInv(f: Folder, w: World, id: Id)
    requires Inv(f, w) && Enabled(w, Arrive(id))
    ensures Inv(f, Step(f, w, Arrive(id)))
  {
    if UidKey(f, id) in w.mem + w.disk {
      var other :| other in w.ever && UidKey(f, id) == UidKey(f, other);
      UidKeyInjective(f, id, other);
    }
  }

  lemma {:induction false} StepKeepsInv(f: Folder, w: World, e: Event)
    requires Inv(f, w) && Enabled(w, e)
    ensures Inv(f, Step(f, w, e))
  {
    match e
    case Sync(limit, env) => SyncKeepsInv(f, w, limit, env);
    case Arrive(id) => ArriveKeepsInv(f, w, id);
    case Delete(i) =>
    case SaveElsewhere =>
    case Restart =>
  }

  /** Over every history from a fresh folder: every present message at or older than some
      present seen message was acknowledged, too large, undecodable or passed over by a
      first sync; this holds of the in-memory list and of the one a restart would load. */
  lemma {:induction false} NoMessageStranded(f: Folder, w: World, es: seq<Event>, w': World)
    requires Inv(f, w) || Fresh(w)
    requires Leads(f, w, es, w')
    ensures Inv(f, w')
    decreases |es|
  {
    assert Inv(f, w);
    if es != [] {
      StepKeepsInv(f, w, es[0]);
      NoMessageStranded(f, Step(f, w, es[0]), es[1..], w');
    }
  }

  /** The anchor scan hides nothing: in every reachable state, whenever a sync of an
      established folder gets its listing, every unhandled message is in what it collected. */
  lemma {:induction false} ScanSeesEveryUnhandled(f: Folder, w: World, es: seq<Event>, w': World, env: Env)
    requires Fresh(w) && Leads(f, w, es, w') && w'.mem != []
    requires Serves(env.pages, env.start, {}, w'.mail)
    requires Walk(f, env.pages, env.start, {}, [], w'.mem).Ok?
    ensures forall id | id in w'.mail && id !in w'.Handled() ::
              id in Walk(f, env.pages, env.start, {}, [], w'.mem).value
  {
    NoMessageStranded(f, w, es, w');
    WalkFindsAnchor(f, env.pages, env.start, {}, [], w'.mem, w'.mail);
    var found := TakeUnseen(f, w'.mail, w'.mem);
    forall id | id in w'.mail && id !in w'.Handled()
      ensures id in found
    {
      var j :| 0 <= j < |w'.mail| && w'.mail[j] == id;
      assert |found| < |w'.mail| ==> AllFrom(w'.mail, |found|, w'.Handled());
    }
  }

  /** Once established, a folder passes nothing over: only first syncs add to `skipped`. */
  lemma {:induction false} EstablishedSkipsNothing(f: Folder, w: World, limit: int, env: Env)
    requires Inv(f, w) && Enabled(w, Sync(limit, env)) && w.mem != []
    ensures Step(f, w, Sync(limit, env)).skipped == w.skipped
    ensures Step(f, w, Sync(limit, env)).mem != []
  {
    var walk := Walk(f, env.pages, env.start, {}, [], w.mem);
    if walk.Ok? {
      var n := SettleEffect(f, env, Window(limit, false, walk.value), w.mem, w.disk);
    }
  }

  // ----- Each run in terms of what the provider, the Worker and the disk answered -----

  /** A first sync: the answers to the first page decide its window, the newest `FirstTake` of
      that page; the rest of the page is recorded as seen before anything is fetched. */
  lemma {:induction false} FirstSyncExactly(f: Folder, limit: int, env: Env, disk: seq<string>)
    returns (n: nat, rest: seq<Id>)
    ensures var o := SyncFolder(f, limit, env, [], disk);
            if env.start !in env.pages || env.pages[env.start].HttpError? then
              o == Unchanged([], disk, [], Some(PageFailed))
            else if env.pages[env.start].NotAList? then o == Unchanged([], disk, [], Some(PageMalformed))
            else
              var ids, k := Ids(env.pages[env.start].values), FirstTake(limit, env);
              var older := if k < |ids| then AppendSeen([], Keys(f, ids[k..])) else [];
              if k < |ids| && !env.savesOlder then o == Unchanged(older, disk, ids[..k], Some(SaveFailed))
              else n <= k && SettlesTo(f, env, ids[..k], older, if k < |ids| then older else disk, n, rest, o)
  {
    n, rest := 0, [];
    if env.start in env.pages && env.pages[env.start].Page? {
      var ids, k := Ids(env.pages[env.start].values), FirstTake(limit, env);
      FirstWalk(f, env);
      assert Window(limit, true, ids) == ids[..k];
      var older := if k < |ids| then AppendSeen([], Keys(f, ids[k..])) else [];
      n, rest := SettlesExactly(f, env, ids[..k], older, if k < |ids| then older else disk);
    }
  }

  lemma {:induction false} FirstWalk(f: Folder, env: Env)
    requires env.start in env.pages && env.pages[env.start].Page?
    ensures Walk(f, env.pages, env.start, {}, [], []) == Ok(Ids(env.pages[env.start].values))
  {
    var ids := Ids(env.pages[env.start].values);
    TakeUnseenUnique(f, ids, [], |ids|);
    assert ids[..|ids|] == ids && [] + ids == ids;
    assert env.start !in {};
  }

  /** A later sync: a scan that fails changes nothing; otherwise the window is the oldest 50 of
      the messages before the newest seen one. */
  lemma {:induction false} LaterSyncExactly(f: Folder, limit: int, env: Env, mail: seq<Id>, mem: seq<string>,
                                           disk: seq<string>)
    returns (hi: nat, n: nat, rest: seq<Id>)
    requires mem != [] && Serves(env.pages, env.start, {}, mail)
    ensures var walk := Walk(f, env.pages, env.start, {}, [], mem);
            var o := SyncFolder(f, limit, env, mem, disk);
            if walk.Err? then o == Unchanged(mem, disk, [], Some(walk.error))
            else NewestSeenAt(f, mail, mem, hi) && n <= Least(hi, 50)
                 && SettlesTo(f, env, mail[hi - Least(hi, 50)..hi], mem, disk, n, rest, o)
  {
    hi, n, rest := 0, 0, [];
    if Walk(f, env.pages, env.start, {}, [], mem).Ok? {
      hi, n, rest := LaterFoundExactly(f, limit, env, mail, mem, disk);
    }
  }

  lemma {:induction false} LaterFoundExactly(f: Folder, limit: int, env: Env, mail: seq<Id>, mem: seq<string>,
                                            disk: seq<string>)
    returns (hi: nat, n: nat, rest: seq<Id>)
    requires mem != [] && Serves(env.pages, env.start, {}, mail)
    requires Walk(f, env.pages, env.start, {}, [], mem).Ok?
    ensures NewestSeenAt(f, mail, mem, hi) && n <= Least(hi, 50)
    ensures SettlesTo(f, env, mail[hi - Least(hi, 50)..hi], mem, disk, n, rest, SyncFolder(f, limit, env, mem, disk))
  {
    var lo: nat;
    lo, hi := EstablishedWindow(f, limit, env, mail, mem, disk);
    NewestSeen(f, mail, mem);
    n, rest := WindowSettles(f, env, mail, lo, hi, mem, disk, SyncFolder(f, limit, env, mem, disk));
  }

  lemma {:induction false} WindowSettles(f: Folder, env: Env, mail: seq<Id>, lo: nat, hi: nat, mem: seq<string>,
                                        disk: seq<string>, o: Outcome)
    returns (n: nat, rest: seq<Id>)
    requires lo <= hi <= |mail| && o == SettleWindow(f, env, mail[lo..hi], mem, disk)
    ensures n <= hi - lo && SettlesTo(f, env, mail[lo..hi], mem, disk, n, rest, o)
  {
    n, rest := SettlesExactly(f, env, mail[lo..hi], mem, disk);
  }

  /** `hi` messages precede the newest seen one. */
  ghost predicate NewestSeenAt(f: Folder, mail: seq<Id>, mem: seq<string>, hi: nat) {
    hi <= |mail| && Unseen(f, mail[..hi], mem) && (hi < |mail| ==> UidKey(f, mail[hi]) in mem)
  }

  lemma {:induction false} NewestSeen(f: Folder, mail: seq<Id>, mem: seq<string>)
    ensures NewestSeenAt(f, mail, mem, |TakeUnseen(f, mail, mem)|)
  {
  }

  /** What may become of a message. */
  datatype Fate = Uploaded | TooLarge | Garbled | Beyond

  /** The answers of this event give the message that fate: a sync whose upload went through and
      whose body is within the limit and decodes; one whose body is above the limit, or within
      it and does not decode; a first sync that had it beyond its limit or its first page. */
  ghost predicate Gives(w: World, e: Event, id: Id, fate: Fate) {
    e.Sync? && id in w.mail &&
    match fate
    case Uploaded => e.env.uploads && Deliverable(e.env, id)
    case TooLarge => OverLimit(e.env, id)
    case Garbled => Undecodable(e.env, id)
    case Beyond => w.mem == [] && id !in w.mail[..Least(FirstTake(e.limit, e.env), |w.mail|)]
  }

  /** Some event of the history gives it. */
  ghost predicate Given(f: Folder, w: World, es: seq<Event>, id: Id, fate: Fate)
    decreases |es|
  {
    es != [] && Enabled(w, es[0])
    && (Gives(w, es[0], id, fate) || Given(f, Step(f, w, es[0]), es[1..], id, fate))
  }

  function Ledger(w: World, fate: Fate): set<Id> {
    match fate
    case Uploaded => w.acked
    case TooLarge => w.oversize
    case Garbled => w.dropped
    case Beyond => w.skipped
  }

  /** The outcome of one run holds nothing that its answers do not allow. */
  lemma {:induction false} OutcomeIsEarned(w: World, limit: int, env: Env, f: Folder, fate: Fate, id: Id)
    requires Enabled(w, Sync(limit, env))
    requires id in Ledger(Step(f, w, Sync(limit, env)), fate) && id !in Ledger(w, fate)
    ensures Gives(w, Sync(limit, env), id, fate)
  {
    var o := SyncFolder(f, limit, env, w.mem, w.disk);
    if w.mem == [] {
      FirstSettles(f, limit, env, w);
    } else {
      LaterSettles(f, limit, env, w);
    }
    assert Allowed(env, w.mail, o);
  }

  /** What an outcome reports is of the folder and has the bodies it must have. */
  ghost predicate Allowed(env: Env, mail: seq<Id>, o: Outcome) {
    && (forall x | x in o.acked :: x in mail && env.uploads && Deliverable(env, x))
    && (forall x | x in o.oversize :: x in mail && OverLimit(env, x))
    && (forall x | x in o.dropped :: x in mail && Undecodable(env, x))
  }

  lemma {:induction false} SettlingIsAllowed(f: Folder, env: Env, window: seq<Id>, mem: seq<string>, disk: seq<string>,
                                            n: nat, rest: seq<Id>, o: Outcome, mail: seq<Id>)
    requires n <= |window| && SettlesTo(f, env, window, mem, disk, n, rest, o)
    requires forall x | x in window :: x in mail
    ensures Allowed(env, mail, o)
  {
    var oldest := window[|window| - n..];
    forall x | x in oldest
      ensures x in mail
    {
      assert x in window;
    }
  }

  lemma {:induction false} LaterSettles(f: Folder, limit: int, env: Env, w: World)
    requires Enabled(w, Sync(limit, env)) && w.mem != []
    ensures var o := SyncFolder(f, limit, env, w.mem, w.disk);
            Allowed(env, w.mail, o)
  {
    var hi, n, rest := LaterSyncExactly(f, limit, env, w.mail, w.mem, w.disk);
    if Walk(f, env.pages, env.start, {}, [], w.mem).Ok? {
      var window := w.mail[hi - Least(hi, 50)..hi];
      SettlingIsAllowed(f, env, window, w.mem, w.disk, n, rest, SyncFolder(f, limit, env, w.mem, w.disk), w.mail);
    }
  }

  lemma {:induction false} FirstSettles(f: Folder, limit: int, env: Env, w: World)
    requires Enabled(w, Sync(limit, env)) && w.mem == []
    ensures var o := SyncFolder(f, limit, env, [], w.disk);
            Allowed(env, w.mail, o)
            && (o.mem != [] ==> o.window == w.mail[..Least(FirstTake(limit, env), |w.mail|)])
  {
    if env.start in env.pages && env.pages[env.start].Page? {
      var ids := Ids(env.pages[env.start].values);
      FirstWalk(f, env);
      FirstFoundSettles(f, env, ids, Window(limit, true, ids), w, limit);
      FirstWindowIs(limit, env, ids, w.mail);
    }
  }

  lemma {:induction false} FirstWindowIs(limit: int, env: Env, ids: seq<Id>, mail: seq<Id>)
    requires env.start in env.pages && env.pages[env.start].Page?
    requires ids == Ids(env.pages[env.start].values) && ids <= mail
    ensures Window(limit, true, ids) == mail[..Least(FirstTake(limit, env), |mail|)]
  {
  }

  lemma {:induction false} FirstFoundSettles(f: Folder, env: Env, ids: seq<Id>, window: seq<Id>, w: World, limit: int)
    requires ids <= w.mail && window == Window(limit, true, ids)
    ensures var o := SyncFound(f, limit, env, ids, [], w.disk);
            Allowed(env, w.mail, o) && o.window == window
  {
    forall x | x in window
      ensures x in w.mail
    {
      assert x in ids;
    }
    if |window| == |ids| {
      var n, rest := SettlesExactly(f, env, window, [], w.disk);
      SettlingIsAllowed(f, env, window, [], w.disk, n, rest, SettleWindow(f, env, window, [], w.disk), w.mail);
    } else {
      var older := AppendSeen([], Keys(f, ids[|window|..]));
      var n, rest := SettlesExactly(f, env, window, older, older);
      SettlingIsAllowed(f, env, window, older, older, n, rest, SettleWindow(f, env, window, older, older), w.mail);
    }
  }

  /** Whatever a history reports of a message, some answer of the provider or the Worker in that
      history allowed: nothing counts as acknowledged whose upload never went through. */
  lemma {:induction false} LedgerIsEarned(f: Folder, w: World, es: seq<Event>, w': World, fate: Fate, id: Id)
    requires Leads(f, w, es, w') && id in Ledger(w', fate) && id !in Ledger(w, fate)
    ensures Given(f, w, es, id, fate)
    decreases |es|
  {
    if es != [] {
      var w1 := Step(f, w, es[0]);
      if id in Ledger(w1, fate) {
        OutcomeIsEarned(w, es[0].limit, es[0].env, f, fate, id);
      } else {
        LedgerIsEarned(f, w1, es[1..], w', fate, id);
      }
    }
  }

  /** Over every history from a fresh folder: every present message at or older than some
      present seen one was once given a fate by the provider's and the Worker's own answers. */
  lemma {:induction false} EverySeenHasItsFate(f: Folder, w: World, es: seq<Event>, w': World, i: nat, j: nat)
    requires Fresh(w) && Leads(f, w, es, w') && i <= j < |w'.mail|
    requires UidKey(f, w'.mail[i]) in w'.mem || UidKey(f, w'.mail[i]) in w'.disk
    ensures exists fate :: Given(f, w, es, w'.mail[j], fate)
  {
    NoMessageStranded(f, w, es, w');
    assert AllFrom(w'.mail, i, w'.Handled());
    var id := w'.mail[j];
    assert id in w'.Handled();
    var fate := if id in w'.acked then Uploaded else if id in w'.oversize then TooLarge
                else if id in w'.dropped then Garbled else Beyond;
    assert id in Ledger(w', fate);
    assert Ledger(w, fate) <= w.Handled();
    LedgerIsEarned(f, w, es, w', fate, id);
  }

  // ----- The backlog drains -----

  function Backlog(f: Folder, w: World): seq<Id> { TakeUnseen(f, w.mail, w.mem) }

  /** Nothing fails in this run. */
  ghost predicate Faultless(w: World, env: Env) {
    ServesAll(env.pages, env.start, {}, w.mail) && env.resolves && env.uploads && env.savesSeen
    && forall id | id in w.mail :: MimeOf(env, id).Body?
  }

  /** A faultless run of an established folder handles exactly the oldest min(50, n) of its
      backlog of n < 5000, and nothing else of the backlog moves. */
  lemma {:induction false} DrainStep(f: Folder, w: World, limit: int, env: Env)
    requires Inv(f, w) && w.mem != [] && Faultless(w, env)
    requires |Backlog(f, w)| < MAX_GRAPH_MESSAGE_SCAN
    ensures Enabled(w, Sync(limit, env))
    ensures var w' := Step(f, w, Sync(limit, env));
            var n := |Backlog(f, w)|;
            SyncFolder(f, limit, env, w.mem, w.disk).failed == None
            && Backlog(f, w') <= Backlog(f, w) && |Backlog(f, w')| == n - Least(BATCH_SIZE, n)
            && Elems(Backlog(f, w)[n - Least(BATCH_SIZE, n)..]) <= w'.Handled()
            && Inv(f, w') && w'.mem != [] && w'.mail == w.mail
  {
    ServesAllServes(env.pages, env.start, {}, w.mail);
    StepKeepsInv(f, w, Sync(limit, env));
    EstablishedSkipsNothing(f, w, limit, env);
    WalkSucceeds(f, env.pages, env.start, {}, [], w.mem, w.mail);
    var lo, n := EstablishedWindow(f, limit, env, w.mail, w.mem, w.disk);
    DrainWindow(f, env, w.mail, lo, n, w.mem, w.disk);
    var o := SettleWindow(f, env, w.mail[lo..n], w.mem, w.disk);
    assert Step(f, w, Sync(limit, env)) == AfterSync(w, o);
    assert Settled(o) <= AfterSync(w, o).Handled();
  }

  lemma {:induction false} DrainWindow(f: Folder, env: Env, mail: seq<Id>, lo: nat, n: nat, mem: seq<string>,
                                       disk: seq<string>)
    requires n == |TakeUnseen(f, mail, mem)| && lo == n - Least(BATCH_SIZE, n) && Distinct(mail)
    requires env.resolves && env.uploads && env.savesSeen
    requires forall id | id in mail :: MimeOf(env, id).Body?
    ensures var o := SettleWindow(f, env, mail[lo..n], mem, disk);
            o.failed == None
            && TakeUnseen(f, mail, o.mem) == TakeUnseen(f, mail, mem)[..lo]
            && Elems(TakeUnseen(f, mail, mem)[lo..]) <= Settled(o)
  {
    var o := SettleWindow(f, env, mail[lo..n], mem, disk);
    if n > 0 {
      CleanBatch(f, env, mail, lo, n, mem, disk);
      TakeUnseenUnique(f, mail, o.mem, lo);
    } else {
      assert mail[lo..n] == [];
    }
    PrefixParts(mail, TakeUnseen(f, mail, mem), lo);
  }

  lemma {:induction false} PrefixParts(mail: seq<Id>, found: seq<Id>, lo: nat)
    requires found <= mail && lo <= |found|
    ensures found[lo..] == mail[lo..|found|] && found[..lo] == mail[..lo]
  {
  }

  /** A clean run over `mail[lo..n]` commits every message of it and no other. */
  lemma {:induction false} CleanBatch(f: Folder, env: Env, mail: seq<Id>, lo: nat, n: nat, mem: seq<string>,
                                      disk: seq<string>)
    requires lo < n <= |mail| && n - lo <= BATCH_SIZE && Distinct(mail)
    requires forall i | 0 <= i < n :: UidKey(f, mail[i]) !in mem
    requires env.resolves && env.uploads && env.savesSeen
    requires forall id | id in mail :: MimeOf(env, id).Body?
    ensures var o := SettleWindow(f, env, mail[lo..n], mem, disk);
            o.failed == None && Elems(mail[lo..n]) <= Settled(o)
            && UidKey(f, mail[lo]) in o.mem
            && forall i | 0 <= i < lo :: UidKey(f, mail[i]) !in o.mem
  {
    var window := mail[lo..n];
    var batch := Reversed(window);
    var keys := SettledKeys(f, env, batch);
    var o := SettleWindow(f, env, window, mem, disk);
    CleanOutcome(f, env, window, mem, disk);
    assert window[0] == mail[lo] && mail[lo] in window;
    forall k | k in keys
      ensures k !in mem && forall i | 0 <= i < lo :: k != UidKey(f, mail[i])
    {
      var id :| id in window && k == UidKey(f, id);
      WindowKeyIsNew(f, mail, lo, n, mem, id);
    }
    BatchKeysDistinct(f, env, batch);
    AppendSeenBounded(mem, keys);
    FreshBatchSurvives(mem, keys);
  }

  lemma {:induction false} WindowKeyIsNew(f: Folder, mail: seq<Id>, lo: nat, n: nat, mem: seq<string>, id: Id)
    requires lo < n <= |mail| && Distinct(mail) && id in mail[lo..n]
    requires forall i | 0 <= i < n :: UidKey(f, mail[i]) !in mem
    ensures UidKey(f, id) !in mem && forall i | 0 <= i < lo :: UidKey(f, id) != UidKey(f, mail[i])
  {
    var j :| 0 <= j < n - lo && mail[lo..n][j] == id;
    assert id == mail[lo + j];
    forall i | 0 <= i < lo
      ensures UidKey(f, id) != UidKey(f, mail[i])
    {
      if UidKey(f, id) == UidKey(f, mail[i]) {
        UidKeyInjective(f, id, mail[i]);
      }
    }
  }

  lemma {:induction false} CleanOutcome(f: Folder, env: Env, window: seq<Id>, mem: seq<string>, disk: seq<string>)
    requires window != [] && env.resolves && env.uploads && env.savesSeen
    requires forall id | id in window :: MimeOf(env, id).Body?
    ensures var o := SettleWindow(f, env, window, mem, disk);
            var keys := SettledKeys(f, env, Reversed(window));
            o.failed == None && o.mem == AppendSeen(mem, keys) && Elems(window) == Settled(o)
            && (forall k | k in keys :: exists id :: id in window && k == UidKey(f, id))
            && (forall id | id in window :: UidKey(f, id) in keys)
  {
    CleanCommits(f, env, window, mem, disk);
    WindowKeys(f, env, window);
  }

  lemma {:induction false} CleanCommits(f: Folder, env: Env, window: seq<Id>, mem: seq<string>, disk: seq<string>)
    requires window != [] && env.resolves
    requires forall id | id in window :: MimeOf(env, id).Body?
    ensures SettleWindow(f, env, window, mem, disk) == CommitSettled(f, env, window, Reversed(window), mem, disk)
  {
    var batch := Reversed(window);
    assert batch[..|batch|] == batch;
    BodyCountIs(env, batch, |batch|);
  }

  lemma {:induction false} WindowKeys(f: Folder, env: Env, window: seq<Id>)
    ensures var r, keys := Reversed(window), SettledKeys(f, env, Reversed(window));
            && (forall x :: x in window <==> x in Normal(env, r) || x in Oversize(env, r) || x in Dropped(env, r))
            && (forall k | k in keys :: exists id :: id in window && k == UidKey(f, id))
            && (forall id | id in window :: UidKey(f, id) in keys)
  {
    var r := Reversed(window);
    ReversedPrefix(window, |window|);
    assert r[..|r|] == r && window[0..] == window;
    SettledSplit(env, r);
    SettledKeysExact(f, env, r);
  }

  lemma {:induction false} BatchKeysDistinct(f: Folder, env: Env, batch: seq<Id>)
    requires Distinct(batch) && |batch| <= BATCH_SIZE
    ensures Distinct(SettledKeys(f, env, batch)) && |SettledKeys(f, env, batch)| <= POP3_SEEN_MAX
  {
    var big, rest := Oversize(env, batch), Fetched(env, batch);
    FilterDistinct(id => TooBig(env, id), batch);
    FilterDistinct(id => !TooBig(env, id), batch);
    var ids, keys := big + rest, SettledKeys(f, env, batch);
    assert Distinct(ids) by {
      DistinctConcat(big, rest);
    }
    forall i, j | 0 <= i < j < |ids|
      ensures keys[i] != keys[j]
    {
      assert keys[i] == UidKey(f, ids[i]) && keys[j] == UidKey(f, ids[j]);
      if keys[i] == keys[j] {
        UidKeyInjective(f, ids[i], ids[j]);
      }
    }
    FilterPartition(id => TooBig(env, id), id => !TooBig(env, id), batch);
  }

  lemma {:induction false} DistinctConcat(a: seq<Id>, b: seq<Id>)
    requires Distinct(a) && Distinct(b) && forall x | x in a :: x !in b
    ensures Distinct(a + b)
  {
    forall i, j | 0 <= i < j < |a + b|
      ensures (a + b)[i] != (a + b)[j]
    {
      if i < |a| <= j {
        assert a[i] in a && b[j - |a|] in b;
      }
    }
  }

  ghost predicate AllFaultless(w: World, envs: seq<Env>) {
    forall e | e in envs :: Faultless(w, e)
  }

  function Syncs(limit: int, envs: seq<Env>): seq<Event> {
    if envs == [] then [] else [Sync(limit, envs[0])] + Syncs(limit, envs[1..])
  }

  /** r faultless runs leave exactly max(0, n - 50 r) of a backlog of n, the newest part, so
      ceil(n / 50) runs empty it. */
  lemma {:induction false} BacklogDrains(f: Folder, w: World, limit: int, envs: seq<Env>) returns (w': World)
    requires Inv(f, w) && w.mem != [] && AllFaultless(w, envs)
    requires |Backlog(f, w)| < MAX_GRAPH_MESSAGE_SCAN
    ensures Leads(f, w, Syncs(limit, envs), w')
    ensures Inv(f, w') && w'.mail == w.mail
    ensures Backlog(f, w') <= Backlog(f, w)
    ensures |Backlog(f, w')| == |Backlog(f, w)| - Least(BATCH_SIZE * |envs|, |Backlog(f, w)|)
    decreases |envs|
  {
    if envs == [] {
      w' := w;
    } else {
      DrainStep(f, w, limit, envs[0]);
      var w1 := Step(f, w, Sync(limit, envs[0]));
      AllFaultlessTail(w, w1, envs);
      w' := BacklogDrains(f, w1, limit, envs[1..]);
      PrefixTransitive(Backlog(f, w'), Backlog(f, w1), Backlog(f, w));
      LeadsFirst(f, w, Sync(limit, envs[0]), Syncs(limit, envs[1..]), w');
      assert Syncs(limit, envs) == [Sync(limit, envs[0])] + Syncs(limit, envs[1..]);
    }
  }

  lemma {:induction false} AllFaultlessTail(w: World, w1: World, envs: seq<Env>)
    requires envs != [] && AllFaultless(w, envs) && w1.mail == w.mail
    ensures AllFaultless(w1, envs[1..])
  {
    forall e | e in envs[1..]
      ensures Faultless(w1, e)
    {
      assert e in envs && Faultless(w, e);
    }
  }

  lemma {:induction false} LeadsFirst(f: Folder, w: World, e: Event, es: seq<Event>, w': World)
    requires Enabled(w, e) && Leads(f, Step(f, w, e), es, w')
    ensures Leads(f, w, [e] + es, w')
  {
    assert ([e] + es)[1..] == es;
  }

  lemma {:induction false} PrefixTransitive(a: seq<Id>, b: seq<Id>, c: seq<Id>)
    requires a <= b && b <= c
    ensures a <= c
  {
  }

  /** An established folder without backlog has every present message handled. */
  lemma {:induction false} DrainedIsHandled(f: Folder, w: World)
    requires Inv(f, w) && Backlog(f, w) == []
    ensures Elems(w.mail) <= w.Handled()
  {
    if w.mail != [] {
      assert AllFrom(w.mail, 0, w.Handled());
    }
  }
}
