/** Any number of workers on one config file (aggregator/src/one_mail_agg/token_store.py and
    oauth.py). Every redemption runs under one process-wide lock: read the token back from the
    file, redeem it, write a rotated one. Workers hold account objects loaded from the file at
    any earlier time. Reads may fail, writes may fail, a reply may be lost after the provider
    rotated, and the process may restart at any moment. */
module TokenRuns {
  import opened Wrappers
  import opened TokenRotation

  /** Provider side: each account's current token, and whom every token ever issued was
      issued to. */
  datatype Provider = Provider(current: map<string, string>, owner: map<string, string>)

  /** How the provider answers; it may rotate the token and the reply never arrive. */
  datatype Answer = Unreachable | Kept | Rotated(token: string) | Vanished(token: string)

  /** Where the worker holding the redemption lock is. After the read-back, `good` records
      what that came to: a readable file that is not behind, or a current copy kept. */
  datatype Stage =
    | Entered
    | ReadBackDone(good: bool)
    | Answered(presented: string, held: string)
    | Persisted(presented: string, held: string)
    | Leaving

  datatype Lock = Idle | Held(worker: nat, stage: Stage)

  /** `workers` maps each account object to its account and client, `memory` to its token;
      `cache` maps a token to the account its access token was minted for; `behind` are the
      accounts to which the provider issued a token that was not written since. */
  datatype World = World(
    provider: Provider,
    file: seq<Entry>,
    workers: map<nat, (string, string)>,
    memory: map<nat, string>,
    lock: Lock,
    cache: map<CacheKey, string>,
    behind: set<string>)

  datatype Event =
    | Load(worker: nat)  // a config is loaded from the file, at any time
    | Enter(worker: nat)
    | ReadFile(readable: bool)
    | CacheHit
    | Redeem(answer: Answer)
    | Persist(writes: bool)
    | Remember
    | Leave
    | Restart

  /** The account of the worker in the critical section, and the token it presents. */
  function Acting(w: World): string
    requires w.lock.Held? && w.lock.worker in w.workers
  {
    w.workers[w.lock.worker].0
  }

  function Presented(w: World): string
    requires w.lock.Held? && w.lock.worker in w.memory
  {
    w.memory[w.lock.worker]
  }

  ghost predicate Shape(w: World) {
    w.memory.Keys == w.workers.Keys && (w.lock.Held? ==> w.lock.worker in w.workers)
  }

  /** Every worker is of an account the provider knows and the file lists. */
  ghost predicate WorkersListed(w: World) {
    forall o | o in w.workers :: Listed(w, w.workers[o].0)
  }

  predicate Listed(w: World, a: string) { a in w.provider.current && StoredToken(w.file, a).Some? }

  ghost predicate Enabled(w: World, e: Event)
    requires Shape(w)
  {
    match e
    case Load(o) => o in w.workers && StoredToken(w.file, w.workers[o].0).Some?
                    && !(w.lock.Held? && w.lock.worker == o)
    case Enter(o) => o in w.workers && w.lock.Idle?
    case ReadFile(_) => w.lock.Held? && w.lock.stage.Entered?
    case CacheHit => w.lock.Held? && w.lock.stage.ReadBackDone?
                     && (w.workers[w.lock.worker].1, w.memory[w.lock.worker]) in w.cache
    case Redeem(a) => w.lock.Held? && w.lock.stage.ReadBackDone?
                      && (a.Rotated? || a.Vanished? ==> a.token != "" && a.token !in w.provider.owner)
    case Persist(_) => w.lock.Held? && w.lock.stage.Answered?
    case Remember => w.lock.Held? && w.lock.stage.Persisted?
    case Leave => w.lock.Held? && w.lock.stage.Leaving?
    case Restart => true
  }

  /** Whether the provider accepts what the acting worker presents. */
  predicate Accepted(w: World)
    requires w.lock.Held? && w.lock.worker in w.workers && w.lock.worker in w.memory
  {
    Acting(w) in w.provider.current && w.provider.current[Acting(w)] == Presented(w)
  }

  function Issued(p: Provider, a: string, token: string): Provider {
    Provider(p.current[a := token], p.owner[token := a])
  }

  ghost function Step(w: World, e: Event): World
    requires Shape(w) && Enabled(w, e)
  {
    match e
    case Load(o) => w.(memory := w.memory[o := StoredToken(w.file, w.workers[o].0).value])
    case Enter(o) => w.(lock := Held(o, Entered))
    case ReadFile(readable) =>
      var o := w.lock.worker;
      w.(memory := w.memory[o := ReadBack(w.file, Acting(w), w.memory[o], readable)],
         lock := Held(o, ReadBackDone(if readable then Acting(w) !in w.behind else Accepted(w))))
    case CacheHit => w.(lock := Held(w.lock.worker, Leaving))
    case Redeem(answer) => AfterRedeem(w, answer)
    case Persist(writes) =>
      var s := w.lock.stage;
      var after := Rewritten(w.file, Acting(w), s.held);
      if writes && after.Some? then
        w.(file := after.value, behind := w.behind - {Acting(w)},
           lock := Held(w.lock.worker, Persisted(s.presented, s.held)))
      else w.(lock := Held(w.lock.worker, Leaving))
    case Remember =>
      var s := w.lock.stage;
      w.(cache := Recached(w.cache, w.workers[w.lock.worker].1, s.presented, s.held, Acting(w)),
         lock := Held(w.lock.worker, Leaving))
    case Leave => w.(lock := Idle)
    case Restart =>
      w.(memory := map o | o in w.workers :: Loaded(w.file, w.workers[o].0, w.memory[o]), lock := Idle, cache := map[])
  }

  /** What a config loaded from the file holds for an account it lists. */
  function Loaded(file: seq<Entry>, a: string, token: string): string {
    if StoredToken(file, a).Some? then StoredToken(file, a).value else token
  }

  /** One redemption: the provider answers only its current token, and a rotation leaves the
      file behind until it is written. */
  ghost function AfterRedeem(w: World, answer: Answer): World
    requires Shape(w) && w.lock.Held?
  {
    var o, a := w.lock.worker, Acting(w);
    if answer.Unreachable? || !Accepted(w) then w.(lock := Held(o, Leaving))
    else if answer.Kept? then w.(lock := Held(o, Persisted(w.memory[o], w.memory[o])))
    else
      var rotated := w.(provider := Issued(w.provider, a, answer.token), behind := w.behind + {a});
      if answer.Vanished? then rotated.(lock := Held(o, Leaving))
      else
        rotated.(memory := w.memory[o := answer.token], lock := Held(o, Answered(w.memory[o], answer.token)))
  }

  // ----- What every step keeps -----

  /** The file holds the account's current token. */
  predicate FileCurrent(w: World, a: string) {
    a in w.provider.current && StoredToken(w.file, a) == Some(w.provider.current[a])
  }

  /** Every token belongs to one account, a current one to its own. */
  ghost predicate TokensOwned(p: Provider) {
    "" !in p.owner && forall a | a in p.current :: p.current[a] in p.owner && p.owner[p.current[a]] == a
  }

  predicate OwnedBy(p: Provider, token: string, a: string) { token in p.owner && p.owner[token] == a }

  /** The file is current exactly for the accounts that are not behind. */
  ghost predicate FilesTell(w: World) {
    forall a | Listed(w, a) :: FileCurrent(w, a) <==> a !in w.behind
  }

  /** No worker and no entry of the file ever holds another account's token. */
  ghost predicate HoldersOwn(w: World)
    requires Shape(w)
  {
    && (forall o | o in w.workers :: OwnedBy(w.provider, w.memory[o], w.workers[o].0))
    && (forall a | Listed(w, a) :: OwnedBy(w.provider, StoredToken(w.file, a).value, a))
  }

  /** Nobody but `o` holds this token. */
  ghost predicate OnlyHolder(w: World, o: nat, token: string)
    requires Shape(w)
  {
    forall p | p in w.workers && p != o :: w.memory[p] != token
  }

  /** What the worker in the critical section holds: after the read-back it is current exactly
      when that came out well, and after an answer it is the account's current token, which
      before it is written nobody else holds. */
  ghost predicate StageCurrent(w: World)
    requires Shape(w)
  {
    w.lock.Held? ==>
      match w.lock.stage
      case ReadBackDone(good) => Accepted(w) <==> good
      case Answered(_, held) =>
        Accepted(w) && Presented(w) == held && Acting(w) in w.behind && OnlyHolder(w, w.lock.worker, held)
      case Persisted(_, held) => Accepted(w) && Presented(w) == held
      case _ => true
  }

  /** An access token is cached under a token of the account it was minted for. */
  ghost predicate CacheOwned(w: World) {
    forall k | k in w.cache :: OwnedBy(w.provider, k.1, w.cache[k])
  }

  ghost predicate Inv(w: World) {
    && Shape(w) && WorkersListed(w) && TokensOwned(w.provider)
    && FilesTell(w) && HoldersOwn(w) && StageCurrent(w) && CacheOwned(w)
  }

  /** Before anybody redeems, with every config loaded from a file that is current. */
  ghost predicate Start(w: World) {
    && Shape(w) && w.lock.Idle? && w.cache == map[] && w.behind == {}
    && TokensOwned(w.provider) && WorkersListed(w)
    && (forall a | Listed(w, a) :: FileCurrent(w, a))
    && forall o | o in w.workers :: Some(w.memory[o]) == StoredToken(w.file, w.workers[o].0)
  }

  lemma {:induction false} StartHolds(w: World)
    requires Start(w)
    ensures Inv(w)
  {
    forall a | Listed(w, a)
      ensures OwnedBy(w.provider, StoredToken(w.file, a).value, a)
    {
      assert FileCurrent(w, a);
    }
  }

  /** Steps that leave provider, file and workers alone keep the invariant when the critical
      section, the memory and the cache come out right. */
  lemma {:induction false} PlainKeeps(w: World, w': World)
    requires Inv(w) && w'.provider == w.provider && w'.file == w.file
    requires w'.workers == w.workers && w'.behind == w.behind
    requires Shape(w') && StageCurrent(w') && CacheOwned(w')
    requires forall o | o in w'.workers :: OwnedBy(w.provider, w'.memory[o], w.workers[o].0)
    ensures Inv(w')
  {
    forall a | Listed(w', a)
      ensures FileCurrent(w', a) <==> a !in w'.behind
      ensures OwnedBy(w'.provider, StoredToken(w'.file, a).value, a)
    {
      assert Listed(w, a);
    }
    forall o | o in w'.workers
      ensures Listed(w', w'.workers[o].0)
    {
      assert Listed(w, w.workers[o].0);
    }
  }

  /** What a worker takes over from the file is its account's, and current unless behind. */
  lemma {:induction false} StoredIs(w: World, o: nat)
    requires Inv(w) && o in w.workers
    ensures var a := w.workers[o].0;
            && Listed(w, a) && StoredToken(w.file, a).value != ""
            && OwnedBy(w.provider, StoredToken(w.file, a).value, a)
            && (StoredToken(w.file, a).value == w.provider.current[a] <==> a !in w.behind)
  {
    assert Listed(w, w.workers[o].0);
  }

  lemma {:induction false} ReadFileKeeps(w: World, readable: bool)
    requires Inv(w) && Enabled(w, ReadFile(readable))
    ensures Inv(Step(w, ReadFile(readable)))
  {
    var w' := Step(w, ReadFile(readable));
    StoredIs(w, w.lock.worker);
    ReadFileStage(w, readable);
    forall o | o in w'.workers
      ensures OwnedBy(w.provider, w'.memory[o], w.workers[o].0)
    {
      assert OwnedBy(w.provider, w.memory[o], w.workers[o].0);
    }
    PlainKeeps(w, w');
  }

  lemma {:induction false} ReadFileStage(w: World, readable: bool)
    requires Shape(w) && Enabled(w, ReadFile(readable)) && Listed(w, Acting(w)) && CacheOwned(w)
    requires var stored := StoredToken(w.file, Acting(w)).value;
             stored != "" && (stored == w.provider.current[Acting(w)] <==> Acting(w) !in w.behind)
    ensures var w' := Step(w, ReadFile(readable)); Shape(w') && StageCurrent(w') && CacheOwned(w')
  {
  }

  lemma {:induction false} LoadKeeps(w: World, o: nat)
    requires Inv(w) && Enabled(w, Load(o))
    ensures Inv(Step(w, Load(o)))
  {
    StoredIs(w, o);
    PlainKeeps(w, Step(w, Load(o)));
  }

  lemma {:induction false} RestartKeeps(w: World)
    requires Inv(w)
    ensures Inv(Step(w, Restart))
  {
    forall o | o in w.workers
      ensures OwnedBy(w.provider, Loaded(w.file, w.workers[o].0, w.memory[o]), w.workers[o].0)
    {
      StoredIs(w, o);
    }
    PlainKeeps(w, Step(w, Restart));
  }

  /** A rotation gives the account a token never issued before, and so nobody's. */
  lemma {:induction false} IssuedOwned(p: Provider, a: string, token: string)
    requires TokensOwned(p) && token != "" && token !in p.owner
    ensures TokensOwned(Issued(p, a, token))
    ensures forall t, b | OwnedBy(p, t, b) :: OwnedBy(Issued(p, a, token), t, b) && t != token
  {
  }

  /** A rotation in the provider alone: the account is behind from then on. */
  lemma {:induction false} IssueKeeps(w: World, w': World, a: string, token: string)
    requires Inv(w) && token != "" && token !in w.provider.owner && Listed(w, a)
    requires w'.provider == Issued(w.provider, a, token) && w'.behind == w.behind + {a}
    requires w'.file == w.file && w'.workers == w.workers && w'.cache == w.cache && Shape(w')
    requires forall o | o in w'.workers :: OwnedBy(w'.provider, w'.memory[o], w.workers[o].0)
    requires StageCurrent(w')
    ensures Inv(w')
  {
    IssuedOwned(w.provider, a, token);
    forall x | Listed(w', x)
      ensures FileCurrent(w', x) <==> x !in w'.behind
      ensures OwnedBy(w'.provider, StoredToken(w'.file, x).value, x)
    {
      assert Listed(w, x);
      assert OwnedBy(w.provider, StoredToken(w.file, x).value, x);
    }
    forall o | o in w'.workers
      ensures Listed(w', w'.workers[o].0)
    {
      assert Listed(w, w.workers[o].0);
    }
  }

  lemma {:induction false} RotationKeeps(w: World, token: string)
    requires Inv(w) && Enabled(w, Redeem(Rotated(token))) && Accepted(w)
    ensures Inv(Step(w, Redeem(Rotated(token))))
  {
    var w', a, o := Step(w, Redeem(Rotated(token))), Acting(w), w.lock.worker;
    IssuedOwned(w.provider, a, token);
    forall p | p in w.workers
      ensures OwnedBy(w'.provider, w'.memory[p], w.workers[p].0) && (p != o ==> w'.memory[p] != token)
    {
      assert OwnedBy(w.provider, w.memory[p], w.workers[p].0);
    }
    assert Listed(w, w.workers[o].0);
    IssueKeeps(w, w', a, token);
  }

  lemma {:induction false} VanishedKeeps(w: World, token: string)
    requires Inv(w) && Enabled(w, Redeem(Vanished(token))) && Accepted(w)
    ensures Inv(Step(w, Redeem(Vanished(token))))
  {
    IssuedOwned(w.provider, Acting(w), token);
    assert Listed(w, w.workers[w.lock.worker].0);
    IssueKeeps(w, Step(w, Redeem(Vanished(token))), Acting(w), token);
  }

  lemma {:induction false} PersistKeeps(w: World, writes: bool)
    requires Inv(w) && Enabled(w, Persist(writes))
    ensures Inv(Step(w, Persist(writes)))
  {
    if writes {
      var a, held := Acting(w), w.lock.stage.held;
      assert Listed(w, w.workers[w.lock.worker].0);
      RewriteTouchesOneToken(w.file, a, held);
      WrittenKeeps(w, Step(w, Persist(true)), a, held);
    } else {
      PlainKeeps(w, Step(w, Persist(false)));
    }
  }

  lemma {:induction false} WrittenKeeps(w: World, w': World, a: string, held: string)
    requires Inv(w) && a in w.provider.current && w.provider.current[a] == held
    requires w'.provider == w.provider && w'.workers == w.workers && w'.memory == w.memory && w'.cache == w.cache
    requires StoredToken(w'.file, a) == Some(held) && w'.behind == w.behind - {a}
    requires forall x | x != a :: StoredToken(w'.file, x) == StoredToken(w.file, x)
    requires Shape(w') && StageCurrent(w')
    ensures Inv(w')
  {
    forall x | Listed(w', x)
      ensures FileCurrent(w', x) <==> x !in w'.behind
      ensures OwnedBy(w'.provider, StoredToken(w'.file, x).value, x)
    {
      if x != a {
        assert Listed(w, x);
      }
    }
    forall o | o in w'.workers
      ensures Listed(w', w'.workers[o].0)
    {
      assert Listed(w, w.workers[o].0);
    }
  }

  lemma {:induction false} RememberKeeps(w: World)
    requires Inv(w) && Enabled(w, Remember)
    ensures Inv(Step(w, Remember))
  {
    var w', s := Step(w, Remember), w.lock.stage;
    assert CacheOwned(w') by {
      assert w.provider.owner[s.held] == Acting(w);
    }
    PlainKeeps(w, w');
  }

  /** An answer without a rotation, or none: the worker goes on with the token it has. */
  lemma {:induction false} RedeemKeeps(w: World, answer: Answer)
    requires Inv(w) && Enabled(w, Redeem(answer)) && (answer.Unreachable? || answer.Kept? || !Accepted(w))
    ensures Inv(Step(w, Redeem(answer)))
  {
    PlainKeeps(w, Step(w, Redeem(answer)));
  }

  lemma {:induction false} LockKeeps(w: World, e: Event)
    requires Inv(w) && Enabled(w, e) && (e.Enter? || e.CacheHit? || e.Leave?)
    ensures Inv(Step(w, e))
  {
    PlainKeeps(w, Step(w, e));
  }

  lemma {:induction false} StepKeeps(w: World, e: Event)
    requires Inv(w) && Enabled(w, e)
    ensures Inv(Step(w, e))
  {
    match e
    case Load(o) => LoadKeeps(w, o);
    case ReadFile(readable) => ReadFileKeeps(w, readable);
    case Redeem(answer) =>
      if answer.Rotated? && Accepted(w) {
        RotationKeeps(w, answer.token);
      } else if answer.Vanished? && Accepted(w) {
        VanishedKeeps(w, answer.token);
      } else {
        RedeemKeeps(w, answer);
      }
    case Persist(writes) => PersistKeeps(w, writes);
    case Remember => RememberKeeps(w);
    case Restart => RestartKeeps(w);
    case _ => LockKeeps(w, e);
  }

  ghost predicate Can(w: World, e: Event) { Shape(w) && Enabled(w, e) }

  ghost predicate Runs(w: World, es: seq<Event>, w': World)
    decreases |es|
  {
    if es == [] then w' == w else Can(w, es[0]) && Runs(Step(w, es[0]), es[1..], w')
  }

  lemma {:induction false} RunsKeep(w: World, es: seq<Event>, w': World)
    requires Inv(w) && Runs(w, es, w')
    ensures Inv(w')
    decreases |es|
  {
    if es != [] {
      StepKeeps(w, es[0]);
      RunsKeep(Step(w, es[0]), es[1..], w');
    }
  }

  ghost predicate Reachable(w: World) { exists s: World, es: seq<Event> :: Start(s) && Runs(s, es, w) }

  lemma {:induction false} ReachableHolds(w: World)
    requires Reachable(w)
    ensures Inv(w)
  {
    var s: World, es: seq<Event> :| Start(s) && Runs(s, es, w);
    StartHolds(s);
    RunsKeep(s, es, w);
  }

  // ----- The main results -----

  /** In every reachable state, with workers on configs of any age, failing reads and writes,
      lost replies and restarts: the file holds the current token of exactly the accounts whose
      last rotation was written, and an access token served from the cache was minted for the
      account that asked. */
  lemma {:induction false} FileCurrentExactlyWhen(w: World)
    requires Reachable(w)
    ensures forall a | Listed(w, a) :: FileCurrent(w, a) <==> a !in w.behind
    ensures Can(w, CacheHit) ==> w.cache[(w.workers[w.lock.worker].1, Presented(w))] == Acting(w)
  {
    ReachableHolds(w);
    if Can(w, CacheHit) {
      assert OwnedBy(w.provider, w.memory[w.lock.worker], Acting(w));
    }
  }

  /** A step that loses no rotation: no reply lost, no write failed, no restart before a write. */
  predicate Harmless(w: World, e: Event) {
    match e
    case Redeem(answer) => !answer.Vanished?
    case Persist(writes) => writes
    case Restart => !(w.lock.Held? && w.lock.stage.Answered?)
    case _ => true
  }

  ghost predicate HarmlessRun(w: World, es: seq<Event>)
    decreases |es|
  {
    es != [] && Can(w, es[0]) ==> Harmless(w, es[0]) && HarmlessRun(Step(w, es[0]), es[1..])
  }

  /** Nothing is behind but a rotation on its way to the file. */
  ghost predicate OnlyInFlight(w: World) {
    forall a | a in w.behind ::
      w.lock.Held? && w.lock.stage.Answered? && w.lock.worker in w.workers && w.workers[w.lock.worker].0 == a
  }

  lemma {:induction false} HarmlessKeeps(w: World, es: seq<Event>, w': World)
    requires Inv(w) && OnlyInFlight(w) && Runs(w, es, w') && HarmlessRun(w, es)
    ensures OnlyInFlight(w')
    decreases |es|
  {
    if es != [] {
      StepKeeps(w, es[0]);
      HarmlessStep(w, es[0]);
      HarmlessKeeps(Step(w, es[0]), es[1..], w');
    }
  }

  lemma {:induction false} HarmlessStep(w: World, e: Event)
    requires Inv(w) && OnlyInFlight(w) && Enabled(w, e) && Harmless(w, e)
    ensures OnlyInFlight(Step(w, e))
  {
  }

  /** As long as no rotation is lost, a free lock means a file that is current for every
      account it lists. */
  lemma {:induction false} RotationIsNeverLost(w: World, es: seq<Event>, w': World)
    requires Start(w) && Runs(w, es, w') && HarmlessRun(w, es) && w'.lock.Idle?
    ensures forall a | Listed(w', a) :: FileCurrent(w', a)
  {
    StartHolds(w);
    RunsKeep(w, es, w');
    HarmlessKeeps(w, es, w');
  }

  /** In every reachable state: a read-back leads to an accepted redemption exactly when the
      file could be read and is not behind, or could not be read and the worker's own copy is
      current. */
  lemma {:induction false} AcceptedExactlyWhen(w: World, readable: bool)
    requires Reachable(w) && Can(w, ReadFile(readable))
    ensures Accepted(Step(w, ReadFile(readable)))
            <==> if readable then Acting(w) !in w.behind else Accepted(w)
  {
    ReachableHolds(w);
    ReadFileKeeps(w, readable);
  }

  predicate AllReadable(es: seq<Event>) { forall i | 0 <= i < |es| :: es[i] != ReadFile(false) }

  predicate GoodSoFar(w: World) { w.lock.Held? && w.lock.stage.ReadBackDone? ==> w.lock.stage.good }

  lemma {:induction false} GoodStays(w: World, es: seq<Event>, w': World)
    requires Inv(w) && OnlyInFlight(w) && GoodSoFar(w) && Runs(w, es, w') && HarmlessRun(w, es) && AllReadable(es)
    ensures GoodSoFar(w')
    decreases |es|
  {
    if es != [] {
      assert es[0] != ReadFile(false);
      assert forall i | 0 <= i < |es[1..]| :: es[1..][i] == es[i + 1];
      StepKeeps(w, es[0]);
      HarmlessStep(w, es[0]);
      GoodStep(w, es[0]);
      GoodStays(Step(w, es[0]), es[1..], w');
    }
  }

  lemma {:induction false} GoodStep(w: World, e: Event)
    requires Inv(w) && OnlyInFlight(w) && GoodSoFar(w) && Enabled(w, e) && e != ReadFile(false)
    ensures GoodSoFar(Step(w, e))
  {
  }

  /** As long as no rotation is lost and every read of the file succeeds, every redemption
      presents the current token. */
  lemma {:induction false} ReadableFileAccepted(w: World, es: seq<Event>, w': World)
    requires Start(w) && Runs(w, es, w') && HarmlessRun(w, es) && AllReadable(es)
    ensures Shape(w') && (w'.lock.Held? && w'.lock.stage.ReadBackDone? ==> Accepted(w'))
  {
    StartHolds(w);
    RunsKeep(w, es, w');
    GoodStays(w, es, w');
  }

  // ----- The account that is lost -----

  /** Neither the file nor any worker holds the account's current token. */
  ghost predicate Nowhere(w: World, a: string) {
    && Listed(w, a) && !FileCurrent(w, a)
    && forall o | o in w.workers && o in w.memory && w.workers[o].0 == a :: w.memory[o] != w.provider.current[a]
  }

  lemma {:induction false} NowhereRejects(w: World, a: string)
    requires Nowhere(w, a) && Shape(w) && w.lock.Held? && Acting(w) == a
    ensures !Accepted(w)
  {
  }

  /** Taking over what the file holds does not bring a lost token back. */
  lemma {:induction false} NowherePlain(w: World, w': World, a: string)
    requires Nowhere(w, a) && Shape(w) && Shape(w') && w'.workers == w.workers
    requires Listed(w', a) && w'.provider.current[a] == w.provider.current[a]
    requires StoredToken(w'.file, a) == StoredToken(w.file, a)
    requires forall o | o in w.workers && w.workers[o].0 == a ::
               w'.memory[o] == w.memory[o] || Some(w'.memory[o]) == StoredToken(w.file, a)
    ensures Nowhere(w', a)
  {
  }

  lemma {:induction false} NowhereStays(w: World, e: Event, a: string)
    requires Inv(w) && Nowhere(w, a) && Enabled(w, e)
    ensures Nowhere(Step(w, e), a)
  {
    match e
    case Redeem(answer) => RedeemNowhere(w, answer, a);
    case Persist(writes) => PersistNowhere(w, writes, a);
    case Load(_) => MemoryNowhere(w, e, a);
    case ReadFile(_) => MemoryNowhere(w, e, a);
    case Restart => MemoryNowhere(w, e, a);
    case _ =>
  }

  lemma {:induction false} MemoryNowhere(w: World, e: Event, a: string)
    requires Shape(w) && Nowhere(w, a) && Enabled(w, e) && (e.Load? || e.ReadFile? || e.Restart?)
    ensures Nowhere(Step(w, e), a)
  {
    NowherePlain(w, Step(w, e), a);
  }

  lemma {:induction false} RedeemNowhere(w: World, answer: Answer, a: string)
    requires Shape(w) && Nowhere(w, a) && Enabled(w, Redeem(answer))
    ensures Nowhere(Step(w, Redeem(answer)), a)
  {
    if Acting(w) == a {
      NowhereRejects(w, a);
    }
    NowherePlain(w, Step(w, Redeem(answer)), a);
  }

  lemma {:induction false} PersistNowhere(w: World, writes: bool, a: string)
    requires Inv(w) && Nowhere(w, a) && Enabled(w, Persist(writes))
    ensures Nowhere(Step(w, Persist(writes)), a)
  {
    if Acting(w) == a {
      NowhereRejects(w, a);
    } else if Rewritten(w.file, Acting(w), w.lock.stage.held).Some? {
      RewriteTouchesOneToken(w.file, Acting(w), w.lock.stage.held);
    }
    NowherePlain(w, Step(w, Persist(writes)), a);
  }

  lemma {:induction false} NowhereForever(w: World, es: seq<Event>, w': World, a: string)
    requires Inv(w) && Nowhere(w, a) && Runs(w, es, w')
    ensures Nowhere(w', a)
    decreases |es|
  {
    if es != [] {
      NowhereStays(w, es[0], a);
      StepKeeps(w, es[0]);
      NowhereForever(Step(w, es[0]), es[1..], w', a);
    }
  }

  /** Some continuation has the provider accept a token of the account. */
  ghost predicate Redeemable(w: World, a: string) {
    exists es: seq<Event>, w': World ::
      Runs(w, es, w') && Shape(w') && w'.lock.Held? && w'.lock.stage.ReadBackDone? && Acting(w') == a && Accepted(w')
  }

  /** An account with a worker can be redeemed again exactly when the file or a worker still
      holds its current token: once nobody does, it is lost for good. */
  lemma {:induction false} RedeemableExactlyWhen(w: World, a: string)
    requires Reachable(w) && w.lock.Idle? && exists o :: o in w.workers && w.workers[o].0 == a
    ensures Redeemable(w, a) <==> !Nowhere(w, a)
  {
    ReachableHolds(w);
    if Nowhere(w, a) {
      forall es: seq<Event>, w': World | Runs(w, es, w') && Shape(w') && w'.lock.Held? && Acting(w') == a
        ensures !Accepted(w')
      {
        NowhereForever(w, es, w', a);
        NowhereRejects(w', a);
      }
    } else {
      var o :| o in w.workers && w.workers[o].0 == a;
      assert Listed(w, w.workers[o].0);
      if FileCurrent(w, a) {
        RedeemsAfter(w, o, true);
      } else {
        var p :| p in w.workers && p in w.memory && w.workers[p].0 == a && w.memory[p] == w.provider.current[a];
        RedeemsAfter(w, p, false);
      }
    }
  }

  /** A worker that enters and reads, or fails to. */
  lemma {:induction false} RedeemsAfter(w: World, o: nat, readable: bool)
    requires Inv(w) && w.lock.Idle? && o in w.workers
    requires if readable then FileCurrent(w, w.workers[o].0) else w.memory[o] == w.provider.current[w.workers[o].0]
    ensures Redeemable(w, w.workers[o].0)
  {
    var es := [Enter(o), ReadFile(readable)];
    var w1 := Step(w, Enter(o));
    StepKeeps(w, Enter(o));
    StepKeeps(w1, ReadFile(readable));
    var w2 := Step(w1, ReadFile(readable));
    StoredIs(w, o);
    assert es[1..] == [ReadFile(readable)] && es[1..][1..] == [];
    assert Runs(w2, [], w2);
    assert Runs(w1, es[1..], w2);
    assert Runs(w, es, w2);
  }

  /** A reply lost after the provider rotated: the account is lost at once. */
  lemma {:induction false} VanishedReplyLosesTheAccount(w: World, token: string)
    requires Reachable(w) && Can(w, Redeem(Vanished(token))) && Accepted(w)
    ensures Nowhere(Step(w, Redeem(Vanished(token))), Acting(w))
  {
    ReachableHolds(w);
    var w', a := Step(w, Redeem(Vanished(token))), Acting(w);
    IssuedOwned(w.provider, a, token);
    assert Listed(w, w.workers[w.lock.worker].0);
    forall o | o in w'.workers && w'.workers[o].0 == a
      ensures w'.memory[o] != token
    {
      assert OwnedBy(w.provider, w.memory[o], w.workers[o].0);
    }
  }

  /** A write that fails leaves the new token in one worker's memory, and that worker's next
      successful read-back puts the superseded one of the file in its place: the account is
      lost with the very step that is to keep it current. A restart does the same. */
  lemma {:induction false} FailedWriteLosesTheAccount(w: World) returns (w': World)
    requires Reachable(w) && Can(w, Persist(false))
    ensures Runs(w, [Persist(false), Leave] + [Enter(w.lock.worker), ReadFile(true)], w') && Nowhere(w', Acting(w))
    ensures !Nowhere(Step(w, Persist(false)), Acting(w))
    ensures Nowhere(Step(Step(w, Persist(false)), Restart), Acting(w))
  {
    ReachableHolds(w);
    var o := w.lock.worker;
    var w1 := Step(w, Persist(false));
    PersistKeeps(w, false);
    var w2 := Step(w1, Leave);
    LockKeeps(w1, Leave);
    RunsTwo(w, Persist(false), Leave);
    w' := OneCopyIsDiscarded(w2, o);
    RunsJoin(w, [Persist(false), Leave], w2, [Enter(o), ReadFile(true)], w');
    RestartDiscards(w1, o);
  }

  lemma {:induction false} RunsTwo(w: World, e: Event, e': Event)
    requires Can(w, e) && Can(Step(w, e), e')
    ensures Runs(w, [e, e'], Step(Step(w, e), e'))
  {
    var w1 := Step(w, e);
    assert [e, e'][1..] == [e'] && [e'][1..] == [];
    assert Runs(Step(w1, e'), [], Step(w1, e')) && Runs(w1, [e'], Step(w1, e'));
  }

  /** The one copy of a token that was never written, under a worker that reads the file. */
  lemma {:induction false} OneCopyIsDiscarded(w: World, o: nat) returns (w': World)
    requires Inv(w) && w.lock.Idle? && o in w.workers && w.workers[o].0 in w.behind
    requires OnlyHolder(w, o, w.provider.current[w.workers[o].0])
    ensures Runs(w, [Enter(o), ReadFile(true)], w') && Nowhere(w', w.workers[o].0)
  {
    StoredIs(w, o);
    RunsTwo(w, Enter(o), ReadFile(true));
    w' := Step(Step(w, Enter(o)), ReadFile(true));
    assert Listed(w, w.workers[o].0) && Listed(w', w.workers[o].0);
  }

  lemma {:induction false} RestartDiscards(w: World, o: nat)
    requires Inv(w) && o in w.workers && w.workers[o].0 in w.behind
    ensures Nowhere(Step(w, Restart), w.workers[o].0)
  {
    StoredIs(w, o);
  }

  // ----- The redemption that is rejected -----

  /** For example: two workers hold the token "t". The first redeems it and has it rotated to
      "u" and written. The second cannot read the file, presents "t", and is turned away. */
  lemma {:induction false} UnreadableFileRejected() returns (w: World, es: seq<Event>, w': World)
    ensures Start(w) && Runs(w, es, w') && Shape(w')
    ensures w'.lock == Held(1, ReadBackDone(false)) && !Accepted(w')
    ensures Enabled(w', Redeem(Kept)) && Step(w', Redeem(Kept)) == w'.(lock := Held(1, Leaving))
  {
    var file := [Entry("a", Some(OAuth("c", "t", "")), "")];
    var workers := map[0 := ("a", "c"), 1 := ("a", "c")];
    w := World(Provider(map["a" := "t"], map["t" := "a"]), file, workers, map[0 := "t", 1 := "t"], Idle, map[], {});
    ExampleStart(w);
    var w1 := w.(lock := Held(0, ReadBackDone(true)));
    var w2 := World(Provider(map["a" := "u"], map["t" := "a", "u" := "a"]), [Entry("a", Some(OAuth("c", "u", "")), "")],
                    workers, map[0 := "u", 1 := "t"], Held(0, Persisted("t", "u")), map[], {});
    var w3 := w2.(lock := Held(1, Entered), cache := map[("c", "u") := "a"]);
    w' := w3.(lock := Held(1, ReadBackDone(false)));
    var a, b := [Enter(0), ReadFile(true)], [Redeem(Rotated("u")), Persist(true)];
    var c, d := [Remember, Leave, Enter(1)], [ReadFile(false)];
    assert Runs(w, a, w1) by {
      ExampleEnter(w, w1);
    }
    assert Runs(w1, b, w2) by {
      ExampleRotate(w1, w2);
    }
    assert Runs(w2, c, w3) by {
      ExampleLeave(w2, w3);
    }
    ExampleTurnedAway(w3, w');
    RunsJoin(w2, c, w3, d, w');
    RunsJoin(w1, b, w2, c + d, w');
    RunsJoin(w, a, w1, b + (c + d), w');
    es := a + (b + (c + d));
  }

  lemma {:induction false} ExampleTurnedAway(w3: World, w': World)
    requires Shape(w3) && w3.lock == Held(1, Entered) && 1 in w3.workers && w3.workers[1].0 == "a"
    requires w3.memory[1] == "t"
    requires "a" in w3.provider.current && w3.provider.current["a"] == "u"
    requires w' == w3.(lock := Held(1, ReadBackDone(false)))
    ensures Runs(w3, [ReadFile(false)], w') && Shape(w') && !Accepted(w')
    ensures Enabled(w', Redeem(Kept)) && Step(w', Redeem(Kept)) == w'.(lock := Held(1, Leaving))
  {
    assert "u"[0] != "t"[0];
    assert w3.memory[1 := "t"] == w3.memory;
    assert Step(w3, ReadFile(false)) == w' && [ReadFile(false)][1..] == [];
  }

  lemma {:induction false} RunsJoin(w: World, a: seq<Event>, m: World, b: seq<Event>, w': World)
    requires Runs(w, a, m) && Runs(m, b, w')
    ensures Runs(w, a + b, w')
    decreases |a|
  {
    if a == [] {
      assert a + b == b;
    } else {
      RunsJoin(Step(w, a[0]), a[1..], m, b, w');
      assert (a + b)[1..] == a[1..] + b;
    }
  }

  lemma {:induction false} ExampleStart(w: World)
    requires w.file == [Entry("a", Some(OAuth("c", "t", "")), "")] && w.workers == map[0 := ("a", "c"), 1 := ("a", "c")]
    requires w.memory == map[0 := "t", 1 := "t"] && w.provider == Provider(map["a" := "t"], map["t" := "a"])
    requires w.lock == Idle && w.cache == map[] && w.behind == {}
    ensures Start(w)
  {
    assert StoredToken(w.file, "a") == Some("t") && FileCurrent(w, "a");
  }

  lemma {:induction false} ExampleEnter(w: World, w1: World)
    requires Shape(w) && w.lock == Idle && 0 in w.workers && w.workers[0].0 == "a" && w.memory[0] == "t"
    requires StoredToken(w.file, "a") == Some("t") && w.behind == {}
    requires w1 == w.(lock := Held(0, ReadBackDone(true)))
    ensures Runs(w, [Enter(0), ReadFile(true)], w1)
  {
    var m := w.(lock := Held(0, Entered));
    assert w.memory[0 := "t"] == w.memory;
    assert Step(w, Enter(0)) == m && Step(m, ReadFile(true)) == w1;
    assert [Enter(0), ReadFile(true)][1..] == [ReadFile(true)] && [ReadFile(true)][1..] == [];
  }

  lemma {:induction false} ExampleRotate(w1: World, w2: World)
    requires w1.file == [Entry("a", Some(OAuth("c", "t", "")), "")]
    requires w1.workers == map[0 := ("a", "c"), 1 := ("a", "c")]
    requires w1.memory == map[0 := "t", 1 := "t"] && w1.provider == Provider(map["a" := "t"], map["t" := "a"])
    requires w1.lock == Held(0, ReadBackDone(true)) && w1.cache == map[] && w1.behind == {}
    requires w2 == World(Provider(map["a" := "u"], map["t" := "a", "u" := "a"]),
                         [Entry("a", Some(OAuth("c", "u", "")), "")], w1.workers,
                         map[0 := "u", 1 := "t"], Held(0, Persisted("t", "u")), map[], {})
    ensures Runs(w1, [Redeem(Rotated("u")), Persist(true)], w2)
  {
    var m := w2.(file := w1.file, lock := Held(0, Answered("t", "u")), behind := {"a"});
    assert "u" != "t" by {
      assert "u"[0] != "t"[0];
    }
    assert Step(w1, Redeem(Rotated("u"))) == m by {
      assert w1.provider.current["a" := "u"] == map["a" := "u"];
      assert w1.provider.owner["u" := "a"] == map["t" := "a", "u" := "a"];
      assert w1.memory[0 := "u"] == map[0 := "u", 1 := "t"];
    }
    assert Step(m, Persist(true)) == w2 by {
      assert IndexOf(m.file, "a") == 0 && m.file[0 := WithToken(m.file[0], "u")] == w2.file;
    }
    RunsTwo(w1, Redeem(Rotated("u")), Persist(true));
  }

  lemma {:induction false} ExampleLeave(w2: World, w3: World)
    requires Shape(w2) && w2.lock == Held(0, Persisted("t", "u")) && w2.workers == map[0 := ("a", "c"), 1 := ("a", "c")]
    requires w2.cache == map[] && w3 == w2.(lock := Held(1, Entered), cache := map[("c", "u") := "a"])
    ensures Runs(w2, [Remember, Leave, Enter(1)], w3)
  {
    var m := w2.(cache := w3.cache, lock := Held(0, Leaving));
    assert Recached(w2.cache, "c", "t", "u", "a") == w3.cache;
    assert Step(w2, Remember) == m;
    assert Step(m, Leave) == m.(lock := Idle);
    assert [Remember, Leave, Enter(1)][1..] == [Leave, Enter(1)];
    assert [Leave, Enter(1)][1..] == [Enter(1)] && [Enter(1)][1..] == [];
  }
}
