/** One drain of the mutation queues (aggregator/src/one_mail_agg/mutation_jobs.py): every
    destination's claimed jobs are executed and reported, whatever fails on the way. */
module MutationQueue {
  import opened Wrappers
  import opened ImapMove

  datatype QueuedJob = QueuedJob(id: string, account: string)

  /** Where the credentials of an account come from. */
  datatype Account = Local | Fetched

  /** What the calls of one drain return, by the place in the destination list they are made for:
      the claimed jobs, the account list, the status a job earns when it is executed, and the
      reports that do not arrive. A claim or a list without an entry raises; an execution without
      one succeeds. */
  datatype World = World(
    claims: map<nat, seq<QueuedJob>>,
    lists: map<nat, set<string>>,
    statuses: map<(nat, nat, Account), Status>,
    lost: set<(nat, nat)>)
  {
    function Execute(queue: nat, place: nat, account: Account): Status {
      if (queue, place, account) in statuses then statuses[(queue, place, account)] else Succeeded
    }

    function Jobs(queue: nat): seq<QueuedJob> { if queue in claims then claims[queue] else [] }
  }

  /** One job, the status reported for it, and whether the report arrived. */
  datatype Entry = Entry(queue: nat, place: nat, job: QueuedJob, status: Status, arrived: bool)

  datatype Counters = Counters(claimed: nat, succeeded: nat, failed: nat, retried: nat, unsupported: nat)

  const ACCOUNT_RETRY_MS: nat := 5_000

  function Counted(c: Counters, s: Status): Counters {
    match s
    case Succeeded => c.(succeeded := c.succeeded + 1)
    case Failed => c.(failed := c.failed + 1)
    case Retry(_) => c.(retried := c.retried + 1)
    case NotSupported => c.(unsupported := c.unsupported + 1)
  }

  // ----- What a drain does -----

  /** The account list that the first `n` queues have fetched. */
  function List(local: set<string>, w: World, n: nat): Option<set<string>> {
    if n == 0 then None
    else if List(local, w, n - 1).Some? then List(local, w, n - 1)
    else if Lacks(local, w, n - 1) && n - 1 in w.lists then Some(w.lists[n - 1])
    else None
  }

  /** Some job of the queue is for an account without local credentials. */
  predicate Lacks(local: set<string>, w: World, queue: nat) {
    exists j | 0 <= j < |w.Jobs(queue)| :: w.Jobs(queue)[j].account !in local
  }

  /** The list is asked for at this queue: it is needed and nobody has it yet. */
  predicate Asks(local: set<string>, w: World, queue: nat) {
    List(local, w, queue).None? && Lacks(local, w, queue)
  }

  /** The status a job ends with: executed with local credentials where there are any, else with
      fetched ones; failed when the list does not name its account, retried when there is no list. */
  function StatusOf(local: set<string>, w: World, queue: nat, j: nat): Status
    requires j < |w.Jobs(queue)|
  {
    var account, list := w.Jobs(queue)[j].account, List(local, w, queue + 1);
    if account in local then w.Execute(queue, j, Local)
    else if list.None? then Retry(ACCOUNT_RETRY_MS)
    else if account in list.value then w.Execute(queue, j, Fetched)
    else Failed
  }

  function EntryOf(local: set<string>, w: World, queue: nat, j: nat): Entry
    requires j < |w.Jobs(queue)|
  {
    Entry(queue, j, w.Jobs(queue)[j], StatusOf(local, w, queue, j), (queue, j) !in w.lost)
  }

  /** The first `n` jobs of a queue. */
  function Entries(local: set<string>, w: World, queue: nat, n: nat): seq<Entry>
    requires n <= |w.Jobs(queue)|
  {
    if n == 0 then [] else Entries(local, w, queue, n - 1) + [EntryOf(local, w, queue, n - 1)]
  }

  /** All jobs of the first `n` queues. */
  function Log(local: set<string>, w: World, n: nat): seq<Entry> {
    if n == 0 then [] else Log(local, w, n - 1) + Entries(local, w, n - 1, |w.Jobs(n - 1)|)
  }

  /** The queues at which the account list is asked for. */
  function Asked(local: set<string>, w: World, n: nat): seq<nat> {
    if n == 0 then [] else if Asks(local, w, n - 1) then Asked(local, w, n - 1) + [n - 1] else Asked(local, w, n - 1)
  }

  /** The counters that a list of entries comes to, each arrived report counted once. */
  function Tally(log: seq<Entry>): Counters {
    if log == [] then Counters(0, 0, 0, 0, 0)
    else
      var rest, e := Tally(log[..|log| - 1]), log[|log| - 1];
      var c := rest.(claimed := rest.claimed + 1);
      if e.arrived then Counted(c, e.status) else c
  }

  function Lost(log: seq<Entry>): nat {
    if log == [] then 0 else Lost(log[..|log| - 1]) + if log[|log| - 1].arrived then 0 else 1
  }

  /** No claim, no fetch that was made and no report failed. */
  ghost predicate Clean(local: set<string>, w: World, n: nat) {
    (forall q: nat | q < n :: CallsSucceed(local, w, q)) && Lost(Log(local, w, n)) == 0
  }

  predicate CallsSucceed(local: set<string>, w: World, queue: nat) {
    queue in w.claims && (Asks(local, w, queue) ==> queue in w.lists)
  }

  // ----- What that means -----

  /** No claimed job is lost or counted twice: each has its outcome counted or its report lost. */
  lemma {:induction false} TallyConserves(log: seq<Entry>)
    ensures var c := Tally(log);
            c.claimed == |log| == c.succeeded + c.failed + c.retried + c.unsupported + Lost(log)
  {
    if log != [] {
      TallyConserves(log[..|log| - 1]);
    }
  }

  function Claimed(w: World, n: nat): seq<QueuedJob> {
    if n == 0 then [] else Claimed(w, n - 1) + w.Jobs(n - 1)
  }

  function JobsOf(log: seq<Entry>): seq<QueuedJob> { seq(|log|, i requires 0 <= i < |log| => log[i].job) }

  lemma {:induction false} EntriesOfQueue(local: set<string>, w: World, queue: nat, n: nat)
    requires n <= |w.Jobs(queue)|
    ensures JobsOf(Entries(local, w, queue, n)) == w.Jobs(queue)[..n]
  {
    if n > 0 {
      EntriesOfQueue(local, w, queue, n - 1);
      JobsJoin(Entries(local, w, queue, n - 1), [EntryOf(local, w, queue, n - 1)]);
    }
  }

  lemma {:induction false} JobsJoin(a: seq<Entry>, b: seq<Entry>)
    ensures JobsOf(a + b) == JobsOf(a) + JobsOf(b)
  {
  }

  /** Whatever fails, every claimed job of every queue is executed or answered, once and in order. */
  lemma {:induction false} EveryJobAnswered(local: set<string>, w: World, n: nat)
    ensures JobsOf(Log(local, w, n)) == Claimed(w, n)
  {
    if n > 0 {
      EveryJobAnswered(local, w, n - 1);
      EntriesOfQueue(local, w, n - 1, |w.Jobs(n - 1)|);
      JobsJoin(Log(local, w, n - 1), Entries(local, w, n - 1, |w.Jobs(n - 1)|));
    }
  }

  /** The list is fetched with success at most once, and it is that one answer every later job
      is judged by. */
  lemma {:induction false} ListIsFetchedOnce(local: set<string>, w: World, n: nat)
    ensures forall p: nat, q: nat | p < q < n && Asks(local, w, p) && p in w.lists :: !Asks(local, w, q)
    ensures List(local, w, n).Some?
            <==> exists p: nat :: p < n && Asks(local, w, p) && p in w.lists && List(local, w, n) == Some(w.lists[p])
  {
    if n > 0 {
      ListIsFetchedOnce(local, w, n - 1);
      forall p: nat | p < n && Asks(local, w, p) && p in w.lists
        ensures List(local, w, n).Some? && (p < n - 1 ==> !Asks(local, w, n - 1))
      {
        ListStays(local, w, p + 1, n);
        if p < n - 1 {
          ListStays(local, w, p + 1, n - 1);
        }
      }
      if List(local, w, n).Some? && List(local, w, n - 1).None? {
        assert Asks(local, w, n - 1);
      }
    }
  }

  lemma {:induction false} ListStays(local: set<string>, w: World, m: nat, n: nat)
    requires m <= n && List(local, w, m).Some?
    ensures List(local, w, n) == List(local, w, m)
  {
    if m < n {
      ListStays(local, w, m, n - 1);
    }
  }

  /** A job is failed unexecuted only on an account list fetched in this drain that lacks its
      account, and left for a retry only while every fetch so far has failed, this queue's too. */
  lemma {:induction false} UnexecutedExactlyWhen(local: set<string>, w: World, queue: nat, j: nat)
    requires j < |w.Jobs(queue)| && w.Jobs(queue)[j].account !in local
    ensures var account := w.Jobs(queue)[j].account;
            var found := exists p: nat :: p <= queue && Asks(local, w, p) && p in w.lists && account in w.lists[p];
            var absent := exists p: nat :: p <= queue && Asks(local, w, p) && p in w.lists && account !in w.lists[p];
            && (found ==> StatusOf(local, w, queue, j) == w.Execute(queue, j, Fetched))
            && (absent ==> StatusOf(local, w, queue, j) == Failed)
            && (!found && !absent ==> StatusOf(local, w, queue, j) == Retry(ACCOUNT_RETRY_MS))
            && !(found && absent)
            && (!found && !absent ==> Asks(local, w, queue) && queue !in w.lists)
  {
    ListIsFetchedOnce(local, w, queue + 1);
    assert Lacks(local, w, queue);
    forall p: nat | p <= queue && Asks(local, w, p) && p in w.lists
      ensures List(local, w, queue + 1) == Some(w.lists[p])
    {
      ListStays(local, w, p + 1, queue + 1);
    }
    if List(local, w, queue + 1).None? {
      assert List(local, w, queue).None? && Asks(local, w, queue);
    }
  }

  // ----- In terms of what the calls returned -----

  /** A fetch of the account list succeeds at this queue, if it gets to it without one. */
  predicate Serves(local: set<string>, w: World, p: nat) { Lacks(local, w, p) && p in w.lists }

  /** This queue is the first with such a fetch. */
  ghost predicate ServesFirst(local: set<string>, w: World, p: nat) {
    Serves(local, w, p) && forall q: nat | q < p :: !Serves(local, w, q)
  }

  lemma {:induction false} ListExactly(local: set<string>, w: World, n: nat)
    ensures if List(local, w, n).None? then forall p: nat | p < n :: !Serves(local, w, p)
            else exists p: nat :: p < n && ServesFirst(local, w, p) && List(local, w, n) == Some(w.lists[p])
  {
    if n > 0 {
      ListExactly(local, w, n - 1);
      if List(local, w, n - 1).None? && Serves(local, w, n - 1) {
        assert ServesFirst(local, w, n - 1);
      }
    }
  }

  /** The list is asked for at the queues that need it, up to the first that gets it. */
  lemma {:induction false} AskedExactly(local: set<string>, w: World, n: nat)
    ensures forall q: nat ::
              q in Asked(local, w, n) <==> q < n && Lacks(local, w, q) && forall p: nat | p < q :: !Serves(local, w, p)
  {
    if n > 0 {
      AskedExactly(local, w, n - 1);
      ListExactly(local, w, n - 1);
    }
  }

  /** What becomes of one job: with local credentials it is executed with those; without, the first
      list fetched up to its queue decides, and where none was it is to be retried in five seconds. */
  ghost predicate Earns(local: set<string>, w: World, e: Entry) {
    e.queue in w.claims && e.place < |w.claims[e.queue]|
    && e.job == w.claims[e.queue][e.place] && (e.arrived <==> (e.queue, e.place) !in w.lost)
    && if e.job.account in local then e.status == w.Execute(e.queue, e.place, Local)
       else if forall p: nat | p <= e.queue :: !Serves(local, w, p) then e.status == Retry(5 * 1000)
       else
         exists p: nat :: p <= e.queue && ServesFirst(local, w, p)
           && e.status == if e.job.account in w.lists[p] then w.Execute(e.queue, e.place, Fetched) else Failed
  }

  lemma {:induction false} EntryEarns(local: set<string>, w: World, queue: nat, j: nat)
    requires j < |w.Jobs(queue)|
    ensures Earns(local, w, EntryOf(local, w, queue, j))
  {
    ListExactly(local, w, queue + 1);
  }

  lemma {:induction false} EntriesAre(local: set<string>, w: World, queue: nat, n: nat)
    requires n <= |w.Jobs(queue)|
    ensures |Entries(local, w, queue, n)| == n
    ensures forall j | 0 <= j < n :: Entries(local, w, queue, n)[j] == EntryOf(local, w, queue, j)
  {
    if n > 0 {
      EntriesAre(local, w, queue, n - 1);
    }
  }

  /** Every entry of a drain is what its job earns, whichever queue it is in. */
  lemma {:induction false} EveryEntryEarned(local: set<string>, w: World, n: nat)
    ensures forall i | 0 <= i < |Log(local, w, n)| ::
              Log(local, w, n)[i].queue < n && Earns(local, w, Log(local, w, n)[i])
  {
    if n > 0 {
      EveryEntryEarned(local, w, n - 1);
      var q := n - 1;
      EntriesAre(local, w, q, |w.Jobs(q)|);
      forall j | 0 <= j < |w.Jobs(q)|
        ensures Earns(local, w, EntryOf(local, w, q, j))
      {
        EntryEarns(local, w, q, j);
      }
    }
  }

  /** How many arrived reports of the log satisfy `p`. */
  function CountIf(p: Status -> bool, log: seq<Entry>): nat {
    if log == [] then 0
    else
      var e := log[|log| - 1];
      CountIf(p, log[..|log| - 1]) + if e.arrived && p(e.status) then 1 else 0
  }

  /** Each counter counts the arrived reports of its status. */
  lemma {:induction false} TallyExactly(log: seq<Entry>)
    ensures var c := Tally(log);
            && c.claimed == |log|
            && c.succeeded == CountIf((s: Status) => s.Succeeded?, log)
            && c.failed == CountIf((s: Status) => s.Failed?, log)
            && c.retried == CountIf((s: Status) => s.Retry?, log)
            && c.unsupported == CountIf((s: Status) => s.NotSupported?, log)
  {
    if log != [] {
      TallyExactly(log[..|log| - 1]);
    }
  }

  /** The claim of this queue answered, its list did if it was needed and not there yet, and none
      of its reports was lost. */
  ghost predicate CleanAt(local: set<string>, w: World, q: nat) {
    && q in w.claims
    && (Lacks(local, w, q) && (forall p: nat | p < q :: !Serves(local, w, p)) ==> q in w.lists)
    && NoneLost(w, q, |w.claims[q]|)
  }

  predicate NoneLost(w: World, q: nat, n: nat) { forall j: nat | j < n :: (q, j) !in w.lost }

  /** A drain is clean exactly when it is at every queue. */
  lemma {:induction false} CleanExactlyWhen(local: set<string>, w: World, n: nat)
    ensures Clean(local, w, n) <==> forall q: nat | q < n :: CleanAt(local, w, q)
  {
    LostExactly(local, w, n);
    forall q: nat | q < n
      ensures CleanAt(local, w, q) <==>
                CallsSucceed(local, w, q) && NoneLost(w, q, |w.Jobs(q)|)
    {
      ListExactly(local, w, q);
    }
  }

  lemma {:induction false} LostExactly(local: set<string>, w: World, n: nat)
    ensures Lost(Log(local, w, n)) == 0 <==> forall q: nat | q < n :: NoneLost(w, q, |w.Jobs(q)|)
  {
    if n > 0 {
      LostExactly(local, w, n - 1);
      LostOfQueue(local, w, n - 1, |w.Jobs(n - 1)|);
      LostJoin(Log(local, w, n - 1), Entries(local, w, n - 1, |w.Jobs(n - 1)|));
    }
  }

  lemma {:induction false} LostJoin(a: seq<Entry>, b: seq<Entry>)
    ensures Lost(a + b) == Lost(a) + Lost(b)
  {
    if b == [] {
      assert a + b == a;
    } else {
      LostJoin(a, b[..|b| - 1]);
      assert (a + b)[..|a + b| - 1] == a + b[..|b| - 1];
    }
  }

  lemma {:induction false} LostOfQueue(local: set<string>, w: World, queue: nat, n: nat)
    requires n <= |w.Jobs(queue)|
    ensures Lost(Entries(local, w, queue, n)) == 0 <==> NoneLost(w, queue, n)
  {
    if n > 0 {
      LostOfQueue(local, w, queue, n - 1);
    }
  }

  // ----- The code -----

  /** The account map: local entries are never replaced. */
  function Accounts(local: set<string>, list: Option<set<string>>): map<string, Account> {
    map a | a in local + (if list.Some? then list.value else {}) :: if a in local then Local else Fetched
  }

  /** The account fetch of one queue, where one is due. */
  method FetchAccounts(local: set<string>, w: World, queue: nat, before: map<string, Account>, fetchedBefore: bool)
    returns (accounts: map<string, Account>, fetched: bool, broken: bool, ghost asked: bool)
    requires before == Accounts(local, List(local, w, queue)) && fetchedBefore == List(local, w, queue).Some?
    ensures accounts == Accounts(local, List(local, w, queue + 1)) && fetched == List(local, w, queue + 1).Some?
    ensures asked <==> Asks(local, w, queue)
    ensures broken <==> asked && queue !in w.lists
  {
    accounts, fetched, broken, asked := before, fetchedBefore, false, false;
    var jobs := w.Jobs(queue);
    var missing := exists j | 0 <= j < |jobs| :: jobs[j].account !in accounts;
    assert !fetched ==> (missing <==> Lacks(local, w, queue));
    if missing && !fetched {
      asked := true;
      if queue !in w.lists {
        broken := true;
      } else {
        accounts := accounts + map a | a in w.lists[queue] && a !in accounts :: Fetched;
        fetched := true;
      }
    }
  }

  /** What one more entry does to the counters, `n` jobs having been claimed. */
  lemma {:induction false} EntryAdds(log: seq<Entry>, e: Entry, n: nat)
    ensures Lost(log + [e]) == Lost(log) + if e.arrived then 0 else 1
    ensures var c := Tally(log).(claimed := n);
            Tally(log + [e]).(claimed := n) == if e.arrived then Counted(c, e.status) else c
  {
    assert (log + [e])[..|log|] == log;
  }

  lemma {:induction false} NextEntry(local: set<string>, w: World, queue: nat, j: nat, before: seq<Entry>)
    requires j < |w.Jobs(queue)|
    ensures before + Entries(local, w, queue, j + 1)
            == (before + Entries(local, w, queue, j)) + [EntryOf(local, w, queue, j)]
  {
  }

  /** The jobs of one queue: execute, report, count. */
  method ProcessQueue(local: set<string>, w: World, queue: nat, accounts: map<string, Account>, broken: bool,
                      ghost before: seq<Entry>, start: Counters)
    returns (ghost log: seq<Entry>, counters: Counters, lost: nat)
    requires accounts == Accounts(local, List(local, w, queue + 1))
    requires broken <==> Asks(local, w, queue) && queue !in w.lists
    requires start == Tally(before).(claimed := Tally(before).claimed + |w.Jobs(queue)|)
    ensures var all := before + Entries(local, w, queue, |w.Jobs(queue)|);
            log == all && counters == Tally(all) && Lost(all) == Lost(before) + lost
  {
    var jobs := w.Jobs(queue);
    log, counters, lost := before, start, 0;
    for j := 0 to |jobs|
      invariant log == before + Entries(local, w, queue, j)
      invariant counters == Tally(log).(claimed := start.claimed)
      invariant Lost(log) == Lost(before) + lost
    {
      var status := ProcessJob(local, w, queue, j, accounts, broken);
      ghost var entry := EntryOf(local, w, queue, j);
      EntryAdds(log, entry, start.claimed);
      NextEntry(local, w, queue, j, before);
      log := log + [entry];
      if (queue, j) !in w.lost {
        counters := Counted(counters, status);
      } else {
        lost := lost + 1;
      }
    }
    TallyConserves(log);
    TallyConserves(before);
    EntriesOfQueue(local, w, queue, |jobs|);
  }

  method ProcessJob(local: set<string>, w: World, queue: nat, j: nat, accounts: map<string, Account>, broken: bool)
    returns (status: Status)
    requires j < |w.Jobs(queue)| && accounts == Accounts(local, List(local, w, queue + 1))
    requires broken <==> Asks(local, w, queue) && queue !in w.lists
    ensures status == StatusOf(local, w, queue, j)
  {
    var account := w.Jobs(queue)[j].account;
    if account !in accounts {
      assert Lacks(local, w, queue);
      status := if broken then Retry(ACCOUNT_RETRY_MS) else Failed;
    } else {
      status := w.Execute(queue, j, accounts[account]);
    }
  }

  /** One round of the outer loop, with the failures it records. */
  method ServiceQueue(local: set<string>, w: World, queue: nat, before: map<string, Account>, fetchedBefore: bool,
                      start: Counters, ghost logBefore: seq<Entry>)
    returns (accounts: map<string, Account>, fetched: bool, counters: Counters, failures: nat,
             ghost log: seq<Entry>, ghost asked: bool)
    requires before == Accounts(local, List(local, w, queue)) && fetchedBefore == List(local, w, queue).Some?
    requires start == Tally(logBefore)
    ensures accounts == Accounts(local, List(local, w, queue + 1)) && fetched == List(local, w, queue + 1).Some?
    ensures log == logBefore + Entries(local, w, queue, |w.Jobs(queue)|) && counters == Tally(log)
    ensures asked <==> Asks(local, w, queue)
    ensures Lost(log) >= Lost(logBefore)
    ensures failures == (if queue in w.claims then 0 else 1) + (if asked && queue !in w.lists then 1 else 0)
                        + Lost(log) - Lost(logBefore)
  {
    accounts, fetched, counters, failures, log, asked := before, fetchedBefore, start, 0, logBefore, false;
    if queue !in w.claims {
      failures := 1;
      return;
    }
    var jobs := w.claims[queue];
    if jobs == [] {
      return;
    }
    counters := counters.(claimed := counters.claimed + |jobs|);
    var broken, lost;
    accounts, fetched, broken, asked := FetchAccounts(local, w, queue, accounts, fetched);
    log, counters, lost := ProcessQueue(local, w, queue, accounts, broken, logBefore, counters);
    failures := lost + if broken then 1 else 0;
  }

  /** `process_mutation_jobs`: the drain returns normally when `failures` is 0, which is when every
      claim, every account fetch it made and every report went well, and otherwise raises with
      the same counters. */
  method ProcessMutationJobs(local: set<string>, queues: nat, w: World)
    returns (counters: Counters, failures: nat, ghost log: seq<Entry>, ghost asked: seq<nat>)
    ensures log == Log(local, w, queues) && asked == Asked(local, w, queues)
    ensures JobsOf(log) == Claimed(w, queues) && counters == Tally(Log(local, w, queues))
    ensures failures == 0 <==> Clean(local, w, queues)
  {
    counters, failures, log, asked := Counters(0, 0, 0, 0, 0), 0, [], [];
    var accounts: map<string, Account> := map a | a in local :: Local;
    var fetched := false;
    for q := 0 to queues
      invariant log == Log(local, w, q) && asked == Asked(local, w, q)
      invariant counters == Tally(log) && (failures == 0 <==> Clean(local, w, q))
      invariant accounts == Accounts(local, List(local, w, q)) && fetched == List(local, w, q).Some?
    {
      var more;
      ghost var asks;
      accounts, fetched, counters, more, log, asks := ServiceQueue(local, w, q, accounts, fetched, counters, log);
      DrainNext(local, w, q, failures, more);
      asked := if asks then asked + [q] else asked;
      failures := failures + more;
    }
    EveryJobAnswered(local, w, queues);
  }

  /** What `failures` says after one more queue. */
  lemma {:induction false} DrainNext(local: set<string>, w: World, q: nat, failures: nat, more: nat)
    requires failures == 0 <==> Clean(local, w, q)
    requires var log := Log(local, w, q) + Entries(local, w, q, |w.Jobs(q)|);
             && Lost(log) >= Lost(Log(local, w, q))
             && more == (if q in w.claims then 0 else 1) + (if Asks(local, w, q) && q !in w.lists then 1 else 0)
                        + Lost(log) - Lost(Log(local, w, q))
    ensures Log(local, w, q + 1) == Log(local, w, q) + Entries(local, w, q, |w.Jobs(q)|)
    ensures Asked(local, w, q + 1) == if Asks(local, w, q) then Asked(local, w, q) + [q] else Asked(local, w, q)
    ensures failures + more == 0 <==> Clean(local, w, q + 1)
  {
    CleanNext(local, w, q);
  }

  lemma {:induction false} CleanNext(local: set<string>, w: World, q: nat)
    requires Lost(Log(local, w, q + 1)) >= Lost(Log(local, w, q))
    ensures Clean(local, w, q + 1)
            <==> Clean(local, w, q) && CallsSucceed(local, w, q) && Lost(Log(local, w, q + 1)) == Lost(Log(local, w, q))
  {
    assert (forall p: nat | p < q + 1 :: CallsSucceed(local, w, p))
           <==> (forall p: nat | p < q :: CallsSucceed(local, w, p)) && CallsSucceed(local, w, q);
  }
}
