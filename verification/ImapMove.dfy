/** The durable IMAP MOVE job (aggregator/src/one_mail_agg/mutation_jobs.py).

    A job is attempted once per lease, over a server that other clients use too, with any
    call able to fail and the MOVE able to commit although its reply was lost, even later.
    One attempt reads a `Script`: what other clients do before each call and how each call
    ends. */
module ImapMove {
  import opened Wrappers
  import opened CopyUid

  // ----- The server, as far as this job can tell -----

  /** `copies` are the target UIDs a search for the job's Message-ID finds; `moved` is the
      target UID the job's MOVE was given; `inFlight` counts MOVE commands whose connection
      broke and that the server may still execute; `ambiguous` records that the moved message
      was taken out of the target while another with its Message-ID stayed. */
  datatype Server = Server(
    targetValidity: nat,
    sourceHas: bool,
    copies: set<nat>,
    others: set<nat>,
    nextUid: nat,
    moved: Option<nat>,
    issued: bool,
    inFlight: nat,
    ambiguous: bool)

  /** What others, or a delayed MOVE, may do. Only this job's MOVE takes the source message
      away or adds its Message-ID to the target; any target message may be removed. */
  datatype Interference = LateMove | Deliver | Remove(uid: nat)

  function CommitMove(s: Server): Server {
    if s.sourceHas then
      s.(sourceHas := false, copies := s.copies + {s.nextUid}, moved := Some(s.nextUid), nextUid := s.nextUid + 1)
    else s
  }

  function Interfere(s: Server, e: Interference): Server {
    match e
    case LateMove => if s.inFlight > 0 then CommitMove(s).(inFlight := s.inFlight - 1) else s
    case Deliver => s.(others := s.others + {s.nextUid}, nextUid := s.nextUid + 1)
    case Remove(uid) =>
      s.(copies := s.copies - {uid}, others := s.others - {uid},
         ambiguous := s.ambiguous || (s.moved == Some(uid) && s.copies - {uid} != {}))
  }

  function InterfereAll(s: Server, es: seq<Interference>): Server {
    if es == [] then s else Interfere(InterfereAll(s, es[..|es| - 1]), es[|es| - 1])
  }

  // ----- One attempt -----

  /** How a client call ends. An uncaught fault is any exception outside the client library's
      own and OSError: a SELECT answered without UIDVALIDITY, text that cannot be encoded. */
  datatype CallEnd = Answered | TransportFault | ProtocolFault | UncaughtFault
  datatype Call = Call(before: seq<Interference>, end: CallEnd)

  /** How the MOVE command ends: executed and answered, refused, the connection broke before
      execution, after it, or with the command still queued, or the client raised something
      else before or after it. */
  datatype MoveEnd =
    | Executed(response: Option<string>)
    | Refused
    | LostUnexecuted
    | LostExecuted
    | LostQueued
    | Crashed(executed: bool)

  datatype Script = Script(
    login: Call,
    capabilities: Call, hasMove: bool, hasUidplus: bool,
    checkSelect: Call, checkSearch: Call,
    sourceSelect: Call, sourceValidity: nat, sourceSearch: Call,
    recoverSelect: Call, recoverSearch: Call,
    moveBefore: seq<Interference>, moveEnd: MoveEnd,
    verifySelect: Call, verifySearch: Call)

  datatype Job = Job(uid: nat, validity: nat, hasTarget: bool, hasMessageId: bool)

  /** The exceptions an attempt can end with; a queue worker turns them into a status. */
  datatype Problem = Unsupported | IdentityError | OutcomeUnknown | Transport | Protocol | ValueError | Uncaught

  /** A client call either answers, with the server as it then is, or raises. */
  datatype Step<+T> = Done(server: Server, value: T) | Stop(server: Server, problem: Problem)
  {
    predicate IsFailure() { Stop? }
    function PropagateFailure<U>(): Step<U> requires Stop? { Stop(server, problem) }
    function Extract(): (Server, T) requires Done? { (server, value) }
  }

  function Perform(s: Server, c: Call): Step<()> {
    var s' := InterfereAll(s, c.before);
    match c.end
    case Answered => Done(s', ())
    case TransportFault => Stop(s', Transport)
    case ProtocolFault => Stop(s', Protocol)
    case UncaughtFault => Stop(s', Uncaught)
  }

  /** Select the target and search it for the Message-ID. */
  function FindCopies(s: Server, select: Call, search: Call): Step<set<nat>> {
    var (s1, _) :- Perform(s, select);
    if s1.targetValidity == 0 then Stop(s1, IdentityError)
    else
      var (s2, _) :- Perform(s1, search);
      if 0 in s2.copies then Stop(s2, IdentityError) else Done(s2, s2.copies)
  }

  /** `_imap_recover_moved_message`: exactly one target message with the Message-ID. */
  function Recover(s: Server, sc: Script): Step<(nat, nat)> {
    var (s1, matches) :- FindCopies(s, sc.recoverSelect, sc.recoverSearch);
    if |matches| != 1 then Stop(s1, IdentityError)
    else
      var uid := TheOnly(matches);
      Done(s1, (s1.targetValidity, uid))
  }

  function TheOnly(s: set<nat>): (x: nat)
    requires |s| == 1
    ensures s == {x}
  {
    SingletonUnique(s);
    var x :| x in s;
    x
  }

  lemma {:induction false} SingletonUnique(s: set<nat>)
    requires |s| == 1
    ensures exists x :: x in s
    ensures forall x, y | x in s && y in s :: x == y
  {
    var x :| x in s;
    assert |s - {x}| == 0;
  }

  /** What the guarded blocks catch: `(MutationIdentityError, IMAPClientError, OSError)`. */
  predicate Expected(p: Problem) { p.IdentityError? || p.Transport? || p.Protocol? }

  /** Inside the guarded blocks expected problems become "unknown". */
  function Guarded<T>(r: Step<T>): Step<T> {
    if r.Stop? && Expected(r.problem) then Stop(r.server, OutcomeUnknown) else r
  }

  /** A COPYUID code is truthful when it names where the message went. */
  predicate Truthful(s: Server, uid: nat, response: Option<string>) {
    Parse(response, uid).Mapped? ==>
      s.moved.Some? && Parse(response, uid) == Mapped(s.targetValidity, s.moved.value)
  }

  /** A server gives no untruthful code: it then gives none. */
  function CodeFrom(s: Server, uid: nat, response: Option<string>): (code: Option<string>)
    ensures Truthful(s, uid, code)
  {
    if Truthful(s, uid, response) then response else None
  }

  /** The MOVE command. */
  function Move(s: Server, job: Job, sc: Script): Step<Option<string>> {
    var s1 := InterfereAll(s, sc.moveBefore).(issued := true);
    match sc.moveEnd
    case Executed(response) =>
      var s2 := CommitMove(s1);
      Done(s2, CodeFrom(s2, job.uid, response))
    case Refused => Stop(s1, Protocol)
    case LostUnexecuted => Stop(s1, Transport)
    case LostExecuted => Stop(CommitMove(s1), Transport)
    case LostQueued => Stop(s1.(inFlight := s1.inFlight + 1), Transport)
    case Crashed(executed) => Stop(if executed then CommitMove(s1) else s1, Uncaught)
  }

  /** After an answered MOVE: the mapped UID, checked, or recovery by Message-ID. */
  function Locate(s: Server, job: Job, sc: Script, response: Option<string>): Step<(nat, nat)> {
    LocateBy(s, sc, Parse(response, job.uid))
  }

  function LocateBy(s: Server, sc: Script, mapping: Mapping): Step<(nat, nat)> {
    match mapping
    case Absent => Recover(s, sc)
    case Raised(IdentityFault) => Stop(s, IdentityError)
    case Raised(ValueFault) => Stop(s, ValueError)
    case Mapped(v, u) =>
      var (s1, _) :- Perform(s, sc.verifySelect);
      if s1.targetValidity != v then Stop(s1, IdentityError)
      else
        var (s2, _) :- Perform(s1, sc.verifySearch);
        if u !in s2.copies + s2.others then Stop(s2, IdentityError) else Done(s2, (v, u))
  }

  /** From login to the search for the source UID: the UID's presence, or the exception. */
  function Prelude(s: Server, job: Job, attempts: nat, sc: Script): Step<bool> {
    var (s1, _) :- Perform(s, sc.login);
    if !job.hasTarget || !job.hasMessageId then Stop(s1, IdentityError)
    else
      var (s2, _) :- Perform(s1, sc.capabilities);
      if !sc.hasMove || !sc.hasUidplus then Stop(s2, Unsupported)
      else
        var (s3, _) :- CheckTarget(s2, attempts, sc);
        var (s4, _) :- Perform(s3, sc.sourceSelect);
        if sc.sourceValidity != job.validity then
          Stop(s4, if attempts > 1 then OutcomeUnknown else IdentityError)
        else
          var (s5, _) :- Perform(s4, sc.sourceSearch);
          Done(s5, s5.sourceHas)
  }

  /** Move the source message, or find where an earlier attempt moved it. */
  function Finish(s: Server, job: Job, attempts: nat, sc: Script): Step<(nat, nat)> {
    if !s.sourceHas then
      if attempts > 1 then Guarded(Recover(s, sc)) else Stop(s, IdentityError)
    else
      var (s1, response) :- Guarded(Move(s, job, sc));
      Guarded(Locate(s1, job, sc, response))
  }

  /** The move branch of `_apply_imap_mutation`, from login on. */
  function Attempt(s: Server, job: Job, attempts: nat, sc: Script): Step<(nat, nat)> {
    var (s1, _) :- Prelude(s, job, attempts, sc);
    Finish(s1, job, attempts, sc)
  }

  /** Before a first MOVE the target must not hold the Message-ID yet. */
  function CheckTarget(s: Server, attempts: nat, sc: Script): Step<()> {
    if attempts == 1 then
      var (s1, matches) :- FindCopies(s, sc.checkSelect, sc.checkSearch);
      if matches != {} then Stop(s1, IdentityError) else Done(s1, ())
    else Done(s, ())
  }

  // ----- The status reported to the queue -----

  datatype Status = Succeeded | Failed | Retry(afterMs: nat) | NotSupported

  function Backoff(attempts: nat): nat {
    if attempts == 0 then 5_000
    else
      var doubled := 5_000 * Pow2(attempts - 1);
      if doubled < 300_000 then doubled else 300_000
  }

  function Pow2(n: nat): (p: nat)
    ensures p > 0
  {
    if n == 0 then 1 else 2 * Pow2(n - 1)
  }

  /** `_retryable` and the except clauses around `execute_mutation`. */
  function StatusOf<T>(r: Step<T>, attempts: nat): Status {
    if r.Done? then Succeeded
    else
      match r.problem
      case Unsupported => NotSupported
      case IdentityError => Failed
      case OutcomeUnknown => Retry(Backoff(attempts))
      case Transport => Retry(Backoff(attempts))
      case Protocol => Failed
      case ValueError => Failed
      case Uncaught => Failed
  }

  /** Retries wait between five seconds and five minutes, never less than the time before. */
  lemma {:induction false} BackoffGrows(a: nat, b: nat)
    requires 1 <= a <= b
    ensures 5_000 <= Backoff(a) <= Backoff(b) <= 300_000
    decreases b
  {
    Pow2Grows(a - 1, b - 1);
  }

  lemma {:induction false} Pow2Grows(a: nat, b: nat)
    requires a <= b
    ensures Pow2(a) <= Pow2(b)
    decreases b
  {
    if a < b {
      Pow2Grows(a, b - 1);
    }
  }

  // ----- The client object, step by step -----

  class ImapClient {
    var server: Server

    constructor (s: Server)
      ensures server == s
    {
      server := s;
    }

    /** One client call: others act first, then it answers or raises. */
    method Roundtrip(c: Call) returns (problem: Option<Problem>)
      modifies this
      ensures server == Perform(old(server), c).server
      ensures problem == if Perform(old(server), c).Done? then None else Some(Perform(old(server), c).problem)
    {
      server := InterfereAll(server, c.before);
      match c.end
      case Answered => problem := None;
      case TransportFault => problem := Some(Transport);
      case ProtocolFault => problem := Some(Protocol);
      case UncaughtFault => problem := Some(Uncaught);
    }

    method TargetMatches(select: Call, search: Call) returns (problem: Option<Problem>, matches: set<nat>)
      modifies this
      ensures var r := FindCopies(old(server), select, search);
              server == r.server && (problem == if r.Done? then None else Some(r.problem))
              && (r.Done? ==> matches == r.value)
    {
      matches := {};
      problem := Roundtrip(select);
      if problem.Some? {
        return;
      }
      if server.targetValidity == 0 {
        problem := Some(IdentityError);
        return;
      }
      problem := Roundtrip(search);
      if problem.Some? {
        return;
      }
      matches := server.copies;
      if 0 in matches {
        problem := Some(IdentityError);
      }
    }

    method RecoverMoved(sc: Script) returns (problem: Option<Problem>, place: (nat, nat))
      modifies this
      ensures var r := Recover(old(server), sc);
              server == r.server && (problem == if r.Done? then None else Some(r.problem))
              && (r.Done? ==> place == r.value)
    {
      place := (0, 0);
      var matches: set<nat>;
      problem, matches := TargetMatches(sc.recoverSelect, sc.recoverSearch);
      if problem.Some? {
        return;
      }
      if |matches| != 1 {
        problem := Some(IdentityError);
        return;
      }
      place := (server.targetValidity, TheOnly(matches));
    }

    method IssueMove(job: Job, sc: Script) returns (problem: Option<Problem>, response: Option<string>)
      modifies this
      ensures var r := Move(old(server), job, sc);
              server == r.server && (problem == if r.Done? then None else Some(r.problem))
              && (r.Done? ==> response == r.value)
    {
      response := None;
      server := InterfereAll(server, sc.moveBefore).(issued := true);
      match sc.moveEnd
      case Executed(reply) =>
        server := CommitMove(server);
        problem := None;
        response := CodeFrom(server, job.uid, reply);
      case Refused =>
        problem := Some(Protocol);
      case LostUnexecuted =>
        problem := Some(Transport);
      case LostExecuted =>
        server := CommitMove(server);
        problem := Some(Transport);
      case LostQueued =>
        server := server.(inFlight := server.inFlight + 1);
        problem := Some(Transport);
      case Crashed(executed) =>
        server := if executed then CommitMove(server) else server;
        problem := Some(Uncaught);
    }

    method LocateMoved(job: Job, sc: Script, response: Option<string>)
      returns (problem: Option<Problem>, place: (nat, nat))
      modifies this
      ensures var r := Locate(old(server), job, sc, response);
              server == r.server && (problem == if r.Done? then None else Some(r.problem))
              && (r.Done? ==> place == r.value)
    {
      place := (0, 0);
      var mapping := Parse(response, job.uid);
      if mapping.Raised? {
        problem := Some(if mapping.fault.IdentityFault? then IdentityError else ValueError);
        return;
      }
      if mapping.Absent? {
        problem, place := RecoverMoved(sc);
        return;
      }
      problem := Roundtrip(sc.verifySelect);
      if problem.Some? {
        return;
      }
      if server.targetValidity != mapping.uidvalidity {
        problem := Some(IdentityError);
        return;
      }
      problem := Roundtrip(sc.verifySearch);
      if problem.Some? {
        return;
      }
      if mapping.uid !in server.copies + server.others {
        problem := Some(IdentityError);
        return;
      }
      place := (mapping.uidvalidity, mapping.uid);
    }

    method FindSource(job: Job, attempts: nat, sc: Script) returns (problem: Option<Problem>, present: bool)
      modifies this
      ensures var r := Prelude(old(server), job, attempts, sc);
              server == r.server && (problem == if r.Done? then None else Some(r.problem))
              && (r.Done? ==> present == r.value)
    {
      present := false;
      problem := Roundtrip(sc.login);
      if problem.Some? {
        return;
      }
      if !job.hasTarget || !job.hasMessageId {
        problem := Some(IdentityError);
        return;
      }
      problem := Roundtrip(sc.capabilities);
      if problem.Some? {
        return;
      }
      if !sc.hasMove || !sc.hasUidplus {
        problem := Some(Unsupported);
        return;
      }
      if attempts == 1 {
        var matches: set<nat>;
        problem, matches := TargetMatches(sc.checkSelect, sc.checkSearch);
        if problem.Some? {
          return;
        }
        if matches != {} {
          problem := Some(IdentityError);
          return;
        }
      }
      problem := Roundtrip(sc.sourceSelect);
      if problem.Some? {
        return;
      }
      if sc.sourceValidity != job.validity {
        problem := Some(if attempts > 1 then OutcomeUnknown else IdentityError);
        return;
      }
      problem := Roundtrip(sc.sourceSearch);
      present := server.sourceHas;
    }

    /** The whole move branch: same calls, same order, same exceptions as `Attempt`. */
    method ApplyMove(job: Job, attempts: nat, sc: Script) returns (problem: Option<Problem>, place: (nat, nat))
      modifies this
      ensures var r := Attempt(old(server), job, attempts, sc);
              server == r.server && (problem == if r.Done? then None else Some(r.problem))
              && (r.Done? ==> place == r.value)
    {
      place := (0, 0);
      var present: bool;
      problem, present := FindSource(job, attempts, sc);
      if problem.None? {
        problem, place := FinishMove(job, attempts, sc, present);
      }
    }

    /** A later lease whose source message is away looks for where it went. */
    method RecoverLater(attempts: nat, sc: Script) returns (problem: Option<Problem>, place: (nat, nat))
      modifies this
      ensures var r := if attempts > 1 then Guarded(Recover(old(server), sc)) else Stop(old(server), IdentityError);
              server == r.server && (problem == if r.Done? then None else Some(r.problem))
              && (r.Done? ==> place == r.value)
    {
      place := (0, 0);
      if attempts > 1 {
        problem, place := RecoverMoved(sc);
        if problem.Some? && Expected(problem.value) {
          problem := Some(OutcomeUnknown);
        }
      } else {
        problem := Some(IdentityError);
      }
    }

    method LocateGuarded(job: Job, sc: Script, response: Option<string>)
      returns (problem: Option<Problem>, place: (nat, nat))
      modifies this
      ensures var r := Guarded(Locate(old(server), job, sc, response));
              server == r.server && (problem == if r.Done? then None else Some(r.problem))
              && (r.Done? ==> place == r.value)
    {
      problem, place := LocateMoved(job, sc, response);
      if problem.Some? && Expected(problem.value) {
        problem := Some(OutcomeUnknown);
      }
    }

    method FinishMove(job: Job, attempts: nat, sc: Script, present: bool)
      returns (problem: Option<Problem>, place: (nat, nat))
      requires present == server.sourceHas
      modifies this
      ensures var r := Finish(old(server), job, attempts, sc);
              server == r.server && (problem == if r.Done? then None else Some(r.problem))
              && (r.Done? ==> place == r.value)
    {
      place := (0, 0);
      if !present {
        problem, place := RecoverLater(attempts, sc);
        return;
      }
      var response: Option<string>;
      problem, response := IssueMove(job, sc);
      if problem.Some? {
        if Expected(problem.value) {
          problem := Some(OutcomeUnknown);
        }
        return;
      }
      problem, place := LocateGuarded(job, sc, response);
    }
  }
}
