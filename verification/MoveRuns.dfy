/** What every run of a durable IMAP MOVE job keeps, over any number of leases: what a success
    names, when a job is given up, and when a success can name the wrong message
    (aggregator/src/one_mail_agg/mutation_jobs.py). */
module MoveRuns {
  import opened Wrappers
  import opened Text
  import opened CopyUid
  import opened CopyUidFaults
  import opened ImapMove

  // ----- What every run keeps -----

  /** The source message is away exactly when the MOVE committed; its copy is then in the target,
      or no message with its Message-ID is, or the state is ambiguous: the moved message was
      taken away while another with its Message-ID stayed. */
  ghost predicate Inv(s: Server) {
    && (forall u | u in s.copies || u in s.others :: u < s.nextUid)
    && (s.moved.None? <==> s.sourceHas)
    && (s.moved.Some? ==> s.moved.value < s.nextUid && (s.moved.value in s.copies || s.copies == {} || s.ambiguous))
    && (s.moved.Some? ==> s.moved.value !in s.others)
    && (s.ambiguous ==> s.moved.Some? && s.moved.value !in s.copies)
    && (s.moved.Some? || s.inFlight > 0 ==> s.issued)
  }

  /** UIDs and UIDVALIDITY are positive, as on every server that keeps to the protocol. */
  ghost predicate Numbered(s: Server) { s.targetValidity > 0 && s.nextUid > 0 && 0 !in s.copies }

  /** What may happen to the server between two moments of a run. */
  ghost predicate Later(s: Server, s': Server) {
    && s'.targetValidity == s.targetValidity
    && (s.moved.Some? ==> s'.moved == s.moved)
    && (s.issued ==> s'.issued)
    && (s.ambiguous ==> s'.ambiguous)
  }

  lemma {:induction false} InterfereKeeps(s: Server, e: Interference)
    requires Inv(s)
    ensures Inv(Interfere(s, e)) && Later(s, Interfere(s, e))
  {
  }

  lemma {:induction false} InterfereAllKeeps(s: Server, es: seq<Interference>)
    requires Inv(s)
    ensures Inv(InterfereAll(s, es)) && Later(s, InterfereAll(s, es))
  {
    if es != [] {
      InterfereAllKeeps(s, es[..|es| - 1]);
      InterfereKeeps(InterfereAll(s, es[..|es| - 1]), es[|es| - 1]);
    }
  }

  lemma {:induction false} PerformKeeps(s: Server, c: Call)
    requires Inv(s)
    ensures Inv(Perform(s, c).server) && Later(s, Perform(s, c).server)
  {
    InterfereAllKeeps(s, c.before);
  }

  lemma {:induction false} FindCopiesKeeps(s: Server, select: Call, search: Call)
    requires Inv(s)
    ensures var r := FindCopies(s, select, search);
            Inv(r.server) && Later(s, r.server) && (r.Done? ==> r.value == r.server.copies)
  {
    PerformKeeps(s, select);
    PerformKeeps(Perform(s, select).server, search);
  }

  /** A success names a message that is in the target under the job's Message-ID at that
      moment; it is the moved one exactly when the state is not ambiguous. */
  ghost predicate Sound(r: Step<(nat, nat)>) {
    r.Done? ==>
      && r.server.moved.Some? && r.value.0 == r.server.targetValidity && r.value.1 in r.server.copies
      && (r.value.1 == r.server.moved.value <==> !r.server.ambiguous)
  }

  /** Recovery by Message-ID after a committed MOVE names a target message, and the moved one
      unless it was taken away while another stayed. */
  lemma {:induction false} RecoverSound(s: Server, sc: Script)
    requires Inv(s) && s.moved.Some?
    ensures var r := Recover(s, sc); Inv(r.server) && Later(s, r.server) && Sound(r)
  {
    FindCopiesKeeps(s, sc.recoverSelect, sc.recoverSearch);
  }

  lemma {:induction false} LaterTwice(a: Server, b: Server, c: Server)
    requires Later(a, b) && Later(b, c)
    ensures Later(a, c)
  {
  }

  lemma {:induction false} CommitKeeps(s: Server)
    requires Inv(s) && s.issued
    ensures Inv(CommitMove(s)) && Later(s, CommitMove(s)) && CommitMove(s).moved.Some?
  {
  }

  lemma {:induction false} MoveKeeps(s: Server, job: Job, sc: Script)
    requires Inv(s)
    ensures var r := Move(s, job, sc);
            Inv(r.server) && Later(s, r.server) && r.server.issued
            && (r.Done? ==> r.server.moved.Some? && Truthful(r.server, job.uid, r.value))
  {
    InterfereAllKeeps(s, sc.moveBefore);
    var s1 := InterfereAll(s, sc.moveBefore).(issued := true);
    CommitKeeps(s1);
    LaterTwice(s, s1, CommitMove(s1));
    MoveEndsIn(s, job, sc, s1);
  }

  lemma {:induction false} MoveEndsIn(s: Server, job: Job, sc: Script, s1: Server)
    requires s1 == InterfereAll(s, sc.moveBefore).(issued := true)
    ensures var r := Move(s, job, sc);
            && (r.server == s1 || r.server == CommitMove(s1) || r.server == s1.(inFlight := s1.inFlight + 1))
            && (r.Done? ==> r.server == CommitMove(s1) && Truthful(r.server, job.uid, r.value))
  {
  }

  lemma {:induction false} LocateSound(s: Server, sc: Script, mapping: Mapping)
    requires Inv(s) && s.moved.Some?
    requires mapping.Mapped? ==> mapping == Mapped(s.targetValidity, s.moved.value)
    ensures var r := LocateBy(s, sc, mapping); Inv(r.server) && Later(s, r.server) && Sound(r)
  {
    if mapping.Absent? {
      RecoverSound(s, sc);
    } else {
      PerformKeeps(s, sc.verifySelect);
      PerformKeeps(Perform(s, sc.verifySelect).server, sc.verifySearch);
    }
  }

  lemma {:induction false} CheckTargetKeeps(s: Server, attempts: nat, sc: Script)
    requires Inv(s)
    ensures var r := CheckTarget(s, attempts, sc); Inv(r.server) && Later(s, r.server)
  {
    FindCopiesKeeps(s, sc.checkSelect, sc.checkSearch);
  }

  lemma {:induction false} PreludeKeeps(s: Server, job: Job, attempts: nat, sc: Script)
    requires Inv(s)
    ensures var r := Prelude(s, job, attempts, sc);
            Inv(r.server) && Later(s, r.server) && (r.Done? ==> r.value == r.server.sourceHas)
  {
    PerformKeeps(s, sc.login);
    var s1 := Perform(s, sc.login).server;
    PerformKeeps(s1, sc.capabilities);
    var s2 := Perform(s1, sc.capabilities).server;
    CheckTargetKeeps(s2, attempts, sc);
    var s3 := CheckTarget(s2, attempts, sc).server;
    PerformKeeps(s3, sc.sourceSelect);
    PerformKeeps(Perform(s3, sc.sourceSelect).server, sc.sourceSearch);
  }

  lemma {:induction false} FinishSound(s: Server, job: Job, attempts: nat, sc: Script)
    requires Inv(s)
    ensures var r := Finish(s, job, attempts, sc); Inv(r.server) && Later(s, r.server) && Sound(r)
  {
    if s.sourceHas {
      MoveKeeps(s, job, sc);
      var m := Move(s, job, sc);
      if m.Done? {
        LocateSound(m.server, sc, Parse(m.value, job.uid));
      }
    } else if attempts > 1 {
      RecoverSound(s, sc);
    }
  }

  /** Soundness of one attempt: whatever fails or interferes, a success names a message that
      sits in the target under the job's Message-ID, the moved one unless ambiguous. */
  lemma {:induction false} AttemptSound(s: Server, job: Job, attempts: nat, sc: Script)
    requires Inv(s)
    ensures var r := Attempt(s, job, attempts, sc); Inv(r.server) && Later(s, r.server) && Sound(r)
  {
    PreludeKeeps(s, job, attempts, sc);
    var p := Prelude(s, job, attempts, sc);
    if p.Done? {
      FinishSound(p.server, job, attempts, sc);
    }
  }

  // ----- How each attempt ends -----

  /** The call raises something the queue worker does not retry. */
  predicate EndsJob(c: Call) { c.end.ProtocolFault? || c.end.UncaughtFault? }

  /** The server at the moment of the capability check, the target check and the source search. */
  function AtCapabilities(s: Server, sc: Script): Server {
    InterfereAll(InterfereAll(s, sc.login.before), sc.capabilities.before)
  }

  function AtCheck(s: Server, sc: Script): Server {
    InterfereAll(InterfereAll(AtCapabilities(s, sc), sc.checkSelect.before), sc.checkSearch.before)
  }

  function AtSource(s: Server, attempts: nat, sc: Script): Server {
    InterfereAll(InterfereAll(if attempts == 1 then AtCheck(s, sc) else AtCapabilities(s, sc),
                              sc.sourceSelect.before), sc.sourceSearch.before)
  }

  /** A first lease's check finds no message with the job's Message-ID in the target. */
  predicate PassesCheck(s: Server, sc: Script) {
    sc.checkSelect.end.Answered? && s.targetValidity > 0 && sc.checkSearch.end.Answered? && AtCheck(s, sc).copies == {}
  }

  /** The calls before the MOVE, one after another: each is made when those before it let the job
      go on. */
  predicate LoggedIn(job: Job, sc: Script) { sc.login.end.Answered? && job.hasTarget && job.hasMessageId }

  predicate Capable(job: Job, sc: Script) {
    LoggedIn(job, sc) && sc.capabilities.end.Answered? && sc.hasMove && sc.hasUidplus
  }

  predicate Checked(s: Server, job: Job, attempts: nat, sc: Script) {
    Capable(job, sc) && (attempts == 1 ==> PassesCheck(s, sc))
  }

  predicate Selected(s: Server, job: Job, attempts: nat, sc: Script) {
    Checked(s, job, attempts, sc) && sc.sourceSelect.end.Answered? && sc.sourceValidity == job.validity
  }

  predicate Searched(s: Server, job: Job, attempts: nat, sc: Script) {
    Selected(s, job, attempts, sc) && sc.sourceSearch.end.Answered?
  }

  /** The attempt gets to its MOVE: nothing stops it before and the source message is there. */
  predicate ReachesMove(s: Server, job: Job, attempts: nat, sc: Script) {
    Searched(s, job, attempts, sc) && AtSource(s, attempts, sc).sourceHas
  }

  /** Before the MOVE a call broke off, or a later lease finds another UIDVALIDITY. */
  predicate RetriesBefore(s: Server, job: Job, attempts: nat, sc: Script) {
    || sc.login.end.TransportFault?
    || (LoggedIn(job, sc) && sc.capabilities.end.TransportFault?)
    || (Capable(job, sc) && attempts == 1 && sc.checkSelect.end.TransportFault?)
    || (Capable(job, sc) && attempts == 1 && sc.checkSelect.end.Answered? && s.targetValidity > 0
        && sc.checkSearch.end.TransportFault?)
    || (Checked(s, job, attempts, sc) && sc.sourceSelect.end.TransportFault?)
    || (Checked(s, job, attempts, sc) && sc.sourceSelect.end.Answered? && sc.sourceValidity != job.validity
        && attempts > 1)
    || (Selected(s, job, attempts, sc) && sc.sourceSearch.end.TransportFault?)
  }

  /** Before the MOVE a call raised something else, the job is incomplete, the check of a first
      lease refuses the target, or a first lease finds another UIDVALIDITY. */
  predicate FailsBefore(s: Server, job: Job, attempts: nat, sc: Script) {
    || EndsJob(sc.login)
    || (sc.login.end.Answered? && !(job.hasTarget && job.hasMessageId))
    || (LoggedIn(job, sc) && EndsJob(sc.capabilities))
    || (Capable(job, sc) && attempts == 1 && CheckRefuses(s, sc))
    || (Checked(s, job, attempts, sc) && EndsJob(sc.sourceSelect))
    || (Checked(s, job, attempts, sc) && sc.sourceSelect.end.Answered? && sc.sourceValidity != job.validity
        && attempts == 1)
    || (Selected(s, job, attempts, sc) && EndsJob(sc.sourceSearch))
  }

  predicate CheckRefuses(s: Server, sc: Script) {
    || EndsJob(sc.checkSelect)
    || (sc.checkSelect.end.Answered? && s.targetValidity == 0)
    || (sc.checkSelect.end.Answered? && EndsJob(sc.checkSearch))
    || (sc.checkSelect.end.Answered? && sc.checkSearch.end.Answered? && AtCheck(s, sc).copies != {})
  }

  /** The server does not have what the job needs, and says so. */
  predicate Lacks(job: Job, sc: Script) {
    LoggedIn(job, sc) && sc.capabilities.end.Answered? && !(sc.hasMove && sc.hasUidplus)
  }

  lemma {:induction false} CheckTargetIs(s: Server, t: Server, attempts: nat, sc: Script)
    requires t == InterfereAll(InterfereAll(s, sc.checkSelect.before), sc.checkSearch.before)
    requires InterfereAll(s, sc.checkSelect.before).targetValidity == s.targetValidity
    ensures var c := CheckTarget(s, attempts, sc);
            && (c.Done? <==> (attempts == 1 ==> sc.checkSelect.end.Answered? && s.targetValidity > 0
                                                && sc.checkSearch.end.Answered? && t.copies == {}))
            && (c.Done? ==> c.server == if attempts == 1 then t else s)
            && (StatusOf(c, attempts).Retry?
                <==> attempts == 1
                     && (sc.checkSelect.end.TransportFault?
                         || (sc.checkSelect.end.Answered? && s.targetValidity > 0
                             && sc.checkSearch.end.TransportFault?)))
            && !StatusOf(c, attempts).NotSupported?
  {
  }

  lemma {:induction false} ValidityKept(s: Server, es: seq<Interference>)
    ensures InterfereAll(s, es).targetValidity == s.targetValidity
  {
    if es != [] {
      ValidityKept(s, es[..|es| - 1]);
    }
  }

  /** How the part before the MOVE ends. */
  lemma {:induction false} PreludeExactly(s: Server, job: Job, attempts: nat, sc: Script)
    requires attempts >= 1
    ensures var p := Prelude(s, job, attempts, sc);
            var status := StatusOf(p, attempts);
            && (p.Done? <==> Searched(s, job, attempts, sc))
            && (p.Done? ==> p.server == AtSource(s, attempts, sc) && p.value == p.server.sourceHas)
            && (status.Retry? <==> RetriesBefore(s, job, attempts, sc))
            && (status.Failed? <==> FailsBefore(s, job, attempts, sc))
            && (status.NotSupported? <==> Lacks(job, sc))
  {
    ValidityKept(s, sc.login.before);
    ValidityKept(InterfereAll(s, sc.login.before), sc.capabilities.before);
    var s2 := AtCapabilities(s, sc);
    ValidityKept(s2, sc.checkSelect.before);
    CheckTargetIs(s2, AtCheck(s, sc), attempts, sc);
  }

  /** A call of the recovery raises something its guard does not catch; `v` is the target's
      UIDVALIDITY. */
  predicate RecoveryEscapes(v: nat, sc: Script) {
    sc.recoverSelect.end.UncaughtFault?
    || (sc.recoverSelect.end.Answered? && v > 0 && sc.recoverSearch.end.UncaughtFault?)
  }

  /** The recovery finds exactly one message, with a proper UID. */
  ghost predicate Recovers(t: Server, sc: Script) {
    && sc.recoverSelect.end.Answered? && t.targetValidity > 0 && sc.recoverSearch.end.Answered?
    && exists u :: u > 0 && AtRecovery(t, sc).copies == {u}
  }

  function AtRecovery(t: Server, sc: Script): Server {
    InterfereAll(InterfereAll(t, sc.recoverSelect.before), sc.recoverSearch.before)
  }

  predicate VerificationEscapes(sc: Script) {
    sc.verifySelect.end.UncaughtFault? || (sc.verifySelect.end.Answered? && sc.verifySearch.end.UncaughtFault?)
  }

  /** The mapped message is found where the code says. */
  predicate Verifies(t: Server, u: nat, sc: Script) {
    sc.verifySelect.end.Answered? && sc.verifySearch.end.Answered?
    && u in AtVerification(t, sc).copies + AtVerification(t, sc).others
  }

  function AtVerification(t: Server, sc: Script): Server {
    InterfereAll(InterfereAll(t, sc.verifySelect.before), sc.verifySearch.before)
  }

  /** The server after a MOVE that was carried out, and the code the client is then handed. */
  function AfterMove(t: Server, sc: Script): Server {
    CommitMove(InterfereAll(t, sc.moveBefore).(issued := true))
  }

  function CodeGiven(t: Server, job: Job, sc: Script): Option<string>
    requires sc.moveEnd.Executed?
  {
    CodeFrom(AfterMove(t, sc), job.uid, sc.moveEnd.response)
  }

  /** From its MOVE on an attempt gives the job up: the client raised something unexpected, the
      code cannot be read, or a call that then verifies or recovers raised something unexpected. */
  ghost predicate MoveEscapes(t: Server, job: Job, sc: Script) {
    || sc.moveEnd.Crashed?
    || (sc.moveEnd.Executed? && UnreadableCode(sc.moveEnd.response))
    || (sc.moveEnd.Executed? && Parse(CodeGiven(t, job, sc), job.uid).Absent?
        && RecoveryEscapes(t.targetValidity, sc))
    || (sc.moveEnd.Executed? && Parse(CodeGiven(t, job, sc), job.uid).Mapped? && VerificationEscapes(sc))
  }

  /** Its MOVE is answered and the new place is found, by the code or by the Message-ID. */
  ghost predicate MoveSucceeds(t: Server, job: Job, sc: Script) {
    sc.moveEnd.Executed? &&
    match Parse(CodeGiven(t, job, sc), job.uid)
    case Absent => Recovers(AfterMove(t, sc), sc)
    case Mapped(_, u) => Verifies(AfterMove(t, sc), u, sc)
    case Raised(_) => false
  }

  lemma {:induction false} RecoverEnds(s: Server, attempts: nat, sc: Script)
    ensures var r := Guarded(Recover(s, sc));
            && (StatusOf(r, attempts).Failed? <==> RecoveryEscapes(s.targetValidity, sc))
            && (StatusOf(r, attempts).Succeeded? <==> Recovers(s, sc))
            && !StatusOf(r, attempts).NotSupported?
  {
    ValidityKept(s, sc.recoverSelect.before);
    var copies := AtRecovery(s, sc).copies;
    if |copies| == 1 {
      SingletonUnique(copies);
      assert copies == {TheOnly(copies)};
    }
  }

  lemma {:induction false} LocateEnds(s: Server, attempts: nat, sc: Script, mapping: Mapping)
    requires mapping.Mapped? ==> mapping.uidvalidity == s.targetValidity
    ensures var r := Guarded(LocateBy(s, sc, mapping));
            && (StatusOf(r, attempts).Failed?
                <==> mapping == Raised(ValueFault) || (mapping.Absent? && RecoveryEscapes(s.targetValidity, sc))
                     || (mapping.Mapped? && VerificationEscapes(sc)))
            && (StatusOf(r, attempts).Succeeded?
                <==> (mapping.Absent? && Recovers(s, sc)) || (mapping.Mapped? && Verifies(s, mapping.uid, sc)))
            && !StatusOf(r, attempts).NotSupported?
  {
    if mapping.Absent? {
      RecoverEnds(s, attempts, sc);
    } else {
      ValidityKept(s, sc.verifySelect.before);
    }
  }

  /** How the part from the MOVE on ends. */
  lemma {:induction false} FinishExactly(t: Server, job: Job, attempts: nat, sc: Script)
    requires attempts >= 1
    ensures var status := StatusOf(Finish(t, job, attempts, sc), attempts);
            && (status.Failed?
                <==> if t.sourceHas then MoveEscapes(t, job, sc)
                     else attempts == 1 || RecoveryEscapes(t.targetValidity, sc))
            && (status.Succeeded?
                <==> if t.sourceHas then MoveSucceeds(t, job, sc) else attempts > 1 && Recovers(t, sc))
            && !status.NotSupported?
  {
    if !t.sourceHas {
      RecoverEnds(t, attempts, sc);
    } else if sc.moveEnd.Executed? {
      ValidityKept(t, sc.moveBefore);
      var m := Move(t, job, sc);
      assert m == Done(AfterMove(t, sc), CodeGiven(t, job, sc));
      LocateEnds(m.server, attempts, sc, Parse(m.value, job.uid));
      GivenFaults(t, job, sc);
    }
  }

  /** Only a code that maps can be untruthful, so a faulty one is given as it is. */
  lemma {:induction false} GivenFaults(t: Server, job: Job, sc: Script)
    requires sc.moveEnd.Executed?
    ensures Parse(CodeGiven(t, job, sc), job.uid) == Raised(ValueFault) <==> UnreadableCode(sc.moveEnd.response)
  {
    ValueFaultExactlyWhen(sc.moveEnd.response, job.uid);
  }

  /** The status of any attempt from how its calls end. It is "unsupported" exactly when the
      server's own answer lacks a capability; "failed" exactly when something before the MOVE
      ends the job, or, past all of that, the MOVE of a present message or the recovery of an
      absent one escapes the guards, or a first lease finds it absent; it succeeds exactly when
      the MOVE or the recovery does; everything else is retried after the wait. */
  lemma {:induction false} StatusExactly(s: Server, job: Job, attempts: nat, sc: Script)
    requires attempts >= 1
    ensures var status, t := StatusOf(Attempt(s, job, attempts, sc), attempts), AtSource(s, attempts, sc);
            && (status.NotSupported? <==> Lacks(job, sc))
            && (status.Failed?
                <==> FailsBefore(s, job, attempts, sc)
                     || (Searched(s, job, attempts, sc)
                         && if t.sourceHas then MoveEscapes(t, job, sc)
                            else attempts == 1 || RecoveryEscapes(t.targetValidity, sc)))
            && (status.Succeeded?
                <==> Searched(s, job, attempts, sc)
                     && if t.sourceHas then MoveSucceeds(t, job, sc) else attempts > 1 && Recovers(t, sc))
            && (status.Retry? ==> status.afterMs == Backoff(attempts))
  {
    PreludeExactly(s, job, attempts, sc);
    if Searched(s, job, attempts, sc) {
      FinishExactly(AtSource(s, attempts, sc), job, attempts, sc);
    }
  }

  /** So it is retried exactly when a call before the MOVE broke off, a later lease finds another
      UIDVALIDITY, or the outcome of the MOVE stays open: neither found nor escaping the guards. */
  lemma {:induction false} RetriedExactlyWhen(s: Server, job: Job, attempts: nat, sc: Script)
    requires attempts >= 1
    ensures var t := AtSource(s, attempts, sc);
            StatusOf(Attempt(s, job, attempts, sc), attempts).Retry?
            <==> RetriesBefore(s, job, attempts, sc)
                 || (Searched(s, job, attempts, sc)
                     && if t.sourceHas then !MoveEscapes(t, job, sc) && !MoveSucceeds(t, job, sc)
                        else attempts > 1 && !RecoveryEscapes(t.targetValidity, sc) && !Recovers(t, sc))
  {
    PreludeExactly(s, job, attempts, sc);
    if Searched(s, job, attempts, sc) {
      FinishExactly(AtSource(s, attempts, sc), job, attempts, sc);
    }
  }

  /** A MOVE is issued by the attempts that reach it, and by no other. */
  lemma {:induction false} IssuedExactlyWhen(s: Server, job: Job, attempts: nat, sc: Script)
    requires Inv(s) && attempts >= 1
    ensures Attempt(s, job, attempts, sc).server.issued <==> s.issued || ReachesMove(s, job, attempts, sc)
  {
    PreludeExactly(s, job, attempts, sc);
    PreludeIssues(s, job, attempts, sc);
    PreludeKeeps(s, job, attempts, sc);
    if Searched(s, job, attempts, sc) {
      FinishIssues(AtSource(s, attempts, sc), job, attempts, sc);
    }
  }

  lemma {:induction false} IssuedKept(s: Server, es: seq<Interference>)
    ensures InterfereAll(s, es).issued == s.issued
  {
    if es != [] {
      IssuedKept(s, es[..|es| - 1]);
    }
  }

  lemma {:induction false} PreludeIssues(s: Server, job: Job, attempts: nat, sc: Script)
    ensures Prelude(s, job, attempts, sc).server.issued == s.issued
  {
    IssuedKept(s, sc.login.before);
    IssuedKept(InterfereAll(s, sc.login.before), sc.capabilities.before);
    var s2 := AtCapabilities(s, sc);
    FindIssues(s2, sc.checkSelect, sc.checkSearch);
    var s3 := CheckTarget(s2, attempts, sc).server;
    IssuedKept(s3, sc.sourceSelect.before);
    IssuedKept(InterfereAll(s3, sc.sourceSelect.before), sc.sourceSearch.before);
  }

  lemma {:induction false} FindIssues(s: Server, select: Call, search: Call)
    ensures FindCopies(s, select, search).server.issued == s.issued
  {
    IssuedKept(s, select.before);
    IssuedKept(InterfereAll(s, select.before), search.before);
  }

  lemma {:induction false} FinishIssues(t: Server, job: Job, attempts: nat, sc: Script)
    requires Inv(t)
    ensures Finish(t, job, attempts, sc).server.issued <==> t.issued || t.sourceHas
  {
    if t.sourceHas {
      MoveKeeps(t, job, sc);
      var m := Move(t, job, sc);
      if m.Done? {
        LocateSound(m.server, sc, Parse(m.value, job.uid));
      }
    } else {
      FindIssues(t, sc.recoverSelect, sc.recoverSearch);
    }
  }

  /** The wait starts at five seconds and doubles with every lease up to five minutes. */
  lemma {:induction false} BackoffExactly(attempts: nat)
    requires attempts >= 1
    ensures Backoff(1) == 5 * 1000
    ensures Backoff(attempts + 1) == if 2 * Backoff(attempts) < 5 * 60 * 1000 then 2 * Backoff(attempts)
                                     else 5 * 60 * 1000
  {
    assert Pow2(attempts) == 2 * Pow2(attempts - 1);
    assert Pow2(0) == 1;
  }

  /** An unreadable code gives up a job whose message did move: a source set `a:b:c` is enough. */
  lemma {:induction false} UnreadableCodeGivesUpMovedJob(s: Server, job: Job, sc: Script, v: nat, a: nat, b: nat,
                                                         c: nat, d: nat)
    requires Inv(s) && ReachesMove(s, job, 1, sc) && v <= MAX_UID
    requires sc.moveEnd == Executed(Some("[" + CodeText(Print(v), Triple(a, b, c), Print(d)) + "]"))
    ensures StatusOf(Attempt(s, job, 1, sc), 1).Failed?
    ensures Attempt(s, job, 1, sc).server.moved.Some?
  {
    TripleUnreadable(v, a, b, c, d, job.uid);
    ValueFaultExactlyWhen(sc.moveEnd.response, job.uid);
    StatusExactly(s, job, 1, sc);
    ExecutedMoves(s, job, 1, sc);
  }

  lemma {:induction false} ExecutedMoves(s: Server, job: Job, attempts: nat, sc: Script)
    requires Inv(s) && attempts >= 1 && ReachesMove(s, job, attempts, sc) && sc.moveEnd.Executed?
    ensures Attempt(s, job, attempts, sc).server.moved.Some?
  {
    PreludeExactly(s, job, attempts, sc);
    PreludeKeeps(s, job, attempts, sc);
    var t := AtSource(s, attempts, sc);
    MoveKeeps(t, job, sc);
    var m := Move(t, job, sc);
    LocateSound(m.server, sc, Parse(m.value, job.uid));
  }

  /** So does a SELECT answered without UIDVALIDITY when the new place is verified, whatever the
      code says, and one when a moved message is recovered later. */
  lemma {:induction false} MissingUidvalidityGivesUpMovedJob(s: Server, job: Job, attempts: nat, sc: Script)
    requires Inv(s) && attempts >= 1
    ensures ReachesMove(s, job, attempts, sc) && sc.moveEnd.Executed?
            && Parse(CodeGiven(AtSource(s, attempts, sc), job, sc), job.uid).Mapped?
            && sc.verifySelect.end.UncaughtFault?
            ==> StatusOf(Attempt(s, job, attempts, sc), attempts).Failed?
                && Attempt(s, job, attempts, sc).server.moved.Some?
    ensures s.moved.Some? && attempts > 1 && Searched(s, job, attempts, sc) && sc.recoverSelect.end.UncaughtFault?
            ==> StatusOf(Attempt(s, job, attempts, sc), attempts).Failed?
                && Attempt(s, job, attempts, sc).server.moved.Some?
  {
    StatusExactly(s, job, attempts, sc);
    if ReachesMove(s, job, attempts, sc) && sc.moveEnd.Executed? {
      ExecutedMoves(s, job, attempts, sc);
    }
    PreludeExactly(s, job, attempts, sc);
    PreludeKeeps(s, job, attempts, sc);
    AttemptSound(s, job, attempts, sc);
  }

  // ----- Whole jobs -----

  datatype Lease = Lease(attempts: nat, script: Script)

  /** Leases count up. */
  predicate Counted(leases: seq<Lease>, above: nat) {
    leases == [] || (leases[0].attempts > above && Counted(leases[1..], leases[0].attempts))
  }

  function ServerAfter(s: Server, job: Job, leases: seq<Lease>): Server
    decreases |leases|
  {
    if leases == [] then s
    else ServerAfter(Attempt(s, job, leases[0].attempts, leases[0].script).server, job, leases[1..])
  }

  function Reports(s: Server, job: Job, leases: seq<Lease>): (r: seq<Step<(nat, nat)>>)
    ensures |r| == |leases|
    decreases |leases|
  {
    if leases == [] then []
    else
      var first := Attempt(s, job, leases[0].attempts, leases[0].script);
      [first] + Reports(first.server, job, leases[1..])
  }

  /** The place where the job's MOVE put the message. */
  ghost predicate Names(s: Server, place: (nat, nat)) {
    s.moved.Some? && place == (s.targetValidity, s.moved.value)
  }

  /** Over any number of leases, with faults at any call: every success names a message that
      then sat in the target, and it is the one the job moved, whichever lease issued the MOVE,
      exactly when the state was not ambiguous. */
  lemma {:induction false} EverySuccessNamesThePlace(s: Server, job: Job, leases: seq<Lease>)
    requires Inv(s)
    ensures Inv(ServerAfter(s, job, leases)) && Later(s, ServerAfter(s, job, leases))
    ensures forall r | r in Reports(s, job, leases) && r.Done? ::
              r.value.1 in r.server.copies
              && (Names(ServerAfter(s, job, leases), r.value) <==> !r.server.ambiguous)
    decreases |leases|
  {
    if leases != [] {
      var first := Attempt(s, job, leases[0].attempts, leases[0].script);
      AttemptSound(s, job, leases[0].attempts, leases[0].script);
      EverySuccessNamesThePlace(first.server, job, leases[1..]);
    }
  }

  // ----- When a success can name the wrong message -----

  /** No message but the moved one has the job's Message-ID in the target. */
  ghost predicate Clear(s: Server) { forall u | u in s.copies :: s.moved == Some(u) }

  lemma {:induction false} InterferenceStaysClear(s: Server, es: seq<Interference>)
    requires Clear(s) && Inv(s)
    ensures Clear(InterfereAll(s, es))
  {
    if es != [] {
      InterferenceStaysClear(s, es[..|es| - 1]);
      InterfereAllKeeps(s, es[..|es| - 1]);
    }
  }

  lemma {:induction false} FindCopiesStaysClear(s: Server, select: Call, search: Call)
    requires Clear(s) && Inv(s)
    ensures Clear(FindCopies(s, select, search).server)
  {
    InterferenceStaysClear(s, select.before);
    InterfereAllKeeps(s, select.before);
    InterferenceStaysClear(InterfereAll(s, select.before), search.before);
  }

  lemma {:induction false} LocateStaysClear(s: Server, sc: Script, mapping: Mapping)
    requires Clear(s) && Inv(s)
    ensures Clear(LocateBy(s, sc, mapping).server)
  {
    FindCopiesStaysClear(s, sc.recoverSelect, sc.recoverSearch);
    InterferenceStaysClear(s, sc.verifySelect.before);
    InterfereAllKeeps(s, sc.verifySelect.before);
    InterferenceStaysClear(InterfereAll(s, sc.verifySelect.before), sc.verifySearch.before);
  }

  lemma {:induction false} FinishStaysClear(s: Server, job: Job, attempts: nat, sc: Script)
    requires Clear(s) && Inv(s)
    ensures Clear(Finish(s, job, attempts, sc).server)
  {
    FindCopiesStaysClear(s, sc.recoverSelect, sc.recoverSearch);
    InterferenceStaysClear(s, sc.moveBefore);
    InterfereAllKeeps(s, sc.moveBefore);
    MoveKeeps(s, job, sc);
    var m := Move(s, job, sc);
    assert Clear(m.server);
    if m.Done? {
      LocateStaysClear(m.server, sc, Parse(m.value, job.uid));
    }
  }

  lemma {:induction false} PreludeStaysClear(s: Server, job: Job, attempts: nat, sc: Script)
    requires Clear(s) && Inv(s)
    ensures Clear(Prelude(s, job, attempts, sc).server)
  {
    PerformKeeps(s, sc.login);
    InterferenceStaysClear(s, sc.login.before);
    var s1 := InterfereAll(s, sc.login.before);
    PerformKeeps(s1, sc.capabilities);
    InterferenceStaysClear(s1, sc.capabilities.before);
    var s2 := InterfereAll(s1, sc.capabilities.before);
    CheckTargetKeeps(s2, attempts, sc);
    FindCopiesStaysClear(s2, sc.checkSelect, sc.checkSearch);
    TailStaysClear(CheckTarget(s2, attempts, sc).server, sc);
  }

  lemma {:induction false} TailStaysClear(s: Server, sc: Script)
    requires Clear(s) && Inv(s)
    ensures Clear(InterfereAll(s, sc.sourceSelect.before))
    ensures Clear(InterfereAll(InterfereAll(s, sc.sourceSelect.before), sc.sourceSearch.before))
  {
    InterferenceStaysClear(s, sc.sourceSelect.before);
    InterfereAllKeeps(s, sc.sourceSelect.before);
    InterferenceStaysClear(InterfereAll(s, sc.sourceSelect.before), sc.sourceSearch.before);
  }

  lemma {:induction false} AttemptStaysClear(s: Server, job: Job, attempts: nat, sc: Script)
    requires Clear(s) && Inv(s)
    ensures Clear(Attempt(s, job, attempts, sc).server)
  {
    PreludeKeeps(s, job, attempts, sc);
    PreludeStaysClear(s, job, attempts, sc);
    FinishStaysClear(Prelude(s, job, attempts, sc).server, job, attempts, sc);
  }

  /** Some lease reports a place where the moved message is not. */
  ghost predicate Misnames(s: Server, job: Job, leases: seq<Lease>) {
    exists r :: r in Reports(s, job, leases) && r.Done? && !Names(ServerAfter(s, job, leases), r.value)
  }

  /** From a clear state every success of every lease names the moved message. */
  lemma {:induction false} ClearNeverMisnames(s: Server, job: Job, leases: seq<Lease>)
    requires Inv(s) && Clear(s)
    ensures forall r | r in Reports(s, job, leases) && r.Done? :: Names(ServerAfter(s, job, leases), r.value)
    decreases |leases|
  {
    if leases != [] {
      var l := leases[0];
      var first := Attempt(s, job, l.attempts, l.script);
      AttemptSound(s, job, l.attempts, l.script);
      AttemptStaysClear(s, job, l.attempts, l.script);
      ClearNeverMisnames(first.server, job, leases[1..]);
      EverySuccessNamesThePlace(first.server, job, leases[1..]);
    }
  }

  /** Taking messages out of the target one by one. */
  ghost function Removals(us: set<nat>): seq<Interference>
    decreases |us|
  {
    if us == {} then []
    else
      var u :| u in us;
      Removals(us - {u}) + [Remove(u)]
  }

  lemma {:induction false} RemovalsRemove(s: Server, us: set<nat>)
    ensures var t := InterfereAll(s, Removals(us));
            t == s.(copies := s.copies - us, others := s.others - us, ambiguous := t.ambiguous)
    decreases |us|
  {
    if us != {} {
      var u :| u in us && Removals(us) == Removals(us - {u}) + [Remove(u)];
      RemovalsRemove(s, us - {u});
      assert Removals(us)[..|Removals(us)| - 1] == Removals(us - {u});
      var t := InterfereAll(s, Removals(us - {u}));
      assert t.copies - {u} == s.copies - us && t.others - {u} == s.others - us;
    } else {
      assert s.copies - us == s.copies && s.others - us == s.others;
    }
  }

  function Calm(): Call { Call([], Answered) }

  /** A lease in which everything answers, the MOVE's reply is lost, and others act at its start. */
  function Quiet(job: Job, before: seq<Interference>): Script {
    Script(Call(before, Answered), Calm(), true, true, Calm(), Calm(), Calm(), job.validity, Calm(), Calm(), Calm(),
           [], LostExecuted, Calm(), Calm())
  }

  lemma {:induction false} QuietRecovers(s: Server, job: Job, attempts: nat, u: nat)
    requires Inv(s) && attempts > 1 && job.hasTarget && job.hasMessageId && s.moved.Some?
    requires u in s.copies && u > 0 && s.targetValidity > 0
    ensures var r := Attempt(s, job, attempts, Quiet(job, Removals(s.copies - {u})));
            r.Done? && r.value == (s.targetValidity, u)
  {
    var sc := Quiet(job, Removals(s.copies - {u}));
    RemovalsRemove(s, s.copies - {u});
    InterfereAllKeeps(s, sc.login.before);
    var t := InterfereAll(s, sc.login.before);
    assert InterfereAll(t, []) == t;
    assert AtSource(s, attempts, sc) == t && t.copies == {u};
    PreludeExactly(s, job, attempts, sc);
    assert Recover(t, sc) == Done(t, (t.targetValidity, u)) by {
      assert |t.copies| == 1;
    }
  }

  lemma {:induction false} QuietMoves(s: Server, job: Job, attempts: nat)
    requires Inv(s) && attempts > 1 && job.hasTarget && job.hasMessageId && s.moved.None?
    ensures var r := Attempt(s, job, attempts, Quiet(job, []));
            !r.Done? && r.server.moved == Some(s.nextUid) && r.server.copies == s.copies + {s.nextUid}
  {
    var sc := Quiet(job, []);
    assert InterfereAll(s, []) == s && AtSource(s, attempts, sc) == s;
    PreludeExactly(s, job, attempts, sc);
  }

  /** Wherever another message can answer for the job's Message-ID, later leases can report it. */
  lemma {:induction false} UnclearCanMisname(s: Server, job: Job, above: nat) returns (leases: seq<Lease>)
    requires Inv(s) && Numbered(s) && !Clear(s) && above >= 1 && job.hasTarget && job.hasMessageId
    ensures Counted(leases, above) && Misnames(s, job, leases)
  {
    var u :| u in s.copies && s.moved != Some(u);
    if s.moved.Some? {
      leases := MovedCanMisname(s, job, above, u);
    } else {
      var first := Lease(above + 1, Quiet(job, []));
      QuietMoves(s, job, above + 1);
      AttemptSound(s, job, above + 1, first.script);
      var s1 := Attempt(s, job, above + 1, first.script).server;
      var rest := MovedCanMisname(s1, job, above + 1, u);
      leases := [first] + rest;
      assert leases[1..] == rest;
      var r :| r in Reports(s1, job, rest) && r.Done? && !Names(ServerAfter(s1, job, rest), r.value);
      assert r in Reports(s, job, leases);
    }
  }

  lemma {:induction false} MovedCanMisname(s: Server, job: Job, above: nat, u: nat) returns (leases: seq<Lease>)
    requires Inv(s) && above >= 1 && job.hasTarget && job.hasMessageId && s.moved.Some?
    requires u in s.copies && s.moved.value != u && Numbered(s)
    ensures Counted(leases, above) && Misnames(s, job, leases)
  {
    var l := Lease(above + 1, Quiet(job, Removals(s.copies - {u})));
    QuietRecovers(s, job, above + 1, u);
    AttemptSound(s, job, above + 1, l.script);
    leases := [l];
    var r := Attempt(s, job, above + 1, l.script);
    assert leases[1..] == [];
    assert r in Reports(s, job, leases) && ServerAfter(s, job, leases) == r.server;
  }

  /** The leases of a complete job, after the first, can report a wrong place exactly when some
      target message other than the moved one has its Message-ID. */
  lemma {:induction false} MisnamesExactlyWhen(s: Server, job: Job, above: nat)
    requires Inv(s) && Numbered(s) && above >= 1 && job.hasTarget && job.hasMessageId
    ensures (exists leases: seq<Lease> :: Counted(leases, above) && Misnames(s, job, leases)) <==> !Clear(s)
  {
    if leases: seq<Lease> :| Counted(leases, above) && Misnames(s, job, leases) {
      if Clear(s) {
        ClearNeverMisnames(s, job, leases);
      }
    }
    if !Clear(s) {
      var leases := UnclearCanMisname(s, job, above);
    }
  }

  /** For example a job whose first lease ended before its check, on a target with an older
      copy: a lease moves the message beside it and loses the reply, somebody removes the moved
      message, and the next lease reports the older copy. */
  lemma {:induction false} UncheckedJobMayMisname() returns (s: Server, job: Job, leases: seq<Lease>)
    ensures Inv(s) && !s.issued && s.copies == {1} && Counted(leases, 1) && Misnames(s, job, leases)
  {
    s := Server(9, true, {1}, {}, 2, None, false, 0, false);
    job := Job(5, 7, true, true);
    assert 1 in s.copies && !Clear(s);
    leases := UnclearCanMisname(s, job, 1);
  }

  // ----- What the first lease's check buys -----

  /** A first lease that gets to its MOVE has just seen the target without the Message-ID. */
  lemma {:induction false} FirstLeaseClears(s: Server, job: Job, sc: Script)
    requires Inv(s) && ReachesMove(s, job, 1, sc)
    ensures Clear(Attempt(s, job, 1, sc).server)
  {
    PreludeExactly(s, job, 1, sc);
    PreludeKeeps(s, job, 1, sc);
    InterfereAllKeeps(s, sc.login.before);
    InterfereAllKeeps(InterfereAll(s, sc.login.before), sc.capabilities.before);
    InterfereAllKeeps(AtCapabilities(s, sc), sc.checkSelect.before);
    InterfereAllKeeps(InterfereAll(AtCapabilities(s, sc), sc.checkSelect.before), sc.checkSearch.before);
    TailStaysClear(AtCheck(s, sc), sc);
    FinishStaysClear(AtSource(s, 1, sc), job, 1, sc);
  }

  /** A job whose MOVE was issued by its first lease can never misname: whatever others then
      remove, every success of every lease names the place of the moved message. */
  lemma {:induction false} CheckedJobNeverMisnames(s: Server, job: Job, leases: seq<Lease>)
    requires Inv(s)
    requires leases != [] && leases[0].attempts == 1 && ReachesMove(s, job, 1, leases[0].script)
    ensures forall r | r in Reports(s, job, leases) && r.Done? :: Names(ServerAfter(s, job, leases), r.value)
  {
    var first := Attempt(s, job, 1, leases[0].script);
    FirstLeaseClears(s, job, leases[0].script);
    AttemptSound(s, job, 1, leases[0].script);
    ClearNeverMisnames(first.server, job, leases[1..]);
    EverySuccessNamesThePlace(first.server, job, leases[1..]);
  }

  // ----- Once a MOVE was issued -----

  /** No call raises anything but a transport error outside the guards, and codes are readable. */
  ghost predicate TransportOnly(sc: Script) {
    && !EndsJob(sc.login) && !EndsJob(sc.capabilities) && !EndsJob(sc.sourceSelect) && !EndsJob(sc.sourceSearch)
    && !sc.moveEnd.Crashed? && !(sc.moveEnd.Executed? && UnreadableCode(sc.moveEnd.response))
    && !sc.recoverSelect.end.UncaughtFault? && !sc.recoverSearch.end.UncaughtFault?
    && !sc.verifySelect.end.UncaughtFault? && !sc.verifySearch.end.UncaughtFault?
  }

  /** A lease tells success or asks for another, after the wait of its number. */
  ghost predicate StaysOpen(status: Status, attempts: nat) {
    status.Succeeded? || (status.Retry? && status.afterMs == Backoff(attempts))
  }

  ghost predicate OpenAfterMove(job: Job, l: Lease, r: Step<(nat, nat)>) {
    r.server.issued ==>
      if Lacks(job, l.script) then StatusOf(r, l.attempts).NotSupported?
      else StaysOpen(StatusOf(r, l.attempts), l.attempts)
  }

  /** From the lease that issued a MOVE on, no lease closes the job short of success, as long as
      the faults are of the transport, unless the server then denies the capability it needs. */
  lemma {:induction false} NeverFailedAfterMove(s: Server, job: Job, leases: seq<Lease>, above: nat)
    requires Inv(s) && Counted(leases, above)
    requires s.issued ==> above > 0 && job.hasTarget && job.hasMessageId
    requires forall l | l in leases :: TransportOnly(l.script)
    ensures forall i | 0 <= i < |leases| :: OpenAfterMove(job, leases[i], Reports(s, job, leases)[i])
    decreases |leases|
  {
    if leases != [] {
      var l := leases[0];
      assert l in leases;
      var first := Attempt(s, job, l.attempts, l.script);
      OpenAfterOne(s, job, l, above);
      IssuedExactlyWhen(s, job, l.attempts, l.script);
      AttemptSound(s, job, l.attempts, l.script);
      NeverFailedAfterMove(first.server, job, leases[1..], l.attempts);
    }
  }

  lemma {:induction false} OpenAfterOne(s: Server, job: Job, l: Lease, above: nat)
    requires Inv(s) && l.attempts > above && TransportOnly(l.script)
    requires s.issued ==> above > 0 && job.hasTarget && job.hasMessageId
    ensures OpenAfterMove(job, l, Attempt(s, job, l.attempts, l.script))
  {
    StatusExactly(s, job, l.attempts, l.script);
    IssuedExactlyWhen(s, job, l.attempts, l.script);
    if ReachesMove(s, job, l.attempts, l.script) {
      PreludeExactly(s, job, l.attempts, l.script);
    }
  }
}
