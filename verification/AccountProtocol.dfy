/** Which protocol an account is synced with (aggregator/src/one_mail_agg/sync.py). IMAP and
    POP3 name the same message differently, so an "auto" account may fall back to POP3 only
    before it ever entered IMAP, and is then pinned there. Saves of the cursor file may fail,
    and a restarted process knows what is on disk. */
module AccountProtocol {
  import opened Wrappers
  import opened SyncStates

  datatype Protocol = Imap | Pop3 | Auto

  /** `imapOnly` stands for the sources and hosts that are never synced by POP3; folder names
      are trimmed and in upper case. */
  datatype Config = Config(protocol: Protocol, imapOnly: bool, oauth: bool, folders: seq<string>)

  /** What a failed IMAP step raised: a transport abort or OS error, a refused unsafe login,
      another IMAP error, or something the caller does not catch. */
  datatype Fault = Aborted | UnsafeLogin | OtherImap | Uncaught

  /** A folder that got past SELECT, and whether the save of its UIDVALIDITY succeeds. */
  datatype Selection = Selection(folder: string, validity: int, saves: bool)

  /** One sync of one account: how connecting and the folder loop end, a failed save included,
      which folders got past SELECT before that, whether the POP3 sync, if any, succeeds, and
      whether the saves of the pin do. */
  datatype Script = Script(
    unpinSaves: bool,
    connect: Option<Fault>,
    selected: seq<Selection>,
    mailbox: Option<Fault>,
    pop3Succeeds: bool,
    pinSaves: bool)

  datatype Route = ByImap | ByPop3 | Nothing

  predicate FallbackAllowed(f: Fault) { f.Aborted? || f.UnsafeLogin? }

  predicate OnlyInbox(c: Config) { c.folders == ["INBOX"] }

  predicate MayFallBack(c: Config) { c.protocol.Auto? && !c.imapOnly && !c.oauth && OnlyInbox(c) }

  predicate SafeFallback(c: Config, d: Data, account: string, f: Fault) {
    MayFallBack(c) && !HasImapHistory(d, account) && FallbackAllowed(f)
  }

  function Pinned(d: Data, account: string): bool { account in d.fallback && d.fallback[account] }

  function SetPin(d: Data, account: string, pinned: bool): Data { d.(fallback := d.fallback[account := pinned]) }

  /** A new or changed UIDVALIDITY is recorded and saved. */
  function Recorded(st: Copies, account: string, s: Selection): Copies {
    var key := Key(account, s.folder);
    if key in st.mem.uidvalidity && st.mem.uidvalidity[key] == s.validity then st
    else st.Saved(st.mem.(uidvalidity := st.mem.uidvalidity[key := s.validity]), s.saves)
  }

  function Entered(st: Copies, account: string, selected: seq<Selection>): Copies {
    if selected == [] then st
    else Recorded(Entered(st, account, selected[..|selected| - 1]), account, selected[|selected| - 1])
  }

  /** The state after a sync, how mail was fetched, and whether it raised. */
  datatype Outcome = Outcome(copies: Copies, route: Route, entered: bool, raised: bool)

  function Unpinned(st: Copies, account: string, saves: bool): Copies {
    if Pinned(st.mem, account) then st.Saved(SetPin(st.mem, account, false), saves) else st
  }

  /** After an IMAP fault: fall back and pin, or raise. */
  function AfterFault(c: Config, st: Copies, account: string, f: Fault, s: Script, entered: bool): Outcome {
    if !SafeFallback(c, st.mem, account, f) then Outcome(st, if entered then ByImap else Nothing, entered, true)
    else if !s.pop3Succeeds then Outcome(st, ByPop3, entered, true)
    else Outcome(st.Saved(SetPin(st.mem, account, true), s.pinSaves), ByPop3, entered, !s.pinSaves)
  }

  /** `sync_account`. */
  function Sync(c: Config, st: Copies, account: string, s: Script): Outcome {
    if c.protocol.Pop3? then Outcome(st, ByPop3, false, !s.pop3Succeeds)
    else if Pinned(st.mem, account) && !c.imapOnly && c.protocol.Auto? && OnlyInbox(c) then
      Outcome(st, ByPop3, false, !s.pop3Succeeds)
    else if Pinned(st.mem, account) && !s.unpinSaves then
      Outcome(Unpinned(st, account, false), Nothing, false, true)
    else SyncImap(c, Unpinned(st, account, true), account, s)
  }

  function SyncImap(c: Config, st: Copies, account: string, s: Script): Outcome {
    if s.connect.Some? then AfterFault(c, st, account, s.connect.value, s, false)
    else
      var st1 := Entered(st, account, s.selected);
      if s.mailbox.Some? then AfterFault(c, st1, account, s.mailbox.value, s, s.selected != [])
      else Outcome(st1, ByImap, s.selected != [], false)
  }

  // ----- The code -----

  /** `_fallback_to_pop3` checks for itself: an unsafe call raises and changes nothing, and only
      a successful POP3 sync pins. */
  method FallBack(c: Config, account: string, s: Script, state: SyncState) returns (raised: bool)
    modifies state
    ensures var pins := OnlyInbox(c) && !HasImapHistory(old(state.data), account) && s.pop3Succeeds;
            && (raised <==> !pins || !s.pinSaves)
            && state.data == (if pins then SetPin(old(state.data), account, true) else old(state.data))
            && state.disk == if pins && s.pinSaves then state.data else old(state.disk)
  {
    if !OnlyInbox(c) || HasImapHistory(state.data, account) {
      return true;
    }
    if !s.pop3Succeeds {
      return true;
    }
    raised := state.SetFallbackPinned(account, true, s.pinSaves);
  }

  method SyncAccount(c: Config, account: string, s: Script, state: SyncState) returns (route: Route, raised: bool)
    modifies state
    ensures var o := Sync(c, Copies(old(state.data), old(state.disk)), account, s);
            Copies(state.data, state.disk) == o.copies && route == o.route && raised == o.raised
  {
    if c.protocol.Pop3? {
      return ByPop3, !s.pop3Succeeds;
    }
    if Pinned(state.data, account) {
      var failed;
      if c.imapOnly || c.protocol.Imap? {
        failed := state.SetFallbackPinned(account, false, s.unpinSaves);
      } else if c.protocol.Auto? && OnlyInbox(c) {
        return ByPop3, !s.pop3Succeeds;
      } else {
        failed := state.SetFallbackPinned(account, false, s.unpinSaves);
      }
      if failed {
        return Nothing, true;
      }
    }
    route, raised := TryImap(c, account, s, state);
  }

  method TryImap(c: Config, account: string, s: Script, state: SyncState) returns (route: Route, raised: bool)
    modifies state
    ensures var o := SyncImap(c, Copies(old(state.data), old(state.disk)), account, s);
            Copies(state.data, state.disk) == o.copies && route == o.route && raised == o.raised
  {
    if s.connect.Some? {
      if SafeFallback(c, state.data, account, s.connect.value) {
        raised := FallBack(c, account, s, state);
        return ByPop3, raised;
      }
      return Nothing, true;
    }
    SelectFolders(account, s.selected, state);
    if s.mailbox.None? {
      return ByImap, false;
    }
    if SafeFallback(c, state.data, account, s.mailbox.value) {
      raised := FallBack(c, account, s, state);
      return ByPop3, raised;
    }
    route, raised := if s.selected != [] then ByImap else Nothing, true;
  }

  method SelectFolders(account: string, selected: seq<Selection>, state: SyncState)
    modifies state
    ensures Copies(state.data, state.disk) == Entered(Copies(old(state.data), old(state.disk)), account, selected)
  {
    ghost var st := Copies(state.data, state.disk);
    for i := 0 to |selected|
      invariant Copies(state.data, state.disk) == Entered(st, account, selected[..i])
    {
      assert selected[..i + 1][..i] == selected[..i];
      var key, s := Key(account, selected[i].folder), selected[i];
      if key !in state.data.uidvalidity || state.data.uidvalidity[key] != s.validity {
        var _ := state.SetUidvalidity(account, s.folder, s.validity, s.saves);
      }
    }
    assert selected[..|selected|] == selected;
  }

  // ----- What one sync does -----

  /** The file shows the account in IMAP: with history, and not pinned to POP3. */
  predicate ShowsImap(d: Data, account: string) { HasImapHistory(d, account) && !Pinned(d, account) }

  lemma {:induction false} EnteredHistory(st: Copies, account: string, selected: seq<Selection>)
    ensures var st' := Entered(st, account, selected);
            && st'.mem.fallback == st.mem.fallback && st.mem.uidvalidity.Keys <= st'.mem.uidvalidity.Keys
            && (selected != [] ==> HasImapHistory(st'.mem, account))
  {
    if selected != [] {
      EnteredHistory(st, account, selected[..|selected| - 1]);
      var key := Key(account, selected[|selected| - 1].folder);
      assert account + "|" <= key;
      assert key in Entered(st, account, selected).mem.uidvalidity;
    }
  }

  lemma {:induction false} HistoryGrows(d: Data, d': Data, account: string)
    requires d.uidvalidity.Keys <= d'.uidvalidity.Keys && HasImapHistory(d, account)
    ensures HasImapHistory(d', account)
  {
    var k :| k in d.uidvalidity && account + "|" <= k;
    assert k in d'.uidvalidity;
  }

  lemma {:induction false} SameHistory(d: Data, d': Data, account: string)
    requires d.uidvalidity == d'.uidvalidity
    ensures HasImapHistory(d, account) <==> HasImapHistory(d', account)
  {
    if HasImapHistory(d, account) {
      HistoryGrows(d, d', account);
    }
    if HasImapHistory(d', account) {
      HistoryGrows(d', d, account);
    }
  }

  /** One sync, whichever of its saves fail: history only grows, other accounts' pins stay,
      entering IMAP shows in the process's copy, which an account shown in IMAP stays in, and a
      POP3 route under "auto" never comes from there. */
  lemma {:induction false} SyncFacts(c: Config, st: Copies, account: string, s: Script)
    ensures var o := Sync(c, st, account, s);
            && st.mem.uidvalidity.Keys <= o.copies.mem.uidvalidity.Keys
            && (forall a | a != account :: Pinned(o.copies.mem, a) == Pinned(st.mem, a))
            && (o.entered || ShowsImap(st.mem, account) ==> ShowsImap(o.copies.mem, account))
            && (o.route.ByPop3? && c.protocol.Auto? ==> !o.entered && !ShowsImap(st.mem, account))
  {
    SyncGrows(c, st, account, s);
    if !c.protocol.Pop3? && !(Pinned(st.mem, account) && !c.imapOnly && c.protocol.Auto? && OnlyInbox(c)) {
      SameHistory(st.mem, Unpinned(st, account, true).mem, account);
      SameHistory(st.mem, Unpinned(st, account, false).mem, account);
      ImapFacts(c, Unpinned(st, account, true), account, s);
    }
  }

  lemma {:induction false} ImapFacts(c: Config, st: Copies, account: string, s: Script)
    requires !Pinned(st.mem, account)
    ensures var o := SyncImap(c, st, account, s);
            && (o.entered || HasImapHistory(st.mem, account) ==> ShowsImap(o.copies.mem, account))
            && (o.route.ByPop3? ==> !o.entered && !HasImapHistory(st.mem, account))
  {
    EnteredHistory(st, account, s.selected);
    var st1 := Entered(st, account, s.selected);
    if HasImapHistory(st.mem, account) {
      HistoryGrows(st.mem, st1.mem, account);
    }
  }

  lemma {:induction false} SyncGrows(c: Config, st: Copies, account: string, s: Script)
    ensures var o := Sync(c, st, account, s);
            && st.mem.uidvalidity.Keys <= o.copies.mem.uidvalidity.Keys
            && forall a | a != account :: Pinned(o.copies.mem, a) == Pinned(st.mem, a)
  {
    EnteredHistory(Unpinned(st, account, true), account, s.selected);
    forall a | a != account
      ensures Pinned(Sync(c, st, account, s).copies.mem, a) == Pinned(st.mem, a)
    {
      OtherPin(c, st, account, s, a);
    }
  }

  lemma {:induction false} OtherPin(c: Config, st: Copies, account: string, s: Script, a: string)
    requires a != account
    ensures Pinned(Sync(c, st, account, s).copies.mem, a) == Pinned(st.mem, a)
  {
    OtherPinImap(c, Unpinned(st, account, true), account, s, a);
  }

  lemma {:induction false} OtherPinImap(c: Config, st: Copies, account: string, s: Script, a: string)
    requires a != account
    ensures Pinned(SyncImap(c, st, account, s).copies.mem, a) == Pinned(st.mem, a)
  {
    EnteredHistory(st, account, s.selected);
  }

  /** For an account that may fall back at all, a sync can end in POP3 exactly when the process's
      copy does not show the account in IMAP. */
  lemma {:induction false} FallsBackExactlyWhen(c: Config, st: Copies, account: string)
    requires MayFallBack(c)
    ensures (exists s :: Sync(c, st, account, s).route.ByPop3?) <==> !ShowsImap(st.mem, account)
  {
    forall s | Sync(c, st, account, s).route.ByPop3?
      ensures !ShowsImap(st.mem, account)
    {
      SyncFacts(c, st, account, s);
    }
    if !ShowsImap(st.mem, account) {
      assert Sync(c, st, account, Script(true, Some(Aborted), [], None, true, true)).route.ByPop3?;
    }
  }

  // ----- Each sync in terms of the configuration, the state and the script -----

  /** Synced by POP3 without an attempt at IMAP: as configured, or as pinned, where the pin holds. */
  ghost predicate StartsWithPop3(c: Config, d: Data, account: string) {
    c.protocol == Pop3 || (WasPinned(d, account) && c.protocol == Auto && !c.imapOnly && c.folders == ["INBOX"])
  }

  ghost predicate WasPinned(d: Data, account: string) { account in d.fallback && d.fallback[account] }

  /** IMAP is tried: a pin that does not hold is taken back, which must be saved. */
  ghost predicate TriesImap(c: Config, d: Data, account: string, s: Script) {
    !StartsWithPop3(c, d, account) && (WasPinned(d, account) ==> s.unpinSaves)
  }

  /** The fault that ends the attempt. */
  function ImapFault(s: Script): Option<Fault> { if s.connect.Some? then s.connect else s.mailbox }

  /** The attempt ends in POP3: the account is an "auto" one with INBOX alone, not of a source or
      host kept to IMAP and without OAuth, no UIDVALIDITY was ever recorded under its prefix, no
      folder got past SELECT now, and the fault is an abort or a refused unsafe login. */
  ghost predicate FallsBack(c: Config, d: Data, account: string, s: Script) {
    TriesImap(c, d, account, s) && LeadsToPop3(c, d, account, s)
  }

  ghost predicate LeadsToPop3(c: Config, d: Data, account: string, s: Script) {
    && c.protocol == Auto && !c.imapOnly && !c.oauth && c.folders == ["INBOX"]
    && (forall k | k in d.uidvalidity :: !(account + "|" <= k))
    && (s.connect.None? ==> s.selected == [])
    && (ImapFault(s) == Some(Aborted) || ImapFault(s) == Some(UnsafeLogin))
  }

  /** An attempt at IMAP, from a state in which the account is not pinned. */
  lemma {:induction false} ImapExactly(c: Config, st: Copies, account: string, s: Script)
    requires !Pinned(st.mem, account)
    ensures var o, pop3 := SyncImap(c, st, account, s), LeadsToPop3(c, st.mem, account, s);
            && (o.route == ByPop3 <==> pop3)
            && (o.entered <==> s.connect.None? && s.selected != [])
            && (WasPinned(o.copies.mem, account) <==> pop3 && s.pop3Succeeds)
            && (o.raised <==> ImapFault(s).Some? && !(pop3 && s.pop3Succeeds && s.pinSaves))
  {
    HistoryAfter(st, account, s.selected);
    assert HasImapHistory(st.mem, account) <==> !(forall k | k in st.mem.uidvalidity :: !(account + "|" <= k));
  }

  lemma {:induction false} HistoryAfter(st: Copies, account: string, selected: seq<Selection>)
    ensures var st' := Entered(st, account, selected);
            && st'.mem.fallback == st.mem.fallback
            && (HasImapHistory(st'.mem, account) <==> HasImapHistory(st.mem, account) || selected != [])
  {
    EnteredHistory(st, account, selected);
    if HasImapHistory(st.mem, account) {
      HistoryGrows(st.mem, Entered(st, account, selected).mem, account);
    }
  }

  /** How a sync ends: a wrong password or any other refusal never leads to POP3. */
  lemma {:induction false} SyncExactly(c: Config, st: Copies, account: string, s: Script)
    ensures var o, d := Sync(c, st, account, s), st.mem;
            && (o.route == ByPop3 <==> StartsWithPop3(c, d, account) || FallsBack(c, d, account, s))
            && (o.entered <==> TriesImap(c, d, account, s) && s.connect.None? && s.selected != [])
            && (WasPinned(o.copies.mem, account)
                <==> (WasPinned(d, account) && StaysPinned(c)) || (FallsBack(c, d, account, s) && s.pop3Succeeds))
            && (o.raised <==> Raises(c, d, account, s))
  {
    if TriesImap(c, st.mem, account, s) {
      ImapExactly(c, Unpinned(st, account, true), account, s);
    }
  }

  predicate StaysPinned(c: Config) {
    c.protocol == Pop3 || (c.protocol == Auto && !c.imapOnly && c.folders == ["INBOX"])
  }

  /** The POP3 sync failed, the pin could not be taken back, or IMAP failed and no fallback
      succeeded and was saved. */
  ghost predicate Raises(c: Config, d: Data, account: string, s: Script) {
    || (StartsWithPop3(c, d, account) && !s.pop3Succeeds)
    || (!StartsWithPop3(c, d, account) && !TriesImap(c, d, account, s))
    || (TriesImap(c, d, account, s) && ImapFault(s).Some?
        && !(FallsBack(c, d, account, s) && s.pop3Succeeds && s.pinSaves))
  }

  /** Where a key is last recorded, or the length when it is not. */
  function LastOf(account: string, selected: seq<Selection>, k: string): (i: nat)
    ensures i <= |selected| && (i < |selected| ==> Key(account, selected[i].folder) == k)
    ensures forall j | 0 <= j < |selected| && (j > i || i == |selected|) :: Key(account, selected[j].folder) != k
  {
    if selected == [] then 0
    else if Key(account, selected[|selected| - 1].folder) == k then |selected| - 1
    else
      var i := LastOf(account, selected[..|selected| - 1], k);
      if i == |selected| - 1 then |selected| else i
  }

  /** The last selection of a folder that got past SELECT is what is recorded of it. */
  lemma {:induction false} EnteredExactly(st: Copies, account: string, selected: seq<Selection>, k: string)
    ensures var before, after := st.mem.uidvalidity, Entered(st, account, selected).mem.uidvalidity;
            var i := LastOf(account, selected, k);
            if i < |selected| then k in after && after[k] == selected[i].validity
            else (k in after <==> k in before) && (k in after ==> after[k] == before[k])
  {
    if selected != [] {
      EnteredExactly(st, account, selected[..|selected| - 1], k);
    }
  }

  /** When no save succeeds the file stays as it was. */
  lemma {:induction false} UnsavedSync(c: Config, st: Copies, account: string, s: Script)
    requires !s.unpinSaves && !s.pinSaves && forall i | 0 <= i < |s.selected| :: !s.selected[i].saves
    ensures Sync(c, st, account, s).copies.disk == st.disk
  {
    EnteredUnsaved(st, account, s.selected);
  }

  lemma {:induction false} EnteredUnsaved(st: Copies, account: string, selected: seq<Selection>)
    requires forall i | 0 <= i < |selected| :: !selected[i].saves
    ensures Entered(st, account, selected).disk == st.disk
  {
    if selected != [] {
      EnteredUnsaved(st, account, selected[..|selected| - 1]);
    }
  }

  // ----- Every run of syncs, config edits, other saves and restarts -----

  /** `ever` are the accounts that entered IMAP; `forgotten` those of them that a restarted
      process was not shown in IMAP by the file; `mixed` those that an "auto" sync took to POP3
      after they had entered IMAP. */
  datatype World = World(
    configs: map<string, Config>, copies: Copies, ever: set<string>, forgotten: set<string>, mixed: set<string>)

  datatype Event =
    | Edit(account: string, config: Config)
    | SyncEvent(account: string, script: Script)
    | SaveElsewhere(saves: bool)
    | Restart

  function Step(w: World, e: Event): World {
    match e
    case Edit(a, c) => w.(configs := w.configs[a := c])
    case SyncEvent(a, s) =>
      if a !in w.configs then w
      else
        var o := Sync(w.configs[a], w.copies, a, s);
        w.(copies := o.copies, ever := if o.entered then w.ever + {a} else w.ever,
           mixed := if o.route.ByPop3? && w.configs[a].protocol.Auto? && a in w.ever then w.mixed + {a} else w.mixed)
    case SaveElsewhere(saves) => w.(copies := w.copies.Saved(w.copies.mem, saves))
    case Restart =>
      w.(copies := w.copies.(mem := w.copies.disk),
         forgotten := w.forgotten + set a | a in w.ever && !ShowsImap(w.copies.disk, a))
  }

  function Run(w: World, es: seq<Event>): World {
    if es == [] then w else Step(Run(w, es[..|es| - 1]), es[|es| - 1])
  }

  /** The process knows of every account in IMAP that was not forgotten, and only forgotten ones
      were taken to POP3. */
  ghost predicate Inv(w: World) {
    (forall a | a in w.ever && a !in w.forgotten :: ShowsImap(w.copies.mem, a)) && w.mixed <= w.forgotten
  }

  ghost predicate Start(w: World) {
    w.copies == Copies(EMPTY_DATA, EMPTY_DATA) && w.ever == {} && w.forgotten == {} && w.mixed == {}
  }

  lemma {:induction false} StepKeeps(w: World, e: Event)
    requires Inv(w)
    ensures Inv(Step(w, e))
  {
    if e.SyncEvent? && e.account in w.configs {
      var a, o := e.account, Sync(w.configs[e.account], w.copies, e.account, e.script);
      SyncFacts(w.configs[a], w.copies, a, e.script);
      forall x | x in Step(w, e).ever && x !in w.forgotten
        ensures ShowsImap(o.copies.mem, x)
      {
        if x in w.ever {
          HistoryGrows(w.copies.mem, o.copies.mem, x);
        }
      }
    }
  }

  predicate ScriptSaves(s: Script) {
    s.unpinSaves && s.pinSaves && forall i | 0 <= i < |s.selected| :: s.selected[i].saves
  }

  predicate Saves(e: Event) {
    (e.SyncEvent? ==> ScriptSaves(e.script)) && (e.SaveElsewhere? ==> e.saves)
  }

  ghost predicate AllSave(es: seq<Event>) { forall i | 0 <= i < |es| :: Saves(es[i]) }

  lemma {:induction false} EnteredSaved(st: Copies, account: string, selected: seq<Selection>)
    requires st.mem == st.disk && forall i | 0 <= i < |selected| :: selected[i].saves
    ensures var st' := Entered(st, account, selected); st'.mem == st'.disk
  {
    if selected != [] {
      EnteredSaved(st, account, selected[..|selected| - 1]);
    }
  }

  lemma {:induction false} SyncSaved(c: Config, st: Copies, account: string, s: Script)
    requires st.mem == st.disk && ScriptSaves(s)
    ensures var o := Sync(c, st, account, s); o.copies.mem == o.copies.disk
  {
    EnteredSaved(Unpinned(st, account, true), account, s.selected);
  }

  lemma {:induction false} SavedRun(w: World, es: seq<Event>)
    requires Start(w) && AllSave(es)
    ensures var w' := Run(w, es); w'.copies.mem == w'.copies.disk && w'.forgotten == {} && Inv(w')
  {
    if es != [] {
      var init, e := es[..|es| - 1], es[|es| - 1];
      SavedRun(w, init);
      StepKeeps(Run(w, init), e);
      if e.SyncEvent? && e.account in Run(w, init).configs {
        SyncSaved(Run(w, init).configs[e.account], Run(w, init).copies, e.account, e.script);
      }
    }
  }

  /** In every run of syncs, config edits, failing saves and restarts, whatever the account ids:
      no "auto" POP3 sync follows an entry into IMAP unless a restart forgot it, which happens
      exactly when the file on disk then does not show the account in IMAP; and if every save
      succeeds nothing is ever forgotten. */
  lemma {:induction false} OneNamespace(w: World, es: seq<Event>)
    requires Start(w)
    ensures Inv(Run(w, es)) && Run(w, es).mixed <= Run(w, es).forgotten
    ensures AllSave(es) ==> Run(w, es).forgotten == {} && Run(w, es).mixed == {}
  {
    RunKeeps(w, es);
    if AllSave(es) {
      SavedRun(w, es);
    }
  }

  lemma {:induction false} RunKeeps(w: World, es: seq<Event>)
    requires Inv(w)
    ensures Inv(Run(w, es))
  {
    if es != [] {
      RunKeeps(w, es[..|es| - 1]);
      StepKeeps(Run(w, es[..|es| - 1]), es[|es| - 1]);
    }
  }

  /** A restart can lead an account in IMAP to POP3 exactly when the file on disk does not show
      it there, provided its configuration allows a fallback at all. */
  lemma {:induction false} MixesAfterRestartExactlyWhen(w: World, a: string)
    requires a in w.ever && a !in w.mixed && a in w.configs && MayFallBack(w.configs[a])
    ensures (exists s :: a in Step(Step(w, Restart), SyncEvent(a, s)).mixed) <==> !ShowsImap(w.copies.disk, a)
  {
    var w1 := Step(w, Restart);
    FallsBackExactlyWhen(w.configs[a], w1.copies, a);
    forall s
      ensures a in Step(w1, SyncEvent(a, s)).mixed <==> Sync(w.configs[a], w1.copies, a, s).route.ByPop3?
    {
    }
  }

  /** For example: an account enters IMAP and the save fails; the next sync has nothing new to
      record and fetches mail by IMAP; the process restarts, and a sync then ends in POP3. */
  lemma {:induction false} UnsavedEntryMixes() returns (w: World, first: Script, second: Script, third: Script)
    ensures Start(w) && "a" in w.configs
    ensures var w1 := Step(w, SyncEvent("a", first));
            var w2 := Step(w1, SyncEvent("a", second));
            && Sync(w.configs["a"], w1.copies, "a", second).route.ByImap?
            && "a" in Step(Step(w2, Restart), SyncEvent("a", third)).mixed
  {
    var c, inbox := Config(Auto, false, false, ["INBOX"]), Selection("INBOX", 7, false);
    w := World(map["a" := c], Copies(EMPTY_DATA, EMPTY_DATA), {}, {}, {});
    first := Script(true, None, [inbox], Some(Aborted), true, true);
    second := Script(true, None, [inbox], None, true, true);
    var w1 := Step(w, SyncEvent("a", first));
    var w2 := Step(w1, SyncEvent("a", second));
    ExampleEntry(w.copies, inbox);
    ExampleEntry(w1.copies, inbox);
    assert !HasImapHistory(w.copies.mem, "a") && !Pinned(w.copies.mem, "a");
    SyncFacts(c, w.copies, "a", first);
    MixesAfterRestartExactlyWhen(w2, "a");
    third :| "a" in Step(Step(w2, Restart), SyncEvent("a", third)).mixed;
  }

  lemma {:induction false} ExampleEntry(st: Copies, inbox: Selection)
    requires !inbox.saves && st.disk == EMPTY_DATA
    ensures Entered(st, "a", [inbox]) == Recorded(st, "a", inbox) && Recorded(st, "a", inbox).disk == EMPTY_DATA
    ensures HasImapHistory(Recorded(st, "a", inbox).mem, "a")
  {
    assert [inbox][..0] == [];
    EnteredHistory(st, "a", [inbox]);
  }

  // ----- The shared key prefix -----

  /** Two different ids of which one, followed by a bar, begins the other. */
  predicate Clash(a: string, b: string) { a + "|" <= b || b + "|" <= a }

  /** History is looked up by the prefix `account|`. A key recorded for account `b` can answer
      such a lookup for `a` exactly when they are the same account or their ids clash. */
  lemma {:induction false} LookupMeetsExactlyWhen(a: string, b: string)
    ensures (exists folder :: a + "|" <= Key(b, folder)) <==> a == b || Clash(a, b)
  {
    if a == b {
      assert a + "|" <= Key(b, "");
    } else if a + "|" <= b {
      assert a + "|" <= Key(b, "");
    } else if b + "|" <= a {
      var folder := a[|b| + 1..] + "|";
      assert Key(b, folder) == a + "|";
    }
    forall folder | a + "|" <= Key(b, folder)
      ensures a == b || Clash(a, b)
    {
      KeyMeets(a, b, folder);
    }
  }

  lemma {:induction false} KeyMeets(a: string, b: string, folder: string)
    requires a + "|" <= Key(b, folder)
    ensures a == b || Clash(a, b)
  {
    var k, p, q := Key(b, folder), a + "|", b + "|";
    assert q <= k;
    if |a| == |b| {
      assert a == k[..|a|] && b == k[..|b|];
    } else if |a| < |b| {
      assert b == k[..|b|];
      assert p <= b;
    } else {
      assert a == k[..|a|];
      assert q <= a;
    }
  }

  /** When they clash, one sync of `b` is enough to make `a`, which never entered IMAP, look as
      if it had, pinned or not. */
  lemma {:induction false} ClashMisleads(st: Copies, a: string, b: string, validity: int) returns (folder: string)
    requires a != b && Clash(a, b)
    ensures var after := Entered(st, b, [Selection(folder, validity, true)]).mem;
            HasImapHistory(after, a) && (Pinned(st.mem, a) ==> Pinned(after, a))
  {
    LookupMeetsExactlyWhen(a, b);
    folder :| a + "|" <= Key(b, folder);
    assert [Selection(folder, validity, true)][..0] == [];
    assert Key(b, folder) in Entered(st, b, [Selection(folder, validity, true)]).mem.uidvalidity;
  }

  /** No pin stands beside a history, in either copy. */
  ghost predicate PinApart(st: Copies, a: string) {
    && (Pinned(st.mem, a) ==> !HasImapHistory(st.mem, a))
    && (Pinned(st.disk, a) ==> !HasImapHistory(st.disk, a))
  }

  lemma {:induction false} RecordedApart(st: Copies, account: string, s: Selection, a: string)
    requires PinApart(st, a) && if a == account then !Pinned(st.mem, a) else !Clash(a, account)
    ensures PinApart(Recorded(st, account, s), a) && (a == account ==> !Pinned(Recorded(st, account, s).mem, a))
  {
    var mem, key := Recorded(st, account, s).mem, Key(account, s.folder);
    if a != account && HasImapHistory(mem, a) {
      var k :| k in mem.uidvalidity && a + "|" <= k;
      if k == key {
        KeyMeets(a, account, s.folder);
      }
      assert k in st.mem.uidvalidity;
    }
  }

  lemma {:induction false} EnteredApart(st: Copies, account: string, selected: seq<Selection>, a: string)
    requires PinApart(st, a) && if a == account then !Pinned(st.mem, a) else !Clash(a, account)
    ensures var st' := Entered(st, account, selected); PinApart(st', a) && (a == account ==> !Pinned(st'.mem, a))
  {
    if selected != [] {
      EnteredApart(st, account, selected[..|selected| - 1], a);
      RecordedApart(Entered(st, account, selected[..|selected| - 1]), account, selected[|selected| - 1], a);
    }
  }

  lemma {:induction false} PinnedApart(st: Copies, account: string, pinned: bool, saves: bool, a: string)
    requires PinApart(st, a) && (pinned && a == account ==> !HasImapHistory(st.mem, a))
    ensures PinApart(st.Saved(SetPin(st.mem, account, pinned), saves), a)
  {
    SameHistory(st.mem, SetPin(st.mem, account, pinned), a);
  }

  lemma {:induction false} FaultApart(c: Config, st: Copies, account: string, f: Fault, s: Script,
                                       entered: bool, a: string)
    requires PinApart(st, a)
    ensures PinApart(AfterFault(c, st, account, f, s, entered).copies, a)
  {
    if SafeFallback(c, st.mem, account, f) {
      PinnedApart(st, account, true, s.pinSaves, a);
    }
  }

  lemma {:induction false} SyncApart(c: Config, st: Copies, account: string, s: Script, a: string)
    requires PinApart(st, a) && (a == account || !Clash(a, account) || !Sync(c, st, account, s).entered)
    ensures PinApart(Sync(c, st, account, s).copies, a)
  {
    PinnedApart(st, account, false, false, a);
    PinnedApart(st, account, false, true, a);
    var st1 := Unpinned(st, account, true);
    if s.connect.Some? {
      FaultApart(c, st1, account, s.connect.value, s, false, a);
    } else if s.selected == [] || a == account || !Clash(a, account) {
      if s.selected != [] {
        EnteredApart(st1, account, s.selected, a);
      }
      if s.mailbox.Some? {
        FaultApart(c, Entered(st1, account, s.selected), account, s.mailbox.value, s, s.selected != [], a);
      }
    }
  }

  /** In any run, whatever saves fail: neither the process nor the file on disk ever has a pinned
      account with IMAP history, as long as its id clashes with none of those that entered IMAP. */
  lemma {:induction false} PinnedNeverHasHistory(w: World, es: seq<Event>, a: string)
    requires Start(w) && forall b | b in Run(w, es).ever :: !Clash(a, b)
    ensures PinApart(Run(w, es).copies, a)
  {
    if es != [] {
      var w1, e := Run(w, es[..|es| - 1]), es[|es| - 1];
      PinnedNeverHasHistory(w, es[..|es| - 1], a);
      if e.SyncEvent? && e.account in w1.configs {
        SyncApart(w1.configs[e.account], w1.copies, e.account, e.script, a);
      }
    }
  }
}
