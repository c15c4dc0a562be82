/** The restartable migration renderer (db/render_idempotent_d1_migration.py): it keeps only the
    `ADD COLUMN` statements whose column the table does not have yet.

    A migration is its list of statements; SQLite adds a column unless the table has one of
    that name, whatever the case of its letters. Column definitions are ones SQLite can add to
    a table, and the other statements do not touch the table's columns. */
module Migration {
  import opened Wrappers

  datatype Stmt = AddColumn(name: string, definition: string) | Other(text: string)

  datatype RenderError = NoAddColumn

  // ----- Rendering -----

  function Adds(stmts: seq<Stmt>): seq<Stmt> { Keep((s: Stmt) => s.AddColumn?, stmts) }

  function Others(stmts: seq<Stmt>): seq<Stmt> { Keep((s: Stmt) => s.Other?, stmts) }

  function Keep(p: Stmt -> bool, stmts: seq<Stmt>): seq<Stmt> {
    if stmts == [] then []
    else
      var rest := Keep(p, stmts[..|stmts| - 1]);
      if p(stmts[|stmts| - 1]) then rest + [stmts[|stmts| - 1]] else rest
  }

  /** The `ADD COLUMN` statements for columns that `existing` lacks, compared letter by letter. */
  function Missing(stmts: seq<Stmt>, existing: set<string>): seq<Stmt> {
    Keep((s: Stmt) => s.AddColumn? && s.name !in existing, stmts)
  }

  function Rendered(stmts: seq<Stmt>, existing: set<string>): Result<seq<Stmt>, RenderError> {
    if Adds(stmts) == [] then Err(NoAddColumn)
    else if existing == {} then Ok([])
    else Ok(Missing(stmts, existing) + Others(stmts))
  }

  /** `render_migration`. */
  method RenderMigration(stmts: seq<Stmt>, existing: set<string>) returns (r: Result<seq<Stmt>, RenderError>)
    ensures r == Rendered(stmts, existing)
  {
    var alters, body := [], [];
    for i := 0 to |stmts|
      invariant alters == Adds(stmts[..i]) && body == Others(stmts[..i])
    {
      assert stmts[..i + 1][..i] == stmts[..i];
      if stmts[i].AddColumn? {
        alters := alters + [stmts[i]];
      } else {
        body := body + [stmts[i]];
      }
    }
    assert stmts[..|stmts|] == stmts;
    if alters == [] {
      return Err(NoAddColumn);
    }
    if existing == {} {
      return Ok([]);
    }
    MissingOfAdds(stmts, existing);
    var missing := [];
    for i := 0 to |alters|
      invariant missing == Missing(alters[..i], existing)
      invariant forall k | 0 <= k < |alters| :: alters[k].AddColumn?
    {
      assert alters[..i + 1][..i] == alters[..i];
      if alters[i].name !in existing {
        missing := missing + [alters[i]];
      }
    }
    assert alters[..|alters|] == alters;
    r := Ok(missing + body);
  }

  lemma {:induction false} MissingOfAdds(stmts: seq<Stmt>, existing: set<string>)
    ensures Missing(Adds(stmts), existing) == Missing(stmts, existing)
    ensures forall k | 0 <= k < |Adds(stmts)| :: Adds(stmts)[k].AddColumn?
  {
    if stmts != [] {
      var front, last := stmts[..|stmts| - 1], stmts[|stmts| - 1];
      MissingOfAdds(front, existing);
      if last.AddColumn? {
        assert Adds(stmts)[..|Adds(stmts)| - 1] == Adds(front);
      }
    }
  }

  /** The positions of the additions of columns that are not there, and of everything else. */
  function MissingAt(stmts: seq<Stmt>, existing: set<string>): set<nat> {
    set i: nat | i < |stmts| && stmts[i].AddColumn? && stmts[i].name !in existing
  }

  function OtherAt(stmts: seq<Stmt>): set<nat> { set i: nat | i < |stmts| && !stmts[i].AddColumn? }

  /** `part` holds the statements at exactly these positions, each once and in their order. */
  ghost predicate Picks(stmts: seq<Stmt>, positions: set<nat>, part: seq<Stmt>, at: seq<nat>) {
    && |at| == |part| && (forall k | 0 <= k < |at| :: at[k] < |stmts| && stmts[at[k]] == part[k])
    && (forall j, k | 0 <= j < k < |at| :: at[j] < at[k])
    && (forall i :: i in positions <==> i in at)
  }

  ghost predicate PicksSome(stmts: seq<Stmt>, positions: set<nat>, part: seq<Stmt>) {
    exists at: seq<nat> :: Picks(stmts, positions, part, at)
  }

  /** `out` has every missing addition first, then everything that adds no column. */
  ghost predicate DrawnFrom(stmts: seq<Stmt>, existing: set<string>, out: seq<Stmt>) {
    exists n: nat :: n <= |out| && PicksSome(stmts, MissingAt(stmts, existing), out[..n])
                     && PicksSome(stmts, OtherAt(stmts), out[n..])
  }

  /** The positions at which `kept` was kept. */
  ghost predicate KeptAt(p: Stmt -> bool, stmts: seq<Stmt>, kept: seq<Stmt>, at: seq<nat>) {
    && |at| == |kept| && (forall k | 0 <= k < |at| :: at[k] < |stmts| && stmts[at[k]] == kept[k] && p(kept[k]))
    && (forall j, k | 0 <= j < k < |at| :: at[j] < at[k])
    && (forall i | 0 <= i < |stmts| && p(stmts[i]) :: i in at)
  }

  lemma {:induction false} KeepPositions(p: Stmt -> bool, stmts: seq<Stmt>) returns (at: seq<nat>)
    ensures KeptAt(p, stmts, Keep(p, stmts), at)
  {
    at := [];
    if stmts != [] {
      var init, x := stmts[..|stmts| - 1], stmts[|stmts| - 1];
      var before := KeepPositions(p, init);
      KeptNext(p, init, Keep(p, init), before, x);
      assert stmts == init + [x];
      at := if p(x) then before + [|init|] else before;
    }
  }

  lemma {:induction false} KeptNext(p: Stmt -> bool, init: seq<Stmt>, kept: seq<Stmt>, at: seq<nat>, x: Stmt)
    requires KeptAt(p, init, kept, at)
    ensures p(x) ==> KeptAt(p, init + [x], kept + [x], at + [|init|])
    ensures !p(x) ==> KeptAt(p, init + [x], kept, at)
  {
    var all := init + [x];
    assert all[|init|] == x && forall i | 0 <= i < |init| :: all[i] == init[i];
    if p(x) {
      var more := at + [|init|];
      assert more[|at|] == |init|;
      assert forall i | i in at :: i in more;
      assert forall k | 0 <= k < |at| :: all[at[k]] == kept[k];
    }
  }

  /** The rendering by positions: an error exactly when no column is to be added; nothing for a
      table that is not there; otherwise every missing addition, then all the rest. */
  lemma {:induction false} RenderExactly(stmts: seq<Stmt>, existing: set<string>)
    ensures var r := Rendered(stmts, existing);
            if forall i | 0 <= i < |stmts| :: !stmts[i].AddColumn? then r == Err(NoAddColumn)
            else if existing == {} then r == Ok([])
            else r.Ok? && DrawnFrom(stmts, existing, r.value)
  {
    var added := KeepPositions((s: Stmt) => s.AddColumn?, stmts);
    if i :| 0 <= i < |stmts| && stmts[i].AddColumn? {
      assert i in added;
    }
    if Adds(stmts) != [] {
      assert stmts[added[0]].AddColumn?;
    }
    DrawnIs(stmts, existing);
  }

  lemma {:induction false} DrawnIs(stmts: seq<Stmt>, existing: set<string>)
    ensures DrawnFrom(stmts, existing, Missing(stmts, existing) + Others(stmts))
  {
    var first := KeepPositions((s: Stmt) => s.AddColumn? && s.name !in existing, stmts);
    var rest := KeepPositions((s: Stmt) => s.Other?, stmts);
    var m, others := Missing(stmts, existing), Others(stmts);
    assert Picks(stmts, MissingAt(stmts, existing), m, first);
    assert Picks(stmts, OtherAt(stmts), others, rest);
    assert (m + others)[..|m|] == m && (m + others)[|m|..] == others;
  }

  // ----- Executing -----

  function LowerChar(c: char): char { if 'A' <= c <= 'Z' then c + 32 as char else c }

  function Lower(s: string): string { seq(|s|, i requires 0 <= i < |s| => LowerChar(s[i])) }

  /** SQLite's own test: column names differ only when they differ in more than case. */
  ghost predicate HasColumn(columns: seq<string>, name: string) {
    exists i | 0 <= i < |columns| :: Lower(columns[i]) == Lower(name)
  }

  datatype SqlError = DuplicateColumn(name: string)

  /** A statement that was carried out, and the columns the table had then. */
  datatype Done = Done(on: seq<string>, stmt: Stmt)

  datatype Ran = Ran(columns: seq<string>, done: seq<Done>)

  ghost function Execute(columns: seq<string>, stmts: seq<Stmt>): Result<Ran, SqlError>
    decreases |stmts|
  {
    if stmts == [] then Ok(Ran(columns, []))
    else
      match stmts[0]
      case Other(_) => After(Done(columns, stmts[0]), Execute(columns, stmts[1..]))
      case AddColumn(name, _) =>
        if HasColumn(columns, name) then Err(DuplicateColumn(name))
        else After(Done(columns, stmts[0]), Execute(columns + [name], stmts[1..]))
  }

  function After(first: Done, r: Result<Ran, SqlError>): Result<Ran, SqlError> {
    if r.Err? then r else Ok(r.value.(done := [first] + r.value.done))
  }

  function NamesOf(columns: seq<string>): set<string> { set c | c in columns }

  /** Deployment: render for the columns observed, then execute; `cut` statements only, if the
      run dies there. */
  ghost function Deploy(columns: seq<string>, stmts: seq<Stmt>, cut: nat): Result<Ran, SqlError>
    requires Adds(stmts) != []
  {
    var rendered := Rendered(stmts, NamesOf(columns)).value;
    Execute(columns, if cut < |rendered| then rendered[..cut] else rendered)
  }

  /** A run that does not die. */
  ghost function CleanRun(columns: seq<string>, stmts: seq<Stmt>): Result<Ran, SqlError>
    requires Adds(stmts) != []
  {
    Execute(columns, Rendered(stmts, NamesOf(columns)).value)
  }

  /** Runs that die after so many statements, each rendered for what the one before left. */
  ghost function DeployAgain(columns: seq<string>, stmts: seq<Stmt>, cuts: seq<nat>): Result<seq<string>, SqlError>
    requires Adds(stmts) != []
    decreases |cuts|
  {
    if cuts == [] then Ok(columns)
    else
      var r := Deploy(columns, stmts, cuts[0]);
      if r.Err? then Err(r.error) else DeployAgain(r.value.columns, stmts, cuts[1..])
  }

  // ----- When a migration runs without error -----

  function Names(adds: seq<Stmt>): seq<string>
    requires forall k | 0 <= k < |adds| :: adds[k].AddColumn?
  {
    seq(|adds|, i requires 0 <= i < |adds| => adds[i].name)
  }

  /** No missing column repeats, but for the case of its letters, one the table has or another
      missing one. */
  ghost predicate Clashless(columns: seq<string>, adds: seq<Stmt>)
    requires forall k | 0 <= k < |adds| :: adds[k].AddColumn?
  {
    && (forall k | 0 <= k < |adds| :: !HasColumn(columns, adds[k].name))
    && (forall j, k | 0 <= j < k < |adds| :: Lower(adds[j].name) != Lower(adds[k].name))
  }

  lemma {:induction false} KeptSatisfy(p: Stmt -> bool, stmts: seq<Stmt>)
    ensures forall k | 0 <= k < |Keep(p, stmts)| :: p(Keep(p, stmts)[k])
  {
    if stmts != [] {
      KeptSatisfy(p, stmts[..|stmts| - 1]);
    }
  }

  lemma {:induction false} MissingAreAdds(stmts: seq<Stmt>, existing: set<string>)
    ensures forall k | 0 <= k < |Missing(stmts, existing)| ::
      Missing(stmts, existing)[k].AddColumn? && Missing(stmts, existing)[k].name !in existing
  {
    KeptSatisfy((s: Stmt) => s.AddColumn? && s.name !in existing, stmts);
  }

  lemma {:induction false} OthersAreOther(stmts: seq<Stmt>)
    ensures forall k | 0 <= k < |Others(stmts)| :: Others(stmts)[k].Other?
  {
    KeptSatisfy((s: Stmt) => s.Other?, stmts);
  }

  lemma {:induction false} HasColumnAppend(columns: seq<string>, added: string, name: string)
    ensures HasColumn(columns + [added], name) <==> HasColumn(columns, name) || Lower(added) == Lower(name)
  {
    var all := columns + [added];
    if HasColumn(columns, name) {
      var i :| 0 <= i < |columns| && Lower(columns[i]) == Lower(name);
      assert all[i] == columns[i];
    }
    assert all[|columns|] == added;
  }

  lemma {:induction false} ClashlessTail(columns: seq<string>, adds: seq<Stmt>)
    requires adds != [] && forall k | 0 <= k < |adds| :: adds[k].AddColumn?
    requires !HasColumn(columns, adds[0].name)
    ensures Clashless(columns, adds) <==> Clashless(columns + [adds[0].name], adds[1..])
  {
    forall k | 1 <= k < |adds|
      ensures HasColumn(columns + [adds[0].name], adds[k].name)
              <==> HasColumn(columns, adds[k].name) || Lower(adds[0].name) == Lower(adds[k].name)
    {
      HasColumnAppend(columns, adds[0].name, adds[k].name);
    }
    var rest := adds[1..];
    assert forall k | 0 <= k < |rest| :: rest[k] == adds[k + 1];
    assert forall k | 1 <= k < |adds| :: adds[k] == rest[k - 1];
  }

  /** These statements were carried out in this order. */
  ghost predicate Did(done: seq<Done>, stmts: seq<Stmt>) {
    |done| == |stmts| && forall k | 0 <= k < |done| :: done[k].stmt == stmts[k]
  }

  /** Everything that is no addition was done on these columns. */
  ghost predicate OthersOn(done: seq<Done>, columns: seq<string>) {
    forall k | 0 <= k < |done| && !done[k].stmt.AddColumn? :: done[k].on == columns
  }

  lemma {:induction false} OthersExecute(columns: seq<string>, others: seq<Stmt>)
    requires forall k | 0 <= k < |others| :: others[k].Other?
    ensures var r := Execute(columns, others);
            r.Ok? && r.value.columns == columns && Did(r.value.done, others) && OthersOn(r.value.done, columns)
  {
    if others != [] {
      OthersExecute(columns, others[1..]);
    }
  }

  /** Adding columns and then doing the rest fails exactly when some column clashes. */
  lemma {:induction false} ExecuteExactly(columns: seq<string>, adds: seq<Stmt>, others: seq<Stmt>)
    requires forall k | 0 <= k < |adds| :: adds[k].AddColumn?
    requires forall k | 0 <= k < |others| :: others[k].Other?
    ensures var r := Execute(columns, adds + others);
            && (r.Ok? <==> Clashless(columns, adds))
            && (r.Ok? ==> r.value.columns == columns + Names(adds) && Did(r.value.done, adds + others)
                          && OthersOn(r.value.done, columns + Names(adds)))
    decreases |adds|
  {
    if adds == [] {
      assert adds + others == others && columns + Names(adds) == columns;
      OthersExecute(columns, others);
    } else {
      assert (adds + others)[1..] == adds[1..] + others;
      if !HasColumn(columns, adds[0].name) {
        ClashlessTail(columns, adds);
        ExecuteExactly(columns + [adds[0].name], adds[1..], others);
        assert columns + Names(adds) == columns + [adds[0].name] + Names(adds[1..]);
      }
    }
  }

  /** Whether the columns to add are fit for the table: for a deployment to check beforehand. */
  ghost predicate Fits(columns: seq<string>, stmts: seq<Stmt>) {
    MissingAreAdds(stmts, NamesOf(columns));
    Clashless(columns, Missing(stmts, NamesOf(columns)))
  }

  /** A clean run of a migration on a table succeeds exactly when no missing column differs
      from an existing or another missing one in case alone, or not at all. */
  lemma {:induction false} ErrorFreeExactlyWhen(columns: seq<string>, stmts: seq<Stmt>)
    requires columns != [] && Adds(stmts) != []
    ensures CleanRun(columns, stmts).Ok? <==> Fits(columns, stmts)
  {
    MissingAreAdds(stmts, NamesOf(columns));
    OthersAreOther(stmts);
    assert columns[0] in NamesOf(columns);
    ExecuteExactly(columns, Missing(stmts, NamesOf(columns)), Others(stmts));
  }

  /** The renderer compares letter by letter and SQLite does not: on a table with `Provider`
      it keeps the statement that adds `provider`, and that statement fails. */
  lemma {:induction false} CaseOnlyClashFails()
    ensures CleanRun(["Provider"], [AddColumn("provider", "TEXT")]) == Err(DuplicateColumn("provider"))
  {
    var stmts := [AddColumn("provider", "TEXT")];
    var columns: seq<string> := ["Provider"];
    assert stmts[..0] == [];
    assert columns[0] in NamesOf(columns);
    assert "provider" !in NamesOf(columns) by {
      assert "provider"[0] != "Provider"[0];
    }
    assert Lower(columns[0]) == Lower("provider");
    assert Missing(stmts, NamesOf(columns)) == stmts && Others(stmts) == [];
    assert Rendered(stmts, NamesOf(columns)).value == stmts + [];
    assert stmts + [] == stmts;
  }

  // ----- Restarting -----

  lemma {:induction false} MissingShrinks(stmts: seq<Stmt>, existing: set<string>, added: set<string>)
    ensures Missing(stmts, existing + added)
            == Keep((s: Stmt) => s.AddColumn? && s.name !in added, Missing(stmts, existing))
  {
    if stmts != [] {
      var front, last := stmts[..|stmts| - 1], stmts[|stmts| - 1];
      MissingShrinks(front, existing, added);
      var m := Missing(stmts, existing);
      if last.AddColumn? && last.name !in existing {
        assert m[..|m| - 1] == Missing(front, existing);
      }
    }
  }

  lemma {:induction false} KeepDrops(adds: seq<Stmt>, k: nat, added: set<string>)
    requires k <= |adds| && forall i | 0 <= i < |adds| :: adds[i].AddColumn?
    requires forall i | 0 <= i < |adds| :: adds[i].name in added <==> i < k
    ensures Keep((s: Stmt) => s.AddColumn? && s.name !in added, adds) == adds[k..]
  {
    if adds != [] {
      var front := adds[..|adds| - 1];
      if k < |adds| {
        KeepDrops(front, k, added);
        assert adds[k..] == front[k..] + [adds[|adds| - 1]];
      } else {
        KeepDrops(front, k - 1, added);
        assert front[k - 1..] == [] && adds[k..] == [];
      }
    }
  }

  /** After `k` columns were added, the next rendering asks for the others, in order. */
  lemma {:induction false} NextRendering(columns: seq<string>, stmts: seq<Stmt>, k: nat)
    requires Fits(columns, stmts) && k <= |Missing(stmts, NamesOf(columns))|
    ensures forall i | 0 <= i < |Missing(stmts, NamesOf(columns))| :: Missing(stmts, NamesOf(columns))[i].AddColumn?
    ensures Missing(stmts, NamesOf(columns + Names(Missing(stmts, NamesOf(columns))[..k])))
            == Missing(stmts, NamesOf(columns))[k..]
  {
    var m := Missing(stmts, NamesOf(columns));
    MissingAreAdds(stmts, NamesOf(columns));
    var added := NamesOf(Names(m[..k]));
    forall i | 0 <= i < |m|
      ensures m[i].name in added <==> i < k
    {
      assert i < k ==> Names(m[..k])[i] == m[i].name;
    }
    assert NamesOf(columns + Names(m[..k])) == NamesOf(columns) + added;
    MissingShrinks(stmts, NamesOf(columns), added);
    KeepDrops(m, k, added);
  }

  lemma {:induction false} ClashlessPrefix(columns: seq<string>, adds: seq<Stmt>, k: nat)
    requires k <= |adds| && forall i | 0 <= i < |adds| :: adds[i].AddColumn?
    requires Clashless(columns, adds)
    ensures Clashless(columns, adds[..k]) && Clashless(columns + Names(adds[..k]), adds[k..])
  {
    if k > 0 {
      ClashlessPrefix(columns, adds, k - 1);
      var before := columns + Names(adds[..k - 1]);
      ClashlessTail(before, adds[k - 1..]);
      assert adds[k - 1..][1..] == adds[k..] && adds[k - 1..][0] == adds[k - 1];
      assert columns + Names(adds[..k]) == before + [adds[k - 1].name];
    } else {
      assert adds[..0] == [] && columns + Names(adds[..0]) == columns && adds[0..] == adds;
    }
  }

  /** How many columns a run that dies after `cut` statements has added. */
  function Reached(cut: nat, missing: nat): nat { if cut < missing then cut else missing }

  lemma {:induction false} OneRun(columns: seq<string>, stmts: seq<Stmt>, cut: nat)
    requires columns != [] && Adds(stmts) != [] && Fits(columns, stmts)
    ensures var m := Missing(stmts, NamesOf(columns));
            (forall i | 0 <= i < |m| :: m[i].AddColumn?)
            && Deploy(columns, stmts, cut).Ok?
            && Deploy(columns, stmts, cut).value.columns == columns + Names(m[..Reached(cut, |m|)])
  {
    var m, others := Missing(stmts, NamesOf(columns)), Others(stmts);
    MissingAreAdds(stmts, NamesOf(columns));
    OthersAreOther(stmts);
    assert columns[0] in NamesOf(columns);
    var k := Reached(cut, |m|);
    ClashlessPrefix(columns, m, k);
    var rendered := m + others;
    if cut < |rendered| {
      var tail := if cut < |m| then [] else others[..cut - |m|];
      assert rendered[..cut] == m[..k] + tail;
      ExecuteExactly(columns, m[..k], tail);
    } else {
      assert m[..k] == m;
      ExecuteExactly(columns, m, others);
    }
  }

  /** A run that dies leaves a table that still fits, from which a clean run ends in the same
      columns, in the same order. */
  lemma {:induction false} RunIsProgress(columns: seq<string>, stmts: seq<Stmt>, cut: nat)
    requires columns != [] && Adds(stmts) != [] && Fits(columns, stmts)
    ensures var r := Deploy(columns, stmts, cut);
            r.Ok? && r.value.columns != [] && Fits(r.value.columns, stmts)
            && CleanRun(columns, stmts).Ok? && CleanRun(r.value.columns, stmts).Ok?
            && CleanRun(r.value.columns, stmts).value.columns == CleanRun(columns, stmts).value.columns
  {
    var m := Missing(stmts, NamesOf(columns));
    MissingAreAdds(stmts, NamesOf(columns));
    OneRun(columns, stmts, cut);
    var k := Reached(cut, |m|);
    var after := columns + Names(m[..k]);
    NextRendering(columns, stmts, k);
    ClashlessPrefix(columns, m, k);
    MissingAreAdds(stmts, NamesOf(after));
    FinalColumns(columns, stmts);
    FinalColumns(after, stmts);
    assert after + Names(m[k..]) == columns + Names(m);
  }

  lemma {:induction false} FinalColumns(columns: seq<string>, stmts: seq<Stmt>)
    requires columns != [] && Adds(stmts) != [] && Fits(columns, stmts)
    ensures var m, r := Missing(stmts, NamesOf(columns)), CleanRun(columns, stmts);
            (forall i | 0 <= i < |m| :: m[i].AddColumn?)
            && r.Ok? && r.value.columns == columns + Names(m) && Did(r.value.done, m + Others(stmts))
            && OthersOn(r.value.done, columns + Names(m))
  {
    MissingAreAdds(stmts, NamesOf(columns));
    OthersAreOther(stmts);
    assert columns[0] in NamesOf(columns);
    ExecuteExactly(columns, Missing(stmts, NamesOf(columns)), Others(stmts));
  }

  /** However often a deployment dies and wherever, rendering again for the columns then
      observed never fails, and the run that lives leaves the columns of one clean run. */
  lemma {:induction false} Restartable(columns: seq<string>, stmts: seq<Stmt>, cuts: seq<nat>)
    requires columns != [] && Adds(stmts) != [] && Fits(columns, stmts)
    ensures var r := DeployAgain(columns, stmts, cuts);
            && r.Ok? && r.value != [] && Fits(r.value, stmts)
            && CleanRun(columns, stmts).Ok? && CleanRun(r.value, stmts).Ok?
            && CleanRun(r.value, stmts).value.columns == CleanRun(columns, stmts).value.columns
    decreases |cuts|
  {
    if cuts == [] {
      ErrorFreeExactlyWhen(columns, stmts);
    } else {
      RunIsProgress(columns, stmts, cuts[0]);
      Restartable(Deploy(columns, stmts, cuts[0]).value.columns, stmts, cuts[1..]);
    }
  }

  /** The run that lives carries out what the one table it finds still needs: the missing
      additions, then every other statement, all of those in their order, each once, and on a
      table that has every column of the migration. */
  lemma {:induction false} LivingRunDoesTheRest(columns: seq<string>, stmts: seq<Stmt>, cuts: seq<nat>)
    requires columns != [] && Adds(stmts) != [] && Fits(columns, stmts)
    ensures var before := DeployAgain(columns, stmts, cuts);
            before.Ok? && CleanRun(before.value, stmts).Ok?
            && var done := CleanRun(before.value, stmts).value.done;
               && DrawnFrom(stmts, NamesOf(before.value), seq(|done|, k requires 0 <= k < |done| => done[k].stmt))
               && forall k | 0 <= k < |done| && !done[k].stmt.AddColumn? :: HasAll(done[k].on, stmts)
  {
    Restartable(columns, stmts, cuts);
    var before := DeployAgain(columns, stmts, cuts).value;
    FinalColumns(before, stmts);
    var done := CleanRun(before, stmts).value.done;
    DrawnIs(stmts, NamesOf(before));
    assert seq(|done|, k requires 0 <= k < |done| => done[k].stmt) == Missing(stmts, NamesOf(before)) + Others(stmts);
    forall i | 0 <= i < |stmts| && stmts[i].AddColumn?
      ensures stmts[i].name in before + Names(Missing(stmts, NamesOf(before)))
    {
      HasEveryColumn(before, stmts, i);
    }
  }

  /** The table has every column of the migration. */
  ghost predicate HasAll(columns: seq<string>, stmts: seq<Stmt>) {
    forall i | 0 <= i < |stmts| && stmts[i].AddColumn? :: stmts[i].name in columns
  }

  lemma {:induction false} HasEveryColumn(columns: seq<string>, stmts: seq<Stmt>, i: nat)
    requires i < |stmts| && stmts[i].AddColumn?
    ensures forall k | 0 <= k < |Missing(stmts, NamesOf(columns))| :: Missing(stmts, NamesOf(columns))[k].AddColumn?
    ensures stmts[i].name in columns + Names(Missing(stmts, NamesOf(columns)))
  {
    var m := Missing(stmts, NamesOf(columns));
    MissingAreAdds(stmts, NamesOf(columns));
    var at := KeepPositions((s: Stmt) => s.AddColumn? && s.name !in NamesOf(columns), stmts);
    if stmts[i].name !in NamesOf(columns) {
      var k :| 0 <= k < |at| && at[k] == i;
      assert Names(m)[k] == stmts[i].name;
    }
  }

  /** A clean run leaves a table that has every column of the migration, and the one after it
      adds none. */
  lemma {:induction false} CleanRunIsFinal(columns: seq<string>, stmts: seq<Stmt>)
    requires columns != [] && Adds(stmts) != [] && Fits(columns, stmts)
    ensures CleanRun(columns, stmts).Ok?
    ensures HasAll(CleanRun(columns, stmts).value.columns, stmts)
    ensures Missing(stmts, NamesOf(CleanRun(columns, stmts).value.columns)) == []
  {
    var m := Missing(stmts, NamesOf(columns));
    FinalColumns(columns, stmts);
    NextRendering(columns, stmts, |m|);
    assert m[..|m|] == m && m[|m|..] == [];
    forall i | 0 <= i < |stmts| && stmts[i].AddColumn?
      ensures stmts[i].name in CleanRun(columns, stmts).value.columns
    {
      HasEveryColumn(columns, stmts, i);
    }
  }
}
