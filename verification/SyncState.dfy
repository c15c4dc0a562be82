/** The aggregator's durable cursor file (aggregator/src/one_mail_agg/state.py).

    `Data` is the JSON document. `SyncState` holds it twice: `data` is the copy every
    worker reads and changes, `disk` is what a restarted process would load. A failing
    save leaves `data` changed and `disk` as it was. */
module SyncStates {
  import opened Wrappers

  const POP3_SEEN_MAX: nat := 2000

  datatype Data = Data(
    lastUid: map<string, int>,
    uidvalidity: map<string, int>,
    pop3Seen: map<string, seq<string>>,
    fallback: map<string, bool>)

  const EMPTY_DATA := Data(map[], map[], map[], map[])

  /** The two copies as a value, and what a save does to them. */
  datatype Copies = Copies(mem: Data, disk: Data)
  {
    function Saved(d: Data, saves: bool): Copies { Copies(d, if saves then d else disk) }
  }

  function Key(account: string, folder: string): string {
    account + "|" + folder
  }

  function LastUid(d: Data, key: string): int {
    if key in d.lastUid then d.lastUid[key] else 0
  }

  function Seen(d: Data, key: string): seq<string> {
    if key in d.pop3Seen then d.pop3Seen[key] else []
  }

  function RaisedUid(d: Data, key: string, uid: int): Data {
    if uid > LastUid(d, key) then d.(lastUid := d.lastUid[key := uid]) else d
  }

  /** Folders of one account, and accounts without a bar in their ids, never share a key. */
  lemma {:induction false} KeysApart(a: string, f: string, b: string, g: string)
    requires Key(a, f) == Key(b, g)
    ensures a == b ==> f == g
    ensures '|' !in a && '|' !in b ==> a == b && f == g
  {
    var k := Key(a, f);
    assert k[..|a|] == a && k[|a|] == '|' && k[|a| + 1..] == f;
    assert k[..|b|] == b && k[|b|] == '|' && k[|b| + 1..] == g;
    if |a| < |b| {
      assert b[|a|] == '|';
    } else if |b| < |a| {
      assert a[|b|] == '|';
    }
  }

  /** A watermark rises to a larger UID; no other key and no other part of the state changes. */
  lemma {:induction false} RaisedExactly(d: Data, key: string, uid: int, k: string)
    ensures var r := RaisedUid(d, key, uid);
            && LastUid(r, k) == (if k == key && uid > LastUid(d, key) then uid else LastUid(d, k))
            && r.uidvalidity == d.uidvalidity && r.pop3Seen == d.pop3Seen && r.fallback == d.fallback
  {
  }

  /** Whether any recorded UIDVALIDITY key starts with `account|`. */
  predicate HasImapHistory(d: Data, account: string) {
    exists k | k in d.uidvalidity :: account + "|" <= k
  }

  /** `ordered` followed by the values of `uids` it does not hold yet, each once, in order. */
  function AppendNew(ordered: seq<string>, uids: seq<string>): seq<string> {
    if uids == [] then ordered
    else
      var r := AppendNew(ordered, uids[..|uids| - 1]);
      var x := uids[|uids| - 1];
      if x in r then r else r + [x]
  }

  function Trimmed(s: seq<string>): seq<string> {
    if |s| > POP3_SEEN_MAX then s[|s| - POP3_SEEN_MAX..] else s
  }

  /** The bounded seen list after recording `uids`: first-write order, newest 2000 writes. */
  function AppendSeen(before: seq<string>, uids: seq<string>): seq<string> {
    Trimmed(AppendNew(AppendNew([], before), uids))
  }

  predicate Distinct<T(==)>(s: seq<T>) {
    forall i, j :: 0 <= i < j < |s| ==> s[i] != s[j]
  }

  lemma {:induction false} AppendNewExtends(ordered: seq<string>, uids: seq<string>)
    ensures ordered <= AppendNew(ordered, uids)
    ensures forall x :: x in AppendNew(ordered, uids) <==> x in ordered || x in uids
    ensures Distinct(ordered) ==> Distinct(AppendNew(ordered, uids))
  {
    if uids != [] {
      AppendNewExtends(ordered, uids[..|uids| - 1]);
      assert uids == uids[..|uids| - 1] + [uids[|uids| - 1]];
    }
  }

  /** Fresh, distinct values are simply appended. */
  lemma {:induction false} AppendNewFresh(ordered: seq<string>, uids: seq<string>)
    requires Distinct(uids)
    requires forall x | x in uids :: x !in ordered
    ensures AppendNew(ordered, uids) == ordered + uids
  {
    if uids != [] {
      var init := uids[..|uids| - 1];
      AppendNewFresh(ordered, init);
      assert uids == init + [uids[|uids| - 1]];
      assert uids[|uids| - 1] !in init;
    }
  }

  /** The seen list never exceeds its bound, never repeats a key, and never invents one. */
  lemma {:induction false} AppendSeenBounded(before: seq<string>, uids: seq<string>)
    ensures |AppendSeen(before, uids)| <= POP3_SEEN_MAX
    ensures Distinct(AppendSeen(before, uids))
    ensures forall x | x in AppendSeen(before, uids) :: x in before || x in uids
    ensures (exists x :: x in before || x in uids) ==> AppendSeen(before, uids) != []
  {
    AppendNewExtends([], before);
    AppendNewExtends(AppendNew([], before), uids);
    var all := AppendNew(AppendNew([], before), uids);
    if x :| x in before || x in uids {
      assert x in all;
    }
  }

  /** Trimming drops only the oldest writes: a fresh batch within the bound survives whole. */
  lemma {:induction false} FreshBatchSurvives(before: seq<string>, uids: seq<string>)
    requires Distinct(uids) && |uids| <= POP3_SEEN_MAX
    requires forall x | x in uids :: x !in before
    ensures forall x | x in uids :: x in AppendSeen(before, uids)
  {
    AppendNewExtends([], before);
    var ordered := AppendNew([], before);
    AppendNewFresh(ordered, uids);
    var all := ordered + uids;
    var cut := if |all| > POP3_SEEN_MAX then |all| - POP3_SEEN_MAX else 0;
    assert AppendSeen(before, uids) == all[cut..];
    forall x | x in uids
      ensures x in all[cut..]
    {
      var i :| 0 <= i < |uids| && uids[i] == x;
      assert all[cut..][|ordered| + i - cut] == x;
    }
  }

  /** Where a value is first written. */
  function FirstAt(writes: seq<string>, x: string): (i: nat)
    ensures i <= |writes| && (x in writes ==> i < |writes| && writes[i] == x)
    ensures forall k | 0 <= k < i :: writes[k] != x
  {
    if writes == [] || writes[0] == x then 0 else FirstAt(writes[1..], x) + 1
  }

  /** The values written for the first time after `x` was. */
  function LaterThan(writes: seq<string>, x: string): set<string> {
    set y | y in writes && FirstAt(writes, y) > FirstAt(writes, x)
  }

  /** The list holds exactly the values after which fewer than 2000 others were first written,
      in the order of their first writes. */
  lemma {:induction false} AppendSeenExactly(before: seq<string>, uids: seq<string>)
    ensures var all, r := before + uids, AppendSeen(before, uids);
            && (forall x :: x in r <==> x in all && |LaterThan(all, x)| < 2000)
            && InFirstOrder(all, r)
  {
    var all, d := before + uids, AppendNew(AppendNew([], before), uids);
    AppendNewTwice(before, uids);
    AppendNewExtends([], all);
    InOrder(all);
    forall x | x in d
      ensures x in AppendSeen(before, uids) <==> |LaterThan(all, x)| < 2000
    {
      var p :| 0 <= p < |d| && d[p] == x;
      LaterInList(all, d, p);
      SuffixHolds(d, p);
    }
  }

  lemma {:induction false} SuffixHolds(d: seq<string>, p: nat)
    requires p < |d| && Distinct(d)
    ensures d[p] in Trimmed(d) <==> |d| - p - 1 < POP3_SEEN_MAX
  {
    var cut := if |d| > POP3_SEEN_MAX then |d| - POP3_SEEN_MAX else 0;
    assert Trimmed(d) == d[cut..];
    if p >= cut {
      assert d[cut..][p - cut] == d[p];
    }
  }

  ghost predicate InFirstOrder(all: seq<string>, r: seq<string>) {
    forall i, j :: 0 <= i < j < |r| ==> FirstAt(all, r[i]) < FirstAt(all, r[j])
  }

  lemma {:induction false} AppendNewTwice(before: seq<string>, uids: seq<string>)
    ensures AppendNew(AppendNew([], before), uids) == AppendNew([], before + uids)
  {
    if uids == [] {
      assert before + uids == before;
    } else {
      AppendNewTwice(before, uids[..|uids| - 1]);
      assert (before + uids)[..|before + uids| - 1] == before + uids[..|uids| - 1];
    }
  }

  lemma {:induction false} InOrder(all: seq<string>)
    ensures InFirstOrder(all, AppendNew([], all))
  {
    if all != [] {
      var init, x, r := all[..|all| - 1], all[|all| - 1], AppendNew([], all);
      InOrder(init);
      AppendNewExtends([], init);
      assert all == init + [x];
      forall y | y in init
        ensures FirstAt(all, y) == FirstAt(init, y)
      {
        FirstAtIs(all, y, FirstAt(init, y));
      }
      if x !in init {
        FirstAtIs(all, x, |init|);
      }
    }
  }

  lemma {:induction false} FirstAtIs(all: seq<string>, x: string, i: nat)
    requires i < |all| && all[i] == x && forall k | 0 <= k < i :: all[k] != x
    ensures FirstAt(all, x) == i
  {
    var j := FirstAt(all, x);
    assert x in all;
  }

  lemma {:induction false} LaterInList(all: seq<string>, d: seq<string>, p: nat)
    requires p < |d| && Distinct(d) && InFirstOrder(all, d) && forall x :: x in d <==> x in all
    ensures |LaterThan(all, d[p])| == |d| - p - 1
  {
    var tail := d[p + 1..];
    var later := set y | y in tail;
    assert forall y | y in later :: y in LaterThan(all, d[p]);
    forall y | y in LaterThan(all, d[p])
      ensures y in later
    {
      var q :| 0 <= q < |d| && d[q] == y;
      assert q > p;
      assert tail[q - p - 1] == y;
    }
    assert later == LaterThan(all, d[p]);
    DistinctCount(tail);
  }

  lemma {:induction false} DistinctCount(d: seq<string>)
    requires Distinct(d)
    ensures |set y | y in d| == |d|
  {
    if d != [] {
      var init, x := d[..|d| - 1], d[|d| - 1];
      DistinctCount(init);
      assert d == init + [x];
      assert (set y | y in d) == (set y | y in init) + {x};
    }
  }

  class SyncState {
    var data: Data
    var disk: Data

    /** Loads the state file; a missing or unreadable file starts empty. */
    constructor (file: Option<Data>)
      ensures data == disk == (if file.Some? then file.value else EMPTY_DATA)
    {
      data := if file.Some? then file.value else EMPTY_DATA;
      disk := if file.Some? then file.value else EMPTY_DATA;
    }

    method Save(saves: bool) returns (raised: bool)
      modifies this`disk
      ensures raised == !saves
      ensures disk == if saves then data else old(disk)
    {
      if saves {
        disk := data;
      }
      raised := !saves;
    }

    /** The watermark only ever rises; an equal or smaller UID does not even save. */
    method SetLastUidMax(account: string, folder: string, uid: int, saves: bool) returns (raised: bool)
      modifies this
      ensures data == RaisedUid(old(data), Key(account, folder), uid)
      ensures uid > LastUid(old(data), Key(account, folder)) ==>
                raised == !saves && disk == if saves then data else old(disk)
      ensures uid <= LastUid(old(data), Key(account, folder)) ==> !raised && disk == old(disk)
    {
      raised := false;
      if uid > LastUid(data, Key(account, folder)) {
        data := data.(lastUid := data.lastUid[Key(account, folder) := uid]);
        raised := Save(saves);
      }
    }

    method SetUidvalidity(account: string, folder: string, v: int, saves: bool) returns (raised: bool)
      modifies this
      ensures data == old(data).(uidvalidity := old(data).uidvalidity[Key(account, folder) := v])
      ensures raised == !saves && disk == if saves then data else old(disk)
    {
      data := data.(uidvalidity := data.uidvalidity[Key(account, folder) := v]);
      raised := Save(saves);
    }

    method SetFallbackPinned(account: string, pinned: bool, saves: bool) returns (raised: bool)
      modifies this
      ensures data == old(data).(fallback := old(data).fallback[account := pinned])
      ensures raised == !saves && disk == if saves then data else old(disk)
    {
      data := data.(fallback := data.fallback[account := pinned]);
      raised := Save(saves);
    }

    /** Records seen keys: drops repeats of the stored list, appends the new ones, trims, saves. */
    method AddPop3SeenMany(account: string, folder: string, uidls: seq<string>, saves: bool) returns (raised: bool)
      modifies this
      ensures uidls == [] ==> data == old(data) && disk == old(disk) && !raised
      ensures uidls != [] ==>
                data == old(data).(pop3Seen := old(data).pop3Seen[
                Key(account, folder) := AppendSeen(Seen(old(data), Key(account, folder)), uidls)])
                && raised == !saves && disk == if saves then data else old(disk)
    {
      raised := false;
      if uidls == [] {
        return;
      }
      var key := Key(account, folder);
      var raw := Seen(data, key);
      var ordered: seq<string> := [];
      var membership: set<string> := {};
      for i := 0 to |raw|
        invariant ordered == AppendNew([], raw[..i])
        invariant forall x :: x in membership <==> x in ordered
      {
        assert raw[..i + 1][..i] == raw[..i];
        if raw[i] !in membership {
          membership := membership + {raw[i]};
          ordered := ordered + [raw[i]];
        }
      }
      assert raw[..|raw|] == raw;
      ghost var start := ordered;
      for i := 0 to |uidls|
        invariant ordered == AppendNew(start, uidls[..i])
        invariant forall x :: x in membership <==> x in ordered
      {
        assert uidls[..i + 1][..i] == uidls[..i];
        if uidls[i] !in membership {
          membership := membership + {uidls[i]};
          ordered := ordered + [uidls[i]];
        }
      }
      assert uidls[..|uidls|] == uidls;
      if |ordered| > POP3_SEEN_MAX {
        ordered := ordered[|ordered| - POP3_SEEN_MAX..];
      }
      data := data.(pop3Seen := data.pop3Seen[key := ordered]);
      raised := Save(saves);
    }
  }
}
