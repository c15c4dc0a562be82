/** Routing rows to their static destination (aggregator/src/one_mail_agg/config.py, and the
    grouping at the head of an upload in uploader.py). */
module Routing {
  import opened Wrappers

  // ----- Configuration -----

  datatype Destination = Destination(id: string, baseUrl: string)

  datatype Shard = Shard(id: string, baseUrl: string, accounts: seq<string>)

  /** An attachment: whether its content is bytes and its identity complete, and its size. */
  datatype Payload = Payload(wellFormed: bool, size: nat)

  /** A row's optional fields: JSON rows may leave either out. */
  datatype Row = Row(id: string, source: Option<string>, account: Option<string>, payloads: seq<Payload>)

  datatype Config = Config(primary: Destination, byAccount: map<string, Destination>)

  datatype ConfigError = DuplicateId | DuplicateUrl | AccountInTwoShards

  function LowerChar(c: char): char { if 'A' <= c <= 'Z' then c + 32 as char else c }

  function Lower(s: string): string { seq(|s|, i requires 0 <= i < |s| => LowerChar(s[i])) }

  predicate SameLetter(a: char, b: char) {
    a == b || ('A' <= a <= 'Z' && b as int == a as int + 32) || ('A' <= b <= 'Z' && a as int == b as int + 32)
  }

  /** Addresses are the same when they differ in the case of ASCII letters alone. */
  lemma {:induction false} SameAddressExactlyWhen(a: string, b: string)
    ensures Lower(a) == Lower(b) <==> |a| == |b| && forall i | 0 <= i < |a| :: SameLetter(a[i], b[i])
  {
    if Lower(a) == Lower(b) {
      assert |Lower(a)| == |a|;
      forall i | 0 <= i < |a|
        ensures SameLetter(a[i], b[i])
      {
        assert Lower(a)[i] == Lower(b)[i];
      }
    }
  }

  function DestinationOf(s: Shard): Destination { Destination(s.id, s.baseUrl) }

  /** Shard `j` can join the primary and the shards before it. */
  ghost predicate Joins(primaryUrl: string, shards: seq<Shard>, j: nat)
    requires j < |shards|
  {
    && shards[j].id != "primary" && Lower(shards[j].baseUrl) != Lower(primaryUrl)
    && (forall i | 0 <= i < j :: shards[i].id != shards[j].id && Lower(shards[i].baseUrl) != Lower(shards[j].baseUrl))
    && (forall a | 0 <= a < |shards[j].accounts| :: Unclaimed(shards, j, a))
  }

  /** No earlier place of the configuration names the same account. */
  ghost predicate Unclaimed(shards: seq<Shard>, j: nat, a: nat)
    requires j < |shards| && a < |shards[j].accounts|
  {
    && (forall i | 0 <= i < j :: shards[j].accounts[a] !in shards[i].accounts)
    && shards[j].accounts[a] !in shards[j].accounts[..a]
  }

  ghost predicate Consistent(primaryUrl: string, shards: seq<Shard>, n: nat)
    requires n <= |shards|
  {
    forall j | 0 <= j < n :: Joins(primaryUrl, shards, j)
  }

  /** The map knows exactly the accounts of the first `n` shards, each by its own shard. */
  ghost predicate Maps(m: map<string, Destination>, shards: seq<Shard>, n: nat)
    requires n <= |shards|
  {
    && (forall j | 0 <= j < n :: forall a <- shards[j].accounts :: a in m && m[a] == DestinationOf(shards[j]))
    && (forall a <- m.Keys :: exists j | 0 <= j < n :: a in shards[j].accounts)
  }

  ghost predicate Named(ids: set<string>, shards: seq<Shard>, n: nat)
    requires n <= |shards|
  {
    && "primary" in ids && (forall k | 0 <= k < n :: shards[k].id in ids)
    && (forall x <- ids :: x == "primary" || exists k | 0 <= k < n :: shards[k].id == x)
  }

  ghost predicate Addressed(urls: set<string>, primaryUrl: string, shards: seq<Shard>, n: nat)
    requires n <= |shards|
  {
    && Lower(primaryUrl) in urls && (forall k | 0 <= k < n :: Lower(shards[k].baseUrl) in urls)
    && (forall x <- urls :: x == Lower(primaryUrl) || exists k | 0 <= k < n :: Lower(shards[k].baseUrl) == x)
  }

  /** `m` is `before` and, beside it, every listed account at this shard. */
  ghost predicate Claims(m: map<string, Destination>, before: map<string, Destination>,
                         accounts: seq<string>, d: Destination)
  {
    && (forall x <- before.Keys :: x in m && m[x] == before[x] && x !in accounts)
    && (forall x <- accounts :: x in m && m[x] == d)
    && (forall x <- m.Keys :: x in before || x in accounts)
  }

  /** The accounts are new, and no two are the same. */
  ghost predicate Fresh(before: map<string, Destination>, accounts: seq<string>) {
    forall a | 0 <= a < |accounts| :: accounts[a] !in before && accounts[a] !in accounts[..a]
  }

  lemma {:induction false} ClaimsNext(m: map<string, Destination>, before: map<string, Destination>,
                                     accounts: seq<string>, account: string, d: Destination)
    requires Claims(m, before, accounts, d) && account !in m
    ensures Claims(m[account := d], before, accounts + [account], d)
  {
  }

  /** The inner loop: one shard's accounts, unless one of them is taken. */
  method ClaimAccounts(accounts: seq<string>, d: Destination, before: map<string, Destination>)
    returns (r: Option<map<string, Destination>>)
    ensures r.Some? <==> Fresh(before, accounts)
    ensures r.Some? ==> Claims(r.value, before, accounts, d)
  {
    var byAccount := before;
    for a := 0 to |accounts|
      invariant forall b | 0 <= b < a :: accounts[b] !in before && accounts[b] !in accounts[..b]
      invariant Claims(byAccount, before, accounts[..a], d)
    {
      if accounts[a] in byAccount {
        return None;
      }
      ClaimsNext(byAccount, before, accounts[..a], accounts[a], d);
      assert accounts[..a + 1] == accounts[..a] + [accounts[a]];
      byAccount := byAccount[accounts[a] := d];
    }
    assert accounts[..|accounts|] == accounts;
    r := Some(byAccount);
  }

  lemma {:induction false} MapsNext(m: map<string, Destination>, before: map<string, Destination>,
                                    shards: seq<Shard>, j: nat)
    requires j < |shards| && Maps(before, shards, j)
    requires Claims(m, before, shards[j].accounts, DestinationOf(shards[j]))
    ensures Maps(m, shards, j + 1)
  {
    forall x <- m.Keys
      ensures exists k | 0 <= k < j + 1 :: x in shards[k].accounts
    {
      if x in before {
        var k :| 0 <= k < j && x in shards[k].accounts;
      } else {
        assert x in shards[j].accounts;
      }
    }
  }

  /** What the two checks and the inner loop test, against what the maps and sets mean. */
  lemma {:induction false} JoinsWhenFree(primaryUrl: string, shards: seq<Shard>, j: nat, ids: set<string>,
                                         urls: set<string>,
                      before: map<string, Destination>)
    requires j < |shards| && Maps(before, shards, j)
    requires Named(ids, shards, j) && Addressed(urls, primaryUrl, shards, j)
    ensures Joins(primaryUrl, shards, j)
            <==> shards[j].id !in ids && Lower(shards[j].baseUrl) !in urls && Fresh(before, shards[j].accounts)
  {
    forall a | 0 <= a < |shards[j].accounts|
      ensures Unclaimed(shards, j, a)
              <==> shards[j].accounts[a] !in before && shards[j].accounts[a] !in shards[j].accounts[..a]
    {
    }
  }

  lemma {:induction false} NamedNext(primaryUrl: string, shards: seq<Shard>, j: nat, ids: set<string>,
                                     urls: set<string>)
    requires j < |shards| && Named(ids, shards, j) && Addressed(urls, primaryUrl, shards, j)
    ensures Named(ids + {shards[j].id}, shards, j + 1)
    ensures Addressed(urls + {Lower(shards[j].baseUrl)}, primaryUrl, shards, j + 1)
  {
  }

  /** `Config.__post_init__`: accepted exactly when no two destinations share an identifier or
      an address and no account is named twice. */
  method BuildConfig(primaryUrl: string, shards: seq<Shard>) returns (r: Result<Config, ConfigError>)
    ensures r.Ok? <==> Consistent(primaryUrl, shards, |shards|)
    ensures r.Ok? ==> r.value.primary == Destination("primary", primaryUrl) && Maps(r.value.byAccount, shards, |shards|)
  {
    var ids, urls := {"primary"}, {Lower(primaryUrl)};
    var byAccount: map<string, Destination> := map[];
    for j := 0 to |shards|
      invariant Consistent(primaryUrl, shards, j)
      invariant Named(ids, shards, j) && Addressed(urls, primaryUrl, shards, j)
      invariant Maps(byAccount, shards, j)
    {
      var shard := shards[j];
      JoinsWhenFree(primaryUrl, shards, j, ids, urls, byAccount);
      NamedNext(primaryUrl, shards, j, ids, urls);
      if shard.id in ids {
        return Err(DuplicateId);
      }
      if Lower(shard.baseUrl) in urls {
        return Err(DuplicateUrl);
      }
      ids, urls := ids + {shard.id}, urls + {Lower(shard.baseUrl)};
      var claimed := ClaimAccounts(shard.accounts, DestinationOf(shard), byAccount);
      if claimed.None? {
        return Err(AccountInTwoShards);
      }
      MapsNext(claimed.value, byAccount, shards, j);
      byAccount := claimed.value;
    }
    r := Ok(Config(Destination("primary", primaryUrl), byAccount));
  }

  /** `destination_for`: mail routed by Cloudflare stays at the primary whatever its account. */
  function DestinationFor(c: Config, row: Row): Destination {
    if row.source == Some("cf_routing") then c.primary
    else if row.account.Some? && row.account.value in c.byAccount then c.byAccount[row.account.value]
    else c.primary
  }

  /** A row leaves for a shard exactly when it is not routed mail and that one shard names its
      account; any other row goes to the primary. */
  lemma {:induction false} RoutedToItsShard(primaryUrl: string, shards: seq<Shard>, c: Config, row: Row, j: nat)
    requires Consistent(primaryUrl, shards, |shards|) && j < |shards|
    requires c.primary == Destination("primary", primaryUrl) && Maps(c.byAccount, shards, |shards|)
    ensures DestinationFor(c, row) == DestinationOf(shards[j])
            <==> row.source != Some("cf_routing") && row.account.Some? && row.account.value in shards[j].accounts
    ensures DestinationFor(c, row) == c.primary
            <==> row.source == Some("cf_routing") || row.account.None?
                 || forall k | 0 <= k < |shards| :: row.account.value !in shards[k].accounts
  {
    assert Joins(primaryUrl, shards, j);
    if row.account.Some? && row.account.value in c.byAccount {
      var k :| 0 <= k < |shards| && row.account.value in shards[k].accounts;
      assert Joins(primaryUrl, shards, k);
    }
  }

  // ----- Grouping -----

  /** The rows of a batch that belong to a destination, in order. */
  function Routed(c: Config, rows: seq<Row>, d: Destination): seq<Row> {
    if rows == [] then []
    else
      var rest := Routed(c, rows[..|rows| - 1], d);
      if DestinationFor(c, rows[|rows| - 1]) == d then rest + [rows[|rows| - 1]] else rest
  }

  /** Every row is routed to one destination and to no other. */
  lemma {:induction false} RoutedPartitions(c: Config, rows: seq<Row>, row: Row, d: Destination)
    ensures multiset(Routed(c, rows, d))[row] == if DestinationFor(c, row) == d then multiset(rows)[row] else 0
  {
    if rows != [] {
      RoutedPartitions(c, rows[..|rows| - 1], row, d);
      assert rows == rows[..|rows| - 1] + [rows[|rows| - 1]];
    }
  }

  /** They stand in the order of the batch, each row once. */
  lemma {:induction false} RoutedInOrder(c: Config, rows: seq<Row>, d: Destination) returns (at: seq<nat>)
    ensures |at| == |Routed(c, rows, d)|
    ensures forall k | 0 <= k < |at| :: at[k] < |rows| && rows[at[k]] == Routed(c, rows, d)[k]
    ensures forall j, k | 0 <= j < k < |at| :: at[j] < at[k]
    ensures forall i | 0 <= i < |rows| :: i in at <==> DestinationFor(c, rows[i]) == d
  {
    at := [];
    if rows != [] {
      at := RoutedInOrder(c, rows[..|rows| - 1], d);
      if DestinationFor(c, rows[|rows| - 1]) == d {
        at := at + [|rows| - 1];
      }
    }
  }

  /** The destinations of a batch, in the order they first occur. */
  function Order(c: Config, rows: seq<Row>): seq<Destination> {
    if rows == [] then []
    else
      var rest, d := Order(c, rows[..|rows| - 1]), DestinationFor(c, rows[|rows| - 1]);
      if d in rest then rest else rest + [d]
  }

  ghost predicate Distinct(s: seq<Destination>) { forall i, j | 0 <= i < j < |s| :: s[i] != s[j] }

  /** Each destination that has rows occurs once. */
  lemma {:induction false} OrderHas(c: Config, rows: seq<Row>)
    ensures Distinct(Order(c, rows))
    ensures forall d :: d in Order(c, rows) <==> Routed(c, rows, d) != []
  {
    if rows != [] {
      OrderHas(c, rows[..|rows| - 1]);
    }
  }

  /** The first row for a destination, or the length when there is none. */
  function FirstFor(c: Config, rows: seq<Row>, d: Destination): (i: nat)
    ensures i <= |rows| && (i < |rows| ==> DestinationFor(c, rows[i]) == d)
    ensures forall k | 0 <= k < i :: DestinationFor(c, rows[k]) != d
  {
    if rows == [] || DestinationFor(c, rows[0]) == d then 0 else 1 + FirstFor(c, rows[1..], d)
  }

  lemma {:induction false} FirstForIs(c: Config, rows: seq<Row>, d: Destination, i: nat)
    requires i < |rows| && DestinationFor(c, rows[i]) == d && forall k | 0 <= k < i :: DestinationFor(c, rows[k]) != d
    ensures FirstFor(c, rows, d) == i
  {
    var j := FirstFor(c, rows, d);
    assert !(j < i) && !(i < j);
  }

  ghost predicate ByFirst(c: Config, rows: seq<Row>, order: seq<Destination>) {
    && (forall i | 0 <= i < |order| :: FirstFor(c, rows, order[i]) < |rows|)
    && forall i, j | 0 <= i < j < |order| :: FirstFor(c, rows, order[i]) < FirstFor(c, rows, order[j])
  }

  /** A destination comes before another when its first row does. */
  lemma {:induction false} OrderByFirst(c: Config, rows: seq<Row>)
    ensures ByFirst(c, rows, Order(c, rows))
  {
    if rows != [] {
      var init, d := rows[..|rows| - 1], DestinationFor(c, rows[|rows| - 1]);
      OrderByFirst(c, init);
      SameFirst(c, init, rows[|rows| - 1], Order(c, init));
      assert rows == init + [rows[|rows| - 1]];
      if d !in Order(c, init) {
        NotOrdered(c, init, d);
        OrderNext(c, init, rows[|rows| - 1], Order(c, init));
      }
    }
  }

  lemma {:induction false} OrderNext(c: Config, init: seq<Row>, row: Row, order: seq<Destination>)
    requires ByFirst(c, init + [row], order) && forall i | 0 <= i < |order| :: FirstFor(c, init, order[i]) < |init|
    requires forall i | 0 <= i < |order| :: FirstFor(c, init + [row], order[i]) == FirstFor(c, init, order[i])
    requires forall k | 0 <= k < |init| :: DestinationFor(c, init[k]) != DestinationFor(c, row)
    ensures ByFirst(c, init + [row], order + [DestinationFor(c, row)])
  {
    FirstForIs(c, init + [row], DestinationFor(c, row), |init|);
  }

  lemma {:induction false} SameFirst(c: Config, init: seq<Row>, row: Row, order: seq<Destination>)
    requires ByFirst(c, init, order)
    ensures forall i | 0 <= i < |order| :: FirstFor(c, init + [row], order[i]) == FirstFor(c, init, order[i])
    ensures ByFirst(c, init + [row], order)
  {
    forall i | 0 <= i < |order|
      ensures FirstFor(c, init + [row], order[i]) == FirstFor(c, init, order[i])
    {
      FirstForIs(c, init + [row], order[i], FirstFor(c, init, order[i]));
    }
  }

  lemma {:induction false} NotOrdered(c: Config, rows: seq<Row>, d: Destination)
    requires d !in Order(c, rows)
    ensures forall k | 0 <= k < |rows| :: DestinationFor(c, rows[k]) != d
  {
    if rows != [] {
      NotOrdered(c, rows[..|rows| - 1], d);
    }
  }

  /** `groups.setdefault(...).append(row)`. */
  method GroupRows(c: Config, rows: seq<Row>) returns (order: seq<Destination>, groups: map<Destination, seq<Row>>)
    ensures order == Order(c, rows)
    ensures groups.Keys == set d | d in order
    ensures forall d <- order :: groups[d] == Routed(c, rows, d)
  {
    order, groups := [], map[];
    for i := 0 to |rows|
      invariant order == Order(c, rows[..i])
      invariant forall d :: d in groups <==> d in order
      invariant forall d <- order :: groups[d] == Routed(c, rows[..i], d)
    {
      var d := DestinationFor(c, rows[i]);
      assert rows[..i + 1][..i] == rows[..i];
      OrderHas(c, rows[..i]);
      if d !in groups {
        order, groups := order + [d], groups[d := [rows[i]]];
      } else {
        groups := groups[d := groups[d] + [rows[i]]];
      }
    }
    assert rows[..|rows|] == rows;
  }
}
