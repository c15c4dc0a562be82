/** Microsoft Graph mailbox sync (aggregator/src/one_mail_agg/graph_source.py).

    One run pages a folder newest to oldest until a message whose key is already seen,
    works on the oldest 50 of the unseen ones, stops at the first body it cannot fetch,
    and commits seen keys only after the upload. Everything the provider, the Worker and
    the disk may answer during a run is one `Env` value. */
module GraphSource {
  import opened Wrappers
  import opened SyncStates

  const BATCH_SIZE: nat := 50
  const MAX_SINGLE_BYTES: nat := 30 * 1024 * 1024
  const MAX_GRAPH_MESSAGE_SCAN: nat := 5000

  type Id = string
  type Url = string

  datatype Folder = Folder(account: string, name: string)
  datatype Link = NoLink | ForeignHost | Next(url: Url)
  datatype Item = Junk | Message(id: Id)
  datatype Page = HttpError | NotAList | Page(values: seq<Item>, next: Link)

  /** The answer to one MIME request: an exception, a status other than 200, or a body. */
  datatype Mime = Raises | NotOk | Body(size: nat, parses: bool)

  datatype Env = Env(
    pages: map<Url, Page>,
    start: Url,
    resolves: bool,
    mime: map<Id, Mime>,
    uploads: bool,
    savesOlder: bool,
    savesSeen: bool)

  datatype Failure =
    | PageFailed | PageMalformed | LinkLoop | LinkForeign | ScanCapped
    | Unresolved | MimeRaised | UploadFailed | SaveFailed

  function UidKey(f: Folder, id: Id): string {
    "graph:" + f.account + ":" + f.name + ":" + id
  }

  lemma {:induction false} UidKeyInjective(f: Folder, a: Id, b: Id)
    requires UidKey(f, a) == UidKey(f, b)
    ensures a == b
  {
    var prefix := "graph:" + f.account + ":" + f.name + ":";
    assert UidKey(f, a)[|prefix|..] == a;
    assert UidKey(f, b)[|prefix|..] == b;
  }

  /** Nor do messages of different folders, as long as no account or folder name has a colon. */
  lemma {:induction false} UidKeyApart(f: Folder, a: Id, g: Folder, b: Id)
    requires UidKey(f, a) == UidKey(g, b)
    requires ':' !in f.account && ':' !in g.account && ':' !in f.name && ':' !in g.name
    ensures f == g && a == b
  {
    var k := UidKey(f, a);
    var x, y := k[6..], UidKey(g, b)[6..];
    assert x == f.account + (":" + (f.name + (":" + a)));
    assert y == g.account + (":" + (g.name + (":" + b)));
    PartsApart(f.account, f.name + (":" + a), g.account, g.name + (":" + b));
    PartsApart(f.name, a, g.name, b);
  }

  lemma {:induction false} PartsApart(a: string, s: string, b: string, t: string)
    requires a + (":" + s) == b + (":" + t) && ':' !in a && ':' !in b
    ensures a == b && s == t
  {
    var k := a + (":" + s);
    assert k[..|a|] == a && k[|a|] == ':' && k[|a| + 1..] == s;
    assert k[..|b|] == b && k[|b|] == ':' && k[|b| + 1..] == t;
    assert forall i | 0 <= i < |a| :: k[i] == a[i] && a[i] in a;
    assert forall i | 0 <= i < |b| :: k[i] == b[i] && b[i] in b;
  }

  function Keys(f: Folder, ids: seq<Id>): (r: seq<string>)
    ensures |r| == |ids| && forall i | 0 <= i < |ids| :: r[i] == UidKey(f, ids[i])
  {
    seq(|ids|, i requires 0 <= i < |ids| => UidKey(f, ids[i]))
  }

  lemma {:induction false} KeysAppend(f: Folder, ids: seq<Id>, id: Id)
    ensures Keys(f, ids + [id]) == Keys(f, ids) + [UidKey(f, id)]
  {
    assert |Keys(f, ids + [id])| == |ids| + 1;
  }

  function Ids(values: seq<Item>): seq<Id> {
    if values == [] then []
    else
      match values[|values| - 1]
      case Junk => Ids(values[..|values| - 1])
      case Message(id) => Ids(values[..|values| - 1]) + [id]
  }

  /** The messages of a page are its well-formed items in their order. */
  lemma {:induction false} IdsOf(a: seq<Item>, b: seq<Item>)
    ensures Ids(a + b) == Ids(a) + Ids(b)
    ensures Ids([Junk]) == [] && forall id :: Ids([Message(id)]) == [id]
  {
    assert forall x: Item :: [x][..0] == [];
    if b == [] {
      assert a + b == a;
    } else {
      var init := b[..|b| - 1];
      IdsOf(a, init);
      assert (a + b)[..|a + b| - 1] == a + init;
    }
  }

  /** The messages before the first seen one. */
  function TakeUnseen(f: Folder, mail: seq<Id>, seen: seq<string>): (r: seq<Id>)
    ensures r <= mail
    ensures forall i | 0 <= i < |r| :: UidKey(f, mail[i]) !in seen
    ensures |r| < |mail| ==> UidKey(f, mail[|r|]) in seen
  {
    if mail == [] || UidKey(f, mail[0]) in seen then []
    else [mail[0]] + TakeUnseen(f, mail[1..], seen)
  }

  lemma {:induction false} TakeUnseenUnique(f: Folder, mail: seq<Id>, seen: seq<string>, n: nat)
    requires n <= |mail|
    requires forall i | 0 <= i < n :: UidKey(f, mail[i]) !in seen
    requires n < |mail| ==> UidKey(f, mail[n]) in seen
    ensures TakeUnseen(f, mail, seen) == mail[..n]
  {
    var m := |TakeUnseen(f, mail, seen)|;
    assert m == n;
  }

  lemma {:induction false} TakeUnseenConcat(f: Folder, a: seq<Id>, b: seq<Id>, seen: seq<string>)
    ensures TakeUnseen(f, a + b, seen) ==
            if |TakeUnseen(f, a, seen)| < |a| then TakeUnseen(f, a, seen)
            else a + TakeUnseen(f, b, seen)
  {
    var n := |TakeUnseen(f, a, seen)|;
    if n < |a| {
      TakeUnseenUnique(f, a + b, seen, n);
    } else {
      TakeUnseenUnique(f, a + b, seen, n + |TakeUnseen(f, b, seen)|);
    }
  }

  // ----- The anchor scan -----

  /** The page walk from `url`: what it collects, or the exception that ends it. */
  function Walk(f: Folder, pages: map<Url, Page>, url: Url, visited: set<Url>,
                pending: seq<Id>, seen: seq<string>): Result<seq<Id>, Failure>
    decreases |pages.Keys - visited|
  {
    if url in visited then Err(LinkLoop)
    else if url !in pages || pages[url].HttpError? then Err(PageFailed)
    else if pages[url].NotAList? then Err(PageMalformed)
    else
      var ids := Ids(pages[url].values);
      var unseen := TakeUnseen(f, ids, seen);
      var collected := pending + unseen;
      if |unseen| < |ids| || seen == [] then Ok(collected)
      else
        match pages[url].next
        case ForeignHost => Err(LinkForeign)
        case NoLink => Ok(collected)
        case Next(u) =>
          if |collected| >= MAX_GRAPH_MESSAGE_SCAN then Err(ScanCapped)
          else
            assert pages.Keys - (visited + {url}) < pages.Keys - visited by {
              assert url in pages.Keys - visited;
            }
            CardinalityShrinks(pages.Keys - (visited + {url}), pages.Keys - visited);
            Walk(f, pages, u, visited + {url}, collected, seen)
  }

  lemma {:induction false} CardinalityShrinks<T>(a: set<T>, b: set<T>)
    requires a < b
    ensures |a| < |b|
  {
    var rest := b - a;
    assert b == a + rest;
    assert rest != {};
  }

  /** The pages serve `mail` in order as far as they can be fetched; a page without a next
      link is the last. Any page may fail, point elsewhere or link back. */
  ghost predicate Serves(pages: map<Url, Page>, url: Url, visited: set<Url>, mail: seq<Id>)
    decreases |pages.Keys - visited|
  {
    url in visited || url !in pages || !pages[url].Page? ||
    (var ids := Ids(pages[url].values);
     ids <= mail &&
     match pages[url].next
     case NoLink => ids == mail
     case ForeignHost => true
     case Next(u) =>
       assert pages.Keys - (visited + {url}) < pages.Keys - visited by {
         assert url in pages.Keys - visited;
       }
       CardinalityShrinks(pages.Keys - (visited + {url}), pages.Keys - visited);
       Serves(pages, u, visited + {url}, mail[|ids|..]))
  }

  /** The pages serve all of `mail` without any fault. */
  ghost predicate ServesAll(pages: map<Url, Page>, url: Url, visited: set<Url>, mail: seq<Id>)
    decreases |pages.Keys - visited|
  {
    url !in visited && url in pages && pages[url].Page? &&
    (var ids := Ids(pages[url].values);
     ids <= mail &&
     match pages[url].next
     case NoLink => ids == mail
     case ForeignHost => false
     case Next(u) =>
       assert pages.Keys - (visited + {url}) < pages.Keys - visited by {
         assert url in pages.Keys - visited;
       }
       CardinalityShrinks(pages.Keys - (visited + {url}), pages.Keys - visited);
       ServesAll(pages, u, visited + {url}, mail[|ids|..]))
  }

  lemma {:induction false} ServesAllServes(pages: map<Url, Page>, url: Url, visited: set<Url>, mail: seq<Id>)
    requires ServesAll(pages, url, visited, mail)
    ensures Serves(pages, url, visited, mail)
    decreases |pages.Keys - visited|
  {
    if pages[url].next.Next? {
      assert url in pages.Keys - visited;
      CardinalityShrinks(pages.Keys - (visited + {url}), pages.Keys - visited);
      ServesAllServes(pages, pages[url].next.url, visited + {url}, mail[|Ids(pages[url].values)|..]);
    }
  }

  /** Whatever pages a server splits a folder into, a scan of an established folder that
      ends normally has collected exactly the messages newer than the newest seen one. */
  lemma {:induction false} WalkFindsAnchor(f: Folder, pages: map<Url, Page>, url: Url, visited: set<Url>,
                                          pending: seq<Id>, seen: seq<string>, mail: seq<Id>)
    requires seen != []
    requires Serves(pages, url, visited, mail)
    requires Walk(f, pages, url, visited, pending, seen).Ok?
    ensures Walk(f, pages, url, visited, pending, seen).value == pending + TakeUnseen(f, mail, seen)
    decreases |pages.Keys - visited|
  {
    var ids := Ids(pages[url].values);
    var rest := mail[|ids|..];
    assert mail == ids + rest;
    TakeUnseenConcat(f, ids, rest, seen);
    var unseen := TakeUnseen(f, ids, seen);
    if |unseen| == |ids| {
      assert unseen == ids;
      if pages[url].next.Next? {
        assert url in pages.Keys - visited;
        CardinalityShrinks(pages.Keys - (visited + {url}), pages.Keys - visited);
        WalkFindsAnchor(f, pages, pages[url].next.url, visited + {url}, pending + ids, seen, rest);
        Associates(pending, ids, TakeUnseen(f, rest, seen));
      } else {
        assert rest == [] && ids == mail;
      }
    }
  }

  lemma {:induction false} Associates<T>(a: seq<T>, b: seq<T>, c: seq<T>)
    ensures a + b + c == a + (b + c)
  {
  }

  /** A page that is unseen as a whole hands over to the next one. */
  lemma {:induction false} WalkGoesOn(f: Folder, pages: map<Url, Page>, url: Url, visited: set<Url>,
                                     pending: seq<Id>, seen: seq<string>)
    requires seen != [] && url !in visited && url in pages && pages[url].Page? && pages[url].next.Next?
    requires var ids := Ids(pages[url].values);
             TakeUnseen(f, ids, seen) == ids && |pending| + |ids| < MAX_GRAPH_MESSAGE_SCAN
    ensures Walk(f, pages, url, visited, pending, seen)
            == Walk(f, pages, pages[url].next.url, visited + {url}, pending + Ids(pages[url].values), seen)
  {
  }

  /** A fault-free listing whose unseen part stays below the cap is never refused. */
  lemma {:induction false} WalkSucceeds(f: Folder, pages: map<Url, Page>, url: Url, visited: set<Url>,
                                       pending: seq<Id>, seen: seq<string>, mail: seq<Id>)
    requires seen != []
    requires ServesAll(pages, url, visited, mail)
    requires |pending| + |TakeUnseen(f, mail, seen)| < MAX_GRAPH_MESSAGE_SCAN
    ensures Walk(f, pages, url, visited, pending, seen).Ok?
    decreases |pages.Keys - visited|
  {
    var ids := Ids(pages[url].values);
    var rest := mail[|ids|..];
    TakeUnseenConcat(f, ids, rest, seen);
    assert ids + rest == mail;
    if TakeUnseen(f, ids, seen) == ids && pages[url].next.Next? {
      assert url in pages.Keys - visited;
      CardinalityShrinks(pages.Keys - (visited + {url}), pages.Keys - visited);
      WalkGoesOn(f, pages, url, visited, pending, seen);
      WalkSucceeds(f, pages, pages[url].next.url, visited + {url}, pending + ids, seen, rest);
    }
  }

  /** A first sync reads one page only, so it collects a newest part of the folder. */
  lemma {:induction false} WalkFirstPage(f: Folder, pages: map<Url, Page>, url: Url, mail: seq<Id>)
    requires Serves(pages, url, {}, mail)
    requires Walk(f, pages, url, {}, [], []).Ok?
    ensures Walk(f, pages, url, {}, [], []).value <= mail
  {
    var ids := Ids(pages[url].values);
    TakeUnseenUnique(f, ids, [], |ids|);
  }

  /** These pages hand over to one another and the last of them to `last`. */
  ghost predicate Follows(pages: map<Url, Page>, urls: seq<Url>, last: Url) {
    forall i | 0 <= i < |urls| :: LinksTo(pages, urls[i], (urls + [last])[i + 1])
  }

  ghost predicate LinksTo(pages: map<Url, Page>, url: Url, to: Url) {
    url in pages && pages[url].Page? && pages[url].next == Next(to)
  }

  function Listed(pages: map<Url, Page>, urls: seq<Url>): seq<Id>
    requires forall i | 0 <= i < |urls| :: urls[i] in pages && pages[urls[i]].Page?
  {
    if urls == [] then [] else Ids(pages[urls[0]].values) + Listed(pages, urls[1..])
  }

  ghost predicate Unseen(f: Folder, ids: seq<Id>, seen: seq<string>) {
    forall i | 0 <= i < |ids| :: UidKey(f, ids[i]) !in seen
  }

  /** How the scan of an established folder ends, after any number of different pages that hold
      fewer than 5000 messages together and none of them seen. */
  lemma {:induction false} ScanEndsExactly(f: Folder, pages: map<Url, Page>, urls: seq<Url>, last: Url,
                                          seen: seq<string>)
    requires seen != [] && Follows(pages, urls, last) && Distinct(urls)
    requires |Listed(pages, urls)| < 5000 && Unseen(f, Listed(pages, urls), seen)
    ensures var r := Walk(f, pages, (urls + [last])[0], {}, [], seen);
            EndsAt(f, pages, urls, last, Listed(pages, urls), seen, r)
  {
    var before, visited := Listed(pages, urls), set u | u in urls;
    WalkFollows(f, pages, urls, last, {}, visited, [], seen);
    assert [] + before == before;
    EndsWithPage(f, pages, urls, last, visited, before, seen);
  }

  /** What the page at `last` makes of the messages listed before it. */
  ghost predicate EndsAt(f: Folder, pages: map<Url, Page>, urls: seq<Url>, last: Url, before: seq<Id>,
                         seen: seq<string>, r: Result<seq<Id>, Failure>) {
    if last in urls then r == Err(LinkLoop)
    else if last !in pages || pages[last].HttpError? then r == Err(PageFailed)
    else if pages[last].NotAList? then r == Err(PageMalformed)
    else PageEnds(f, pages[last], before, seen, r)
  }

  ghost predicate PageEnds(f: Folder, page: Page, before: seq<Id>, seen: seq<string>, r: Result<seq<Id>, Failure>)
    requires page.Page?
  {
    var ids := Ids(page.values);
    if !Unseen(f, ids, seen) then
      exists n :: 0 <= n < |ids| && Unseen(f, ids[..n], seen) && UidKey(f, ids[n]) in seen
                  && r == Ok(before + ids[..n])
    else
      match page.next
      case ForeignHost => r == Err(LinkForeign)
      case NoLink => r == Ok(before + ids)
      case Next(_) => |before| + |ids| >= 5000 ==> r == Err(ScanCapped)
  }

  lemma {:induction false} EndsWithPage(f: Folder, pages: map<Url, Page>, urls: seq<Url>, last: Url,
                                       visited: set<Url>, before: seq<Id>, seen: seq<string>)
    requires seen != [] && forall u :: u in visited <==> u in urls
    ensures EndsAt(f, pages, urls, last, before, seen, Walk(f, pages, last, visited, before, seen))
  {
    if last in pages && pages[last].Page? {
      var ids := Ids(pages[last].values);
      var unseen := TakeUnseen(f, ids, seen);
      if |unseen| < |ids| {
        assert unseen == ids[..|unseen|] && !Unseen(f, ids, seen);
      } else {
        assert unseen == ids;
      }
    }
  }

  /** The walk goes through unseen pages to `last`, and has visited `after` by then. */
  lemma {:induction false} WalkFollows(f: Folder, pages: map<Url, Page>, urls: seq<Url>, last: Url, visited: set<Url>,
                                      after: set<Url>, pending: seq<Id>, seen: seq<string>)
    requires seen != [] && Follows(pages, urls, last) && Distinct(urls)
    requires (forall u | u in urls :: u !in visited) && forall u :: u in after <==> u in visited || u in urls
    requires |pending| + |Listed(pages, urls)| < MAX_GRAPH_MESSAGE_SCAN && Unseen(f, Listed(pages, urls), seen)
    ensures Walk(f, pages, (urls + [last])[0], visited, pending, seen)
            == Walk(f, pages, last, after, pending + Listed(pages, urls), seen)
    decreases |urls|
  {
    if urls == [] {
      assert visited == after && pending + Listed(pages, urls) == pending;
    } else {
      var ids, rest := Ids(pages[urls[0]].values), urls[1..];
      FollowsTail(pages, urls, last, visited);
      UnseenParts(f, ids, Listed(pages, rest), seen);
      WalkGoesOn(f, pages, urls[0], visited, pending, seen);
      WalkFollows(f, pages, rest, last, visited + {urls[0]}, after, pending + ids, seen);
      Associates(pending, ids, Listed(pages, rest));
    }
  }

  lemma {:induction false} UnseenParts(f: Folder, a: seq<Id>, b: seq<Id>, seen: seq<string>)
    requires Unseen(f, a + b, seen)
    ensures TakeUnseen(f, a, seen) == a && Unseen(f, b, seen)
  {
    assert forall i | 0 <= i < |a| :: (a + b)[i] == a[i];
    assert forall i | 0 <= i < |b| :: (a + b)[|a| + i] == b[i];
    TakeUnseenUnique(f, a, seen, |a|);
  }

  lemma {:induction false} FollowsTail(pages: map<Url, Page>, urls: seq<Url>, last: Url, visited: set<Url>)
    requires urls != [] && Follows(pages, urls, last) && Distinct(urls)
    requires forall u | u in urls :: u !in visited
    ensures Follows(pages, urls[1..], last) && Distinct(urls[1..])
    ensures forall u | u in urls[1..] :: u in urls && u !in visited + {urls[0]}
    ensures LinksTo(pages, urls[0], (urls[1..] + [last])[0])
  {
    var rest := urls[1..];
    assert (urls + [last])[1..] == rest + [last];
    assert LinksTo(pages, urls[0], (urls + [last])[1]);
    forall i | 0 <= i < |rest|
      ensures LinksTo(pages, rest[i], (rest + [last])[i + 1])
    {
      assert LinksTo(pages, urls[i + 1], (urls + [last])[i + 2]);
    }
  }

  // ----- One folder in one run -----

  function Reversed(s: seq<Id>): (r: seq<Id>)
    ensures |r| == |s| && forall i | 0 <= i < |s| :: r[i] == s[|s| - 1 - i]
  {
    seq(|s|, i requires 0 <= i < |s| => s[|s| - 1 - i])
  }

  function MimeOf(env: Env, id: Id): Mime {
    if id in env.mime then env.mime[id] else NotOk
  }

  /** How many leading messages of the batch have a body. */
  function BodyCount(env: Env, batch: seq<Id>): (n: nat)
    ensures n <= |batch|
    ensures forall i | 0 <= i < n :: MimeOf(env, batch[i]).Body?
    ensures n < |batch| ==> !MimeOf(env, batch[n]).Body?
  {
    if batch == [] || !MimeOf(env, batch[0]).Body? then 0
    else 1 + BodyCount(env, batch[1..])
  }

  predicate TooBig(env: Env, id: Id) {
    MimeOf(env, id).Body? && MimeOf(env, id).size > MAX_SINGLE_BYTES
  }

  predicate Parses(env: Env, id: Id) {
    MimeOf(env, id).Body? && MimeOf(env, id).parses
  }

  function Filter(p: Id -> bool, s: seq<Id>): (r: seq<Id>)
    ensures forall x :: x in r <==> x in s && p(x)
    ensures |r| <= |s|
  {
    if s == [] then []
    else
      var r := Filter(p, s[..|s| - 1]);
      var x := s[|s| - 1];
      assert s == s[..|s| - 1] + [x];
      if p(x) then r + [x] else r
  }

  lemma {:induction false} FilterDistinct(p: Id -> bool, s: seq<Id>)
    requires Distinct(s)
    ensures Distinct(Filter(p, s))
  {
    if s != [] {
      FilterDistinct(p, s[..|s| - 1]);
      assert s[|s| - 1] !in s[..|s| - 1];
    }
  }

  function Oversize(env: Env, ids: seq<Id>): seq<Id> { Filter(id => TooBig(env, id), ids) }
  function Fetched(env: Env, ids: seq<Id>): seq<Id> { Filter(id => !TooBig(env, id), ids) }
  function Parsed(env: Env, ids: seq<Id>): seq<Id> { Filter(id => Parses(env, id), ids) }
  function Unparsed(env: Env, ids: seq<Id>): seq<Id> { Filter(id => !Parses(env, id), ids) }
  function Normal(env: Env, ids: seq<Id>): seq<Id> { Parsed(env, Fetched(env, ids)) }
  function Dropped(env: Env, ids: seq<Id>): seq<Id> { Unparsed(env, Fetched(env, ids)) }

  /** What one folder run leaves: both copies of the seen list, the messages it settled
      (acknowledged, too large, or undecodable), the window it chose, and its failure. */
  datatype Outcome = Outcome(
    mem: seq<string>,
    disk: seq<string>,
    window: seq<Id>,
    acked: seq<Id>,
    oversize: seq<Id>,
    dropped: seq<Id>,
    failed: Option<Failure>)

  function Window(limit: int, first: bool, found: seq<Id>): (w: seq<Id>)
    ensures !first && |found| > BATCH_SIZE ==> w == found[|found| - BATCH_SIZE..]
    ensures first ==> w <= found
  {
    if first then (if 0 < limit < |found| then found[..limit] else found)
    else if |found| > BATCH_SIZE then found[|found| - BATCH_SIZE..] else found
  }

  function SyncFolder(f: Folder, limit: int, env: Env, mem: seq<string>, disk: seq<string>): Outcome {
    match Walk(f, env.pages, env.start, {}, [], mem)
    case Err(e) => Outcome(mem, disk, [], [], [], [], Some(e))
    case Ok(found) => SyncFound(f, limit, env, found, mem, disk)
  }

  function SyncFound(f: Folder, limit: int, env: Env, found: seq<Id>, mem: seq<string>, disk: seq<string>): Outcome {
    var window := Window(limit, mem == [], found);
    if mem == [] && |window| < |found| then
      var mem1 := AppendSeen(mem, Keys(f, found[|window|..]));
      if env.savesOlder then SettleWindow(f, env, window, mem1, mem1)
      else Outcome(mem1, disk, window, [], [], [], Some(SaveFailed))
    else
      SettleWindow(f, env, window, mem, disk)
  }

  function SettleWindow(f: Folder, env: Env, window: seq<Id>, mem: seq<string>, disk: seq<string>): (o: Outcome)
    ensures o.window == window
  {
    var batch := Reversed(window);
    var n := BodyCount(env, batch);
    if batch == [] then Outcome(mem, disk, window, [], [], [], None)
    else if !env.resolves then Outcome(mem, disk, window, [], [], [], Some(Unresolved))
    else if n < |batch| && MimeOf(env, batch[n]).Raises? then
      Outcome(mem, disk, window, [], [], [], Some(MimeRaised))
    else
      CommitSettled(f, env, window, batch[..n], mem, disk)
  }

  /** The keys a run commits, in the order it writes them. */
  function SettledKeys(f: Folder, env: Env, settled: seq<Id>): seq<string> {
    Keys(f, Oversize(env, settled)) + Keys(f, Fetched(env, settled))
  }

  function CommitSettled(f: Folder, env: Env, window: seq<Id>, settled: seq<Id>,
                         mem: seq<string>, disk: seq<string>): (o: Outcome)
    ensures o.window == window
  {
    if Normal(env, settled) != [] && !env.uploads then
      Outcome(mem, disk, window, [], [], [], Some(UploadFailed))
    else if settled == [] then
      Outcome(mem, disk, window, [], [], [], None)
    else
      var mem1 := AppendSeen(mem, SettledKeys(f, env, settled));
      Outcome(mem1, if env.savesSeen then mem1 else disk, window,
              Normal(env, settled), Oversize(env, settled), Dropped(env, settled),
              if env.savesSeen then None else Some(SaveFailed))
  }

  // ----- The code's own loops, against the functions above -----

  /** Only the seen list of this folder may differ. */
  ghost predicate OnlySeenChanged(before: Data, after: Data, key: string) {
    after == before.(pop3Seen := after.pop3Seen) &&
    forall k | k != key :: Seen(after, k) == Seen(before, k)
  }

  /** One page: appends the messages before the first seen one; `scanned` counts that one too. */
  method ScanPage(f: Folder, values: seq<Item>, seen: seq<string>, before: seq<Id>)
    returns (pending: seq<Id>, hit: bool, scanned: nat)
    ensures pending == before + TakeUnseen(f, Ids(values), seen)
    ensures hit <==> TakeUnseen(f, Ids(values), seen) < Ids(values)
    ensures scanned == |TakeUnseen(f, Ids(values), seen)| + if hit then 1 else 0
  {
    pending, hit, scanned := before, false, 0;
    for i := 0 to |values|
      invariant TakeUnseen(f, Ids(values[..i]), seen) == Ids(values[..i])
      invariant pending == before + Ids(values[..i]) && scanned == |Ids(values[..i])| && !hit
    {
      assert values[..i + 1][..i] == values[..i];
      if values[i].Message? {
        var id := values[i].id;
        scanned := scanned + 1;
        if UidKey(f, id) in seen {
          IdsSplit(values, i);
          TakeUnseenUnique(f, Ids(values), seen, |Ids(values[..i])|);
          return pending, true, scanned;
        }
        pending := pending + [id];
        UnseenGrows(f, values, seen, i);
      }
    }
    assert values[..|values|] == values;
  }

  lemma {:induction false} UnseenGrows(f: Folder, values: seq<Item>, seen: seq<string>, i: nat)
    requires i < |values| && values[i].Message? && UidKey(f, values[i].id) !in seen
    requires TakeUnseen(f, Ids(values[..i]), seen) == Ids(values[..i])
    ensures Ids(values[..i + 1]) == Ids(values[..i]) + [values[i].id]
    ensures TakeUnseen(f, Ids(values[..i + 1]), seen) == Ids(values[..i + 1])
  {
    assert values[..i + 1][..i] == values[..i];
    TakeUnseenConcat(f, Ids(values[..i]), [values[i].id], seen);
    TakeUnseenUnique(f, [values[i].id], seen, 1);
  }

  method ScanPages(f: Folder, env: Env, seen: seq<string>) returns (r: Result<seq<Id>, Failure>)
    ensures r == Walk(f, env.pages, env.start, {}, [], seen)
  {
    var pending: seq<Id> := [];
    var url := env.start;
    var visited: set<Url> := {};
    var scanned: nat := 0;
    while true
      invariant scanned == |pending|
      invariant Walk(f, env.pages, env.start, {}, [], seen) == Walk(f, env.pages, url, visited, pending, seen)
      decreases |env.pages.Keys - visited|
    {
      if url in visited {
        return Err(LinkLoop);
      }
      if url !in env.pages || env.pages[url].HttpError? {
        return Err(PageFailed);
      }
      if env.pages[url].NotAList? {
        return Err(PageMalformed);
      }
      var next := env.pages[url].next;
      var hit: bool;
      var count: nat;
      pending, hit, count := ScanPage(f, env.pages[url].values, seen, pending);
      scanned := scanned + count;
      if hit || seen == [] {
        return Ok(pending);
      }
      if next.ForeignHost? {
        return Err(LinkForeign);
      }
      if next.NoLink? {
        return Ok(pending);
      }
      if scanned >= MAX_GRAPH_MESSAGE_SCAN {
        return Err(ScanCapped);
      }
      assert url in env.pages.Keys - visited;
      CardinalityShrinks(env.pages.Keys - (visited + {url}), env.pages.Keys - visited);
      visited := visited + {url};
      url := next.url;
    }
  }

  lemma {:induction false} IdsSplit(values: seq<Item>, i: nat)
    requires i < |values| && values[i].Message?
    ensures Ids(values[..i]) + [values[i].id] <= Ids(values)
    decreases |values|
  {
    if i + 1 == |values| {
      assert values[..|values| - 1] == values[..i];
    } else {
      var init := values[..|values| - 1];
      IdsSplit(init, i);
      assert init[..i] == values[..i];
    }
  }

  method FetchBatch(env: Env, batch: seq<Id>)
    returns (failed: Option<Failure>, fetched: seq<Id>, oversize: seq<Id>)
    requires batch != []
    ensures var n := BodyCount(env, batch);
            if !env.resolves then failed == Some(Unresolved)
            else if n < |batch| && MimeOf(env, batch[n]).Raises? then failed == Some(MimeRaised)
            else failed == None && fetched == Fetched(env, batch[..n]) && oversize == Oversize(env, batch[..n])
  {
    fetched, oversize := [], [];
    if !env.resolves {
      return Some(Unresolved), [], [];
    }
    var i := 0;
    while i < |batch|
      invariant 0 <= i <= |batch|
      invariant fetched == Fetched(env, batch[..i]) && oversize == Oversize(env, batch[..i])
      invariant forall j | 0 <= j < i :: MimeOf(env, batch[j]).Body?
    {
      var reply := MimeOf(env, batch[i]);
      if reply.Raises? {
        BodyCountIs(env, batch, i);
        return Some(MimeRaised), [], [];
      }
      if reply.NotOk? {
        break;
      }
      assert batch[..i + 1][..i] == batch[..i];
      if reply.size > MAX_SINGLE_BYTES {
        oversize := oversize + [batch[i]];
      } else {
        fetched := fetched + [batch[i]];
      }
      i := i + 1;
    }
    BodyCountIs(env, batch, i);
    failed := None;
  }

  lemma {:induction false} BodyCountIs(env: Env, batch: seq<Id>, n: nat)
    requires n <= |batch|
    requires forall i | 0 <= i < n :: MimeOf(env, batch[i]).Body?
    requires n < |batch| ==> !MimeOf(env, batch[n]).Body?
    ensures BodyCount(env, batch) == n
  {
    var m := BodyCount(env, batch);
    assert !(m < n) && !(n < m);
  }

  /** `_collect_pending_graph_items`: the window to work on, newest first. A first sync with
      more messages than its limit records the older ones as seen before anything is fetched. */
  method CollectPending(f: Folder, limit: int, env: Env, state: SyncState)
    returns (r: Result<seq<Id>, Failure>)
    modifies state
    ensures var key := Key(f.account, f.name);
            var mem, disk := Seen(old(state.data), key), Seen(old(state.disk), key);
            OnlySeenChanged(old(state.data), state.data, key) &&
            SyncFolder(f, limit, env, mem, disk) ==
              if r.Ok? then SettleWindow(f, env, r.value, Seen(state.data, key), Seen(state.disk, key))
              else Outcome(Seen(state.data, key), Seen(state.disk, key),
                           SyncFolder(f, limit, env, mem, disk).window, [], [], [], Some(r.error))
  {
    r := ScanPages(f, env, Seen(state.data, Key(f.account, f.name)));
    if r.Ok? {
      r := ChooseWindow(f, limit, env, r.value, state);
    }
  }

  /** What follows a completed scan: the limit of a first sync, the oldest batch of a later one. */
  method ChooseWindow(f: Folder, limit: int, env: Env, pending: seq<Id>, state: SyncState)
    returns (r: Result<seq<Id>, Failure>)
    modifies state
    ensures var key := Key(f.account, f.name);
            var o := SyncFound(f, limit, env, pending, Seen(old(state.data), key), Seen(old(state.disk), key));
            OnlySeenChanged(old(state.data), state.data, key) &&
            o == if r.Ok? then SettleWindow(f, env, r.value, Seen(state.data, key), Seen(state.disk, key))
                 else Outcome(Seen(state.data, key), Seen(state.disk, key), o.window, [], [], [], Some(r.error))
  {
    if Seen(state.data, Key(f.account, f.name)) == [] {
      if limit > 0 && |pending| > limit {
        var raised := state.AddPop3SeenMany(f.account, f.name, Keys(f, pending[limit..]), env.savesOlder);
        return if raised then Err(SaveFailed) else Ok(pending[..limit]);
      }
      return Ok(pending);
    }
    return if |pending| > BATCH_SIZE then Ok(pending[|pending| - BATCH_SIZE..]) else Ok(pending);
  }

  /** The per-message loop of `sync_graph`: what goes into the upload, what is dropped, and
      every key to commit, oversize ones first. */
  method PrepareUpload(f: Folder, env: Env, fetched: seq<Id>, big: seq<Id>)
    returns (good: seq<Id>, bad: seq<Id>, processed: seq<string>)
    ensures good == Parsed(env, fetched)
    ensures bad == Unparsed(env, fetched)
    ensures processed == Keys(f, big) + Keys(f, fetched)
  {
    processed := Keys(f, big);
    good, bad := [], [];
    for i := 0 to |fetched|
      invariant good == Parsed(env, fetched[..i])
      invariant bad == Unparsed(env, fetched[..i])
      invariant processed == Keys(f, big) + Keys(f, fetched[..i])
    {
      PreparedNext(f, env, fetched, i);
      if Parses(env, fetched[i]) {
        good := good + [fetched[i]];
      } else {
        bad := bad + [fetched[i]];
      }
      processed := processed + [UidKey(f, fetched[i])];
    }
    assert fetched[..|fetched|] == fetched;
  }

  lemma {:induction false} PreparedNext(f: Folder, env: Env, ids: seq<Id>, i: nat)
    requires i < |ids|
    ensures Parsed(env, ids[..i + 1]) == Parsed(env, ids[..i]) + if Parses(env, ids[i]) then [ids[i]] else []
    ensures Unparsed(env, ids[..i + 1]) == Unparsed(env, ids[..i]) + if Parses(env, ids[i]) then [] else [ids[i]]
    ensures Keys(f, ids[..i + 1]) == Keys(f, ids[..i]) + [UidKey(f, ids[i])]
  {
    assert ids[..i + 1] == ids[..i] + [ids[i]];
    assert ids[..i + 1][..i] == ids[..i];
    KeysAppend(f, ids[..i], ids[i]);
  }

  /** Fetch, upload and commit one window: nothing is recorded before the upload succeeded. */
  method SettlePending(f: Folder, env: Env, window: seq<Id>, state: SyncState)
    returns (failed: Option<Failure>, acked: seq<Id>, oversize: seq<Id>, dropped: seq<Id>)
    modifies state
    ensures var key := Key(f.account, f.name);
            var o := SettleWindow(f, env, window, Seen(old(state.data), key), Seen(old(state.disk), key));
            Seen(state.data, key) == o.mem && Seen(state.disk, key) == o.disk
            && OnlySeenChanged(old(state.data), state.data, key)
            && failed == o.failed && acked == o.acked && oversize == o.oversize && dropped == o.dropped
  {
    acked, oversize, dropped, failed := [], [], [], None;
    var batch := Reversed(window);
    if batch == [] {
      return;
    }
    var fetched: seq<Id>;
    var big: seq<Id>;
    failed, fetched, big := FetchBatch(env, batch);
    if failed.Some? {
      return;
    }
    failed, acked, oversize, dropped := Commit(f, env, window, batch[..BodyCount(env, batch)], fetched, big, state);
  }

  /** What is left once every body is there: upload, then record all the keys. */
  method Commit(f: Folder, env: Env, ghost window: seq<Id>, ghost settled: seq<Id>,
                fetched: seq<Id>, big: seq<Id>, state: SyncState)
    returns (failed: Option<Failure>, acked: seq<Id>, oversize: seq<Id>, dropped: seq<Id>)
    requires fetched == Fetched(env, settled) && big == Oversize(env, settled)
    modifies state
    ensures var key := Key(f.account, f.name);
            var o := CommitSettled(f, env, window, settled, Seen(old(state.data), key), Seen(old(state.disk), key));
            Seen(state.data, key) == o.mem && Seen(state.disk, key) == o.disk
            && OnlySeenChanged(old(state.data), state.data, key)
            && failed == o.failed && acked == o.acked && oversize == o.oversize && dropped == o.dropped
  {
    acked, oversize, dropped, failed := [], [], [], None;
    SettledSplit(env, settled);
    var good, bad, processed := PrepareUpload(f, env, fetched, big);
    assert processed == SettledKeys(f, env, settled);
    if good != [] && !env.uploads {
      failed := Some(UploadFailed);
      return;
    }
    if processed != [] {
      var raised := state.AddPop3SeenMany(f.account, f.name, processed, env.savesSeen);
      acked, oversize, dropped := good, big, bad;
      failed := if raised then Some(SaveFailed) else None;
    }
  }

  /** One folder of `sync_graph`: scan, apply the first-sync limit, fetch, upload, commit. */
  method SyncGraphFolder(f: Folder, limit: int, env: Env, state: SyncState)
    returns (failed: Option<Failure>, acked: seq<Id>, oversize: seq<Id>, dropped: seq<Id>)
    modifies state
    ensures var key := Key(f.account, f.name);
            var o := SyncFolder(f, limit, env, Seen(old(state.data), key), Seen(old(state.disk), key));
            Seen(state.data, key) == o.mem && Seen(state.disk, key) == o.disk
            && OnlySeenChanged(old(state.data), state.data, key)
            && failed == o.failed && acked == o.acked && oversize == o.oversize && dropped == o.dropped
  {
    acked, oversize, dropped := [], [], [];
    var pending := CollectPending(f, limit, env, state);
    if pending.Err? {
      failed := Some(pending.error);
      return;
    }
    failed, acked, oversize, dropped := SettlePending(f, env, pending.value, state);
  }

  /** Oversize and fetched together are all the settled messages. */
  lemma {:induction false} SettledSplit(env: Env, settled: seq<Id>)
    ensures forall x :: x in settled <==> x in Oversize(env, settled) || x in Fetched(env, settled)
    ensures forall x :: x in Fetched(env, settled) <==> x in Normal(env, settled) || x in Dropped(env, settled)
    ensures settled == [] <==> Oversize(env, settled) == [] && Fetched(env, settled) == []
  {
    if settled != [] {
      assert settled[0] in Oversize(env, settled) || settled[0] in Fetched(env, settled);
    }
  }

  /** A run's committed keys are exactly those of its settled messages. */
  lemma {:induction false} SettledKeysExact(f: Folder, env: Env, settled: seq<Id>)
    ensures forall k | k in SettledKeys(f, env, settled) :: exists id :: id in settled && k == UidKey(f, id)
    ensures forall id | id in settled :: UidKey(f, id) in SettledKeys(f, env, settled)
    ensures settled != [] ==> SettledKeys(f, env, settled) != []
  {
    SettledSplit(env, settled);
    var big, rest := Oversize(env, settled), Fetched(env, settled);
    var ids, keys := big + rest, SettledKeys(f, env, settled);
    assert forall i | 0 <= i < |ids| :: keys[i] == UidKey(f, ids[i]);
    forall k | k in keys
      ensures exists id :: id in settled && k == UidKey(f, id)
    {
      var i :| 0 <= i < |ids| && keys[i] == k;
      assert ids[i] in settled && k == UidKey(f, ids[i]);
    }
    forall id | id in settled
      ensures UidKey(f, id) in keys
    {
      assert id in ids;
      var i :| 0 <= i < |ids| && ids[i] == id;
      assert keys[i] == UidKey(f, id);
    }
  }

  /** What became of the messages a run settled. */
  function Settled(o: Outcome): set<Id> {
    set x | x in o.acked + o.oversize + o.dropped
  }

  /** The first n messages of the reversed window are its n oldest. */
  lemma {:induction false} ReversedPrefix(window: seq<Id>, n: nat)
    requires n <= |window|
    ensures forall x :: x in Reversed(window)[..n] <==> x in window[|window| - n..]
  {
    var oldest, r := window[|window| - n..], Reversed(window)[..n];
    assert forall i | 0 <= i < n :: r[i] == oldest[n - 1 - i];
    assert forall i | 0 <= i < n :: oldest[i] == r[n - 1 - i];
  }

  /** A run that changes the seen list settled the n oldest messages of its window, all of
      them, and added no key but theirs; the disk copy is the new list or the previous one. */
  lemma {:induction false} SettleEffect(f: Folder, env: Env, window: seq<Id>, mem: seq<string>,
                                        disk: seq<string>) returns (n: nat)
    ensures n <= |window|
    ensures var o := SettleWindow(f, env, window, mem, disk);
            if n == 0 then o.mem == mem && o.disk == disk
            else
              (o.disk == o.mem || o.disk == disk) && o.mem != []
              && (forall x | x in window[|window| - n..] :: x in Settled(o))
              && (forall k | k in o.mem ::
                    k in mem || exists id :: id in window[|window| - n..] && k == UidKey(f, id))
  {
    var batch := Reversed(window);
    n := BodyCount(env, batch);
    var settled := batch[..n];
    if env.resolves && settled != [] && (n < |batch| ==> !MimeOf(env, batch[n]).Raises?)
       && (Normal(env, settled) == [] || env.uploads) {
      ReversedPrefix(window, n);
      CommitEffect(f, env, window, settled, mem, disk);
    } else {
      n := 0;
    }
  }

  lemma {:induction false} CommitEffect(f: Folder, env: Env, window: seq<Id>, settled: seq<Id>,
                                       mem: seq<string>, disk: seq<string>)
    requires settled != [] && (Normal(env, settled) == [] || env.uploads)
    ensures var o := CommitSettled(f, env, window, settled, mem, disk);
            (o.disk == o.mem || o.disk == disk) && o.mem != []
            && (forall x | x in settled :: x in Settled(o))
            && (forall k | k in o.mem :: k in mem || exists id :: id in settled && k == UidKey(f, id))
  {
    SettledSplit(env, settled);
    SettledKeysExact(f, env, settled);
    var keys := SettledKeys(f, env, settled);
    AppendSeenBounded(mem, keys);
    assert keys[0] in keys;
  }

  // ----- One run in terms of the provider's answers alone -----

  /** What one window comes to. `n` counts its oldest messages up to the first without a body;
      nothing at all is recorded when a body cannot be fetched or the upload fails; otherwise
      those n are acknowledged, too large or dropped by what their bodies are, and exactly their
      keys are recorded: the large ones', then those of the `rest`. */
  ghost predicate SettlesTo(f: Folder, env: Env, window: seq<Id>, mem: seq<string>, disk: seq<string>,
                            n: nat, rest: seq<Id>, o: Outcome)
    requires n <= |window|
  {
    var oldest := window[|window| - n..];
    && (forall x | x in oldest :: MimeOf(env, x).Body?)
    && (n < |window| ==> !MimeOf(env, window[|window| - n - 1]).Body?)
    && if window == [] then o == Unchanged(mem, disk, window, None)
       else if !env.resolves then o == Unchanged(mem, disk, window, Some(Unresolved))
       else if n < |window| && MimeOf(env, window[|window| - n - 1]).Raises? then
         o == Unchanged(mem, disk, window, Some(MimeRaised))
       else if !env.uploads && Sends(env, oldest) then
         o == Unchanged(mem, disk, window, Some(UploadFailed))
       else if oldest == [] then o == Unchanged(mem, disk, window, None)
       else Records(f, env, mem, disk, rest, o) && SortsTo(env, oldest, o.acked, o.oversize, o.dropped, rest)
  }

  /** Something has to be uploaded. */
  ghost predicate Sends(env: Env, oldest: seq<Id>) { exists x | x in oldest :: Deliverable(env, x) }

  ghost predicate Records(f: Folder, env: Env, mem: seq<string>, disk: seq<string>, rest: seq<Id>, o: Outcome) {
    && o.mem == AppendSeen(mem, Keys(f, o.oversize) + Keys(f, rest))
    && o.disk == (if env.savesSeen then o.mem else disk)
    && o.failed == (if env.savesSeen then None else Some(SaveFailed))
  }

  /** Each message is in the one list its body puts it in, and every list goes oldest first. */
  ghost predicate SortsTo(env: Env, oldest: seq<Id>, acked: seq<Id>, oversize: seq<Id>, dropped: seq<Id>,
                          rest: seq<Id>) {
    && ByBody(env, oldest, acked, oversize, dropped, rest)
    && |acked| + |dropped| == |rest| && |oversize| + |rest| == |oldest|
    && Upwards(oldest, acked) && Upwards(oldest, oversize) && Upwards(oldest, dropped) && Upwards(oldest, rest)
  }

  ghost predicate ByBody(env: Env, oldest: seq<Id>, acked: seq<Id>, oversize: seq<Id>, dropped: seq<Id>,
                         rest: seq<Id>) {
    && (forall x :: x in acked <==> x in oldest && Deliverable(env, x))
    && (forall x :: x in oversize <==> x in oldest && OverLimit(env, x))
    && (forall x :: x in dropped <==> x in oldest && Undecodable(env, x))
    && (forall x :: x in rest <==> x in oldest && !OverLimit(env, x))
  }

  /** `s` picks messages of `oldest`, each newer than the one before. */
  ghost predicate Upwards(oldest: seq<Id>, s: seq<Id>) { PicksSome(Reversed(oldest), s) }

  ghost predicate PicksSome(from: seq<Id>, s: seq<Id>) { exists at: seq<nat> :: Picks(from, at, s) }

  ghost predicate Picks(from: seq<Id>, at: seq<nat>, s: seq<Id>) {
    |at| == |s| && (forall i | 0 <= i < |s| :: at[i] < |from| && from[at[i]] == s[i])
    && forall i, j | 0 <= i < j < |s| :: at[i] < at[j]
  }

  /** A body within the size limit that decodes. */
  predicate Deliverable(env: Env, id: Id) {
    MimeOf(env, id).Body? && MimeOf(env, id).size <= 30 * 1024 * 1024 && MimeOf(env, id).parses
  }

  predicate OverLimit(env: Env, id: Id) { MimeOf(env, id).Body? && MimeOf(env, id).size > 30 * 1024 * 1024 }

  predicate Undecodable(env: Env, id: Id) {
    MimeOf(env, id).Body? && MimeOf(env, id).size <= 30 * 1024 * 1024 && !MimeOf(env, id).parses
  }

  function Unchanged(mem: seq<string>, disk: seq<string>, window: seq<Id>, failed: Option<Failure>): Outcome {
    Outcome(mem, disk, window, [], [], [], failed)
  }

  lemma {:induction false} SettlesExactly(f: Folder, env: Env, window: seq<Id>, mem: seq<string>, disk: seq<string>)
    returns (n: nat, rest: seq<Id>)
    ensures n <= |window| && SettlesTo(f, env, window, mem, disk, n, rest, SettleWindow(f, env, window, mem, disk))
  {
    n := BodyCount(env, Reversed(window));
    var oldest := window[|window| - n..];
    rest := Fetched(env, Reversed(oldest));
    BodiesAreOldest(env, window, n);
    SettleIs(f, env, window, mem, disk, n);
    CommitsExactly(f, env, window, oldest, mem, disk);
  }

  lemma {:induction false} CommitsExactly(f: Folder, env: Env, window: seq<Id>, oldest: seq<Id>, mem: seq<string>,
                                         disk: seq<string>)
    requires forall x | x in oldest :: MimeOf(env, x).Body?
    ensures var o := CommitSettled(f, env, window, Reversed(oldest), mem, disk);
            var rest := Fetched(env, Reversed(oldest));
            if !env.uploads && Sends(env, oldest) then o == Unchanged(mem, disk, window, Some(UploadFailed))
            else if oldest == [] then o == Unchanged(mem, disk, window, None)
            else Records(f, env, mem, disk, rest, o) && SortsTo(env, oldest, o.acked, o.oversize, o.dropped, rest)
  {
    ListsExactly(env, oldest);
    assert oldest == [] <==> |Reversed(oldest)| == 0;
  }

  lemma {:induction false} SettleIs(f: Folder, env: Env, window: seq<Id>, mem: seq<string>, disk: seq<string>, n: nat)
    requires n == BodyCount(env, Reversed(window))
    ensures SettleWindow(f, env, window, mem, disk)
            == if window == [] then Unchanged(mem, disk, window, None)
               else if !env.resolves then Unchanged(mem, disk, window, Some(Unresolved))
               else if n < |window| && MimeOf(env, window[|window| - n - 1]).Raises? then
                 Unchanged(mem, disk, window, Some(MimeRaised))
               else CommitSettled(f, env, window, Reversed(window)[..n], mem, disk)
  {
    var batch := Reversed(window);
    assert n < |window| ==> batch[n] == window[|window| - n - 1];
    if window == [] {
      assert batch == [];
    }
  }

  lemma {:induction false} BodiesAreOldest(env: Env, window: seq<Id>, n: nat)
    requires n == BodyCount(env, Reversed(window))
    ensures n <= |window| && forall x | x in window[|window| - n..] :: MimeOf(env, x).Body?
    ensures n < |window| ==> !MimeOf(env, window[|window| - n - 1]).Body?
    ensures Reversed(window)[..n] == Reversed(window[|window| - n..])
  {
    var batch := Reversed(window);
    ReversedTail(window, n);
    assert n < |window| ==> batch[n] == window[|window| - n - 1];
    BodiesFrom(env, window, batch, n);
  }

  lemma {:induction false} BodiesFrom(env: Env, window: seq<Id>, batch: seq<Id>, n: nat)
    requires n <= |window| == |batch| && forall i | 0 <= i < n :: MimeOf(env, batch[i]).Body?
    requires forall i | 0 <= i < |window| :: batch[i] == window[|window| - 1 - i]
    ensures forall x | x in window[|window| - n..] :: MimeOf(env, x).Body?
  {
    forall x | x in window[|window| - n..]
      ensures MimeOf(env, x).Body?
    {
      var j :| |window| - n <= j < |window| && window[j] == x;
      assert batch[|window| - 1 - j] == x;
    }
  }

  lemma {:induction false} ReversedTail(window: seq<Id>, n: nat)
    requires n <= |window|
    ensures Reversed(window)[..n] == Reversed(window[|window| - n..])
  {
  }

  /** The lists of a commit, and when anything has to be uploaded. */
  lemma {:induction false} ListsExactly(env: Env, oldest: seq<Id>)
    requires forall x | x in oldest :: MimeOf(env, x).Body?
    ensures var r := Reversed(oldest);
            SortsTo(env, oldest, Normal(env, r), Oversize(env, r), Dropped(env, r), Fetched(env, r))
            && (Normal(env, r) != [] <==> Sends(env, oldest))
  {
    ListsByBody(env, oldest, Reversed(oldest));
    ListsCount(env, Reversed(oldest));
    ListsPick(env, Reversed(oldest));
    SentExactly(env, oldest, Normal(env, Reversed(oldest)));
  }

  lemma {:induction false} SentExactly(env: Env, oldest: seq<Id>, acked: seq<Id>)
    requires forall x :: x in acked <==> x in oldest && Deliverable(env, x)
    ensures acked != [] <==> Sends(env, oldest)
  {
    if acked != [] {
      assert acked[0] in acked;
    }
  }

  lemma {:induction false} ListsByBody(env: Env, oldest: seq<Id>, settled: seq<Id>)
    requires settled == Reversed(oldest) && forall x | x in oldest :: MimeOf(env, x).Body?
    ensures ByBody(env, oldest, Normal(env, settled), Oversize(env, settled), Dropped(env, settled),
                   Fetched(env, settled))
  {
    ReversedPrefix(oldest, |oldest|);
    assert settled[..|oldest|] == settled && oldest[0..] == oldest;
    assert forall x :: x in settled <==> x in oldest;
  }

  lemma {:induction false} ListsCount(env: Env, settled: seq<Id>)
    ensures |Normal(env, settled)| + |Dropped(env, settled)| == |Fetched(env, settled)|
    ensures |Oversize(env, settled)| + |Fetched(env, settled)| == |settled|
  {
    FilterPartition(id => TooBig(env, id), id => !TooBig(env, id), settled);
    FilterPartition(id => Parses(env, id), id => !Parses(env, id), Fetched(env, settled));
  }

  lemma {:induction false} ListsPick(env: Env, settled: seq<Id>)
    ensures PicksSome(settled, Normal(env, settled)) && PicksSome(settled, Dropped(env, settled))
    ensures PicksSome(settled, Fetched(env, settled)) && PicksSome(settled, Oversize(env, settled))
  {
    var big := FilterPicks(id => TooBig(env, id), settled);
    var small := FilterPicks(id => !TooBig(env, id), settled);
    var fetched := Fetched(env, settled);
    var good := FilterPicks(id => Parses(env, id), fetched);
    var bad := FilterPicks(id => !Parses(env, id), fetched);
    PicksTwice(settled, small, fetched, good, Normal(env, settled));
    PicksTwice(settled, small, fetched, bad, Dropped(env, settled));
  }

  lemma {:induction false} FilterPicks(p: Id -> bool, s: seq<Id>) returns (at: seq<nat>)
    ensures Picks(s, at, Filter(p, s))
  {
    at := [];
    if s != [] {
      var init := s[..|s| - 1];
      var x := s[|s| - 1];
      var start := FilterPicks(p, init);
      at := start;
      if p(x) {
        at := start + [|s| - 1];
        PicksNext(init, start, Filter(p, init), x);
        assert s == init + [x];
      } else {
        assert forall i | 0 <= i < |at| :: s[at[i]] == init[at[i]];
      }
    }
  }

  lemma {:induction false} PicksNext(from: seq<Id>, at: seq<nat>, s: seq<Id>, x: Id)
    requires Picks(from, at, s)
    ensures Picks(from + [x], at + [|from|], s + [x])
  {
  }

  lemma {:induction false} PicksTwice(a: seq<Id>, at: seq<nat>, b: seq<Id>, bt: seq<nat>, c: seq<Id>)
    requires Picks(a, at, b) && Picks(b, bt, c)
    ensures PicksSome(a, c)
  {
    var ct := seq(|c|, i requires 0 <= i < |c| => at[bt[i]]);
    assert Picks(a, ct, c);
  }

  /** A filter and its complement split a sequence. */
  lemma {:induction false} FilterPartition(p: Id -> bool, q: Id -> bool, s: seq<Id>)
    requires forall x | x in s :: p(x) != q(x)
    ensures |Filter(p, s)| + |Filter(q, s)| == |s|
  {
    if s != [] {
      assert s == s[..|s| - 1] + [s[|s| - 1]];
      FilterPartition(p, q, s[..|s| - 1]);
    }
  }
}
