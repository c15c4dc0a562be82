/** Uploading rows to their destinations in chunks (aggregator/src/one_mail_agg/uploader.py).

    Within one upload every request is made at most once for its destination, chunk and
    attempt, so what the network answers depends on these alone. Sleeping between attempts is
    not modelled. */
module RoutedUpload {
  import opened Routing
  import opened Wrappers

  const MAX_PAYLOAD_BYTES: nat := 30 * 1024 * 1024

  datatype Kind = Emails | Folders

  /** The counters of an upload: two for mail, one for folders. */
  datatype Key = Inserted | Skipped | Upserted

  type Totals = map<Key, int>

  /** How one POST ends: status 200 with readable counters (each may be missing), a decoded
      quota refusal, another status, or an exception, unreadable counters included. */
  datatype Reply =
    | Acknowledged(inserted: Option<int>, skipped: Option<int>, upserted: Option<int>)
    | Quota(retryAt: int)
    | HttpError(status: nat)
    | Raised

  /** How one PUT of an attachment ends: status 200 with or without a valid storage key, a
      quota refusal, or anything that is tried again. */
  datatype PutReply = PutOk(keyValid: bool) | PutQuota | PutError

  /** POSTs are answered by destination, first row of the chunk and attempt; PUTs by destination,
      place of the row in its batch, place of the payload in its row, and attempt. A request
      without an answer raises. */
  datatype World = World(
    post: map<(Destination, nat, nat), Reply>,
    put: map<(Destination, nat, nat, nat), PutReply>)
  {
    function Post(d: Destination, n: nat, a: nat): Reply {
      if (d, n, a) in post then post[(d, n, a)] else Raised
    }

    function Put(d: Destination, p: nat, k: nat, a: nat): PutReply {
      if (d, p, k, a) in put then put[(d, p, k, a)] else PutError
    }
  }

  datatype Limits = Limits(maxRetries: nat, chunkSize: nat)

  // ----- The attachments of a chunk -----

  /** The attachment step: everything stored, an error `_upload` records, or a malformed
      payload, whose ValueError nothing in `_upload` catches. */
  datatype Prepared = Stored | Refused | Malformed

  function PutTries(w: World, d: Destination, p: nat, k: nat, a: nat, max: nat): bool
    decreases max - a
  {
    if a >= max then false
    else
      match w.Put(d, p, k, a)
      case PutOk(valid) => valid
      case PutQuota => false
      case PutError => PutTries(w, d, p, k, a + 1, max)
  }

  function PayloadEnd(w: World, d: Destination, p: nat, k: nat, payload: Payload, max: nat): Prepared {
    if !payload.wellFormed then Malformed
    else if payload.size > MAX_PAYLOAD_BYTES || !PutTries(w, d, p, k, 0, max) then Refused
    else Stored
  }

  function RowEnd(w: World, d: Destination, p: nat, row: Row, k: nat, max: nat): Prepared
    decreases |row.payloads| - k
  {
    if k >= |row.payloads| then Stored
    else
      var e := PayloadEnd(w, d, p, k, row.payloads[k], max);
      if e.Stored? then RowEnd(w, d, p, row, k + 1, max) else e
  }

  /** `_upload_attachment_payloads` over the rows `first..stop` of a batch. */
  function ChunkEnd(w: World, d: Destination, batch: seq<Row>, first: nat, stop: nat, max: nat): Prepared
    requires first <= stop <= |batch|
    decreases stop - first
  {
    if first == stop then Stored
    else
      var e := RowEnd(w, d, first, batch[first], 0, max);
      if e.Stored? then ChunkEnd(w, d, batch, first + 1, stop, max) else e
  }

  // ----- POSTs and what they count -----

  datatype Post = Post(destination: Destination, rows: seq<Row>, reply: Reply)

  function KeysOf(kind: Kind): set<Key> { if kind == Emails then {Inserted, Skipped} else {Upserted} }

  function Or(n: Option<int>, otherwise: int): int { if n.Some? then n.value else otherwise }

  /** One counter of an answer; a missing folder counter stands for the whole chunk. */
  function Count(p: Post, k: Key): int {
    if !p.reply.Acknowledged? then 0
    else
      match k
      case Inserted => Or(p.reply.inserted, 0)
      case Skipped => Or(p.reply.skipped, 0)
      case Upserted => Or(p.reply.upserted, |p.rows|)
  }

  /** A counter over every acknowledged POST, each once. */
  function Tally(sent: seq<Post>, k: Key): int {
    if sent == [] then 0 else Tally(sent[..|sent| - 1], k) + Count(sent[|sent| - 1], k)
  }

  ghost predicate Tallied(kind: Kind, totals: Totals, sent: seq<Post>) {
    totals.Keys == KeysOf(kind) && forall k <- totals.Keys :: totals[k] == Tally(sent, k)
  }

  /** The rows a destination acknowledged, in the order it was sent them. */
  function AckedRows(sent: seq<Post>, d: Destination): seq<Row> {
    if sent == [] then []
    else
      var rest, p := AckedRows(sent[..|sent| - 1], d), sent[|sent| - 1];
      if p.reply.Acknowledged? && p.destination == d then rest + p.rows else rest
  }

  lemma {:induction false} TallyConcat(a: seq<Post>, b: seq<Post>, k: Key)
    ensures Tally(a + b, k) == Tally(a, k) + Tally(b, k)
  {
    if b == [] {
      assert a + b == a;
    } else {
      TallyConcat(a, b[..|b| - 1], k);
      assert (a + b)[..|a + b| - 1] == a + b[..|b| - 1];
    }
  }

  lemma {:induction false} AckedConcat(a: seq<Post>, b: seq<Post>, d: Destination)
    ensures AckedRows(a + b, d) == AckedRows(a, d) + AckedRows(b, d)
  {
    if b == [] {
      assert a + b == a;
    } else {
      AckedConcat(a, b[..|b| - 1], d);
      assert (a + b)[..|a + b| - 1] == a + b[..|b| - 1];
    }
  }

  /** The attempts for the chunk from row `n` on: again after an error, at most `max` times. */
  function Tries(w: World, d: Destination, n: nat, chunk: seq<Row>, a: nat, max: nat): seq<Post>
    decreases max - a
  {
    if a >= max then []
    else
      var reply := w.Post(d, n, a);
      if reply.Acknowledged? || reply.Quota? then [Post(d, chunk, reply)]
      else [Post(d, chunk, reply)] + Tries(w, d, n, chunk, a + 1, max)
  }

  predicate EndsWell(posts: seq<Post>) { posts != [] && posts[|posts| - 1].reply.Acknowledged? }

  function LastReply(posts: seq<Post>): Option<Reply> {
    if posts == [] then None else Some(posts[|posts| - 1].reply)
  }

  // ----- One destination -----

  datatype Failure = Failure(destination: Destination, last: Option<Reply>)

  datatype BatchEnd = Whole | Broken(failure: Failure) | Escaped

  datatype BatchRun = BatchRun(posts: seq<Post>, end: BatchEnd)

  function Min(a: nat, b: nat): nat { if a < b then a else b }

  function Stop(batch: seq<Row>, n: nat, chunkSize: nat): nat { Min(n + chunkSize, |batch|) }

  function ChunkOf(batch: seq<Row>, n: nat, chunkSize: nat): seq<Row>
    requires n < |batch|
  {
    batch[n..Stop(batch, n, chunkSize)]
  }

  function PreparedAt(w: World, kind: Kind, d: Destination, batch: seq<Row>, n: nat, l: Limits): Prepared
    requires n < |batch|
  {
    if kind == Emails then ChunkEnd(w, d, batch, n, Stop(batch, n, l.chunkSize), l.maxRetries) else Stored
  }

  function TriesAt(w: World, d: Destination, batch: seq<Row>, n: nat, l: Limits): seq<Post>
    requires n < |batch|
  {
    Tries(w, d, n, ChunkOf(batch, n, l.chunkSize), 0, l.maxRetries)
  }

  /** One chunk: what was posted and, unless it was delivered, the batch's end. */
  datatype ChunkRun = ChunkRun(posts: seq<Post>, end: Option<BatchEnd>)

  function RunChunk(w: World, kind: Kind, d: Destination, batch: seq<Row>, n: nat, l: Limits): ChunkRun
    requires n < |batch|
  {
    match PreparedAt(w, kind, d, batch, n, l)
    case Malformed => ChunkRun([], Some(Escaped))
    case Refused => ChunkRun([], Some(Broken(Failure(d, None))))
    case Stored =>
      var posts := TriesAt(w, d, batch, n, l);
      ChunkRun(posts, if EndsWell(posts) then None else Some(Broken(Failure(d, LastReply(posts)))))
  }

  /** What has been posted already, and then what a run posts. */
  function Onward(posts: seq<Post>, r: BatchRun): BatchRun { BatchRun(posts + r.posts, r.end) }

  /** The chunks of a batch from row `n` on, until one cannot be delivered. */
  function RunBatch(w: World, kind: Kind, d: Destination, batch: seq<Row>, n: nat, l: Limits): BatchRun
    requires l.chunkSize >= 1
    decreases |batch| - n
  {
    if n >= |batch| then BatchRun([], Whole)
    else
      var c := RunChunk(w, kind, d, batch, n, l);
      if c.end.Some? then BatchRun(c.posts, c.end.value)
      else Onward(c.posts, RunBatch(w, kind, d, batch, n + l.chunkSize, l))
  }

  // ----- All destinations -----

  datatype Run = Run(posts: seq<Post>, failures: seq<Failure>, aborted: bool)

  /** What each destination's batch comes to, on its own. */
  function Batches(w: World, kind: Kind, c: Config, rows: seq<Row>, order: seq<Destination>,
                   l: Limits): (bs: seq<BatchRun>)
    requires l.chunkSize >= 1
    ensures |bs| == |order|
  {
    seq(|order|, i requires 0 <= i < |order| => RunBatch(w, kind, order[i], Routed(c, rows, order[i]), 0, l))
  }

  function FailuresOf(b: BatchRun): seq<Failure> { if b.end.Broken? then [b.end.failure] else [] }

  /** One batch after the other, up to one that lets an exception through. */
  function Combined(bs: seq<BatchRun>): Run {
    if bs == [] then Run([], [], false)
    else if bs[0].end.Escaped? then Run(bs[0].posts, [], true)
    else
      var rest := Combined(bs[1..]);
      Run(bs[0].posts + rest.posts, FailuresOf(bs[0]) + rest.failures, rest.aborted)
  }

  function RunAll(w: World, kind: Kind, c: Config, rows: seq<Row>, l: Limits): Run
    requires l.chunkSize >= 1
  {
    Combined(Batches(w, kind, c, rows, Order(c, rows), l))
  }

  datatype Outcome =
    | Done(totals: Totals)
    | Failed(failures: seq<Failure>, totals: Totals)
    | Aborted
    | Rejected

  /** How an upload returns: its run decides, and its counters are those of what was acknowledged. */
  ghost predicate Concludes(r: Outcome, kind: Kind, run: Run) {
    match r
    case Done(totals) => !run.aborted && run.failures == [] && Tallied(kind, totals, run.posts)
    case Failed(failures, totals) =>
      !run.aborted && failures == run.failures != [] && Tallied(kind, totals, run.posts)
    case Aborted => run.aborted
    case Rejected => false
  }

  // ----- The code's own loops -----

  /** The rows of a chunk, payload after payload, attempt after attempt. */
  method StorePayloads(w: World, d: Destination, batch: seq<Row>, first: nat, stop: nat, max: nat) returns (e: Prepared)
    requires first <= stop <= |batch|
    ensures e == ChunkEnd(w, d, batch, first, stop, max)
  {
    var p := first;
    while p < stop
      invariant first <= p <= stop
      invariant ChunkEnd(w, d, batch, first, stop, max) == ChunkEnd(w, d, batch, p, stop, max)
    {
      e := StoreRow(w, d, p, batch[p], max);
      if !e.Stored? {
        return;
      }
      p := p + 1;
    }
    e := Stored;
  }

  method StoreRow(w: World, d: Destination, p: nat, row: Row, max: nat) returns (e: Prepared)
    ensures e == RowEnd(w, d, p, row, 0, max)
  {
    for k := 0 to |row.payloads|
      invariant RowEnd(w, d, p, row, 0, max) == RowEnd(w, d, p, row, k, max)
    {
      if !row.payloads[k].wellFormed {
        return Malformed;
      }
      if row.payloads[k].size > MAX_PAYLOAD_BYTES {
        return Refused;
      }
      var stored := PutPayload(w, d, p, k, max);
      if !stored {
        return Refused;
      }
    }
    e := Stored;
  }

  method PutPayload(w: World, d: Destination, p: nat, k: nat, max: nat) returns (stored: bool)
    ensures stored == PutTries(w, d, p, k, 0, max)
  {
    for a := 0 to max
      invariant PutTries(w, d, p, k, 0, max) == PutTries(w, d, p, k, a, max)
    {
      match w.Put(d, p, k, a)
      case PutOk(valid) => return valid;
      case PutQuota => return false;
      case PutError =>
    }
    stored := false;
  }

  ghost predicate Unacknowledged(posts: seq<Post>) {
    forall i | 0 <= i < |posts| :: !posts[i].reply.Acknowledged?
  }

  /** One more answer after errors only. */
  lemma {:induction false} TriesStep(w: World, d: Destination, n: nat, chunk: seq<Row>, a: nat, max: nat,
                                     posts: seq<Post>)
    requires a < max && Unacknowledged(posts)
    ensures var reply := w.Post(d, n, a);
            var more := posts + [Post(d, chunk, reply)];
            && (EndsWell(more) <==> reply.Acknowledged?) && LastReply(more) == Some(reply)
            && (!reply.Acknowledged? ==> Unacknowledged(more))
            && posts + Tries(w, d, n, chunk, a, max)
               == if reply.Acknowledged? || reply.Quota? then more else more + Tries(w, d, n, chunk, a + 1, max)
  {
    var p := Post(d, chunk, w.Post(d, n, a));
    assert posts + ([p] + Tries(w, d, n, chunk, a + 1, max)) == (posts + [p]) + Tries(w, d, n, chunk, a + 1, max);
  }

  lemma {:induction false} ErrorsTally(posts: seq<Post>, k: Key)
    requires Unacknowledged(posts)
    ensures Tally(posts, k) == 0
  {
    if posts != [] {
      ErrorsTally(posts[..|posts| - 1], k);
    }
  }

  lemma {:induction false} ErrorsTallied(kind: Kind, posts: seq<Post>, counts: Totals)
    requires Unacknowledged(posts)
    requires counts.Keys == KeysOf(kind) && forall k <- counts.Keys :: counts[k] == 0
    ensures Tallied(kind, counts, posts)
  {
    forall k <- counts.Keys
      ensures counts[k] == Tally(posts, k)
    {
      ErrorsTally(posts, k);
    }
  }

  lemma {:induction false} LastTallied(kind: Kind, posts: seq<Post>, p: Post, counts: Totals)
    requires Unacknowledged(posts)
    requires counts.Keys == KeysOf(kind) && forall k <- counts.Keys :: counts[k] == Count(p, k)
    ensures Tallied(kind, counts, posts + [p])
  {
    assert (posts + [p])[..|posts|] == posts;
    forall k <- counts.Keys
      ensures counts[k] == Tally(posts + [p], k)
    {
      ErrorsTally(posts, k);
    }
  }

  /** The attempts for one chunk; the counters are all read before any total changes. */
  method PostChunk(w: World, kind: Kind, d: Destination, n: nat, chunk: seq<Row>, max: nat)
    returns (posts: seq<Post>, counts: Totals, succeeded: bool, last: Option<Reply>)
    ensures posts == Tries(w, d, n, chunk, 0, max) && last == LastReply(posts)
    ensures succeeded == EndsWell(posts) && Tallied(kind, counts, posts)
  {
    posts, succeeded, last := [], false, None;
    ghost var all := Tries(w, d, n, chunk, 0, max);
    var attempt := 0;
    while attempt < max
      invariant attempt <= max && last == LastReply(posts) && !succeeded
      invariant Unacknowledged(posts)
      invariant all == posts + Tries(w, d, n, chunk, attempt, max)
    {
      TriesStep(w, d, n, chunk, attempt, max, posts);
      var post := Post(d, chunk, w.Post(d, n, attempt));
      if post.reply.Acknowledged? {
        counts := map k | k in KeysOf(kind) :: Count(post, k);
        LastTallied(kind, posts, post, counts);
        posts, last, succeeded := posts + [post], Some(post.reply), true;
        return;
      }
      posts, last := posts + [post], Some(post.reply);
      if post.reply.Quota? {
        counts := map k | k in KeysOf(kind) :: 0;
        ErrorsTallied(kind, posts, counts);
        return;
      }
      attempt := attempt + 1;
    }
    assert posts + [] == posts;
    counts := map k | k in KeysOf(kind) :: 0;
    ErrorsTallied(kind, posts, counts);
  }

  method UploadChunk(w: World, kind: Kind, d: Destination, batch: seq<Row>, n: nat, l: Limits)
    returns (c: ChunkRun, counts: Totals)
    requires n < |batch|
    ensures c == RunChunk(w, kind, d, batch, n, l) && Tallied(kind, counts, c.posts)
  {
    counts := map k | k in KeysOf(kind) :: 0;
    var prepared := Stored;
    if kind == Emails {
      prepared := StorePayloads(w, d, batch, n, Stop(batch, n, l.chunkSize), l.maxRetries);
    }
    if prepared.Malformed? {
      c := ChunkRun([], Some(Escaped));
    } else if prepared.Refused? {
      c := ChunkRun([], Some(Broken(Failure(d, None))));
    } else {
      var posts, succeeded, last;
      posts, counts, succeeded, last := PostChunk(w, kind, d, n, ChunkOf(batch, n, l.chunkSize), l.maxRetries);
      c := ChunkRun(posts, if succeeded then None else Some(Broken(Failure(d, last))));
    }
  }

  function Added(totals: Totals, counts: Totals): Totals {
    map k | k in totals :: totals[k] + if k in counts then counts[k] else 0
  }

  lemma {:induction false} TalliedAdds(kind: Kind, totals: Totals, sent: seq<Post>, counts: Totals, more: seq<Post>)
    requires Tallied(kind, totals, sent) && Tallied(kind, counts, more)
    ensures Tallied(kind, Added(totals, counts), sent + more)
  {
    forall k <- totals.Keys
      ensures Tally(sent + more, k) == totals[k] + counts[k]
    {
      TallyConcat(sent, more, k);
    }
  }

  /** What one chunk does to the batch's run, `rest` standing for the chunks after it. */
  lemma {:induction false} BatchStep(posts: seq<Post>, c: ChunkRun, was: BatchRun, rest: BatchRun)
    requires was == if c.end.Some? then BatchRun(c.posts, c.end.value) else Onward(c.posts, rest)
    ensures Onward(posts, was)
            == if c.end.Some? then BatchRun(posts + c.posts, c.end.value) else Onward(posts + c.posts, rest)
  {
    assert posts + (c.posts + rest.posts) == (posts + c.posts) + rest.posts;
  }

  lemma {:induction false} BatchUnrolls(w: World, kind: Kind, d: Destination, batch: seq<Row>, n: nat, l: Limits,
                     posts: seq<Post>, c: ChunkRun, was: BatchRun, rest: BatchRun)
    requires l.chunkSize >= 1 && n < |batch| && c == RunChunk(w, kind, d, batch, n, l)
    requires was == RunBatch(w, kind, d, batch, n, l) && rest == RunBatch(w, kind, d, batch, n + l.chunkSize, l)
    ensures Onward(posts, was)
            == if c.end.Some? then BatchRun(posts + c.posts, c.end.value) else Onward(posts + c.posts, rest)
  {
    BatchStep(posts, c, was, rest);
  }

  lemma {:induction false} OnwardEnds(posts: seq<Post>, r: BatchRun)
    ensures Onward([], r) == r && Onward(posts, BatchRun([], r.end)) == BatchRun(posts, r.end)
  {
    assert [] + r.posts == r.posts && posts + [] == posts;
  }

  /** One turn of the chunk loop: `rest` is the run from here on, `next` that after this chunk. */
  method NextChunk(w: World, kind: Kind, d: Destination, batch: seq<Row>, n: nat, l: Limits,
                   before: seq<Post>, countsBefore: Totals, ghost rest: BatchRun)
    returns (posts: seq<Post>, counts: Totals, end: Option<BatchEnd>, m: nat, ghost next: BatchRun)
    requires l.chunkSize >= 1 && n < |batch| && Tallied(kind, countsBefore, before)
    requires rest == RunBatch(w, kind, d, batch, n, l)
    ensures m > n && next == RunBatch(w, kind, d, batch, m, l) && Tallied(kind, counts, posts)
    ensures Onward(before, rest) == if end.Some? then BatchRun(posts, end.value) else Onward(posts, next)
  {
    var c, more := UploadChunk(w, kind, d, batch, n, l);
    m := n + l.chunkSize;
    next := RunBatch(w, kind, d, batch, m, l);
    BatchUnrolls(w, kind, d, batch, n, l, before, c, rest, next);
    TalliedAdds(kind, countsBefore, before, more, c.posts);
    posts, counts, end := before + c.posts, Added(countsBefore, more), c.end;
  }

  /** One destination's batch, chunk after chunk. */
  method UploadBatch(w: World, kind: Kind, d: Destination, batch: seq<Row>, l: Limits)
    returns (posts: seq<Post>, counts: Totals, end: BatchEnd)
    requires l.chunkSize >= 1
    ensures BatchRun(posts, end) == RunBatch(w, kind, d, batch, 0, l) && Tallied(kind, counts, posts)
  {
    posts, counts := [], map k | k in KeysOf(kind) :: 0;
    var n: nat := 0;
    ghost var all := RunBatch(w, kind, d, batch, 0, l);
    ghost var rest := all;
    OnwardEnds(posts, all);
    while n < |batch|
      invariant rest == RunBatch(w, kind, d, batch, n, l) && all == Onward(posts, rest)
      invariant Tallied(kind, counts, posts)
    {
      var ended;
      posts, counts, ended, n, rest := NextChunk(w, kind, d, batch, n, l, posts, counts, rest);
      if ended.Some? {
        end := ended.value;
        return;
      }
    }
    OnwardEnds(posts, rest);
    end := Whole;
  }

  function Join(posts: seq<Post>, failures: seq<Failure>, r: Run): Run {
    Run(posts + r.posts, failures + r.failures, r.aborted)
  }

  lemma {:induction false} CombinedStep(bs: seq<BatchRun>, g: nat, posts: seq<Post>, failures: seq<Failure>)
    requires g < |bs|
    ensures var b := bs[g];
            Join(posts, failures, Combined(bs[g..]))
            == if b.end.Escaped? then Run(posts + b.posts, failures, true)
               else Join(posts + b.posts, if b.end.Broken? then failures + [b.end.failure] else failures,
                         Combined(bs[g + 1..]))
  {
    assert bs[g..][0] == bs[g] && bs[g..][1..] == bs[g + 1..];
    var b, rest := bs[g], Combined(bs[g + 1..]);
    assert posts + (b.posts + rest.posts) == (posts + b.posts) + rest.posts;
    assert failures + (FailuresOf(b) + rest.failures) == (failures + FailuresOf(b)) + rest.failures;
    assert failures + [] == failures;
  }

  lemma {:induction false} JoinEnds(posts: seq<Post>, failures: seq<Failure>, r: Run)
    ensures Join([], [], r) == r && Join(posts, failures, Run([], [], false)) == Run(posts, failures, false)
  {
    assert [] + r.posts == r.posts && [] + r.failures == r.failures;
  }

  /** The loop over the groups. */
  method UploadGroups(w: World, kind: Kind, order: seq<Destination>, groups: map<Destination, seq<Row>>, l: Limits,
                      ghost bs: seq<BatchRun>)
    returns (posts: seq<Post>, totals: Totals, failures: seq<Failure>, aborted: bool)
    requires l.chunkSize >= 1
    requires |bs| == |order| && forall d <- order :: d in groups
    requires forall g | 0 <= g < |order| :: bs[g] == RunBatch(w, kind, order[g], groups[order[g]], 0, l)
    ensures Run(posts, failures, aborted) == Combined(bs) && Tallied(kind, totals, posts)
  {
    posts, totals, failures, aborted := [], map k | k in KeysOf(kind) :: 0, [], false;
    ghost var all := Combined(bs);
    JoinEnds(posts, failures, all);
    for g := 0 to |order|
      invariant Tallied(kind, totals, posts) && !aborted
      invariant all == Join(posts, failures, Combined(bs[g..]))
    {
      assert order[g] in order;
      var more, counts, end := UploadBatch(w, kind, order[g], groups[order[g]], l);
      TalliedAdds(kind, totals, posts, counts, more);
      CombinedStep(bs, g, posts, failures);
      posts, totals := posts + more, Added(totals, counts);
      if end.Escaped? {
        aborted := true;
        return;
      }
      if end.Broken? {
        failures := failures + [end.failure];
      }
    }
    JoinEnds(posts, failures, all);
  }

  /** `_upload`. */
  method Upload(c: Config, rows: seq<Row>, kind: Kind, maxRetries: int, chunkSize: int, w: World)
    returns (r: Outcome, posts: seq<Post>)
    ensures r.Rejected? <==> maxRetries < 1 || chunkSize < 1
    ensures r.Rejected? ==> posts == []
    ensures !r.Rejected? ==>
              var run := RunAll(w, kind, c, rows, Limits(maxRetries, chunkSize));
              Concludes(r, kind, run) && posts == run.posts
  {
    posts := [];
    if maxRetries < 1 || chunkSize < 1 {
      return Rejected, [];
    }
    var l := Limits(maxRetries, chunkSize);
    var order, groups := GroupRows(c, rows);
    var totals, failures, aborted;
    posts, totals, failures, aborted :=
      UploadGroups(w, kind, order, groups, l, Batches(w, kind, c, rows, order, l));
    r := if aborted then Aborted else if failures != [] then Failed(failures, totals) else Done(totals);
  }
}
