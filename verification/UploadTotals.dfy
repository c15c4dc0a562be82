/** What an upload sends and reports, in terms of the network's answers
    (aggregator/src/one_mail_agg/uploader.py). */
module UploadTotals {
  import opened Routing
  import opened RoutedUpload
  import opened UploadRuns
  import opened Wrappers

  // ----- The counters -----

  /** What one answer adds to a counter. */
  function Adds(p: Post, k: Key): int {
    match p.reply
    case Acknowledged(inserted, skipped, upserted) =>
      (match k
       case Inserted => if inserted.Some? then inserted.value else 0
       case Skipped => if skipped.Some? then skipped.value else 0
       case Upserted => if upserted.Some? then upserted.value else |p.rows|)
    case Quota(_) => 0
    case HttpError(_) => 0
    case Raised => 0
  }

  function Sum(posts: seq<Post>, k: Key): int {
    if posts == [] then 0 else Adds(posts[0], k) + Sum(posts[1..], k)
  }

  /** The counters of an upload: for mail what was inserted and what was skipped, for folders what
      was upserted, over the acknowledged answers; a missing folder counter is the whole chunk. */
  lemma {:induction false} TalliedExactlyWhen(kind: Kind, totals: Totals, posts: seq<Post>)
    ensures Tallied(kind, totals, posts)
            <==> && totals.Keys == (if kind == Emails then {Inserted, Skipped} else {Upserted})
                 && forall k | k in totals :: totals[k] == Sum(posts, k)
  {
    forall k
      ensures Tally(posts, k) == Sum(posts, k)
    {
      TallySums(posts, k);
    }
  }

  lemma {:induction false} TallySums(posts: seq<Post>, k: Key)
    ensures Tally(posts, k) == Sum(posts, k)
  {
    if posts != [] {
      TallySums(posts[1..], k);
      TallyConcat([posts[0]], posts[1..], k);
      assert [posts[0]] + posts[1..] == posts && [posts[0]][..0] == [];
    }
  }

  // ----- The attempts for one chunk -----

  /** The POST can be tried again after this answer. */
  predicate GoesOn(r: Reply) { r.HttpError? || r.Raised? }

  /** `posts` are the attempts from `a` on: one after the other until an answer ends them or
      there are `max`. */
  ghost predicate AttemptsFrom(w: World, d: Destination, n: nat, chunk: seq<Row>, a: nat, max: nat, posts: seq<Post>) {
    && a + |posts| <= max
    && (forall k | 0 <= k < |posts| :: posts[k] == Post(d, chunk, w.Post(d, n, a + k)))
    && (forall k | 0 <= k < |posts| - 1 :: GoesOn(posts[k].reply))
    && (a + |posts| < max ==> posts != [] && !GoesOn(posts[|posts| - 1].reply))
  }

  lemma {:induction false} TriesExactly(w: World, d: Destination, n: nat, chunk: seq<Row>, a: nat, max: nat)
    requires a <= max
    ensures AttemptsFrom(w, d, n, chunk, a, max, Tries(w, d, n, chunk, a, max))
    decreases max - a
  {
    if a < max && GoesOn(w.Post(d, n, a)) {
      TriesExactly(w, d, n, chunk, a + 1, max);
      var posts, rest := Tries(w, d, n, chunk, a, max), Tries(w, d, n, chunk, a + 1, max);
      assert posts == [Post(d, chunk, w.Post(d, n, a))] + rest;
      forall k | 0 <= k < |posts|
        ensures posts[k] == Post(d, chunk, w.Post(d, n, a + k))
      {
        if k > 0 {
          assert posts[k] == rest[k - 1];
        }
      }
    }
  }

  // ----- Where a batch stops -----

  /** The first chunk of the batch that is not cleared. */
  ghost predicate StopsAt(w: World, kind: Kind, d: Destination, batch: seq<Row>, m: nat, n: nat, l: Limits)
    requires l.chunkSize >= 1
  {
    && m <= n < |batch| && Begins(n, l) && !Cleared(w, kind, d, batch, n, l)
    && forall e: nat | m <= e < n && Begins(e, l) :: Cleared(w, kind, d, batch, e, l)
  }

  /** What is reported of the chunk at which a batch stops: that an exception escaped, that its
      payloads could not be stored, or the last answer to its POST. */
  ghost predicate ReportsChunk(w: World, kind: Kind, d: Destination, batch: seq<Row>, n: nat, l: Limits, end: BatchEnd)
    requires l.chunkSize >= 1 && n < |batch|
  {
    if Breaks(w, kind, d, batch, n, l) then end == Escaped
    else if kind == Emails && !ChunkStored(w, d, batch, n, Stop(batch, n, l.chunkSize), l.maxRetries) then
      end == Broken(Failure(d, None))
    else
      var posts := Tries(w, d, n, ChunkOf(batch, n, l.chunkSize), 0, l.maxRetries);
      end == Broken(Failure(d, if posts == [] then None else Some(posts[|posts| - 1].reply)))
  }

  lemma {:induction false} ChunkReported(w: World, kind: Kind, d: Destination, batch: seq<Row>, n: nat, l: Limits)
    requires l.chunkSize >= 1 && n < |batch| && RunChunk(w, kind, d, batch, n, l).end.Some?
    ensures ReportsChunk(w, kind, d, batch, n, l, RunChunk(w, kind, d, batch, n, l).end.value)
  {
    RunChunkIs(w, kind, d, batch, n, l);
    ChunkEndIs(w, d, batch, n, Stop(batch, n, l.chunkSize), l.maxRetries);
  }

  /** A batch that does not get through acknowledges its rows up to the first chunk that is not
      cleared, and reports that chunk. */
  lemma {:induction false} BatchStopsExactly(w: World, kind: Kind, d: Destination, batch: seq<Row>, m: nat, l: Limits)
    returns (n: nat)
    requires l.chunkSize >= 1 && Begins(m, l) && m <= |batch| && !AllCleared(w, kind, d, batch, m, l)
    ensures StopsAt(w, kind, d, batch, m, n, l)
    ensures Ends(w, kind, d, batch, m, n, l, RunBatch(w, kind, d, batch, m, l))
    decreases |batch| - m
  {
    RunChunkIs(w, kind, d, batch, m, l);
    if !Cleared(w, kind, d, batch, m, l) {
      n := m;
      StopsHere(w, kind, d, batch, m, l);
    } else {
      NextStops(w, kind, d, batch, m, l);
      n := BatchStopsExactly(w, kind, d, batch, m + l.chunkSize, l);
      StopsEarlier(w, kind, d, batch, m, n, l);
      StopsLater(w, kind, d, batch, m, n, l);
    }
  }

  /** The run acknowledges the rows up to `n` and reports the chunk there. */
  ghost predicate Ends(w: World, kind: Kind, d: Destination, batch: seq<Row>, m: nat, n: nat, l: Limits, b: BatchRun)
    requires l.chunkSize >= 1 && m <= n < |batch|
  {
    AckedRows(b.posts, d) == batch[m..n] && ReportsChunk(w, kind, d, batch, n, l, b.end)
  }

  lemma {:induction false} NextStops(w: World, kind: Kind, d: Destination, batch: seq<Row>, m: nat, l: Limits)
    requires l.chunkSize >= 1 && Begins(m, l) && m < |batch|
    requires !AllCleared(w, kind, d, batch, m, l) && Cleared(w, kind, d, batch, m, l)
    ensures var next := m + l.chunkSize;
            Begins(next, l) && next < |batch| && !AllCleared(w, kind, d, batch, next, l)
  {
    BatchBegins(w, kind, d, batch, m, l);
    NextBegins(m, m, l);
  }

  lemma {:induction false} StopsHere(w: World, kind: Kind, d: Destination, batch: seq<Row>, m: nat, l: Limits)
    requires l.chunkSize >= 1 && m < |batch| && RunChunk(w, kind, d, batch, m, l).end.Some?
    ensures Ends(w, kind, d, batch, m, m, l, RunBatch(w, kind, d, batch, m, l))
  {
    ChunkAcked(w, kind, d, batch, m, l);
    ChunkReported(w, kind, d, batch, m, l);
  }

  lemma {:induction false} StopsLater(w: World, kind: Kind, d: Destination, batch: seq<Row>, m: nat, n: nat, l: Limits)
    requires l.chunkSize >= 1 && m + l.chunkSize <= n < |batch| && RunChunk(w, kind, d, batch, m, l).end.None?
    requires Ends(w, kind, d, batch, m + l.chunkSize, n, l, RunBatch(w, kind, d, batch, m + l.chunkSize, l))
    ensures Ends(w, kind, d, batch, m, n, l, RunBatch(w, kind, d, batch, m, l))
  {
    var next := m + l.chunkSize;
    var c, rest := RunChunk(w, kind, d, batch, m, l), RunBatch(w, kind, d, batch, next, l);
    ChunkAcked(w, kind, d, batch, m, l);
    GoesOnAt(w, kind, d, batch, m, l);
    EndsJoin(w, kind, d, batch, m, next, n, l, c.posts, rest);
  }

  lemma {:induction false} EndsJoin(w: World, kind: Kind, d: Destination, batch: seq<Row>, m: nat, next: nat, n: nat,
                                   l: Limits, posts: seq<Post>, rest: BatchRun)
    requires l.chunkSize >= 1 && m <= next <= n < |batch| && Ends(w, kind, d, batch, next, n, l, rest)
    requires AckedRows(posts, d) == batch[m..next]
    ensures Ends(w, kind, d, batch, m, n, l, Onward(posts, rest))
  {
    AckedJoin(posts, rest.posts, d, batch, m, next, n);
  }

  lemma {:induction false} GoesOnAt(w: World, kind: Kind, d: Destination, batch: seq<Row>, m: nat, l: Limits)
    requires l.chunkSize >= 1 && m < |batch| && RunChunk(w, kind, d, batch, m, l).end.None?
    ensures RunBatch(w, kind, d, batch, m, l)
            == Onward(RunChunk(w, kind, d, batch, m, l).posts, RunBatch(w, kind, d, batch, m + l.chunkSize, l))
  {
  }

  lemma {:induction false} AckedJoin(a: seq<Post>, b: seq<Post>, d: Destination, batch: seq<Row>, m: nat, next: nat,
                                    n: nat)
    requires m <= next <= n <= |batch|
    requires AckedRows(a, d) == batch[m..next] && AckedRows(b, d) == batch[next..n]
    ensures AckedRows(a + b, d) == batch[m..n]
  {
    AckedConcat(a, b, d);
    assert batch[m..next] + batch[next..n] == batch[m..n];
  }

  lemma {:induction false} StopsEarlier(w: World, kind: Kind, d: Destination, batch: seq<Row>, m: nat, n: nat,
                                       l: Limits)
    requires l.chunkSize >= 1 && Begins(m, l) && m < |batch| && Cleared(w, kind, d, batch, m, l)
    requires StopsAt(w, kind, d, batch, m + l.chunkSize, n, l)
    ensures StopsAt(w, kind, d, batch, m, n, l)
  {
    forall e: nat | m < e && Begins(e, l)
      ensures m + l.chunkSize <= e
    {
      NextBegins(m, e, l);
    }
  }

  lemma {:induction false} CombinedFailures(bs: seq<BatchRun>, f: Failure)
    requires f in Combined(bs).failures
    ensures exists i :: 0 <= i < |bs| && bs[i].end == Broken(f)
  {
    if f !in FailuresOf(bs[0]) {
      CombinedFailures(bs[1..], f);
      var i :| 0 <= i < |bs[1..]| && bs[1..][i].end == Broken(f);
      assert bs[i + 1].end == Broken(f);
    }
  }

  /** Every failure an upload reports is that of the chunk at which its destination's rows stop. */
  lemma {:induction false} FailureExactly(w: World, kind: Kind, c: Config, rows: seq<Row>, l: Limits, f: Failure)
    returns (n: nat)
    requires l.chunkSize >= 1 && f in RunAll(w, kind, c, rows, l).failures
    ensures var batch := Routed(c, rows, f.destination);
            StopsAt(w, kind, f.destination, batch, 0, n, l)
            && ReportsChunk(w, kind, f.destination, batch, n, l, Broken(f))
  {
    var order := Order(c, rows);
    var bs := Batches(w, kind, c, rows, order, l);
    CombinedFailures(bs, f);
    var i :| 0 <= i < |bs| && bs[i].end == Broken(f);
    var batch := Routed(c, rows, order[i]);
    BatchEnds(w, kind, order[i], batch, 0, l);
    n := BatchStopsExactly(w, kind, order[i], batch, 0, l);
  }
}
