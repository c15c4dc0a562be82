/** When an upload is complete, when it fails and when it is abandoned, in terms of the rows'
    payloads and the network's answers (aggregator/src/one_mail_agg/uploader.py). */
module UploadRuns {
  import opened Routing
  import opened RoutedUpload
  import opened Wrappers

  // ----- One chunk -----

  /** Attempt `a` stores the payload after errors only, from attempt `first` on. */
  ghost predicate PutWins(w: World, d: Destination, p: nat, k: nat, first: nat, a: nat) {
    w.Put(d, p, k, a) == PutOk(true) && forall b: nat | first <= b < a :: w.Put(d, p, k, b).PutError?
  }

  lemma {:induction false} PutTriesIs(w: World, d: Destination, p: nat, k: nat, first: nat, max: nat)
    ensures PutTries(w, d, p, k, first, max) <==> exists a: nat :: first <= a < max && PutWins(w, d, p, k, first, a)
    decreases max - first
  {
    if first < max {
      if w.Put(d, p, k, first).PutError? {
        PutTriesIs(w, d, p, k, first + 1, max);
        var next := first + 1;
        if a: nat :| next <= a < max && PutWins(w, d, p, k, next, a) {
          assert PutWins(w, d, p, k, first, a);
        }
        if a: nat :| first <= a < max && PutWins(w, d, p, k, first, a) {
          assert a != first;
          assert PutWins(w, d, p, k, next, a);
        }
      } else {
        assert w.Put(d, p, k, first) == PutOk(true) <==> PutWins(w, d, p, k, first, first);
        forall a: nat | first < a
          ensures !PutWins(w, d, p, k, first, a)
        {
        }
      }
    }
  }

  /** The payload is sound and small enough, and is stored within the attempts. */
  ghost predicate StoredAt(w: World, d: Destination, p: nat, k: nat, payload: Payload, max: nat) {
    payload.wellFormed && payload.size <= 30 * 1024 * 1024 && exists a: nat :: a < max && PutWins(w, d, p, k, 0, a)
  }

  ghost predicate RowStored(w: World, d: Destination, p: nat, row: Row, first: nat, max: nat) {
    forall k | first <= k < |row.payloads| :: StoredAt(w, d, p, k, row.payloads[k], max)
  }

  /** A malformed payload is reached: everything before it in the row was stored. */
  ghost predicate RowBreaks(w: World, d: Destination, p: nat, row: Row, first: nat, k: nat, max: nat) {
    first <= k < |row.payloads| && !row.payloads[k].wellFormed
    && forall j | first <= j < k :: StoredAt(w, d, p, j, row.payloads[j], max)
  }

  lemma {:induction false} PayloadEndIs(w: World, d: Destination, p: nat, k: nat, payload: Payload, max: nat)
    ensures PayloadEnd(w, d, p, k, payload, max).Stored? <==> StoredAt(w, d, p, k, payload, max)
    ensures PayloadEnd(w, d, p, k, payload, max).Malformed? <==> !payload.wellFormed
  {
    PutTriesIs(w, d, p, k, 0, max);
  }

  lemma {:induction false} RowEndIs(w: World, d: Destination, p: nat, row: Row, first: nat, max: nat)
    ensures RowEnd(w, d, p, row, first, max).Stored? <==> RowStored(w, d, p, row, first, max)
    ensures RowEnd(w, d, p, row, first, max).Malformed? <==> exists k: nat :: RowBreaks(w, d, p, row, first, k, max)
    decreases |row.payloads| - first
  {
    if first < |row.payloads| {
      PayloadEndIs(w, d, p, first, row.payloads[first], max);
      RowEndIs(w, d, p, row, first + 1, max);
      if !row.payloads[first].wellFormed {
        assert RowBreaks(w, d, p, row, first, first, max);
      }
      var next, stored := first + 1, StoredAt(w, d, p, first, row.payloads[first], max);
      if k: nat :| RowBreaks(w, d, p, row, first, k, max) && k != first {
        assert stored && RowBreaks(w, d, p, row, next, k, max);
      }
      if k: nat :| stored && RowBreaks(w, d, p, row, next, k, max) {
        assert RowBreaks(w, d, p, row, first, k, max);
      }
    }
  }

  ghost predicate ChunkStored(w: World, d: Destination, batch: seq<Row>, first: nat, stop: nat, max: nat)
    requires stop <= |batch|
  {
    forall p | first <= p < stop :: RowStored(w, d, p, batch[p], 0, max)
  }

  ghost predicate ChunkBreaks(w: World, d: Destination, batch: seq<Row>, first: nat, p: nat, stop: nat, max: nat)
    requires stop <= |batch|
  {
    first <= p < stop && (exists k: nat :: RowBreaks(w, d, p, batch[p], 0, k, max))
    && forall q | first <= q < p :: RowStored(w, d, q, batch[q], 0, max)
  }

  lemma {:induction false} ChunkEndIs(w: World, d: Destination, batch: seq<Row>, first: nat, stop: nat, max: nat)
    requires first <= stop <= |batch|
    ensures ChunkEnd(w, d, batch, first, stop, max).Stored? <==> ChunkStored(w, d, batch, first, stop, max)
    ensures ChunkEnd(w, d, batch, first, stop, max).Malformed?
            <==> exists p: nat :: ChunkBreaks(w, d, batch, first, p, stop, max)
    decreases stop - first
  {
    if first < stop {
      RowEndIs(w, d, first, batch[first], 0, max);
      ChunkEndIs(w, d, batch, first + 1, stop, max);
      if RowEnd(w, d, first, batch[first], 0, max).Malformed? {
        assert ChunkBreaks(w, d, batch, first, first, stop, max);
      }
      var next, stored := first + 1, RowStored(w, d, first, batch[first], 0, max);
      if p: nat :| ChunkBreaks(w, d, batch, first, p, stop, max) && p != first {
        assert stored && ChunkBreaks(w, d, batch, next, p, stop, max);
      }
      if p: nat :| stored && ChunkBreaks(w, d, batch, next, p, stop, max) {
        assert ChunkBreaks(w, d, batch, first, p, stop, max);
      }
    }
  }

  /** Attempt `a` is acknowledged after errors only. */
  ghost predicate PostWins(w: World, d: Destination, n: nat, first: nat, a: nat) {
    w.Post(d, n, a).Acknowledged?
    && forall b: nat | first <= b < a :: !w.Post(d, n, b).Acknowledged? && !w.Post(d, n, b).Quota?
  }

  ghost predicate Delivered(w: World, d: Destination, n: nat, max: nat) {
    exists a: nat :: a < max && PostWins(w, d, n, 0, a)
  }

  lemma {:induction false} TriesAre(w: World, d: Destination, n: nat, chunk: seq<Row>, first: nat, max: nat)
    ensures var posts := Tries(w, d, n, chunk, first, max);
            EndsWell(posts) <==> exists a: nat :: first <= a < max && PostWins(w, d, n, first, a)
    decreases max - first
  {
    if first < max {
      var reply := w.Post(d, n, first);
      if reply.Acknowledged? {
        assert PostWins(w, d, n, first, first);
      } else if reply.Quota? {
        forall a: nat | first <= a
          ensures !PostWins(w, d, n, first, a)
        {
        }
      } else {
        TriesAre(w, d, n, chunk, first + 1, max);
        var rest := Tries(w, d, n, chunk, first + 1, max);
        assert EndsWell([Post(d, chunk, reply)] + rest) <==> EndsWell(rest);
        var next := first + 1;
        if a: nat :| next <= a < max && PostWins(w, d, n, next, a) {
          assert PostWins(w, d, n, first, a);
        }
        if a: nat :| first <= a < max && PostWins(w, d, n, first, a) {
          assert a != first;
          assert PostWins(w, d, n, next, a);
        }
      }
    }
  }

  /** The chunk from row `n` on is stored and acknowledged. */
  ghost predicate Cleared(w: World, kind: Kind, d: Destination, batch: seq<Row>, n: nat, l: Limits)
    requires n < |batch|
  {
    (kind == Emails ==> ChunkStored(w, d, batch, n, Stop(batch, n, l.chunkSize), l.maxRetries))
    && Delivered(w, d, n, l.maxRetries)
  }

  /** It reaches a malformed payload. */
  ghost predicate Breaks(w: World, kind: Kind, d: Destination, batch: seq<Row>, n: nat, l: Limits)
    requires n < |batch|
  {
    kind == Emails && exists p: nat :: ChunkBreaks(w, d, batch, n, p, Stop(batch, n, l.chunkSize), l.maxRetries)
  }

  lemma {:induction false} RunChunkIs(w: World, kind: Kind, d: Destination, batch: seq<Row>, n: nat, l: Limits)
    requires n < |batch|
    ensures var c := RunChunk(w, kind, d, batch, n, l);
            && (c.end.None? <==> Cleared(w, kind, d, batch, n, l))
            && (c.end == Some(Escaped) <==> Breaks(w, kind, d, batch, n, l))
            && c.end != Some(Whole) && (c.end.Some? && c.end.value.Broken? ==> c.end.value.failure.destination == d)
  {
    ChunkEndIs(w, d, batch, n, Stop(batch, n, l.chunkSize), l.maxRetries);
    TriesAre(w, d, n, ChunkOf(batch, n, l.chunkSize), 0, l.maxRetries);
    if kind == Emails && (exists p: nat :: ChunkBreaks(w, d, batch, n, p, Stop(batch, n, l.chunkSize), l.maxRetries)) {
      assert PreparedAt(w, kind, d, batch, n, l).Malformed?;
    }
  }

  // ----- One batch -----

  /** Rows at which chunks begin: the multiples of the chunk size. */
  predicate Begins(n: nat, l: Limits)
    requires l.chunkSize >= 1
  {
    n == 0 || (n >= l.chunkSize && Begins(n - l.chunkSize, l))
  }

  /** The chunk from `n` reaches a malformed payload, and every chunk before it, from `m` on, was cleared. */
  ghost predicate AbortsAt(w: World, kind: Kind, d: Destination, batch: seq<Row>, m: nat, n: nat, l: Limits)
    requires l.chunkSize >= 1
  {
    && m <= n < |batch| && Begins(n, l) && Breaks(w, kind, d, batch, n, l)
    && forall e: nat | m <= e < n && Begins(e, l) :: Cleared(w, kind, d, batch, e, l)
  }

  ghost predicate AbortsFrom(w: World, kind: Kind, d: Destination, batch: seq<Row>, m: nat, l: Limits)
    requires l.chunkSize >= 1
  {
    exists n: nat :: AbortsAt(w, kind, d, batch, m, n, l)
  }

  ghost predicate AllCleared(w: World, kind: Kind, d: Destination, batch: seq<Row>, m: nat, l: Limits)
    requires l.chunkSize >= 1
  {
    forall n: nat | m <= n < |batch| && Begins(n, l) :: Cleared(w, kind, d, batch, n, l)
  }

  lemma {:induction false} NextBegins(m: nat, n: nat, l: Limits)
    requires l.chunkSize >= 1 && Begins(m, l)
    ensures Begins(m + l.chunkSize, l)
    ensures m < n < m + l.chunkSize ==> !Begins(n, l)
  {
    if m > 0 && n >= l.chunkSize {
      NextBegins(m - l.chunkSize, n - l.chunkSize, l);
    }
  }

  lemma {:induction false} BatchEnds(w: World, kind: Kind, d: Destination, batch: seq<Row>, m: nat, l: Limits)
    requires l.chunkSize >= 1 && Begins(m, l)
    ensures var b := RunBatch(w, kind, d, batch, m, l);
            && (b.end.Whole? <==> AllCleared(w, kind, d, batch, m, l))
            && (b.end.Escaped? <==> AbortsFrom(w, kind, d, batch, m, l))
            && (b.end.Broken? ==> b.end.failure.destination == d)
    decreases |batch| - m
  {
    if m < |batch| {
      var next := m + l.chunkSize;
      RunChunkIs(w, kind, d, batch, m, l);
      NextBegins(m, m, l);
      BatchEnds(w, kind, d, batch, next, l);
      BatchBegins(w, kind, d, batch, m, l);
      BatchAborts(w, kind, d, batch, m, l);
    }
  }

  /** The chunk at `m` and the ones from the next on are all there are. */
  lemma {:induction false} BatchBegins(w: World, kind: Kind, d: Destination, batch: seq<Row>, m: nat, l: Limits)
    requires l.chunkSize >= 1 && Begins(m, l) && m < |batch|
    ensures AllCleared(w, kind, d, batch, m, l)
            <==> Cleared(w, kind, d, batch, m, l) && AllCleared(w, kind, d, batch, m + l.chunkSize, l)
  {
    forall n: nat | m < n && Begins(n, l)
      ensures m + l.chunkSize <= n
    {
      NextBegins(m, n, l);
    }
  }

  /** So the run aborts at the chunk at `m`, or passes it and aborts later. */
  lemma {:induction false} BatchAborts(w: World, kind: Kind, d: Destination, batch: seq<Row>, m: nat, l: Limits)
    requires l.chunkSize >= 1 && Begins(m, l) && m < |batch|
    ensures AbortsFrom(w, kind, d, batch, m, l)
            <==> Breaks(w, kind, d, batch, m, l)
                 || (Cleared(w, kind, d, batch, m, l) && AbortsFrom(w, kind, d, batch, m + l.chunkSize, l))
  {
    var next := m + l.chunkSize;
    forall n: nat | m < n && Begins(n, l)
      ensures next <= n
    {
      NextBegins(m, n, l);
    }
    if Breaks(w, kind, d, batch, m, l) {
      assert AbortsAt(w, kind, d, batch, m, m, l);
    }
    if n: nat :| AbortsAt(w, kind, d, batch, m, n, l) && n != m {
      assert AbortsAt(w, kind, d, batch, next, n, l);
    }
    var cleared := Cleared(w, kind, d, batch, m, l);
    if n: nat :| cleared && AbortsAt(w, kind, d, batch, next, n, l) {
      assert AbortsAt(w, kind, d, batch, m, n, l);
    }
  }

  /** Every POST of a batch goes to its destination and carries no more than a chunk. */
  ghost predicate AllTo(posts: seq<Post>, d: Destination, l: Limits) {
    forall k | 0 <= k < |posts| :: posts[k].destination == d && |posts[k].rows| <= l.chunkSize
  }

  lemma {:induction false} TriesAcked(w: World, d: Destination, n: nat, chunk: seq<Row>, a: nat, max: nat, l: Limits)
    requires |chunk| <= l.chunkSize
    ensures var posts := Tries(w, d, n, chunk, a, max);
            AllTo(posts, d, l) && AckedRows(posts, d) == if EndsWell(posts) then chunk else []
    decreases max - a
  {
    if a < max {
      var reply := w.Post(d, n, a);
      var p := Post(d, chunk, reply);
      OneAcked(p, d);
      if !reply.Acknowledged? && !reply.Quota? {
        TriesAcked(w, d, n, chunk, a + 1, max, l);
        AckedConcat([p], Tries(w, d, n, chunk, a + 1, max), d);
      }
    }
  }

  lemma {:induction false} OneAcked(p: Post, d: Destination)
    ensures AckedRows([p], d) == if p.reply.Acknowledged? && p.destination == d then p.rows else []
  {
    assert [p][..0] == [];
  }

  /** A chunk acknowledges all its rows or none. */
  lemma {:induction false} ChunkAcked(w: World, kind: Kind, d: Destination, batch: seq<Row>, m: nat, l: Limits)
    requires l.chunkSize >= 1 && m < |batch|
    ensures var c := RunChunk(w, kind, d, batch, m, l);
            && AllTo(c.posts, d, l)
            && AckedRows(c.posts, d) == if c.end.None? then ChunkOf(batch, m, l.chunkSize) else []
  {
    TriesAcked(w, d, m, ChunkOf(batch, m, l.chunkSize), 0, l.maxRetries, l);
  }

  /** `b` settles the rows from `m` on: all to `d`, a prefix acknowledged, all of it when whole. */
  ghost predicate Acks(b: BatchRun, d: Destination, batch: seq<Row>, m: nat, l: Limits)
    requires m <= |batch|
  {
    && AllTo(b.posts, d, l) && AckedRows(b.posts, d) <= batch[m..]
    && (b.end.Whole? <==> AckedRows(b.posts, d) == batch[m..])
  }

  lemma {:induction false} AcksNext(c: ChunkRun, rest: BatchRun, d: Destination, batch: seq<Row>, m: nat,
                                    stop: nat, l: Limits)
    requires m <= stop <= |batch| && Acks(rest, d, batch, stop, l)
    requires AllTo(c.posts, d, l) && AckedRows(c.posts, d) == batch[m..stop]
    ensures Acks(Onward(c.posts, rest), d, batch, m, l)
  {
    AckedConcat(c.posts, rest.posts, d);
    PrefixAfter(batch, m, stop, AckedRows(rest.posts, d));
  }

  lemma {:induction false} PrefixAfter<T>(s: seq<T>, m: nat, n: nat, p: seq<T>)
    requires m <= n <= |s| && p <= s[n..]
    ensures s[m..n] + p <= s[m..] && (s[m..n] + p == s[m..] <==> p == s[n..])
  {
    assert s[m..] == s[m..n] + s[n..];
    if s[m..n] + p == s[m..] {
      assert (s[m..n] + p)[n - m..] == p && s[m..][n - m..] == s[n..];
    }
  }

  /** A destination acknowledges a prefix of its batch: all of it exactly when the run is whole. */
  lemma {:induction false} BatchAcked(w: World, kind: Kind, d: Destination, batch: seq<Row>, m: nat, l: Limits)
    requires l.chunkSize >= 1 && m <= |batch|
    ensures Acks(RunBatch(w, kind, d, batch, m, l), d, batch, m, l)
    decreases |batch| - m
  {
    if m < |batch| {
      var c, stop := RunChunk(w, kind, d, batch, m, l), Stop(batch, m, l.chunkSize);
      ChunkAcked(w, kind, d, batch, m, l);
      if c.end.None? {
        BatchAcked(w, kind, d, batch, stop, l);
        AcksNext(c, RunBatch(w, kind, d, batch, stop, l), d, batch, m, stop, l);
        BatchGoesOn(w, kind, d, batch, m, l);
      } else {
        ChunkEndsBatch(w, kind, d, batch, m, l);
      }
    } else {
      assert batch[m..] == [];
    }
  }

  /** Beyond the last row nothing is left, wherever the count stands. */
  lemma {:induction false} BatchGoesOn(w: World, kind: Kind, d: Destination, batch: seq<Row>, m: nat, l: Limits)
    requires l.chunkSize >= 1 && m < |batch| && RunChunk(w, kind, d, batch, m, l).end.None?
    ensures RunBatch(w, kind, d, batch, m, l)
            == Onward(RunChunk(w, kind, d, batch, m, l).posts,
                      RunBatch(w, kind, d, batch, Stop(batch, m, l.chunkSize), l))
  {
  }

  lemma {:induction false} ChunkEndsBatch(w: World, kind: Kind, d: Destination, batch: seq<Row>, m: nat, l: Limits)
    requires l.chunkSize >= 1 && m < |batch|
    requires var c := RunChunk(w, kind, d, batch, m, l);
             c.end.Some? && AllTo(c.posts, d, l) && AckedRows(c.posts, d) == []
    ensures Acks(RunBatch(w, kind, d, batch, m, l), d, batch, m, l)
  {
    RunChunkIs(w, kind, d, batch, m, l);
    assert |batch[m..]| > 0;
  }

  // ----- The whole upload -----

  lemma {:induction false} CombinedAborts(bs: seq<BatchRun>)
    ensures Combined(bs).aborted <==> exists g :: 0 <= g < |bs| && bs[g].end.Escaped?
  {
    if bs != [] {
      CombinedAborts(bs[1..]);
      if g :| 0 <= g < |bs| && bs[g].end.Escaped? && g > 0 {
        assert bs[1..][g - 1].end.Escaped?;
      }
      if Combined(bs[1..]).aborted {
        var g :| 0 <= g < |bs[1..]| && bs[1..][g].end.Escaped?;
        assert bs[g + 1].end.Escaped?;
      }
    }
  }

  /** Where a destination's rows reach a malformed payload. */
  ghost predicate Blocks(w: World, kind: Kind, c: Config, rows: seq<Row>, d: Destination, n: nat, l: Limits)
    requires l.chunkSize >= 1
  {
    AbortsAt(w, kind, d, Routed(c, rows, d), 0, n, l)
  }

  /** An upload is abandoned exactly when, in some destination's batch, a chunk reaches a
      malformed payload with every payload before it stored and every chunk before it stored
      and acknowledged. */
  lemma {:induction false} AbortsExactlyWhen(w: World, kind: Kind, c: Config, rows: seq<Row>, l: Limits)
    requires l.chunkSize >= 1
    ensures RunAll(w, kind, c, rows, l).aborted
            <==> exists d: Destination, n: nat :: Blocks(w, kind, c, rows, d, n, l)
  {
    var order := Order(c, rows);
    var bs := Batches(w, kind, c, rows, order, l);
    OrderHas(c, rows);
    CombinedAborts(bs);
    if g :| 0 <= g < |bs| && bs[g].end.Escaped? {
      BatchEnds(w, kind, order[g], Routed(c, rows, order[g]), 0, l);
      var n: nat :| AbortsAt(w, kind, order[g], Routed(c, rows, order[g]), 0, n, l);
      assert Blocks(w, kind, c, rows, order[g], n, l);
    }
    if d: Destination, n: nat :| Blocks(w, kind, c, rows, d, n, l) {
      assert d in order;
      var g :| 0 <= g < |order| && order[g] == d;
      BatchEnds(w, kind, d, Routed(c, rows, d), 0, l);
      assert AbortsAt(w, kind, d, Routed(c, rows, d), 0, n, l);
      assert bs[g].end.Escaped?;
    }
  }

  /** Batches of different destinations, each posting only to its own. */
  ghost predicate Apart(order: seq<Destination>, bs: seq<BatchRun>, l: Limits) {
    && |bs| == |order| && Distinct(order)
    && forall g | 0 <= g < |bs| :: AllTo(bs[g].posts, order[g], l)
                                   && (bs[g].end.Broken? ==> bs[g].end.failure.destination == order[g])
  }

  ghost predicate Reached(bs: seq<BatchRun>, i: nat) { forall g | 0 <= g < i && g < |bs| :: !bs[g].end.Escaped? }

  ghost predicate FailedAt(failures: seq<Failure>, d: Destination) {
    exists k | 0 <= k < |failures| :: failures[k].destination == d
  }

  lemma {:induction false} NoneAcked(posts: seq<Post>, d: Destination)
    requires forall k | 0 <= k < |posts| :: posts[k].destination != d
    ensures AckedRows(posts, d) == []
  {
    if posts != [] {
      NoneAcked(posts[..|posts| - 1], d);
    }
  }

  lemma {:induction false} CombinedStaysIn(order: seq<Destination>, bs: seq<BatchRun>, l: Limits)
    requires Apart(order, bs, l)
    ensures forall k | 0 <= k < |Combined(bs).posts| ::
              Combined(bs).posts[k].destination in order && |Combined(bs).posts[k].rows| <= l.chunkSize
    ensures forall k | 0 <= k < |Combined(bs).failures| :: Combined(bs).failures[k].destination in order
  {
    if bs != [] {
      ApartTail(order, bs, l);
      CombinedStaysIn(order[1..], bs[1..], l);
    }
  }

  lemma {:induction false} ApartTail(order: seq<Destination>, bs: seq<BatchRun>, l: Limits)
    requires Apart(order, bs, l) && bs != []
    ensures Apart(order[1..], bs[1..], l) && order[0] !in order[1..]
  {
    assert forall g | 0 <= g < |bs[1..]| :: bs[1..][g] == bs[g + 1] && order[1..][g] == order[g + 1];
  }

  /** What a combined run does to one destination: what its own batch does when it is reached,
      and nothing when an earlier batch let an exception through. */
  ghost predicate Does(run: Run, b: BatchRun, reached: bool, d: Destination) {
    && AckedRows(run.posts, d) == (if reached then AckedRows(b.posts, d) else [])
    && (FailedAt(run.failures, d) <==> reached && b.end.Broken?)
    && (!reached ==> forall k | 0 <= k < |run.posts| :: run.posts[k].destination != d)
  }

  /** The first batch, before others that go elsewhere. */
  lemma {:induction false} DoesFirst(b: BatchRun, rest: Run, d: Destination)
    requires b.end.Broken? ==> b.end.failure.destination == d
    requires forall k | 0 <= k < |rest.posts| :: rest.posts[k].destination != d
    requires forall k | 0 <= k < |rest.failures| :: rest.failures[k].destination != d
    ensures Does(Run(b.posts + rest.posts, FailuresOf(b) + rest.failures, rest.aborted), b, true, d)
    ensures b.end.Escaped? ==> Does(Run(b.posts, [], true), b, true, d)
  {
    NoneAcked(rest.posts, d);
    AckedConcat(b.posts, rest.posts, d);
    FailedFirst(FailuresOf(b), rest.failures, d);
  }

  /** A later one, after a batch that goes elsewhere. */
  lemma {:induction false} DoesLater(a: BatchRun, rest: Run, b: BatchRun, reached: bool, d: Destination)
    requires forall k | 0 <= k < |a.posts| :: a.posts[k].destination != d
    requires a.end.Broken? ==> a.end.failure.destination != d
    requires Does(rest, b, reached, d)
    ensures Does(Run(a.posts + rest.posts, FailuresOf(a) + rest.failures, rest.aborted), b, reached, d)
  {
    NoneAcked(a.posts, d);
    AckedConcat(a.posts, rest.posts, d);
    FailedLater(FailuresOf(a), rest.failures, d);
  }

  lemma {:induction false} CombinedAt(order: seq<Destination>, bs: seq<BatchRun>, i: nat, l: Limits)
    requires Apart(order, bs, l) && i < |bs|
    ensures Does(Combined(bs), bs[i], Reached(bs, i), order[i])
    decreases |bs|
  {
    ApartTail(order, bs, l);
    CombinedStaysIn(order[1..], bs[1..], l);
    if i == 0 {
      DoesFirst(bs[0], Combined(bs[1..]), order[0]);
    } else {
      assert order[0] != order[i];
      if bs[0].end.Escaped? {
        NoneAcked(bs[0].posts, order[i]);
      } else {
        CombinedAt(order[1..], bs[1..], i - 1, l);
        ReachedTail(bs, i);
        DoesLater(bs[0], Combined(bs[1..]), bs[i], Reached(bs, i), order[i]);
      }
    }
  }

  lemma {:induction false} ReachedTail(bs: seq<BatchRun>, i: nat)
    requires 0 < i < |bs| && !bs[0].end.Escaped?
    ensures Reached(bs, i) <==> Reached(bs[1..], i - 1)
  {
    assert forall g | 0 <= g < |bs[1..]| :: bs[1..][g] == bs[g + 1];
    assert forall g | 0 < g < |bs| :: bs[g] == bs[1..][g - 1];
  }

  lemma {:induction false} FailedFirst(first: seq<Failure>, later: seq<Failure>, d: Destination)
    requires |first| <= 1 && (first != [] ==> first[0].destination == d)
    requires forall k | 0 <= k < |later| :: later[k].destination != d
    ensures FailedAt(first + later, d) <==> first != []
  {
    if first != [] {
      assert (first + later)[0].destination == d;
    }
  }

  lemma {:induction false} FailedLater(first: seq<Failure>, later: seq<Failure>, d: Destination)
    requires forall k | 0 <= k < |first| :: first[k].destination != d
    ensures FailedAt(first + later, d) <==> FailedAt(later, d)
  {
    var all := first + later;
    if FailedAt(later, d) {
      var k :| 0 <= k < |later| && later[k].destination == d;
      assert all[|first| + k].destination == d;
    }
    if FailedAt(all, d) {
      var k :| 0 <= k < |all| && all[k].destination == d;
      assert later[k - |first|].destination == d;
    }
  }

  lemma {:induction false} BatchesApart(w: World, kind: Kind, c: Config, rows: seq<Row>, l: Limits)
    requires l.chunkSize >= 1
    ensures Apart(Order(c, rows), Batches(w, kind, c, rows, Order(c, rows), l), l)
  {
    var order := Order(c, rows);
    OrderHas(c, rows);
    forall g | 0 <= g < |order|
      ensures var b := RunBatch(w, kind, order[g], Routed(c, rows, order[g]), 0, l);
              AllTo(b.posts, order[g], l) && (b.end.Broken? ==> b.end.failure.destination == order[g])
    {
      BatchAcked(w, kind, order[g], Routed(c, rows, order[g]), 0, l);
      BatchEnds(w, kind, order[g], Routed(c, rows, order[g]), 0, l);
    }
  }

  /** What a destination has acknowledged is a prefix of its rows: all of them, or fewer and
      the failure is recorded. */
  ghost predicate Settled(c: Config, rows: seq<Row>, run: Run, d: Destination) {
    && AckedRows(run.posts, d) <= Routed(c, rows, d)
    && (FailedAt(run.failures, d) <==> AckedRows(run.posts, d) != Routed(c, rows, d))
  }

  /** One destination, the i-th: settled when it was reached, and otherwise sent nothing. */
  lemma {:induction false} DestinationSettled(w: World, kind: Kind, c: Config, rows: seq<Row>, l: Limits, i: nat)
    requires l.chunkSize >= 1 && i < |Order(c, rows)|
    ensures var order, run := Order(c, rows), RunAll(w, kind, c, rows, l);
            var bs := Batches(w, kind, c, rows, order, l);
            if !Reached(bs, i) then forall k | 0 <= k < |run.posts| :: run.posts[k].destination != order[i]
            else if bs[i].end.Escaped? then AckedRows(run.posts, order[i]) <= Routed(c, rows, order[i])
            else Settled(c, rows, run, order[i])
  {
    var order := Order(c, rows);
    var bs := Batches(w, kind, c, rows, order, l);
    BatchesApart(w, kind, c, rows, l);
    CombinedAt(order, bs, i, l);
    var batch := Routed(c, rows, order[i]);
    BatchAcked(w, kind, order[i], batch, 0, l);
    assert batch[0..] == batch;
  }

  /** An upload that is not abandoned settles every destination: the others are serviced
      whichever fail. */
  lemma {:induction false} EveryDestinationSettled(w: World, kind: Kind, c: Config, rows: seq<Row>, l: Limits,
                                                   d: Destination)
    requires l.chunkSize >= 1 && !RunAll(w, kind, c, rows, l).aborted
    ensures Settled(c, rows, RunAll(w, kind, c, rows, l), d)
  {
    var order := Order(c, rows);
    var bs := Batches(w, kind, c, rows, order, l);
    OrderHas(c, rows);
    CombinedAborts(bs);
    if d in order {
      var i :| 0 <= i < |order| && order[i] == d;
      DestinationSettled(w, kind, c, rows, l, i);
    } else {
      BatchesApart(w, kind, c, rows, l);
      CombinedStaysIn(order, bs, l);
      NoneAcked(Combined(bs).posts, d);
    }
  }

  lemma {:induction false} CombinedComplete(order: seq<Destination>, bs: seq<BatchRun>, l: Limits)
    requires Apart(order, bs, l)
    ensures !Combined(bs).aborted && Combined(bs).failures == [] <==> forall g | 0 <= g < |bs| :: bs[g].end.Whole?
  {
    if bs != [] {
      ApartTail(order, bs, l);
      CombinedComplete(order[1..], bs[1..], l);
      assert forall g | 0 <= g < |bs[1..]| :: bs[1..][g] == bs[g + 1];
      assert forall g | 0 < g < |bs| :: bs[g] == bs[1..][g - 1];
    }
  }

  /** Every chunk of the destination's rows is stored and acknowledged. */
  ghost predicate Deliverable(w: World, kind: Kind, c: Config, rows: seq<Row>, d: Destination, l: Limits)
    requires l.chunkSize >= 1
  {
    AllCleared(w, kind, d, Routed(c, rows, d), 0, l)
  }

  lemma {:induction false} DeliverableIs(w: World, kind: Kind, c: Config, rows: seq<Row>, d: Destination, l: Limits)
    requires l.chunkSize >= 1
    ensures Deliverable(w, kind, c, rows, d, l) <==> RunBatch(w, kind, d, Routed(c, rows, d), 0, l).end.Whole?
    ensures Routed(c, rows, d) == [] ==> Deliverable(w, kind, c, rows, d, l)
  {
    BatchEnds(w, kind, d, Routed(c, rows, d), 0, l);
  }

  lemma {:induction false} InOrder(order: seq<Destination>, good: iset<Destination>)
    requires forall d: Destination | d !in order :: d in good
    ensures (forall i | 0 <= i < |order| :: order[i] in good) <==> (forall d: Destination :: d in good)
  {
  }

  /** The normal return: exactly when every destination's rows are deliverable. */
  lemma {:induction false} CompleteExactlyWhen(w: World, kind: Kind, c: Config, rows: seq<Row>, l: Limits)
    requires l.chunkSize >= 1
    ensures var run := RunAll(w, kind, c, rows, l);
            !run.aborted && run.failures == [] <==> forall d: Destination :: Deliverable(w, kind, c, rows, d, l)
  {
    var order := Order(c, rows);
    var bs := Batches(w, kind, c, rows, order, l);
    var good := iset d: Destination | Deliverable(w, kind, c, rows, d, l);
    OrderHas(c, rows);
    BatchesApart(w, kind, c, rows, l);
    CombinedComplete(order, bs, l);
    forall d: Destination
      ensures d in good <==> RunBatch(w, kind, d, Routed(c, rows, d), 0, l).end.Whole?
      ensures d !in order ==> d in good
    {
      DeliverableIs(w, kind, c, rows, d, l);
    }
    InOrder(order, good);
  }

  // ----- A quota refusal is final -----

  ghost predicate QuotaLast(posts: seq<Post>) { forall k | 0 <= k < |posts| - 1 :: !posts[k].reply.Quota? }

  lemma {:induction false} TriesQuota(w: World, d: Destination, n: nat, chunk: seq<Row>, a: nat, max: nat)
    ensures QuotaLast(Tries(w, d, n, chunk, a, max))
    decreases max - a
  {
    if a < max {
      TriesQuota(w, d, n, chunk, a + 1, max);
    }
  }

  lemma {:induction false} BatchQuota(w: World, kind: Kind, d: Destination, batch: seq<Row>, m: nat, l: Limits)
    requires l.chunkSize >= 1
    ensures QuotaLast(RunBatch(w, kind, d, batch, m, l).posts)
    decreases |batch| - m
  {
    if m < |batch| {
      var c := RunChunk(w, kind, d, batch, m, l);
      TriesQuota(w, d, m, ChunkOf(batch, m, l.chunkSize), 0, l.maxRetries);
      BatchQuota(w, kind, d, batch, m + l.chunkSize, l);
      QuotaJoins(c.posts, RunBatch(w, kind, d, batch, m + l.chunkSize, l).posts);
    }
  }

  lemma {:induction false} QuotaJoins(a: seq<Post>, b: seq<Post>)
    requires QuotaLast(a) && QuotaLast(b)
    ensures EndsWell(a) ==> QuotaLast(a + b)
  {
  }

  ghost predicate QuotaIsFinal(sent: seq<Post>) {
    forall i, j | 0 <= i < j < |sent| && sent[i].reply.Quota? :: sent[j].destination != sent[i].destination
  }

  lemma {:induction false} CombinedQuota(order: seq<Destination>, bs: seq<BatchRun>, l: Limits)
    requires Apart(order, bs, l) && forall g | 0 <= g < |bs| :: QuotaLast(bs[g].posts)
    ensures QuotaIsFinal(Combined(bs).posts)
  {
    if bs != [] {
      ApartTail(order, bs, l);
      CombinedStaysIn(order[1..], bs[1..], l);
      CombinedQuota(order[1..], bs[1..], l);
      QuotaApart(bs[0].posts, Combined(bs[1..]).posts, order[0], l);
    }
  }

  lemma {:induction false} QuotaApart(a: seq<Post>, b: seq<Post>, d: Destination, l: Limits)
    requires QuotaLast(a) && AllTo(a, d, l) && QuotaIsFinal(b)
    requires forall k | 0 <= k < |b| :: b[k].destination != d
    ensures QuotaIsFinal(a + b) && QuotaIsFinal(a)
  {
    var all := a + b;
    forall i, j | 0 <= i < j < |all| && all[i].reply.Quota?
      ensures all[j].destination != all[i].destination
    {
      if j >= |a| {
        assert all[j] == b[j - |a|];
      }
    }
  }

  /** After a quota refusal nothing more is sent to that destination, and no POST carries more
      rows than a chunk. */
  lemma {:induction false} QuotaEndsADestination(w: World, kind: Kind, c: Config, rows: seq<Row>, l: Limits)
    requires l.chunkSize >= 1
    ensures var posts := RunAll(w, kind, c, rows, l).posts;
            QuotaIsFinal(posts) && forall k | 0 <= k < |posts| :: |posts[k].rows| <= l.chunkSize
  {
    var order := Order(c, rows);
    var bs := Batches(w, kind, c, rows, order, l);
    BatchesApart(w, kind, c, rows, l);
    forall g | 0 <= g < |order|
      ensures QuotaLast(bs[g].posts)
    {
      BatchQuota(w, kind, order[g], Routed(c, rows, order[g]), 0, l);
    }
    CombinedQuota(order, bs, l);
    CombinedStaysIn(order, bs, l);
  }

  // ----- The destination that is not serviced -----

  /** For example: the first row's payload is malformed, the second row goes elsewhere, would be
      acknowledged at once, and is never sent. */
  lemma {:induction false} MalformedPayloadHidesOthers()
    returns (c: Config, rows: seq<Row>, w: World, l: Limits, d: Destination)
    ensures l.chunkSize >= 1 && l.maxRetries >= 1 && |Routed(c, rows, d)| == 1 && Routed(c, rows, d)[0].payloads == []
    ensures RunBatch(w, Emails, d, Routed(c, rows, d), 0, l).end.Whole?
    ensures var run := RunAll(w, Emails, c, rows, l); run.aborted && run.posts == []
  {
    var first := Destination("primary", "https://one");
    d := Destination("b", "https://b");
    c := Config(first, map["x" := d]);
    var bad, good := Row("1", None, None, [Payload(false, 0)]), Row("2", None, Some("x"), []);
    rows, l := [bad, good], Limits(5, 15);
    w := World(map[(d, 0, 0) := Acknowledged(Some(1), Some(0), None)], map[]);
    ExampleRoutes(c, bad, good, first, d);
    ExampleGood(w, d, good, l);
    ExampleBad(w, first, bad, l);
    var bs := Batches(w, Emails, c, rows, [first, d], l);
    assert bs[0] == RunBatch(w, Emails, first, [bad], 0, l);
    assert Combined(bs) == Run([], [], true);
  }

  lemma {:induction false} ExampleRoutes(c: Config, bad: Row, good: Row, first: Destination, d: Destination)
    requires DestinationFor(c, bad) == first && DestinationFor(c, good) == d && first != d
    ensures Order(c, [bad, good]) == [first, d]
    ensures Routed(c, [bad, good], first) == [bad] && Routed(c, [bad, good], d) == [good]
  {
    assert [bad, good][..1] == [bad] && [bad][..0] == [];
    assert Order(c, [bad]) == [first] && Routed(c, [bad], first) == [bad] && Routed(c, [bad], d) == [];
  }

  lemma {:induction false} ExampleGood(w: World, d: Destination, good: Row, l: Limits)
    requires good.payloads == [] && l == Limits(5, 15) && w.Post(d, 0, 0).Acknowledged?
    ensures RunBatch(w, Emails, d, [good], 0, l).end.Whole?
  {
    BatchEnds(w, Emails, d, [good], 0, l);
    assert PostWins(w, d, 0, 0, 0);
    forall n: nat | 0 <= n < |[good]| && Begins(n, l)
      ensures Cleared(w, Emails, d, [good], n, l)
    {
      assert n == 0 && Delivered(w, d, 0, 5);
    }
  }

  lemma {:induction false} ExampleBad(w: World, d: Destination, bad: Row, l: Limits)
    requires |bad.payloads| == 1 && !bad.payloads[0].wellFormed && l == Limits(5, 15)
    ensures RunBatch(w, Emails, d, [bad], 0, l) == BatchRun([], Escaped)
  {
    assert RowEnd(w, d, 0, bad, 0, 5) == Malformed;
    assert ChunkEnd(w, d, [bad], 0, 1, 5) == Malformed;
    assert RunChunk(w, Emails, d, [bad], 0, l) == ChunkRun([], Some(Escaped));
  }
}
