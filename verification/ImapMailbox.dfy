/** The IMAP proxy's mailbox (smtp_proxy_server/imap_mailbox.py): the LRU cache of parsed
    messages, and the index that turns sequence numbers into UIDs and back. */
module ImapMailbox {
  import opened Sorting
  import opened Wrappers

  // ----- The cache -----

  ghost predicate Distinct(s: seq<int>) { forall i, j | 0 <= i < j < |s| :: s[i] != s[j] }

  /** `s` without its occurrences of `k`. */
  function Without(s: seq<int>, k: int): seq<int> {
    if s == [] then []
    else
      var rest := Without(s[..|s| - 1], k);
      if s[|s| - 1] == k then rest else rest + [s[|s| - 1]]
  }

  lemma {:induction false} WithoutKeeps(s: seq<int>, k: int)
    requires Distinct(s)
    ensures Distinct(Without(s, k))
    ensures forall x :: x in Without(s, k) <==> x in s && x != k
    ensures k !in s ==> Without(s, k) == s
    ensures |Without(s, k)| == |s| - if k in s then 1 else 0
  {
    if s != [] {
      var front, last := s[..|s| - 1], s[|s| - 1];
      assert s == front + [last];
      WithoutKeeps(front, k);
      assert last !in front && last !in Without(front, k);
      DistinctAppend(Without(front, k), last);
    }
  }

  lemma {:induction false} DistinctAppend(s: seq<int>, k: int)
    requires Distinct(s) && k !in s
    ensures Distinct(s + [k])
  {
  }

  /** Keys oldest first, with their values: what the ordered dictionary holds. */
  datatype Entries<M> = Entries(keys: seq<int>, values: map<int, M>)

  ghost predicate Sound<M>(e: Entries<M>) {
    Distinct(e.keys) && forall k :: k in e.values <==> k in e.keys
  }

  function MovedToEnd<M>(e: Entries<M>, k: int): Entries<M> { e.(keys := Without(e.keys, k) + [k]) }

  /** `popitem(last=False)`. */
  function Evicted<M>(e: Entries<M>): Entries<M>
    requires e.keys != []
  {
    Entries(e.keys[1..], e.values - {e.keys[0]})
  }

  function AfterGet<M>(e: Entries<M>, k: int): Entries<M> { if k in e.values then MovedToEnd(e, k) else e }

  /** None is the KeyError of `popitem` on an empty cache that has no room at all. */
  function AfterPut<M>(e: Entries<M>, maxSize: int, k: int, m: M): Option<Entries<M>> {
    if k in e.values then Some(MovedToEnd(e, k).(values := e.values[k := m]))
    else if |e.keys| < maxSize then Some(Entries(e.keys + [k], e.values[k := m]))
    else if e.keys == [] then None
    else Some(Entries(Evicted(e).keys + [k], Evicted(e).values[k := m]))
  }

  class MessageCache<M> {
    var cache: Entries<M>
    const maxSize: int

    constructor (maxSize: int)
      ensures this.maxSize == maxSize && cache == Entries([], map[])
    {
      this.maxSize := maxSize;
      cache := Entries([], map[]);
    }

    method Get(uid: int) returns (r: Option<M>)
      requires Sound(cache)
      modifies this
      ensures cache == AfterGet(old(cache), uid) && Sound(cache)
      ensures r == if uid in old(cache).values then Some(old(cache).values[uid]) else None
    {
      WithoutKeeps(cache.keys, uid);
      if uid in cache.values {
        cache := MovedToEnd(cache, uid);
        return Some(cache.values[uid]);
      }
      r := None;
    }

    method Put(uid: int, message: M) returns (ok: bool)
      requires Sound(cache)
      modifies this
      ensures ok <==> AfterPut(old(cache), maxSize, uid, message).Some?
      ensures cache == if ok then AfterPut(old(cache), maxSize, uid, message).value else old(cache)
      ensures Sound(cache)
    {
      WithoutKeeps(cache.keys, uid);
      if uid in cache.values {
        cache := MovedToEnd(cache, uid);
        cache := cache.(values := cache.values[uid := message]);
      } else {
        if |cache.keys| >= maxSize {
          if cache.keys == [] {
            return false;
          }
          cache := Evicted(cache);
        }
        cache := Entries(cache.keys + [uid], cache.values[uid := message]);
      }
      ok := true;
    }
  }

  // ----- What the cache holds after any sequence of calls -----

  datatype Call<M> = Get(uid: int) | Put(uid: int, message: M)

  /** The cache and every touch so far: a put that was carried out, or a get that hit. */
  datatype History<M> = History(entries: Entries<M>, touches: seq<int>)

  function After<M>(h: History<M>, maxSize: int, c: Call<M>): History<M> {
    match c
    case Get(k) =>
      History(AfterGet(h.entries, k), if k in h.entries.values then h.touches + [k] else h.touches)
    case Put(k, m) =>
      var e := AfterPut(h.entries, maxSize, k, m);
      if e.Some? then History(e.value, h.touches + [k]) else h
  }

  function Run<M>(maxSize: int, calls: seq<Call<M>>): History<M> {
    if calls == [] then History(Entries([], map[]), [])
    else After(Run(maxSize, calls[..|calls| - 1]), maxSize, calls[|calls| - 1])
  }

  /** The message last put under a key. */
  function LastPut<M>(calls: seq<Call<M>>, k: int): Option<M> {
    if calls == [] then None
    else
      var c := calls[|calls| - 1];
      if c.Put? && c.uid == k then Some(c.message) else LastPut(calls[..|calls| - 1], k)
  }

  /** The keys touched, each once, in the order of their last touches. */
  function ByLastTouch(touches: seq<int>): seq<int> {
    if touches == [] then []
    else Without(ByLastTouch(touches[..|touches| - 1]), touches[|touches| - 1]) + [touches[|touches| - 1]]
  }

  function Suffix(s: seq<int>, n: int): seq<int> { if n <= 0 then [] else if n < |s| then s[|s| - n..] else s }

  lemma {:induction false} ByLastTouchHas(touches: seq<int>)
    ensures Distinct(ByLastTouch(touches))
    ensures forall k :: k in ByLastTouch(touches) <==> k in touches
  {
    if touches != [] {
      var rest, k := touches[..|touches| - 1], touches[|touches| - 1];
      ByLastTouchHas(rest);
      WithoutKeeps(ByLastTouch(rest), k);
      assert touches == rest + [k];
    }
  }

  lemma {:induction false} DistinctParts(a: seq<int>, b: seq<int>)
    requires Distinct(a + b)
    ensures Distinct(a) && Distinct(b) && forall x :: !(x in a && x in b)
  {
    forall i, j | 0 <= i < j < |b|
      ensures b[i] != b[j]
    {
      assert (a + b)[|a| + i] == b[i] && (a + b)[|a| + j] == b[j];
    }
    forall i, j | 0 <= i < j < |a|
      ensures a[i] != a[j]
    {
      assert (a + b)[i] == a[i] && (a + b)[j] == a[j];
    }
    forall i, j | 0 <= i < |a| && 0 <= j < |b|
      ensures a[i] != b[j]
    {
      assert (a + b)[i] == a[i] && (a + b)[|a| + j] == b[j];
    }
  }

  lemma {:induction false} SuffixOfJoin(a: seq<int>, b: seq<int>)
    ensures Suffix(a + b, |b|) == b
  {
  }

  lemma {:induction false} TouchHeld(head: seq<int>, tail: seq<int>, k: int)
    requires Distinct(head + tail) && k in tail
    ensures Without(head + tail, k) + [k] == head + (Without(tail, k) + [k])
    ensures |Without(tail, k) + [k]| == |tail|
  {
    DistinctParts(head, tail);
    WithoutJoins(head, tail, k);
    WithoutKeeps(head, k);
    WithoutKeeps(tail, k);
  }

  lemma {:induction false} TouchOther(head: seq<int>, tail: seq<int>, k: int)
    requires Distinct(head + tail) && k !in tail && tail != []
    ensures Without(head + tail, k) + [k] == (Without(head, k) + [tail[0]]) + (tail[1..] + [k])
  {
    DistinctParts(head, tail);
    WithoutJoins(head, tail, k);
    WithoutKeeps(tail, k);
    Regroup(Without(head, k), tail, k);
  }

  lemma {:induction false} Regroup(head: seq<int>, tail: seq<int>, k: int)
    requires tail != []
    ensures head + tail + [k] == (head + [tail[0]]) + (tail[1..] + [k])
  {
    assert tail == [tail[0]] + tail[1..];
  }

  /** Touching a key: the last `n` of the new order, from the last `n` of the old one. */
  lemma {:induction false} WithoutSuffix(s: seq<int>, n: int, k: int)
    requires Distinct(s) && 1 <= n <= |s|
    ensures k in Suffix(s, n) ==> Suffix(Without(s, k) + [k], n) == Without(Suffix(s, n), k) + [k]
    ensures k !in Suffix(s, n) ==> Suffix(Without(s, k) + [k], n) == Suffix(s, n)[1..] + [k]
  {
    var head, tail := s[..|s| - n], s[|s| - n..];
    assert s == head + tail;
    SuffixOfJoin(head, tail);
    if k in tail {
      TouchHeld(head, tail, k);
      SuffixOfJoin(head, Without(tail, k) + [k]);
    } else {
      TouchOther(head, tail, k);
      SuffixOfJoin(Without(head, k) + [tail[0]], tail[1..] + [k]);
    }
  }

  lemma {:induction false} WithoutJoins(a: seq<int>, b: seq<int>, k: int)
    ensures Without(a + b, k) == Without(a, k) + Without(b, k)
  {
    if b == [] {
      assert a + b == a;
    } else {
      WithoutJoins(a, b[..|b| - 1], k);
      assert (a + b)[..|a + b| - 1] == a + b[..|b| - 1];
    }
  }

  ghost predicate Lru<M>(maxSize: int, calls: seq<Call<M>>, h: History<M>) {
    && Sound(h.entries)
    && h.entries.keys == Suffix(ByLastTouch(h.touches), maxSize)
    && forall k | k in h.entries.keys :: LastPut(calls, k) == Some(h.entries.values[k])
  }

  lemma {:induction false} TouchKeeps<M>(maxSize: int, e: Entries<M>, touches: seq<int>, k: int)
    requires Sound(e) && maxSize >= 1 && e.keys == Suffix(ByLastTouch(touches), maxSize)
    ensures k in e.keys ==> Without(e.keys, k) + [k] == Suffix(ByLastTouch(touches + [k]), maxSize)
    ensures k !in e.keys && |e.keys| >= maxSize
            ==> e.keys != [] && e.keys[1..] + [k] == Suffix(ByLastTouch(touches + [k]), maxSize)
    ensures k !in e.keys && |e.keys| < maxSize ==> e.keys + [k] == Suffix(ByLastTouch(touches + [k]), maxSize)
  {
    assert (touches + [k])[..|touches|] == touches;
    ByLastTouchHas(touches);
    WithoutKeeps(ByLastTouch(touches), k);
    if maxSize <= |ByLastTouch(touches)| {
      WithoutSuffix(ByLastTouch(touches), maxSize, k);
    }
  }

  /** Every key held has its last put value, and a put supersedes only its own key. */
  lemma {:induction false} ValuesKeep<M>(maxSize: int, calls: seq<Call<M>>, h: History<M>, c: Call<M>, k: int)
    requires maxSize >= 1 && Sound(h.entries)
    requires forall x | x in h.entries.keys :: LastPut(calls, x) == Some(h.entries.values[x])
    requires k in After(h, maxSize, c).entries.values
    ensures LastPut(calls + [c], k) == Some(After(h, maxSize, c).entries.values[k])
  {
    assert (calls + [c])[..|calls|] == calls;
  }

  lemma {:induction false} SoundKeeps<M>(maxSize: int, h: History<M>, c: Call<M>)
    requires maxSize >= 1 && Sound(h.entries)
    ensures Sound(After(h, maxSize, c).entries)
  {
    var keys, k := h.entries.keys, c.uid;
    WithoutKeeps(keys, k);
    if k in keys {
      DistinctAppend(Without(keys, k), k);
    } else if |keys| < maxSize {
      DistinctAppend(keys, k);
    } else {
      assert [keys[0]] + keys[1..] == keys;
      DistinctParts([keys[0]], keys[1..]);
      DistinctAppend(keys[1..], k);
    }
  }

  lemma {:induction false} CallKeeps<M>(maxSize: int, calls: seq<Call<M>>, h: History<M>, c: Call<M>)
    requires maxSize >= 1 && Lru(maxSize, calls, h)
    ensures Lru(maxSize, calls + [c], After(h, maxSize, c))
  {
    var h' := After(h, maxSize, c);
    SoundKeeps(maxSize, h, c);
    forall k | k in h'.entries.keys
      ensures LastPut(calls + [c], k) == Some(h'.entries.values[k])
    {
      ValuesKeep(maxSize, calls, h, c, k);
    }
    assert h'.entries.keys == Suffix(ByLastTouch(h'.touches), maxSize) by {
      TouchKeeps(maxSize, h.entries, h.touches, c.uid);
    }
  }

  lemma {:induction false} RunLast<M>(maxSize: int, calls: seq<Call<M>>, c: Call<M>)
    ensures Run(maxSize, calls + [c]) == After(Run(maxSize, calls), maxSize, c)
  {
    assert (calls + [c])[..|calls|] == calls;
  }

  lemma {:induction false} NextCallKeeps<M>(maxSize: int, calls: seq<Call<M>>, c: Call<M>)
    requires maxSize >= 1 && Lru(maxSize, calls, Run(maxSize, calls))
    ensures Lru(maxSize, calls + [c], Run(maxSize, calls + [c]))
  {
    var h := Run(maxSize, calls);
    CallKeeps(maxSize, calls, h, c);
    RunLast(maxSize, calls, c);
  }

  /** After any calls on a cache with room: it holds the most recently touched distinct keys,
      as many as fit, oldest touch first, each with the message last put under it. */
  lemma {:induction false} HoldsTheMostRecent<M>(maxSize: int, calls: seq<Call<M>>)
    requires maxSize >= 1
    ensures Lru(maxSize, calls, Run(maxSize, calls))
  {
    if calls != [] {
      var front, c := calls[..|calls| - 1], calls[|calls| - 1];
      assert calls == front + [c];
      HoldsTheMostRecent(maxSize, front);
      NextCallKeeps(maxSize, front, c);
    }
  }

  /** Where a key was last touched. */
  function LastTouch(touches: seq<int>, k: int): (i: nat)
    requires k in touches
    ensures i < |touches| && touches[i] == k
  {
    if touches[|touches| - 1] == k then |touches| - 1 else LastTouch(touches[..|touches| - 1], k)
  }

  lemma {:induction false} OrderedByLastTouch(touches: seq<int>, i: nat, j: nat)
    requires i < j < |ByLastTouch(touches)|
    ensures ByLastTouch(touches)[i] in touches && ByLastTouch(touches)[j] in touches
    ensures LastTouch(touches, ByLastTouch(touches)[i]) < LastTouch(touches, ByLastTouch(touches)[j])
    decreases |touches|
  {
    var rest, k, order := touches[..|touches| - 1], touches[|touches| - 1], ByLastTouch(touches);
    ByLastTouchHas(touches);
    ByLastTouchHas(rest);
    assert touches == rest + [k];
    WithoutKeeps(ByLastTouch(rest), k);
    assert order[i] in touches && order[j] in touches;
    assert order[i] in Without(ByLastTouch(rest), k);
    if j < |order| - 1 {
      WithoutKeepsOrder(ByLastTouch(rest), k, i, j);
      var a, b :| 0 <= a < b < |ByLastTouch(rest)|
                  && ByLastTouch(rest)[a] == order[i] && ByLastTouch(rest)[b] == order[j];
      OrderedByLastTouch(rest, a, b);
    }
  }

  lemma {:induction false} WithoutKeepsOrder(s: seq<int>, k: int, i: nat, j: nat)
    requires i < j < |Without(s, k)|
    ensures exists a, b :: 0 <= a < b < |s| && s[a] == Without(s, k)[i] && s[b] == Without(s, k)[j]
  {
    var front := s[..|s| - 1];
    if j < |Without(front, k)| {
      WithoutKeepsOrder(front, k, i, j);
      var a, b :| 0 <= a < b < |front| && front[a] == Without(front, k)[i] && front[b] == Without(front, k)[j];
      assert s[a] == Without(s, k)[i] && s[b] == Without(s, k)[j];
    } else {
      var a := WithoutFrom(front, k, i);
      assert s[a] == Without(s, k)[i] && s[|s| - 1] == Without(s, k)[j];
    }
  }

  lemma {:induction false} WithoutFrom(s: seq<int>, k: int, i: nat) returns (a: nat)
    requires i < |Without(s, k)|
    ensures a < |s| && s[a] == Without(s, k)[i]
  {
    if i < |Without(s[..|s| - 1], k)| {
      a := WithoutFrom(s[..|s| - 1], k, i);
    } else {
      a := |s| - 1;
    }
  }

  lemma {:induction false} NoRoomHoldsNothing<M>(maxSize: int, calls: seq<Call<M>>)
    requires maxSize <= 0
    ensures Run(maxSize, calls).entries == Entries([], map[])
  {
    if calls != [] {
      NoRoomHoldsNothing(maxSize, calls[..|calls| - 1]);
    }
  }

  /** Whatever was called before, the next put raises exactly when the cache has no room at all. */
  lemma {:induction false} PutRaisesExactlyWhen<M>(maxSize: int, calls: seq<Call<M>>, k: int, m: M)
    ensures AfterPut(Run(maxSize, calls).entries, maxSize, k, m).None? <==> maxSize <= 0
  {
    if maxSize <= 0 {
      NoRoomHoldsNothing(maxSize, calls);
    } else {
      HoldsTheMostRecent(maxSize, calls);
    }
  }

  // ----- The UID index -----

  const INDEX_BATCH: nat := 100

  function Min(a: int, b: int): int { if a < b then a else b }

  /** One page of the backend: the identifiers its items carry, where they carry one. */
  type Pages = (nat, nat) -> seq<Option<int>>

  ghost predicate OnPage(page: Pages, count: nat, k: nat, u: int) {
    k * INDEX_BATCH < count && Some(u) in page(Min(INDEX_BATCH, count - k * INDEX_BATCH), k * INDEX_BATCH)
  }

  /** A backend whose list of messages stands still. */
  ghost predicate Serves(page: Pages, ids: seq<int>) {
    forall limit: nat, offset: nat | offset + limit <= |ids| ::
      |page(limit, offset)| == limit && forall i | 0 <= i < limit :: page(limit, offset)[i] == Some(ids[offset + i])
  }

  /** Two numbers of one message: `_seq_to_uid`, and what `_uid_to_seq` looks for. */
  function UidAt(index: seq<int>, n: int): Option<int> { if 1 <= n <= |index| then Some(index[n - 1]) else None }

  ghost function SeqOf(index: seq<int>, uid: int): Option<int> {
    if uid in index then
      var i :| 0 <= i < |index| && index[i] == uid;
      Some(i + 1)
    else None
  }

  /** On an ascending index the two numberings are inverse to each other. */
  lemma {:induction false} NumbersAreInverse(index: seq<int>, n: int, uid: int)
    requires Ascending(index)
    ensures UidAt(index, n) == Some(uid) <==> SeqOf(index, uid) == Some(n)
  {
  }

  datatype Range = Range(first: int, last: Option<int>)

  /** The UIDs of the index that lie in a range. */
  function Within(index: seq<int>, lo: int, hi: int): seq<int> {
    if index == [] then []
    else
      var rest, u := Within(index[..|index| - 1], lo, hi), index[|index| - 1];
      if lo <= u <= hi then rest + [u] else rest
  }

  function Max(a: int, b: int): int { if a > b then a else b }

  function BySeq(index: seq<int>, r: Range): seq<int> {
    var lo, hi := Max(r.first, 1), Min(Or(r.last, |index|), |index|);
    if lo <= hi then index[lo - 1..hi] else []
  }

  function ByUid(index: seq<int>, r: Range): seq<int>
    requires index != []
  {
    Within(index, r.first, Or(r.last, index[|index| - 1]))
  }

  function Or(n: Option<int>, otherwise: int): int { if n.Some? then n.value else otherwise }

  function Resolved(index: seq<int>, ranges: seq<Range>, uid: bool): seq<int> {
    if index == [] || ranges == [] then []
    else
      var r := ranges[|ranges| - 1];
      Resolved(index, ranges[..|ranges| - 1], uid) + if uid then ByUid(index, r) else BySeq(index, r)
  }

  lemma {:induction false} WithinIs(index: seq<int>, lo: int, hi: int, a: nat, b: nat)
    requires Ascending(index) && a <= b <= |index|
    requires forall i | 0 <= i < |index| :: lo <= index[i] <= hi <==> a <= i < b
    ensures Within(index, lo, hi) == index[a..b]
  {
    if index != [] {
      var last := |index| - 1;
      WithinIs(index[..last], lo, hi, Min(a, last), Min(b, last));
      assert lo <= index[last] <= hi <==> a <= last < b;
      if b == |index| && a < b {
        assert index[a..b] == index[..last][a..last] + [index[last]];
      } else if a < b {
        assert index[..last][a..b] == index[a..b];
      }
    }
  }

  /** A range of sequence numbers names the messages that the range of their UIDs names. */
  lemma {:induction false} RangesAgree(index: seq<int>, first: int, last: int)
    requires Ascending(index) && 1 <= first <= last <= |index|
    ensures BySeq(index, Range(first, Some(last)))
            == ByUid(index, Range(index[first - 1], Some(index[last - 1])))
    ensures BySeq(index, Range(first, None)) == ByUid(index, Range(index[first - 1], None))
  {
    WithinIs(index, index[first - 1], index[last - 1], first - 1, last);
    WithinIs(index, index[first - 1], index[|index| - 1], first - 1, |index|);
  }

  /** What one range names, by UID or by number: bounds are included, a missing last one is that
      of the whole mailbox, and numbers beyond the ends name nothing. */
  ghost predicate Names(index: seq<int>, r: Range, uid: bool, u: int) {
    if uid then u in index && r.first <= u && (r.last.Some? ==> u <= r.last.value)
    else exists i | 0 <= i < |index| :: index[i] == u && r.first <= i + 1 && (r.last.Some? ==> i + 1 <= r.last.value)
  }

  function Flat(parts: seq<seq<int>>): seq<int> { if parts == [] then [] else parts[0] + Flat(parts[1..]) }

  lemma {:induction false} FlatNext(parts: seq<seq<int>>, part: seq<int>)
    ensures Flat(parts + [part]) == Flat(parts) + part
  {
    if parts == [] {
      assert parts + [part] == [part] && [part][1..] == [];
    } else {
      assert (parts + [part])[1..] == parts[1..] + [part];
      FlatNext(parts[1..], part);
    }
  }

  lemma {:induction false} WithinExactly(index: seq<int>, lo: int, hi: int)
    requires Ascending(index)
    ensures Ascending(Within(index, lo, hi))
    ensures forall u :: u in Within(index, lo, hi) <==> u in index && lo <= u <= hi
  {
    if index != [] {
      var init, u := index[..|index| - 1], index[|index| - 1];
      WithinExactly(init, lo, hi);
      assert index == init + [u];
      var found := Within(init, lo, hi);
      forall i | 0 <= i < |found|
        ensures found[i] < u
      {
        assert found[i] in found;
        var j :| 0 <= j < |init| && init[j] == found[i];
      }
    }
  }

  lemma {:induction false} BySeqExactly(index: seq<int>, r: Range)
    requires Ascending(index)
    ensures Ascending(BySeq(index, r))
    ensures forall u :: u in BySeq(index, r) <==> Names(index, r, false, u)
  {
    var lo, hi := Max(r.first, 1), Min(Or(r.last, |index|), |index|);
    var part := BySeq(index, r);
    assert lo <= hi ==> forall i | lo - 1 <= i < hi :: part[i - lo + 1] == index[i];
    forall u
      ensures u in part <==> Names(index, r, false, u)
    {
      if i :| 0 <= i < |index| && index[i] == u && r.first <= i + 1 && (r.last.Some? ==> i + 1 <= r.last.value) {
        assert part[i - lo + 1] == u;
      }
      if j :| 0 <= j < |part| && part[j] == u {
        assert index[lo - 1 + j] == u;
      }
    }
  }

  /** What one range gives: the UIDs it names, ascending. */
  ghost predicate Gives(index: seq<int>, r: Range, uid: bool, part: seq<int>) {
    Ascending(part) && forall u :: u in part <==> Names(index, r, uid, u)
  }

  /** A resolved set is what its ranges name, range after range. */
  lemma {:induction false} ResolvedExactly(index: seq<int>, ranges: seq<Range>, uid: bool)
    returns (parts: seq<seq<int>>)
    requires Ascending(index)
    ensures Resolved(index, ranges, uid) == Flat(parts) && EachGives(index, ranges, uid, parts)
  {
    parts := [];
    if ranges != [] {
      var init, r := ranges[..|ranges| - 1], ranges[|ranges| - 1];
      assert ranges == init + [r];
      var before := ResolvedExactly(index, init, uid);
      var part := OneResolved(index, r, uid);
      ResolvedNext(index, init, r, uid, before, part);
      EachNext(index, init, r, uid, before, part);
      parts := before + [part];
    }
  }

  lemma {:induction false} ResolvedNext(index: seq<int>, init: seq<Range>, r: Range, uid: bool, before: seq<seq<int>>,
                                       part: seq<int>)
    requires Flat(before) == Resolved(index, init, uid)
    requires part == if index == [] then [] else if uid then ByUid(index, r) else BySeq(index, r)
    ensures Resolved(index, init + [r], uid) == Flat(before + [part])
  {
    FlatNext(before, part);
    assert (init + [r])[..|init|] == init;
  }

  ghost predicate EachGives(index: seq<int>, ranges: seq<Range>, uid: bool, parts: seq<seq<int>>) {
    |parts| == |ranges| && forall k | 0 <= k < |ranges| :: Gives(index, ranges[k], uid, parts[k])
  }

  lemma {:induction false} EachNext(index: seq<int>, ranges: seq<Range>, r: Range, uid: bool, parts: seq<seq<int>>,
                                   part: seq<int>)
    requires EachGives(index, ranges, uid, parts) && Gives(index, r, uid, part)
    ensures EachGives(index, ranges + [r], uid, parts + [part])
  {
  }

  lemma {:induction false} OneResolved(index: seq<int>, r: Range, uid: bool) returns (part: seq<int>)
    requires Ascending(index)
    ensures part == if index == [] then [] else if uid then ByUid(index, r) else BySeq(index, r)
    ensures Gives(index, r, uid, part)
  {
    part := if index == [] then [] else if uid then ByUid(index, r) else BySeq(index, r);
    BySeqExactly(index, r);
    if index != [] && uid {
      var top := index[|index| - 1];
      WithinExactly(index, r.first, Or(r.last, top));
      assert forall u | u in index :: u <= top;
    }
  }

  class SimpleMailbox {
    var uidIndex: seq<int>
    var messageCount: nat
    var built: bool

    constructor ()
      ensures uidIndex == [] && messageCount == 0 && !built
    {
      uidIndex, messageCount, built := [], 0, false;
    }

    /** `_build_uid_index`: the identifiers of every page, ascending. */
    method BuildUidIndex(count: nat, page: Pages)
      modifies this
      ensures built && messageCount == count && Ascending(uidIndex)
      ensures forall u :: u in uidIndex <==> exists k: nat :: OnPage(page, count, k, u)
    {
      messageCount := count;
      if count == 0 {
        uidIndex, built := [], true;
        return;
      }
      var uids: set<int> := {};
      var offset: nat := 0;
      ghost var n: nat := 0;
      while offset < count
        invariant offset == Min(n * INDEX_BATCH, count)
        invariant forall u <- uids :: exists k: nat :: k < n && OnPage(page, count, k, u)
        invariant forall u, k: nat | k < n && OnPage(page, count, k, u) :: u in uids
      {
        var limit := Min(INDEX_BATCH, count - offset);
        var results := page(limit, offset);
        uids := uids + IdsOf(results);
        forall u
          ensures u in IdsOf(results) <==> OnPage(page, count, n, u)
        {
        }
        offset, n := offset + limit, n + 1;
      }
      uidIndex := Sorted(uids);
      built := true;
      forall u, k: nat | OnPage(page, count, k, u)
        ensures u in uids
      {
        assert k < n;
      }
    }

    method SeqToUid(n: int) returns (uid: Option<int>)
      ensures uid == UidAt(uidIndex, n)
      ensures if 1 <= n <= |uidIndex| then uid == Some(uidIndex[n - 1]) else uid == None
    {
      if 1 <= n <= |uidIndex| {
        return Some(uidIndex[n - 1]);
      }
      uid := None;
    }

    /** `_uid_to_seq` with `bisect_left` written out. */
    method UidToSeq(uid: int) returns (n: Option<int>)
      requires Ascending(uidIndex)
      ensures n == SeqOf(uidIndex, uid)
      ensures if uid in uidIndex then n.Some? && 1 <= n.value <= |uidIndex| && uidIndex[n.value - 1] == uid
              else n == None
    {
      var lo, hi := 0, |uidIndex|;
      while lo < hi
        invariant 0 <= lo <= hi <= |uidIndex|
        invariant forall i | 0 <= i < lo :: uidIndex[i] < uid
        invariant forall i | hi <= i < |uidIndex| :: uid <= uidIndex[i]
      {
        var mid := (lo + hi) / 2;
        if uidIndex[mid] < uid {
          lo := mid + 1;
        } else {
          hi := mid;
        }
      }
      n := if lo < |uidIndex| && uidIndex[lo] == uid then Some(lo + 1) else None;
    }

    method CollectByUid(first: int, last: int) returns (found: seq<int>)
      ensures found == Within(uidIndex, first, last)
    {
      found := [];
      for i := 0 to |uidIndex|
        invariant found == Within(uidIndex[..i], first, last)
      {
        assert uidIndex[..i + 1][..i] == uidIndex[..i];
        if first <= uidIndex[i] <= last {
          found := found + [uidIndex[i]];
        }
      }
      assert uidIndex[..|uidIndex|] == uidIndex;
    }

    method CollectBySeq(first: int, last: int) returns (found: seq<int>)
      requires 1 <= first && last <= |uidIndex|
      ensures found == if first <= last then uidIndex[first - 1..last] else []
    {
      found := [];
      var n := first;
      while n <= last
        invariant n >= first && (first <= last ==> n <= last + 1)
        invariant found == if first <= last then uidIndex[first - 1..n - 1] else []
        decreases last + 1 - n
      {
        var u := SeqToUid(n);
        assert u == Some(uidIndex[n - 1]);
        found, n := found + [u.value], n + 1;
      }
    }

    /** `_resolve_message_set`. */
    method ResolveMessageSet(ranges: seq<Range>, uid: bool) returns (uids: seq<int>)
      ensures uids == Resolved(uidIndex, ranges, uid)
    {
      uids := [];
      if uidIndex == [] {
        return;
      }
      for r := 0 to |ranges|
        invariant uids == Resolved(uidIndex, ranges[..r], uid)
      {
        assert ranges[..r + 1][..r] == ranges[..r];
        var range, found := ranges[r], [];
        if uid {
          found := CollectByUid(range.first, Or(range.last, uidIndex[|uidIndex| - 1]));
        } else {
          found := CollectBySeq(Max(range.first, 1), Min(Or(range.last, |uidIndex|), |uidIndex|));
        }
        uids := uids + found;
      }
      assert ranges[..|ranges|] == ranges;
    }
  }

  function IdsOf(results: seq<Option<int>>): set<int> {
    set item | item in results && item.Some? :: item.value
  }

  /** Against an unchanged backend the index lists all its identifiers and nothing else; when
      they are distinct there is one entry for each message. */
  lemma {:induction false} IndexIsComplete(page: Pages, ids: seq<int>, index: seq<int>)
    requires Serves(page, ids) && Ascending(index)
    requires forall u :: u in index <==> exists k: nat :: OnPage(page, |ids|, k, u)
    ensures forall u :: u in index <==> u in ids
    ensures Distinct(ids) ==> |index| == |ids|
  {
    forall u
      ensures u in index <==> u in ids
    {
      if u in index {
        var k: nat :| OnPage(page, |ids|, k, u);
        var limit, offset := Min(INDEX_BATCH, |ids| - k * INDEX_BATCH), k * INDEX_BATCH;
        var i :| 0 <= i < |page(limit, offset)| && page(limit, offset)[i] == Some(u);
        assert u == ids[offset + i];
      }
      if u in ids {
        var j :| 0 <= j < |ids| && ids[j] == u;
        var k: nat := j / INDEX_BATCH;
        var limit, offset := Min(INDEX_BATCH, |ids| - k * INDEX_BATCH), k * INDEX_BATCH;
        assert page(limit, offset)[j - offset] == Some(u);
        assert OnPage(page, |ids|, k, u);
      }
    }
    if Distinct(ids) {
      DistinctCount(ids);
      DistinctCount(index);
      assert (set x | x in index) == (set x | x in ids);
    }
  }

  lemma {:induction false} DistinctCount(s: seq<int>)
    requires Distinct(s)
    ensures |set x | x in s| == |s|
  {
    if s != [] {
      var rest, last := s[..|s| - 1], s[|s| - 1];
      DistinctCount(rest);
      assert s == rest + [last];
      assert (set x | x in s) == (set x | x in rest) + {last};
    }
  }
}
