/** The attachment object store (aggregator/src/one_mail_agg/storage_server.py): uploads
    reserve disk space before they write, so that concurrent ones never take the free space
    below a floor.

    `Disk` is the shared state under every interleaving of requests. A file takes its size in
    bytes; the space of a replaced or deleted file may come back later, while a reader still
    holds it open. */
module AttachmentStorage {
  import opened Wrappers

  const MAX_ATTACHMENT_BYTES: nat := 30 * 1024 * 1024
  const READ_CHUNK: nat := 1024 * 1024

  // ----- The reservation counter -----

  /** The admission test of `reserve_upload`. */
  predicate Admits(free: int, reserved: nat, size: nat, minFree: nat) {
    free - reserved - size >= minFree
  }

  function Released(reserved: nat, size: nat): nat {
    if reserved > size then reserved - size else 0
  }

  // ----- Concurrent requests -----

  datatype Phase = Admitted | Writing | Stored | Cleaned

  /** One PUT between its reservation and its release. */
  datatype Upload = Upload(key: string, size: nat, written: nat, phase: Phase)
  {
    /** The bytes it may still write. */
    function Remaining(): nat {
      if (phase.Admitted? || phase.Writing?) && written <= size then size - written else 0
    }

    /** The bytes its temporary file takes. */
    function Temporary(): nat { if phase.Writing? then written else 0 }
  }

  /** The reservation lock: free, or held by a request that has read the free space. */
  datatype Lock = Unlocked | Deciding(key: string, size: nat, freeRead: Option<int>)

  datatype Disk = Disk(
    free: int,
    files: map<string, nat>,
    orphaned: nat,  // bytes of files no longer named but not yet reclaimed
    debris: nat,  // bytes of temporary files that could not be unlinked
    reserved: nat,
    leaked: nat,  // bytes still reserved for uploads that ended without releasing them
    uploads: seq<Upload>,
    lock: Lock)

  datatype Event =
    | Lock(key: string, size: nat, usageFails: bool)  // take the lock, read the free space
    | Decide(minFree: nat)  // compare, reserve or refuse, release the lock
    | CreateTemporary(i: nat)
    | Write(i: nat, n: nat)
    | Replace(i: nat)
    | Unlink(i: nat)  // or nothing to unlink yet
    | UnlinkFails(i: nat)  // any error but a missing file: the release is never reached
    | Release(i: nat)
    | Delete(key: string)
    | Reclaim(n: nat)

  function FileSize(d: Disk, key: string): nat { if key in d.files then d.files[key] else 0 }

  predicate Enabled(d: Disk, e: Event, minFree: nat) {
    match e
    case Lock(_, size, _) => d.lock.Unlocked? && size <= MAX_ATTACHMENT_BYTES
    case Decide(m) => d.lock.Deciding? && m == minFree
    case CreateTemporary(i) => i < |d.uploads| && d.uploads[i].phase.Admitted?
    case Write(i, n) => i < |d.uploads| && d.uploads[i].phase.Writing? && 0 < n <= d.uploads[i].Remaining()
    case Replace(i) => i < |d.uploads| && d.uploads[i].phase.Writing? && d.uploads[i].Remaining() == 0
    case Unlink(i) => i < |d.uploads| && !d.uploads[i].phase.Cleaned?
    case UnlinkFails(i) => i < |d.uploads| && (d.uploads[i].phase.Writing? || d.uploads[i].phase.Stored?)
    case Release(i) => i < |d.uploads| && d.uploads[i].phase.Cleaned? && d.lock.Unlocked?
    case Delete(key) => key in d.files
    case Reclaim(n) => n <= d.orphaned
  }

  function WithUpload(d: Disk, i: nat, u: Upload): Disk
    requires i < |d.uploads|
  {
    d.(uploads := d.uploads[i := u])
  }

  function Step(d: Disk, e: Event, minFree: nat): Disk
    requires Enabled(d, e, minFree)
  {
    match e
    case Lock(key, size, fails) => d.(lock := Deciding(key, size, if fails then None else Some(d.free)))
    case Decide(_) =>
      var l := d.lock;
      if l.freeRead.Some? && Admits(l.freeRead.value, d.reserved, l.size, minFree) then
        d.(lock := Unlocked, reserved := d.reserved + l.size,
           uploads := d.uploads + [Upload(l.key, l.size, 0, Admitted)])
      else d.(lock := Unlocked)
    case CreateTemporary(i) => WithUpload(d, i, d.uploads[i].(phase := Writing))
    case Write(i, n) =>
      WithUpload(d, i, d.uploads[i].(written := d.uploads[i].written + n)).(free := d.free - n)
    case Replace(i) =>
      var u := d.uploads[i];
      WithUpload(d, i, u.(phase := Stored)).(
        files := d.files[u.key := u.written], orphaned := d.orphaned + FileSize(d, u.key))
    case Unlink(i) =>
      WithUpload(d, i, d.uploads[i].(phase := Cleaned)).(free := d.free + d.uploads[i].Temporary())
    case UnlinkFails(i) =>
      d.(leaked := d.leaked + d.uploads[i].size, debris := d.debris + d.uploads[i].Temporary(),
         uploads := d.uploads[..i] + d.uploads[i + 1..])
    case Release(i) =>
      d.(reserved := Released(d.reserved, d.uploads[i].size), uploads := d.uploads[..i] + d.uploads[i + 1..])
    case Delete(key) => d.(files := d.files - {key}, orphaned := d.orphaned + d.files[key])
    case Reclaim(n) => d.(free := d.free + n, orphaned := d.orphaned - n)
  }

  // ----- Sums -----

  function Sizes(us: seq<Upload>): nat { if us == [] then 0 else us[0].size + Sizes(us[1..]) }
  function Remainders(us: seq<Upload>): nat { if us == [] then 0 else us[0].Remaining() + Remainders(us[1..]) }
  function Temporaries(us: seq<Upload>): nat { if us == [] then 0 else us[0].Temporary() + Temporaries(us[1..]) }

  lemma {:induction false} SumsUpdate(us: seq<Upload>, i: nat, u: Upload)
    requires i < |us|
    ensures Sizes(us[i := u]) == Sizes(us) - us[i].size + u.size
    ensures Remainders(us[i := u]) == Remainders(us) - us[i].Remaining() + u.Remaining()
    ensures Temporaries(us[i := u]) == Temporaries(us) - us[i].Temporary() + u.Temporary()
    ensures us[i].Remaining() <= Remainders(us) && us[i].size <= Sizes(us)
  {
    if i == 0 {
      assert us[i := u][1..] == us[1..];
    } else {
      SumsUpdate(us[1..], i - 1, u);
      assert us[i := u][1..] == us[1..][i - 1 := u];
    }
  }

  lemma {:induction false} SumsAppend(us: seq<Upload>, u: Upload)
    ensures Sizes(us + [u]) == Sizes(us) + u.size
    ensures Remainders(us + [u]) == Remainders(us) + u.Remaining()
    ensures Temporaries(us + [u]) == Temporaries(us) + u.Temporary()
  {
    if us == [] {
      assert us + [u] == [u];
    } else {
      SumsAppend(us[1..], u);
      assert (us + [u])[1..] == us[1..] + [u];
    }
  }

  lemma {:induction false} SumsRemove(us: seq<Upload>, i: nat)
    requires i < |us|
    ensures var r := us[..i] + us[i + 1..];
            Sizes(r) == Sizes(us) - us[i].size && Remainders(r) == Remainders(us) - us[i].Remaining()
            && Temporaries(r) == Temporaries(us) - us[i].Temporary()
  {
    var r := us[..i] + us[i + 1..];
    if i == 0 {
      assert r == us[1..];
    } else {
      SumsRemove(us[1..], i - 1);
      assert r[1..] == us[1..][..i - 1] + us[1..][i..];
    }
  }

  lemma {:induction false} RemaindersWithinSizes(us: seq<Upload>)
    ensures Remainders(us) <= Sizes(us)
  {
    if us != [] {
      RemaindersWithinSizes(us[1..]);
    }
  }

  // ----- The floor -----

  /** Reserved bytes are exactly the sizes of the active uploads and what was leaked; beyond the
      floor there is room for everything they may still write; and a request deciding on an
      earlier reading of the free space is no better off than that reading said. */
  ghost predicate Inv(d: Disk, minFree: nat) {
    && d.reserved == Sizes(d.uploads) + d.leaked
    && d.free >= minFree + Remainders(d.uploads)
    && AllFit(d.uploads)
    && (d.lock.Deciding? && d.lock.freeRead.Some? ==>
          d.free - Remainders(d.uploads) >= d.lock.freeRead.value - d.reserved)
  }

  /** Nobody has written more than it reserved, or anything before its file exists. */
  predicate Fits(u: Upload) { u.written <= u.size && (u.phase.Admitted? ==> u.written == 0) }

  ghost predicate AllFit(us: seq<Upload>) { forall i | 0 <= i < |us| :: Fits(us[i]) }

  lemma {:induction false} StepKeepsFloor(d: Disk, e: Event, minFree: nat)
    requires Inv(d, minFree) && Enabled(d, e, minFree)
    ensures Inv(Step(d, e, minFree), minFree)
  {
    match e
    case Decide(_) => DecideKeepsFloor(d, minFree);
    case CreateTemporary(_) => UploadStepKeepsFloor(d, e, minFree);
    case Write(i, n) => WriteKeepsFloor(d, i, n, minFree);
    case Replace(_) => UploadStepKeepsFloor(d, e, minFree);
    case Unlink(i) => UnlinkKeepsFloor(d, i, minFree);
    case UnlinkFails(i) => SumsRemove(d.uploads, i);
    case Release(i) => ReleaseKeepsFloor(d, i, minFree);
    case _ => RemaindersWithinSizes(d.uploads);
  }

  lemma {:induction false} UploadStepKeepsFloor(d: Disk, e: Event, minFree: nat)
    requires Inv(d, minFree) && Enabled(d, e, minFree) && (e.CreateTemporary? || e.Replace?)
    ensures Inv(Step(d, e, minFree), minFree)
  {
    UpdateKeepsFloor(d, e.i, d.uploads[e.i].(phase := if e.Replace? then Stored else Writing), d.free, minFree);
  }

  lemma {:induction false} WriteKeepsFloor(d: Disk, i: nat, n: nat, minFree: nat)
    requires Inv(d, minFree) && Enabled(d, Write(i, n), minFree)
    ensures Inv(Step(d, Write(i, n), minFree), minFree)
  {
    var u := d.uploads[i];
    UpdateKeepsFloor(d, i, u.(written := u.written + n), d.free - n, minFree);
  }

  lemma {:induction false} UnlinkKeepsFloor(d: Disk, i: nat, minFree: nat)
    requires Inv(d, minFree) && Enabled(d, Unlink(i), minFree)
    ensures Inv(Step(d, Unlink(i), minFree), minFree)
  {
    var u := d.uploads[i];
    UpdateKeepsFloor(d, i, u.(phase := Cleaned), d.free + u.Temporary(), minFree);
  }

  lemma {:induction false} DecideKeepsFloor(d: Disk, minFree: nat)
    requires Inv(d, minFree) && Enabled(d, Decide(minFree), minFree)
    ensures Inv(Step(d, Decide(minFree), minFree), minFree)
  {
    SumsAppend(d.uploads, Upload(d.lock.key, d.lock.size, 0, Admitted));
  }

  lemma {:induction false} ReleaseKeepsFloor(d: Disk, i: nat, minFree: nat)
    requires Inv(d, minFree) && Enabled(d, Release(i), minFree)
    ensures Inv(Step(d, Release(i), minFree), minFree)
  {
    SumsRemove(d.uploads, i);
  }

  /** A step of one upload is safe when it takes no more space than it gives up in remainder. */
  lemma {:induction false} UpdateKeepsFloor(d: Disk, i: nat, u: Upload, free: int, minFree: nat)
    requires Inv(d, minFree) && i < |d.uploads|
    requires Fits(u) && u.size == d.uploads[i].size
    requires free - u.Remaining() >= d.free - d.uploads[i].Remaining()
    ensures Inv(WithUpload(d, i, u).(free := free), minFree)
  {
    SumsUpdate(d.uploads, i, u);
  }

  /** In every such state an upload is admitted exactly when it leaves the floor after all that
      active uploads have reserved and others have leaked. */
  lemma {:induction false} AdmittedExactlyWhen(d: Disk, key: string, size: nat, minFree: nat)
    requires Inv(d, minFree) && Enabled(d, Lock(key, size, false), minFree)
    ensures var d1 := Step(d, Lock(key, size, false), minFree);
            var d2 := Step(d1, Decide(minFree), minFree);
            var fits := d.free >= minFree + Sizes(d.uploads) + d.leaked + size;
            && d2.uploads == (if fits then d.uploads + [Upload(key, size, 0, Admitted)] else d.uploads)
            && d2.reserved == (if fits then d.reserved + size else d.reserved)
            && d2.free == d.free && d2.files == d.files
  {
  }

  ghost predicate Runs(d: Disk, es: seq<Event>, minFree: nat, d': Disk)
    decreases |es|
  {
    if es == [] then d' == d
    else Enabled(d, es[0], minFree) && Runs(Step(d, es[0], minFree), es[1..], minFree, d')
  }

  ghost predicate Start(d: Disk, minFree: nat) {
    d.free >= minFree && d.reserved == 0 && d.leaked == 0 && d.uploads == [] && d.lock.Unlocked?
  }

  lemma {:induction false} RunsKeepFloor(d: Disk, es: seq<Event>, minFree: nat, d': Disk)
    requires Inv(d, minFree) && Runs(d, es, minFree, d')
    ensures Inv(d', minFree) && d'.leaked >= d.leaked
    ensures (forall i | 0 <= i < |es| :: !es[i].UnlinkFails?) ==> d'.leaked == d.leaked
    decreases |es|
  {
    if es != [] {
      StepKeepsFloor(d, es[0], minFree);
      RunsKeepFloor(Step(d, es[0], minFree), es[1..], minFree, d');
      assert forall i | 0 <= i < |es[1..]| :: es[1..][i] == es[i + 1];
    }
  }

  /** For every interleaving of uploads, partial writes, aborts, replaces and deletes: free
      space never drops below the floor, an admitted write always fits above it, the release
      never clamps, and reserved bytes are the sizes of the active uploads and those leaked by
      uploads whose temporary file could not be unlinked, which are none without such a
      failure. */
  lemma {:induction false} FloorHolds(d: Disk, es: seq<Event>, minFree: nat, d': Disk)
    requires Start(d, minFree) && Runs(d, es, minFree, d')
    ensures d'.free >= minFree && d'.reserved == Sizes(d'.uploads) + d'.leaked
    ensures (forall i | 0 <= i < |es| :: !es[i].UnlinkFails?) ==> d'.reserved == Sizes(d'.uploads)
    ensures forall i, n: nat | 0 <= i < |d'.uploads| && Enabled(d', Write(i, n), minFree) :: d'.free - n >= minFree
    ensures forall i | 0 <= i < |d'.uploads| && Enabled(d', Release(i), minFree) ::
              Step(d', Release(i), minFree).reserved == d'.reserved - d'.uploads[i].size
  {
    RunsKeepFloor(d, es, minFree, d');
    forall i | 0 <= i < |d'.uploads|
      ensures d'.uploads[i].Remaining() <= Remainders(d'.uploads) && d'.uploads[i].size <= d'.reserved
    {
      SumsUpdate(d'.uploads, i, d'.uploads[i]);
    }
    forall i, n: nat | 0 <= i < |d'.uploads| && Enabled(d', Write(i, n), minFree)
      ensures d'.free - n >= minFree
    {
      assert n <= d'.uploads[i].Remaining() <= Remainders(d'.uploads);
    }
  }

  /** A failing unlink leaks the whole reservation of its upload for good. */
  lemma {:induction false} UnlinkFailureLeaks(d: Disk, i: nat, es: seq<Event>, minFree: nat, d': Disk)
    requires Inv(d, minFree) && Enabled(d, UnlinkFails(i), minFree)
    requires Runs(Step(d, UnlinkFails(i), minFree), es, minFree, d')
    ensures d'.reserved >= Sizes(d'.uploads) + d.uploads[i].size
  {
    StepKeepsFloor(d, UnlinkFails(i), minFree);
    RunsKeepFloor(Step(d, UnlinkFails(i), minFree), es, minFree, d');
  }

  // ----- Every byte is somewhere -----

  ghost function Bytes(files: map<string, nat>): nat
    decreases |files|
  {
    if files == map[] then 0
    else
      var k :| k in files;
      files[k] + Bytes(files - {k})
  }

  lemma {:induction false} BytesWithout(files: map<string, nat>, key: string)
    requires key in files
    ensures Bytes(files) == files[key] + Bytes(files - {key})
    decreases |files|
  {
    var k :| k in files && Bytes(files) == files[k] + Bytes(files - {k});
    if k != key {
      BytesWithout(files - {k}, key);
      BytesWithout(files - {key}, k);
      assert files - {k} - {key} == files - {key} - {k};
    }
  }

  /** Every byte of the volume is free, in a stored file, in a temporary file in use or left
      behind, or orphaned. */
  ghost function Volume(d: Disk): int {
    d.free + Bytes(d.files) + Temporaries(d.uploads) + d.debris + d.orphaned
  }

  lemma {:induction false} StepConserves(d: Disk, e: Event, minFree: nat)
    requires Inv(d, minFree) && Enabled(d, e, minFree)
    ensures Volume(Step(d, e, minFree)) == Volume(d)
  {
    match e
    case Decide(_) => SumsAppend(d.uploads, Upload(d.lock.key, d.lock.size, 0, Admitted));
    case CreateTemporary(_) => UploadStepConserves(d, e, minFree);
    case Write(_, _) => UploadStepConserves(d, e, minFree);
    case Replace(i) => ReplaceConserves(d, i, minFree);
    case Unlink(_) => UploadStepConserves(d, e, minFree);
    case UnlinkFails(i) => SumsRemove(d.uploads, i);
    case Release(i) => SumsRemove(d.uploads, i);
    case Delete(key) => BytesWithout(d.files, key);
    case _ =>
  }

  lemma {:induction false} UploadStepConserves(d: Disk, e: Event, minFree: nat)
    requires Inv(d, minFree) && Enabled(d, e, minFree) && (e.CreateTemporary? || e.Write? || e.Unlink?)
    ensures Volume(Step(d, e, minFree)) == Volume(d)
  {
    SumsUpdate(d.uploads, e.i, Step(d, e, minFree).uploads[e.i]);
  }

  lemma {:induction false} ReplaceConserves(d: Disk, i: nat, minFree: nat)
    requires Inv(d, minFree) && Enabled(d, Replace(i), minFree)
    ensures Volume(Step(d, Replace(i), minFree)) == Volume(d)
  {
    var u := d.uploads[i];
    SumsUpdate(d.uploads, i, u.(phase := Stored));
    BytesReplace(d.files, u.key, u.written);
  }

  lemma {:induction false} BytesReplace(files: map<string, nat>, key: string, size: nat)
    ensures Bytes(files[key := size]) + (if key in files then files[key] else 0) == Bytes(files) + size
  {
    var updated := files[key := size];
    BytesWithout(updated, key);
    assert updated - {key} == files - {key};
    if key in files {
      BytesWithout(files, key);
    } else {
      assert files - {key} == files;
    }
  }

  // ----- The server object and one PUT -----

  /** What the peer is answered; silent when the connection is gone. */
  datatype Status = NoContent | BadRequest | TooLarge | Unauthorized | InsufficientStorage | ServiceUnavailable | Silent

  type Failing = s: Status | !s.NoContent? witness Silent

  /** How the disk and the peer behave during one PUT. A call that fails with an OSError is named
      by the answer its handler gives. */
  datatype Conditions = Conditions(
    authorized: bool,
    keyValid: bool,
    declared: Option<int>,  // the Content-Length header, None when missing or malformed
    usage: Option<int>,  // free space when asked, None when the call fails
    creates: Option<Failing>,  // making the directory and the temporary file fails
    body: string,  // what the peer sends before it stops
    failsAt: Option<nat>,  // bytes written when a read or write fails
    failure: Failing,
    finishes: Option<Failing>,  // flush, fsync, chmod or replace fails
    replies: bool,  // the answer to a stored upload can be sent
    unlinks: bool)  // unlinking succeeds or finds the file gone

  class Server {
    const minFree: nat
    var reserved: nat
    var files: map<string, string>

    constructor (minFree: nat)
      ensures this.minFree == minFree && reserved == 0 && files == map[]
    {
      this.minFree := minFree;
      reserved := 0;
      files := map[];
    }

    method ReserveUpload(usage: Option<int>, size: nat) returns (ok: bool)
      modifies this`reserved
      ensures ok == (usage.Some? && usage.value - old(reserved) - size >= minFree)
      ensures reserved == if ok then old(reserved) + size else old(reserved)
    {
      if usage.None? {
        return false;
      }
      var available := usage.value - reserved - size;
      if available < minFree {
        return false;
      }
      reserved := reserved + size;
      ok := true;
    }

    method ReleaseUpload(size: nat)
      modifies this`reserved
      ensures reserved == if size < old(reserved) then old(reserved) - size else 0
    {
      reserved := if reserved - size > 0 then reserved - size else 0;
    }

    /** `/health`: room above the floor after everything reserved. */
    method StorageHealthy(usage: Option<int>) returns (ok: bool)
      ensures ok == (usage.Some? && usage.value - reserved >= minFree)
    {
      ok := usage.Some? && usage.value - reserved >= minFree;
    }

    /** The read loop: the first `size` bytes of the body, unless it ends or something fails first. */
    method Receive(size: nat, c: Conditions) returns (problem: Option<Failing>, content: string)
      ensures problem.None? <==> size <= |c.body| && (c.failsAt.Some? ==> size <= c.failsAt.value)
      ensures problem.None? ==> content == c.body[..size]
      ensures problem.Some? ==>
                problem.value == if c.failsAt.None? || |c.body| <= c.failsAt.value then BadRequest else c.failure
    {
      content := [];
      var remaining: nat := size;
      while remaining > 0
        invariant |content| + remaining == size && |content| <= |c.body| && content == c.body[..|content|]
        invariant c.failsAt.Some? ==> |content| <= c.failsAt.value || remaining == size
      {
        var want := if remaining < READ_CHUNK then remaining else READ_CHUNK;
        var left := c.body[|content|..];
        var chunk := if |left| < want then left else left[..want];
        if chunk == [] {
          return Some(BadRequest), content;
        }
        if c.failsAt.Some? && |content| + |chunk| > c.failsAt.value {
          return Some(c.failure), content;
        }
        assert content + chunk == c.body[..|content| + |chunk|];
        content := content + chunk;
        remaining := remaining - |chunk|;
      }
      problem := None;
    }

    /** The request gets as far as its reservation. */
    predicate Admitted(c: Conditions)
      reads this
    {
      c.authorized && c.keyValid && c.declared.Some? && 0 <= c.declared.value <= 30 * 1024 * 1024
      && c.usage.Some? && c.usage.value - reserved - c.declared.value >= minFree
    }

    /** What the peer is answered with this much reserved: the first thing that went wrong. */
    function Answer(c: Conditions, before: nat): Status {
      if !c.authorized then Unauthorized
      else if !c.keyValid then BadRequest
      else if c.declared.None? || c.declared.value < 0 || c.declared.value > 30 * 1024 * 1024 then TooLarge
      else if c.usage.None? || c.usage.value - before - c.declared.value < minFree then InsufficientStorage
      else if c.creates.Some? then c.creates.value
      else if c.failsAt.Some? && c.failsAt.value < c.declared.value && c.failsAt.value < |c.body| then c.failure
      else if |c.body| < c.declared.value then BadRequest
      else if c.finishes.Some? then c.finishes.value
      else if c.replies then NoContent
      else Silent
    }

    /** `do_PUT`. The named file becomes exactly the declared bytes of the body, or nothing
        changes; the peer learns of the former only when the answer gets through; and the
        reservation is given back exactly when no exception escapes the final unlink. */
    method Put(key: string, c: Conditions) returns (status: Status, escapes: bool)
      modifies this
      ensures var stores := old(Admitted(c)) && c.creates.None? && c.declared.value <= |c.body|
                            && (c.failsAt.Some? ==> c.declared.value <= c.failsAt.value) && c.finishes.None?;
              && files == (if stores then old(files)[key := c.body[..c.declared.value]] else old(files))
              && (status.NoContent? <==> stores && c.replies)
      ensures status == Answer(c, old(reserved))
      ensures escapes <==> old(Admitted(c)) && c.creates.None? && !c.unlinks
      ensures reserved == old(reserved) + if escapes then c.declared.value else 0
    {
      escapes := false;
      if !c.authorized {
        return Unauthorized, false;
      }
      if !c.keyValid {
        return BadRequest, false;
      }
      if c.declared.None? || c.declared.value < 0 || c.declared.value > MAX_ATTACHMENT_BYTES {
        return TooLarge, false;
      }
      var size: nat := c.declared.value;
      var admitted := ReserveUpload(c.usage, size);
      if !admitted {
        return InsufficientStorage, false;
      }
      if c.creates.Some? {
        status := c.creates.value;
      } else {
        var problem, content := Receive(size, c);
        if problem.Some? {
          status := problem.value;
        } else if c.finishes.Some? {
          status := c.finishes.value;
        } else {
          files := files[key := content];
          status := if c.replies then NoContent else Silent;
        }
        if !c.unlinks {
          return status, true;
        }
      }
      ReleaseUpload(size);
    }
  }
}
