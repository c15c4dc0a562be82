/** Refresh-token rotation (aggregator/src/one_mail_agg/token_store.py and oauth.py).

    A provider accepts only an account's current refresh token and may answer with a new
    one. This module is what one caller does: read the token back from the config file, redeem
    it, write a rotated one to the file, cache the access token. */
module TokenRotation {
  import opened Wrappers

  // ----- The config file -----

  datatype OAuth = OAuth(clientId: string, refreshToken: string, rest: string)

  /** An entry of the accounts list; one without an oauth object is never touched. */
  datatype Entry = Entry(id: string, oauth: Option<OAuth>, rest: string)

  predicate Names(e: Entry, id: string) { e.id == id && e.oauth.Some? }

  /** The first entry of that id that has an oauth object. */
  function IndexOf(file: seq<Entry>, id: string): (i: nat)
    ensures i <= |file| && (i < |file| ==> Names(file[i], id))
    ensures forall k | 0 <= k < i :: !Names(file[k], id)
  {
    if file == [] || Names(file[0], id) then 0 else 1 + IndexOf(file[1..], id)
  }

  function StoredToken(file: seq<Entry>, id: string): Option<string> {
    var i := IndexOf(file, id);
    if i < |file| then Some(file[i].oauth.value.refreshToken) else None
  }

  function WithToken(e: Entry, token: string): Entry
    requires e.oauth.Some?
  {
    e.(oauth := Some(e.oauth.value.(refreshToken := token)))
  }

  /** The file after writing a token, None when no entry takes it. */
  function Rewritten(file: seq<Entry>, id: string, token: string): Option<seq<Entry>> {
    var i := IndexOf(file, id);
    if i < |file| then Some(file[i := WithToken(file[i], token)]) else None
  }

  /** The in-memory token after the read-back: an unreadable file, a missing entry or an
      empty stored token leave it as it was. */
  function ReadBack(file: seq<Entry>, id: string, token: string, readable: bool): string {
    if readable && StoredToken(file, id).Some? && StoredToken(file, id).value != "" then StoredToken(file, id).value
    else token
  }

  /** A read-back takes over the token of the first entry of that id with an oauth object, when the
      file can be read, there is one and the token is not empty. */
  lemma {:induction false} ReadBackExactly(file: seq<Entry>, id: string, token: string, readable: bool)
    ensures var r := ReadBack(file, id, token, readable);
            && (forall i | 0 <= i < |file| && Names(file[i], id) && (forall k | 0 <= k < i :: !Names(file[k], id)) ::
                  var stored := file[i].oauth.value.refreshToken;
                  r == if readable && |stored| > 0 then stored else token)
            && ((forall i | 0 <= i < |file| :: !Names(file[i], id)) ==> r == token)
  {
    forall i | 0 <= i < |file| && Names(file[i], id) && forall k | 0 <= k < i :: !Names(file[k], id)
      ensures IndexOf(file, id) == i
    {
      IndexUnique(file, id, i);
    }
  }

  lemma {:induction false} IndexUnique(file: seq<Entry>, id: string, i: nat)
    requires i <= |file| && (i < |file| ==> Names(file[i], id))
    requires forall k | 0 <= k < i :: !Names(file[k], id)
    ensures IndexOf(file, id) == i
  {
    var j := IndexOf(file, id);
    assert !(j < i) && !(i < j);
  }

  /** A rewrite changes one token and nothing else: not the order, not another entry, not
      another field, and every other account reads back what it did. */
  lemma {:induction false} RewriteTouchesOneToken(file: seq<Entry>, id: string, token: string)
    requires Rewritten(file, id, token).Some?
    ensures var after := Rewritten(file, id, token).value;
            |after| == |file| && StoredToken(after, id) == Some(token)
            && (forall k | 0 <= k < |file| && k != IndexOf(file, id) :: after[k] == file[k])
            && (forall k | 0 <= k < |file| :: after[k].id == file[k].id && after[k].rest == file[k].rest
                  && after[k].oauth.Some? == file[k].oauth.Some?)
            && (forall other | other != id :: StoredToken(after, other) == StoredToken(file, other))
  {
    var after := Rewritten(file, id, token).value;
    var i := IndexOf(file, id);
    IndexUnique(after, id, i);
    forall other | other != id
      ensures StoredToken(after, other) == StoredToken(file, other)
    {
      IndexUnique(after, other, IndexOf(file, other));
    }
  }

  class Account {
    const id: string
    const clientId: string
    var refreshToken: string

    constructor (id: string, clientId: string, refreshToken: string)
      ensures this.id == id && this.clientId == clientId && this.refreshToken == refreshToken
    {
      this.id, this.clientId, this.refreshToken := id, clientId, refreshToken;
    }
  }

  class ConfigFile {
    var entries: seq<Entry>

    constructor (entries: seq<Entry>)
      ensures this.entries == entries
    {
      this.entries := entries;
    }

    /** `refresh_rt_from_config`. */
    method RefreshRt(account: Account, readable: bool)
      modifies account
      ensures account.refreshToken == ReadBack(entries, account.id, old(account.refreshToken), readable)
    {
      if !readable {
        return;
      }
      for k := 0 to |entries|
        invariant account.refreshToken == old(account.refreshToken)
        invariant forall j | 0 <= j < k :: !Names(entries[j], account.id)
      {
        if Names(entries[k], account.id) {
          IndexUnique(entries, account.id, k);
          var latest := entries[k].oauth.value.refreshToken;
          if latest != "" {
            account.refreshToken := latest;
          }
          return;
        }
      }
    }

    /** `rewrite_config_refresh_token`: the replaced file appears whole or not at all. */
    method RewriteRefreshToken(id: string, token: string, writes: bool) returns (ok: bool)
      modifies this
      ensures ok == (writes && Rewritten(old(entries), id, token).Some?)
      ensures entries == if ok then Rewritten(old(entries), id, token).value else old(entries)
    {
      var raw := entries;
      for k := 0 to |raw|
        invariant raw == entries == old(entries)
        invariant forall j | 0 <= j < k :: !Names(raw[j], id)
      {
        if Names(raw[k], id) {
          IndexUnique(raw, id, k);
          raw := raw[k := WithToken(raw[k], token)];
          if writes {
            entries := raw;
          }
          return writes;
        }
      }
      ok := false;
    }

    /** `_handle_rotated` with the persisting callback: the memory copy first, then the file;
        a failed write raises. */
    method HandleRotated(account: Account, answered: Option<string>, writes: bool) returns (raised: bool)
      modifies this, account
      ensures var rotated := answered.Some? && answered.value != "" && answered.value != old(account.refreshToken);
              account.refreshToken == (if rotated then answered.value else old(account.refreshToken))
              && raised == (rotated && !(writes && Rewritten(old(entries), account.id, answered.value).Some?))
              && entries == if rotated && !raised then Rewritten(old(entries), account.id, answered.value).value
                            else old(entries)
    {
      raised := false;
      if answered.Some? && answered.value != "" && answered.value != account.refreshToken {
        account.refreshToken := answered.value;
        var ok := RewriteRefreshToken(account.id, answered.value, writes);
        raised := !ok;
      }
    }
  }

  // ----- The access-token cache -----

  const REFRESH_SKEW_SECONDS: real := 300.0
  const DEFAULT_TTL_SECONDS: real := 3600.0
  const MIN_TTL_SECONDS: real := 60.0

  type CacheKey = (string, string)

  /** How long an answer is kept: its `expires_in` when that is a positive number, else the
      default, less the skew, and never under the minimum. */
  function KeptFor(expiresIn: Option<real>): real {
    var ttl := if expiresIn.Some? && expiresIn.value > 0.0 then expiresIn.value else DEFAULT_TTL_SECONDS;
    if ttl - REFRESH_SKEW_SECONDS > MIN_TTL_SECONDS then ttl - REFRESH_SKEW_SECONDS else MIN_TTL_SECONDS
  }

  /** The cache after a redemption: the entry moves to the token now held. */
  function Recached<V>(cache: map<CacheKey, V>, client: string, presented: string, held: string,
                       v: V): map<CacheKey, V> {
    (if held != presented then cache - {(client, presented)} else cache)[(client, held) := v]
  }

  /** One entry is written, the one of a token given up is gone, and no other changes. */
  lemma {:induction false} RecachedExactly<V>(cache: map<CacheKey, V>, client: string, presented: string, held: string,
                                             v: V)
    ensures var after := Recached(cache, client, presented, held, v);
            && (client, held) in after && after[(client, held)] == v
            && (held != presented ==> (client, presented) !in after)
            && forall k | k != (client, held) && k != (client, presented) ::
                 (k in after <==> k in cache) && (k in after ==> after[k] == cache[k])
  {
  }

  datatype Reply = Reply(access: string, refreshToken: Option<string>, expiresIn: Option<real>)

  class MsaCache {
    var entries: map<CacheKey, (string, real)>

    constructor ()
      ensures entries == map[]
    {
      entries := map[];
    }

    /** `cached_msa_access_token`: a live entry under the token now held answers at once;
        otherwise one redemption, whose rotation is persisted before anything is cached. */
    method AccessToken(file: ConfigFile, account: Account, now: real, reply: Option<Reply>, writes: bool)
      returns (access: Option<string>)
      modifies this, file, account
      ensures var token := old(account.refreshToken);
              var key := (account.clientId, token);
              var hit := Serves(old(entries), account.clientId, token, now);
              if hit || reply.None? then
                access == (if hit then Some(old(entries)[key].0) else None)
                && entries == old(entries) && file.entries == old(file.entries) && account.refreshToken == token
              else
                var answered := reply.value.refreshToken;
                var held := if answered.Some? && answered.value != "" then answered.value else token;
                var kept := held == token || (writes && Rewritten(old(file.entries), account.id, held).Some?);
                account.refreshToken == held
                && access == (if kept then Some(reply.value.access) else None)
                && entries == (if !kept then old(entries)
                               else Recached(old(entries), account.clientId, token, held,
                                             (reply.value.access, now + KeptFor(reply.value.expiresIn))))
                && (kept && held != token ==> StoredToken(file.entries, account.id) == Some(held))
    {
      var current := account.refreshToken;
      var key := (account.clientId, current);
      if key in entries && entries[key].1 > now {
        return Some(entries[key].0);
      }
      if reply.None? {
        return None;
      }
      var answered := reply.value.refreshToken;
      var raised := file.HandleRotated(account, answered, writes);
      if raised {
        return None;
      }
      var stored := if answered.Some? && answered.value != "" then answered.value else current;
      if stored != current {
        RewriteTouchesOneToken(old(file.entries), account.id, stored);
        entries := entries - {key};
      }
      entries := entries[(account.clientId, stored) := (reply.value.access, now + KeptFor(reply.value.expiresIn))];
      access := Some(reply.value.access);
    }
  }

  /** A hit: the entry under the token held has not reached its deadline. */
  predicate Serves(cache: map<CacheKey, (string, real)>, client: string, token: string, now: real) {
    (client, token) in cache && cache[(client, token)].1 > now
  }

  /** Whatever the provider states and however long its token really lives: an answer cached at
      `now` is served at no instant after the token's end exactly when that end lies at least a
      minute, and the stated lifetime less five minutes, ahead; without a positive stated
      lifetime, at least 55 minutes. Where the statement is the truth, a minute is enough. */
  lemma {:induction false} CacheWithinLifetime(
      cache: map<CacheKey, (string, real)>, client: string, presented: string, held: string, access: string,
      now: real, expiresIn: Option<real>, lifetime: real)
    ensures var after := Recached(cache, client, presented, held, (access, now + KeptFor(expiresIn)));
            (forall t: real | Serves(after, client, held, t) :: t < now + lifetime)
            <==> if expiresIn.Some? && expiresIn.value > 0.0 then
                   lifetime >= 60.0 && lifetime >= expiresIn.value - 300.0
                 else lifetime >= 3300.0
    ensures var after := Recached(cache, client, presented, held, (access, now + KeptFor(expiresIn)));
            lifetime > 0.0 && expiresIn == Some(lifetime) ==>
              ((forall t: real | Serves(after, client, held, t) :: t < now + lifetime) <==> lifetime >= 60.0)
  {
    var after := Recached(cache, client, presented, held, (access, now + KeptFor(expiresIn)));
    if lifetime < KeptFor(expiresIn) {
      assert Serves(after, client, held, now + lifetime);
    }
  }

  /** For example: an access token stated and good for 30 seconds is still served after 45. */
  lemma {:induction false} ShortLivedTokenServedLate(client: string, token: string, access: string)
    ensures Serves(Recached(map[], client, token, token, (access, KeptFor(Some(30.0)))), client, token, 45.0)
  {
  }

  /** And one good for 1800 seconds, of which the answer says nothing, after 2000. */
  lemma {:induction false} UnstatedLifetimeServedLate(client: string, token: string, access: string)
    ensures Serves(Recached(map[], client, token, token, (access, KeptFor(None))), client, token, 2000.0)
  {
  }
}
