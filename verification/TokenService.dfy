/** The store of refresh tokens, which other requests may change between any two
    commands of one request. */
module TokenService {
  import opened RefreshProtocol

  /** The keys of one user in one tenant. */
  predicate Owned(data: Store, tenant: string, user: string, key: string) {
    key in data && Prefix(tenant) <= key && data[key] == user
  }

  /** Other requests remove tokens, let them expire, and issue tokens under names that
      were never used before; they do not rewrite a token. */
  predicate OthersMay(before: Store, after: Store, used: set<string>) {
    forall k :: k in after ==> if k in before then after[k] == before[k] else k !in used
  }

  class TokenStore {
    var data: Store
    /** Every key that was ever stored. */
    var used: set<string>
    /** Keys that other requests removed, and keys they issued. */
    ghost var removedByOthers: set<string>
    ghost var addedByOthers: set<string>
    /** The store walks its keys bucket by bucket. */
    const buckets: nat
    const bucketOf: string -> nat

    ghost predicate Valid()
      reads this
    {
      data.Keys <= used && buckets > 0 && forall k :: bucketOf(k) < buckets
    }

    constructor (buckets: nat, bucketOf: string -> nat)
      requires buckets > 0 && forall k :: bucketOf(k) < buckets
      ensures Valid() && data == map[]
    {
      this.buckets, this.bucketOf, data, used := buckets, bucketOf, map[], {};
      removedByOthers, addedByOthers := {}, {};
    }

    /** Whatever others do between two commands of one request. They do not use the
        reserved names. */
    method Interleave(reserved: set<string>)
      requires Valid()
      modifies `data, `used, `removedByOthers, `addedByOthers
      ensures Valid() && used >= old(used) && OthersMay(old(data), data, old(used) + reserved)
      ensures reserved !! old(used) ==> reserved !! used
      ensures removedByOthers == old(removedByOthers) + (old(data).Keys - data.Keys)
      ensures addedByOthers == old(addedByOthers) + (data.Keys - old(data).Keys)
    {
      var after: Store := *;
      if OthersMay(data, after, used + reserved) {
        removedByOthers := removedByOthers + (data.Keys - after.Keys);
        addedByOthers := addedByOthers + (after.Keys - data.Keys);
        used := used + after.Keys;
        data := after;
      }
    }

    /** `SCAN`: the keys with the prefix in the next buckets, and where to go on; zero
        when the walk is complete. */
    method Scan(cursor: nat, prefix: string) returns (next: nat, keys: set<string>)
      requires Valid() && cursor < buckets
      ensures cursor < next < buckets || next == 0
      ensures forall k :: k in keys <==> k in data && prefix <= k && cursor <= bucketOf(k) && (next == 0 || bucketOf(k) < next)
    {
      var stop: nat := *;
      if stop <= cursor || stop > buckets { stop := buckets; }
      keys := set k | k in data && prefix <= k && cursor <= bucketOf(k) < stop;
      next := if stop == buckets then 0 else stop;
    }

    method Mget(keys: set<string>) returns (values: Store)
      ensures values == map k | k in data && k in keys :: data[k]
    {
      values := map k | k in data && k in keys :: data[k];
    }

    method Del(keys: set<string>)
      modifies `data
      ensures data == old(data) - keys
    {
      data := data - keys;
    }

    /** What one pass of the loop has achieved, against the store at the start: tokens
        of the user in visited buckets are gone for good, nothing else was removed. */
    ghost predicate Swept(start: Store, tenant: string, user: string, visited: nat)
      reads this
    {
      && (forall k :: k in start ==> k in used)
      && (forall k :: k in start && k in data ==> data[k] == start[k])
      && (forall k :: Owned(start, tenant, user, k) && bucketOf(k) < visited ==> k !in data)
      && (forall k :: k in start && k !in data && !Owned(start, tenant, user, k) ==> k in removedByOthers)
      && (forall k :: k in data && k !in start ==> k in addedByOthers)
    }

    /** After a password reset: every token the user had in the tenant is gone, however
        the walk is paged and whatever others do meanwhile, and no other token is gone
        unless someone else removed it. */
    method InvalidateAllRefreshTokensForUser(user: string, tenant: string)
      requires Valid()
      modifies `data, `used, `removedByOthers, `addedByOthers
      ensures Valid()
      ensures forall k :: Owned(old(data), tenant, user, k) ==> k !in data
      ensures forall k :: k in old(data) && !Owned(old(data), tenant, user, k) ==>
                k in removedByOthers || (k in data && data[k] == old(data)[k])
      ensures forall k :: k in data ==> k in old(data) || k in addedByOthers
    {
      ghost var start := data;
      var cursor, more, visited := 0, true, 0;
      while more
        invariant Valid() && (more ==> cursor == visited < buckets) && (!more ==> visited == buckets)
        invariant Swept(start, tenant, user, visited)
        decreases buckets - visited, more
      {
        var next := DeletePage(start, user, tenant, cursor);
        Interleave({});
        cursor, more := next, next != 0;
        visited := if next == 0 then buckets else next;
      }
    }

    /** Scans a page, reads its values and deletes the user's keys. */
    method DeletePage(ghost start: Store, user: string, tenant: string, cursor: nat) returns (next: nat)
      requires Valid() && cursor < buckets && Swept(start, tenant, user, cursor)
      modifies `data, `used, `removedByOthers, `addedByOthers
      ensures Valid() && (cursor < next < buckets || next == 0)
      ensures Swept(start, tenant, user, if next == 0 then buckets else next)
    {
      var keys: set<string>;
      next, keys := Scan(cursor, Prefix(tenant));
      Interleave({});
      var values := Mget(keys);
      Interleave({});
      var keysToDelete := set k | k in keys && k in values && values[k] == user;
      Del(keysToDelete);
    }

    /** `issueTokens`: the refresh token's name is a fresh identifier. */
    method IssueTokens(tenant: string, user: string, jti: string)
      requires Valid() && Key(tenant, jti) !in used
      modifies `data, `used
      ensures Valid() && used == old(used) + {Key(tenant, jti)}
      ensures data == old(data)[Key(tenant, jti) := user]
    {
      data := data[Key(tenant, jti) := user];
      used := used + {Key(tenant, jti)};
    }

    /** `refresh` with a token whose signature and type are good: read the key, remove
        it, look the user up, store a new token. `o` tells how the four statements
        end; between them others run. The request is served exactly when the key is
        there at the read and every statement works; from its removal on the key is
        gone for good; nothing else is touched. */
    method Refresh(t: Token, newJti: string, o: (Outcome, Outcome, Outcome, Outcome)) returns (ok: bool)
      requires Valid() && Key(t.tenant, newJti) !in used
      modifies `data, `used, `removedByOthers, `addedByOthers
      ensures Valid()
      ensures ok <==> Stored(old(data), t.tenant, t.jti) && o == (Works, Works, Works, Works)
      ensures Stored(old(data), t.tenant, t.jti) && o.0.Works? && !o.1.Breaks? ==> Key(t.tenant, t.jti) !in data
      ensures ok ==> Owned(data, t.tenant, t.user, Key(t.tenant, newJti))
      ensures forall k :: k in old(data) && k != Key(t.tenant, t.jti) ==>
                k in removedByOthers || (k in data && data[k] == old(data)[k])
      ensures forall k :: k in data ==> k in old(data) || k in addedByOthers || k == Key(t.tenant, newJti)
    {
      var key, newKey := Key(t.tenant, t.jti), Key(t.tenant, newJti);
      if !o.0.Works? || key !in data || data[key] == "" { return false; }
      Interleave({newKey});
      if !o.1.Breaks? { Del({key}); }
      if !o.1.Works? { return false; }
      Interleave({newKey});
      if !o.2.Works? { return false; }
      Interleave({newKey});
      if !o.3.Breaks? { IssueTokens(t.tenant, t.user, newJti); }
      return o.3.Works?;
    }
  }
}
