/** The generic confirmation store for batch plans: two passes over a map, in any order. */
module BatchStore {
  import opened Common
  import opened TokenTable

  const DEFAULT_LIFETIME := 300_000_000_000
  const DEFAULT_MAX_ENTRIES := 4096
  const DEFAULT_MAX_ENTRIES_PER_PRINCIPAL := 64

  /** The error of a plan without a digest, of a failing token generator, or of a full store. */
  datatype Issued = Granted(token: string) | NoDigest | NoToken | AtCapacity

  class Store<K(==)> {
    var entries: Table<K>
    const limits: Limits

    constructor (options: Limits)
      ensures entries == map[] && Positive(limits)
      ensures limits.lifetime == if options.lifetime > 0 then options.lifetime else 300_000_000_000
      ensures limits.maxEntries == if options.maxEntries > 0 then options.maxEntries else 4096
      ensures limits.maxPerPrincipal ==
              if options.maxPerPrincipal > 0 then options.maxPerPrincipal else 64
    {
      entries := map[];
      limits := Limits(
        if options.lifetime <= 0 then DEFAULT_LIFETIME else options.lifetime,
        if options.maxEntries <= 0 then DEFAULT_MAX_ENTRIES else options.maxEntries,
        if options.maxPerPrincipal <= 0 then DEFAULT_MAX_ENTRIES_PER_PRINCIPAL else options.maxPerPrincipal);
    }

    method DeleteExpired(now: Time)
      modifies this`entries
      ensures entries == LiveOnly(old(entries), now)
    {
      var todo := entries.Keys;
      while todo != {}
        invariant todo <= entries.Keys
        invariant entries == map t | t in old(entries) && (t in todo || Live(old(entries)[t], now)) :: old(entries)[t]
        decreases todo
      {
        var t :| t in todo;
        todo := todo - {t};
        if !Live(entries[t], now) {
          entries := entries - {t};
        }
      }
    }

    /** Drops what the principal holds for the key and counts what else the principal holds. */
    method Supersede(principal: string, key: K, ghost claim: Claim<K>) returns (principalEntries: nat)
      requires claim.principal == principal && claim.key == key
      modifies this`entries
      ensures entries == WithoutKey(old(entries), claim)
      ensures principalEntries == |HeldBy(entries, principal)|
    {
      ghost var kept := WithoutKey(entries, claim);
      principalEntries := 0;
      var todo := entries.Keys;
      ghost var counted: set<string> := {};
      while todo != {}
        invariant todo <= entries.Keys
        invariant entries == map t | t in old(entries) && (t in todo || t in kept) :: old(entries)[t]
        invariant counted == (set t | t in kept && t !in todo && kept[t].principal == principal)
        invariant principalEntries == |counted|
        decreases todo
      {
        var t :| t in todo;
        todo := todo - {t};
        if entries[t].principal != principal {
          continue;
        }
        if entries[t].key == key {
          entries := entries - {t};
          continue;
        }
        principalEntries := principalEntries + 1;
        counted := counted + {t};
      }
      assert entries == kept;
      assert counted == HeldBy(kept, principal);
    }

    /** Grants a token for a plan, replacing an earlier one for the same principal and key. */
    method Issue(digest: Option<string>, newToken: Option<string>, now: Time, principal: string, key: K) returns (r: Issued)
      modifies this`entries
      ensures digest.None? ==> r.NoDigest? && entries == old(entries)
      ensures digest.Some? && newToken.None? ==> r.NoToken? && entries == old(entries)
      ensures digest.Some? && newToken.Some? ==>
                var (after, granted) :=
                  TokenTable.Issue(old(entries), limits, now, Claim(digest.value, principal, key), newToken.value);
                entries == after && r == if granted then Granted(newToken.value) else AtCapacity
    {
      if digest.None? {
        return NoDigest;
      }
      if newToken.None? {
        return NoToken;
      }
      DeleteExpired(now);
      var principalEntries := Supersede(principal, key, Claim(digest.value, principal, key));
      if |entries| >= limits.maxEntries || principalEntries >= limits.maxPerPrincipal {
        return AtCapacity;
      }
      entries := entries[newToken.value := Entry(digest.value, principal, key, now + limits.lifetime)];
      return Granted(newToken.value);
    }

    /** Spends a token; any mismatch leaves every live entry as it was. */
    method Consume(token: string, digest: Option<string>, now: Time, principal: string, key: K) returns (valid: bool)
      modifies this`entries
      ensures digest.None? ==> !valid && entries == old(entries)
      ensures digest.Some? ==>
                (entries, valid) == TokenTable.Consume(old(entries), now, Claim(digest.value, principal, key), token)
      ensures !valid && digest.Some? ==> entries == LiveOnly(old(entries), now)
    {
      if digest.None? {
        return false;
      }
      DeleteExpired(now);
      if token !in entries {
        return false;
      }
      var e := entries[token];
      valid := e.digest == digest.value && e.principal == principal && e.key == key && now < e.expiresAt;
      if valid {
        entries := entries - {token};
      }
    }
  }
}

/** The same store written out by hand for purchase-order addresses: one pass drops what expired,
    drops what is superseded, and counts. */
module AddressPlanStore {
  import opened Common
  import opened TokenTable

  const ADDRESS_PLAN_LIFETIME := 300_000_000_000
  const ADDRESS_PLAN_MAX_ENTRIES := 4096
  const ADDRESS_PLAN_MAX_ENTRIES_PER_PRINCIPAL := 64

  datatype Issued = Granted(token: string) | NoDigest | NoToken | TooMany

  class Store {
    var entries: Table<int>
    const limits := Limits(ADDRESS_PLAN_LIFETIME, ADDRESS_PLAN_MAX_ENTRIES, ADDRESS_PLAN_MAX_ENTRIES_PER_PRINCIPAL)

    constructor ()
      ensures entries == map[] && limits == Limits(300_000_000_000, 4096, 64)
    {
      entries := map[];
    }

    /** The fused pass. */
    method Sweep(now: Time, principal: string, purchaseOrder: int, ghost claim: Claim<int>) returns (principalEntries: nat)
      requires claim.principal == principal && claim.key == purchaseOrder
      modifies this`entries
      ensures entries == WithoutKey(LiveOnly(old(entries), now), claim)
      ensures principalEntries == |HeldBy(entries, principal)|
    {
      ghost var kept := WithoutKey(LiveOnly(entries, now), claim);
      principalEntries := 0;
      var todo := entries.Keys;
      ghost var counted: set<string> := {};
      while todo != {}
        invariant todo <= entries.Keys
        invariant entries == map t | t in old(entries) && (t in todo || t in kept) :: old(entries)[t]
        invariant counted == (set t | t in kept && t !in todo && kept[t].principal == principal)
        invariant principalEntries == |counted|
        decreases todo
      {
        var t :| t in todo;
        todo := todo - {t};
        var e := entries[t];
        assert t in kept <==> Live(e, now) && !(e.principal == principal && e.key == purchaseOrder);
        if now >= e.expiresAt || (e.principal == principal && e.key == purchaseOrder) {
          entries := entries - {t};
          continue;
        }
        if e.principal == principal {
          principalEntries := principalEntries + 1;
          counted := counted + {t};
        }
      }
      assert entries == kept;
      assert counted == HeldBy(kept, principal);
    }

    /** One fused pass computes what the generic store computes in two. */
    method Issue(digest: Option<string>, newToken: Option<string>, now: Time, principal: string, purchaseOrder: int)
      returns (r: Issued)
      modifies this`entries
      ensures digest.None? ==> r.NoDigest? && entries == old(entries)
      ensures digest.Some? && newToken.None? ==> r.NoToken? && entries == old(entries)
      ensures digest.Some? && newToken.Some? ==>
                var (after, granted) :=
                  TokenTable.Issue(old(entries), limits, now, Claim(digest.value, principal, purchaseOrder), newToken.value);
                entries == after && r == if granted then Granted(newToken.value) else TooMany
    {
      if digest.None? {
        return NoDigest;
      }
      if newToken.None? {
        return NoToken;
      }
      var principalEntries := Sweep(now, principal, purchaseOrder, Claim(digest.value, principal, purchaseOrder));
      if |entries| >= limits.maxEntries || principalEntries >= limits.maxPerPrincipal {
        return TooMany;
      }
      entries := entries[newToken.value := Entry(digest.value, principal, purchaseOrder, now + ADDRESS_PLAN_LIFETIME)];
      return Granted(newToken.value);
    }

    method Consume(token: string, digest: Option<string>, now: Time, principal: string, purchaseOrder: int)
      returns (valid: bool)
      modifies this`entries
      ensures digest.None? ==> !valid && entries == old(entries)
      ensures digest.Some? ==>
                (entries, valid) == TokenTable.Consume(old(entries), now, Claim(digest.value, principal, purchaseOrder), token)
    {
      if digest.None? {
        return false;
      }
      var todo := entries.Keys;
      while todo != {}
        invariant todo <= entries.Keys
        invariant entries == map t | t in old(entries) && (t in todo || Live(old(entries)[t], now)) :: old(entries)[t]
        decreases todo
      {
        var t :| t in todo;
        todo := todo - {t};
        if now >= entries[t].expiresAt {
          entries := entries - {t};
        }
      }
      assert entries == LiveOnly(old(entries), now);
      if token !in entries {
        return false;
      }
      var e := entries[token];
      if e.digest != digest.value || e.principal != principal || e.key != purchaseOrder || now >= e.expiresAt {
        return false;
      }
      entries := entries - {token};
      return true;
    }
  }
}

/** The hand-written store against the generic one, side by side. */
module StoreRefinement {
  import opened Common
  import opened TokenTable
  import Generic = BatchStore
  import Fused = AddressPlanStore

  /** From equal tables and limits the two stores grant or refuse alike and stay equal, whatever
      order either of them walks its map in. */
  method IssueInLockstep(g: Generic.Store<int>, f: Fused.Store, digest: Option<string>, newToken: Option<string>,
                         now: Time, principal: string, purchaseOrder: int)
    returns (generic: Generic.Issued, fused: Fused.Issued)
    requires g.limits == f.limits && g.entries == f.entries
    modifies g, f
    ensures g.entries == f.entries
    ensures match fused
            case Granted(token) => generic == Generic.Granted(token)
            case NoDigest => generic == Generic.NoDigest
            case NoToken => generic == Generic.NoToken
            case TooMany => generic == Generic.AtCapacity
  {
    generic := g.Issue(digest, newToken, now, principal, purchaseOrder);
    fused := f.Issue(digest, newToken, now, principal, purchaseOrder);
  }

  method ConsumeInLockstep(g: Generic.Store<int>, f: Fused.Store, token: string, digest: Option<string>,
                           now: Time, principal: string, purchaseOrder: int)
    returns (generic: bool, fused: bool)
    requires g.entries == f.entries
    modifies g, f
    ensures g.entries == f.entries && generic == fused
  {
    generic := g.Consume(token, digest, now, principal, purchaseOrder);
    fused := f.Consume(token, digest, now, principal, purchaseOrder);
  }
}
