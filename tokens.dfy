/**
 * The in-memory cache of Azure DevOps session tokens
 * (MemoryVstsSessionTokenCache): a dictionary from a token hash to the
 * token, pruned of every token that expires within ten seconds.
 *
 * Times are DateTime tick counts (100 ns units); the current time is a
 * parameter of Prune instead of a read of the system clock.
 */
module SessionTokens {
  import opened Wrappers
  import Install

  /** VstsSessionToken: ValidTo is a nullable DateTime. */
  datatype SessionToken = SessionToken(
    displayName: string,
    scope: string,
    validTo: Option<int>,
    token: string)

  /** TimeSpan.FromSeconds(10) in ticks. */
  const PruneMargin: int := 100_000_000

  /**
   * The lifted comparison ValidTo < maxTime: a token without an expiry
   * compares false and so never expires.
   */
  predicate Expired(t: SessionToken, maxTime: int)
  {
    t.validTo.Some? && t.validTo.value < maxTime
  }

  /**
   * DateTime.UtcNow.Add(TimeSpan.FromSeconds(10)): the prune horizon, or
   * ArgumentOutOfRangeException when it passes DateTime.MaxValue.
   */
  function Horizon(now: int): (r: Outcome<int>)
    requires 0 <= now <= Install.MaxTicks
    ensures r.Ok? <==> now + PruneMargin <= Install.MaxTicks
    ensures r.Ok? ==> r.value - now == PruneMargin && r.value <= Install.MaxTicks
    ensures r.Fail? ==> r.error == ArgumentOutOfRangeException
  {
    if now + PruneMargin > Install.MaxTicks then Fail(ArgumentOutOfRangeException)
    else Ok(now + PruneMargin)
  }

  /** What is left of a cache once every token expired at maxTime is removed. */
  function Pruned(m: map<string, SessionToken>, maxTime: int): (r: map<string, SessionToken>)
    ensures forall h :: h in r <==> h in m && !Expired(m[h], maxTime)
    ensures forall h :: h in r ==> r[h] == m[h]
  {
    map h | h in m && !Expired(m[h], maxTime) :: m[h]
  }

  /** Pruning twice at the same horizon removes nothing more. */
  lemma PruneIdempotent(m: map<string, SessionToken>, maxTime: int)
    ensures Pruned(Pruned(m, maxTime), maxTime) == Pruned(m, maxTime)
  {
    var once := Pruned(m, maxTime);
    assert Pruned(once, maxTime).Keys == once.Keys;
  }

  /** An earlier prune is subsumed by a later one. */
  lemma PruneLater(m: map<string, SessionToken>, earlier: int, later: int)
    requires earlier <= later
    ensures Pruned(Pruned(m, earlier), later) == Pruned(m, later)
  {
    var first := Pruned(m, earlier);
    forall h | h in m && !Expired(m[h], later)
      ensures h in first
    {
      assert !Expired(m[h], earlier);
    }
    assert Pruned(first, later).Keys == Pruned(m, later).Keys;
  }

  /** A token that is still valid at the horizon survives its own prune and hides nothing else. */
  lemma AddThenPrune(m: map<string, SessionToken>, hash: string, t: SessionToken, maxTime: int)
    ensures Expired(t, maxTime) ==> Pruned(m[hash := t], maxTime) == Pruned(m, maxTime) - {hash}
    ensures !Expired(t, maxTime) ==> Pruned(m[hash := t], maxTime) == Pruned(m, maxTime)[hash := t]
  {
    var added := Pruned(m[hash := t], maxTime);
    if Expired(t, maxTime) {
      assert added.Keys == (Pruned(m, maxTime) - {hash}).Keys;
    } else {
      assert added.Keys == Pruned(m, maxTime)[hash := t].Keys;
    }
  }

  class TokenCache {
    var cache: map<string, SessionToken>

    constructor()
      ensures cache == map[]
    {
      cache := map[];
    }

    /** Get: the token stored under hash, or null when there is none. */
    function Get(hash: string): (r: Option<SessionToken>)
      reads this
      ensures r.Some? <==> hash in cache
      ensures r.Some? ==> r.value == cache[hash]
    {
      if hash in cache then Some(cache[hash]) else None
    }

    /** Add: the indexer set, which replaces any token stored under hash. */
    method Add(hash: string, token: SessionToken)
      modifies this
      ensures cache == old(cache)[hash := token]
      ensures Get(hash) == Some(token)
      ensures forall h :: h != hash ==> Get(h) == old(Get(h))
    {
      cache := cache[hash := token];
    }

    /**
     * Prune: collects the hashes of the tokens expired ten seconds from
     * now, then removes them one by one. The horizon overflowing
     * DateTime.MaxValue raises before anything is removed.
     */
    method Prune(now: int) returns (err: Option<Exception>)
      requires 0 <= now <= Install.MaxTicks
      modifies this
      ensures err.Some? <==> Horizon(now).Fail?
      ensures err.Some? ==> err == Some(ArgumentOutOfRangeException) && cache == old(cache)
      ensures err.None? ==> cache == Pruned(old(cache), now + PruneMargin)
    {
      var horizon := Horizon(now);
      if horizon.Fail? {
        return Some(horizon.error);
      }
      var maxTime := horizon.value;
      var expired := set h | h in cache && Expired(cache[h], maxTime);
      ghost var all := expired;
      while expired != {}
        invariant expired <= all
        invariant cache.Keys == old(cache).Keys - (all - expired)
        invariant forall h :: h in cache ==> cache[h] == old(cache)[h]
        invariant forall h :: h in all <==> h in old(cache) && Expired(old(cache)[h], maxTime)
        decreases expired
      {
        var h :| h in expired;
        cache := cache - {h};
        expired := expired - {h};
      }
      assert cache.Keys == Pruned(old(cache), maxTime).Keys;
      return None;
    }
  }
}
