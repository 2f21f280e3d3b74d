/** The rate-limiting middleware as it runs: a map of hits, swept now and then. */
module RateLimiter {
  import opened RateLimitModel

  class Limiter {
    const cfg: Config
    var hits: map<string, Entry>
    var lastCleanupAt: int

    constructor (cfg: Config, now: int)
      ensures this.cfg == cfg && Snapshot() == State(map[], now)
    {
      this.cfg := cfg;
      hits := map[];
      lastCleanupAt := now;
    }

    function Snapshot(): State
      reads this
    {
      State(hits, lastCleanupAt)
    }

    /** The first loop of cleanup: delete the stale entries one by one. */
    method DropStale(now: int)
      modifies `hits
      ensures hits == FreshPart(cfg, old(hits), now)
    {
      ghost var all := hits;
      var todo := hits.Keys;
      while todo != {}
        invariant todo <= all.Keys
        invariant hits == map k | k in all && (k in todo || !Stale(cfg, all[k], now)) :: all[k]
        decreases todo
      {
        var key :| key in todo;
        if now - hits[key].lastSeenAt > cfg.staleAfterMs {
          hits := hits - {key};
        }
        todo := todo - {key};
      }
    }

    predicate LastSeenOrder(keys: seq<string>)
      requires forall k :: k in keys ==> k in hits
      reads this
    {
      forall i, j :: 0 <= i < j < |keys| ==> hits[keys[i]].lastSeenAt <= hits[keys[j]].lastSeenAt
    }

    /** The keys sorted by the time they were last seen. */
    method KeysByLastSeen() returns (keys: seq<string>)
      ensures |keys| == |hits| && forall k :: k in keys <==> k in hits
      ensures forall i, j :: 0 <= i < j < |keys| ==> keys[i] != keys[j]
      ensures LastSeenOrder(keys)
    {
      keys := [];
      var todo := hits.Keys;
      while todo != {}
        invariant todo <= hits.Keys && |keys| + |todo| == |hits|
        invariant forall k :: k in keys <==> k in hits && k !in todo
        invariant forall i, j :: 0 <= i < j < |keys| ==> keys[i] != keys[j]
        invariant LastSeenOrder(keys)
        invariant forall k, t :: k in keys && t in todo ==> hits[k].lastSeenAt <= hits[t].lastSeenAt
        decreases todo
      {
        var next := Oldest(todo);
        keys := keys + [next];
        todo := todo - {next};
      }
    }

    method Oldest(keys: set<string>) returns (oldest: string)
      requires keys != {} && keys <= hits.Keys
      ensures oldest in keys && forall k :: k in keys ==> hits[oldest].lastSeenAt <= hits[k].lastSeenAt
    {
      oldest :| oldest in keys;
      var todo := keys - {oldest};
      while todo != {}
        invariant todo <= keys && oldest in keys
        invariant forall k :: k in keys && k !in todo ==> hits[oldest].lastSeenAt <= hits[k].lastSeenAt
        decreases todo
      {
        var k :| k in todo;
        if hits[k].lastSeenAt < hits[oldest].lastSeenAt { oldest := k; }
        todo := todo - {k};
      }
    }

    /** The second loop of cleanup: delete the listed keys. */
    method DeleteKeys(keys: seq<string>)
      requires forall i :: 0 <= i < |keys| ==> keys[i] in hits
      requires forall i, j :: 0 <= i < j < |keys| ==> keys[i] != keys[j]
      modifies `hits
      ensures |hits| == |old(hits)| - |keys|
      ensures hits == map k | k in old(hits) && k !in keys :: old(hits)[k]
    {
      ghost var all := hits;
      for i := 0 to |keys|
        invariant |hits| == |all| - i
        invariant hits == map k | k in all && k !in keys[..i] :: all[k]
      {
        hits := hits - {keys[i]};
      }
      assert keys[..|keys|] == keys;
    }

    lemma PrefixIsOldest(keys: seq<string>, n: nat, d: string, k: string)
      requires forall x :: x in keys ==> x in hits
      requires LastSeenOrder(keys) && n <= |keys|
      requires d in keys[..n] && k in keys && k !in keys[..n]
      ensures hits[d].lastSeenAt <= hits[k].lastSeenAt
    {
      var i :| 0 <= i < n && keys[..n][i] == d;
      var j :| 0 <= j < |keys| && keys[j] == k;
      assert keys[i] == d;
    }

    /** The surplus keys, those seen longest ago, go. */
    method DropOldest(toRemove: nat)
      requires toRemove <= |hits|
      modifies `hits
      ensures SubTable(hits, old(hits)) && |hits| == |old(hits)| - toRemove
      ensures forall d, k :: d in old(hits) && d !in hits && k in hits ==>
                old(hits)[d].lastSeenAt <= old(hits)[k].lastSeenAt
    {
      var entries := KeysByLastSeen();
      forall d, k | d in entries[..toRemove] && k in entries && k !in entries[..toRemove]
        ensures hits[d].lastSeenAt <= hits[k].lastSeenAt
      {
        PrefixIsOldest(entries, toRemove, d, k);
      }
      DeleteKeys(entries[..toRemove]);
    }

    /** rateLimit.cleanup */
    method Cleanup(now: int)
      modifies `hits
      ensures CleanedUp(cfg, old(hits), now, hits)
      ensures cfg.maxKeys > 0 ==> |hits| <= cfg.maxKeys
    {
      DropStale(now);
      if cfg.maxKeys > 0 && |hits| > cfg.maxKeys {
        DropOldest(|hits| - cfg.maxKeys);
      }
    }

    /** The middleware: false means the request is answered with the limit error. */
    method Handle(key: string, now: int, skip: bool) returns (allowed: bool)
      modifies this
      ensures skip ==> allowed && Snapshot() == old(Snapshot())
      ensures !skip ==> Handles(cfg, old(Snapshot()), Request(key, now), Snapshot(), allowed)
    {
      if skip { return true; }
      if cfg.cleanupIntervalMs > 0 && now - lastCleanupAt >= cfg.cleanupIntervalMs {
        Cleanup(now);
        lastCleanupAt := now;
      }
      ghost var kept := hits;
      var entry := if key in hits then hits[key] else Entry(0, now + cfg.windowMs, now);
      if now > entry.resetAt {
        entry := entry.(count := 0, resetAt := now + cfg.windowMs);
      }
      entry := entry.(lastSeenAt := now);
      entry := entry.(count := entry.count + 1);
      hits := hits[key := entry];
      allowed := !(entry.count > cfg.max);
      assert HandlesWith(cfg, old(Snapshot()), Request(key, now), kept, Snapshot(), allowed);
    }
  }
}
