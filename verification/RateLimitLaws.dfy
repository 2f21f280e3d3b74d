/** When the limiter cleans up, and what a clean-up leaves, said of times and keys alone. */
module RateLimitLaws {
  import opened RateLimitModel
  import opened RateLimitProofs

  /** A request finds the table cleaned up when the interval has passed since the last time, and else untouched. */
  lemma CleansWhenDue(cfg: Config, s: State, q: Request, kept: map<string, Entry>, t: State, allowed: bool)
    requires HandlesWith(cfg, s, q, kept, t, allowed)
    ensures if cfg.cleanupIntervalMs > 0 && q.now - s.lastCleanupAt >= cfg.cleanupIntervalMs then
              CleanedUp(cfg, s.hits, q.now, kept) && t.lastCleanupAt == q.now
            else kept == s.hits && t.lastCleanupAt == s.lastCleanupAt
    ensures q.key in t.hits && forall k :: k != q.key ==>
              (k in t.hits <==> k in kept) && (k in kept ==> t.hits[k] == kept[k])
  {
  }

  /**
   * The keys seen within staleAfterMs stay, all of them unless maxKeys is positive and they are more; then exactly
   * maxKeys of them stay, none last seen before one that goes.
   */
  lemma CleanupKeeps(cfg: Config, hits: map<string, Entry>, now: int, kept: map<string, Entry>)
    requires CleanedUp(cfg, hits, now, kept)
    ensures var live := set k | k in hits && now - hits[k].lastSeenAt <= cfg.staleAfterMs;
            && (forall k :: k in kept ==> k in live && kept[k] == hits[k])
            && if cfg.maxKeys <= 0 || |live| <= cfg.maxKeys then kept.Keys == live
               else |kept| == cfg.maxKeys &&
                    forall d, k :: d in live && d !in kept && k in kept ==> hits[d].lastSeenAt <= hits[k].lastSeenAt
  {
    var live := set k | k in hits && now - hits[k].lastSeenAt <= cfg.staleAfterMs;
    assert FreshPart(cfg, hits, now).Keys == live;
  }
}
