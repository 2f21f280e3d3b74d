/** When a conversion is made, and what it then does, said of the history and the configuration alone. */
module BlkLaws {
  import opened BlkModel
  import opened Tables

  /** Conversions lie before `now`, each at least the cool-down back, unless there is none. */
  ghost predicate CooledDown(cfg: Config, history: seq<Conversion>, now: int) {
    cfg.cooldownSec > 0 ==> forall i :: 0 <= i < |history| ==> now - history[i].at >= 1000 * cfg.cooldownSec
  }

  lemma {:induction false} LastIsLatest(history: seq<Conversion>)
    ensures history == [] <==> LastAt(history).None?
    ensures history != [] ==> exists i :: 0 <= i < |history| && history[i].at == LastAt(history).value
    ensures forall i :: 0 <= i < |history| ==> history[i].at <= LastAt(history).value
  {
    if history == [] {
    } else {
      var n := |history| - 1;
      LastIsLatest(history[..n]);
      assert forall i :: 0 <= i < n ==> history[..n][i] == history[i];
      assert history[n].at <= LastAt(history).value;
      if n > 0 && LastAt(history[..n]).value > history[n].at {
        var i :| 0 <= i < n && history[..n][i].at == LastAt(history[..n]).value;
        assert history[i].at == LastAt(history).value;
      }
    }
  }

  lemma CooledDownIff(cfg: Config, history: seq<Conversion>, now: int)
    ensures CooledDown(cfg, history, now) <==>
            !(LastAt(history).Some? && cfg.cooldownSec > 0 && now - LastAt(history).value < 1000 * cfg.cooldownSec)
  {
    LastIsLatest(history);
  }

  /**
   * A conversion is made exactly when the amount is positive and at least the minimum, the player is not banned, the
   * BLK do not round to zero, every earlier conversion is the cool-down back, the BLK of the UTC day stay within the
   * cap, and the balance covers the gross. It takes the gross, pays the BLK, and is recorded; else nothing happens.
   */
  lemma ConvertedIff(cfg: Config, s: State, q: Request)
    requires Admissible(cfg) && forall i :: 0 <= i < |s.history| ==> s.history[i].at <= q.now
    ensures var (t, reply) := Apply(cfg, s, q);
            var est := EstimateFor(cfg, q.gross);
            if q.gross > 0 && !q.banned && q.gross >= cfg.minConvertPol && est.Some? && est.value.out > 0
               && CooledDown(cfg, s.history, q.now) && s.pol >= q.gross
               && (cfg.dailyLimit.Some? ==>
                     OutOnDay(s.history, q.now / 86_400_000) + est.value.out <= cfg.dailyLimit.value)
            then
              && reply == Converted(est.value)
              && t == State(s.pol - q.gross, s.blk + est.value.out,
                            s.history + [Conversion(q.now, q.gross, est.value.fee, est.value.out)])
            else !reply.Converted? && t == s
  {
    CooledDownIff(cfg, s.history, q.now);
    SinceStartIsDay(s.history, q.now);
  }
}
