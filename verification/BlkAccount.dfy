/** The conversion handler as it runs for one player. */
module BlkAccount {
  import opened BlkModel
  import opened Tables

  class Account {
    const cfg: Config
    var pol: int
    var blk: int
    var history: seq<Conversion>

    constructor (cfg: Config, pol: nat, blk: nat)
      ensures this.cfg == cfg && Snapshot() == State(pol, blk, [])
    {
      this.cfg, this.pol, this.blk, history := cfg, pol, blk, [];
    }

    function Snapshot(): State
      reads this
    {
      State(pol, blk, history)
    }

    /** blkWalletModel.assertConvertRules */
    method AssertConvertRules(e: Estimate, now: int) returns (broken: Option<Reply>)
      ensures broken == RuleBroken(cfg, Snapshot(), e, now)
    {
      if e.gross < cfg.minConvertPol { return Some(BelowMinimum); }
      if e.out <= 0 { return Some(RoundsToZero); }
      var last := LastAt(history);
      if last.Some? && cfg.cooldownSec > 0 {
        var elapsedMs := now - last.value;
        if elapsedMs < 1000 * cfg.cooldownSec { return Some(CoolingDown); }
      }
      if cfg.dailyLimit.Some? {
        var used := OutSince(history, now - now % DAY_MS);
        if used + e.out > cfg.dailyLimit.value { return Some(CapReached); }
      }
      return None;
    }

    /** blkWalletModel.convertPolToBlk */
    method ConvertPolToBlk(gross: int, banned: bool, now: int) returns (reply: Reply)
      requires Admissible(cfg)
      modifies `pol, `blk, `history
      ensures (Snapshot(), reply) == Apply(cfg, old(Snapshot()), Request(gross, banned, now))
    {
      var est := EstimateFor(cfg, gross);
      if est.None? { return InvalidAmount; }
      var e := est.value;
      if banned { return Restricted; }
      var broken := AssertConvertRules(e, now);
      if broken.Some? { return broken.value; }
      if pol < e.gross { return InsufficientBalance; }
      pol := pol - e.gross;
      blk := blk + e.out;
      history := history + [Conversion(now, e.gross, e.fee, e.out)];
      return Converted(e);
    }
  }
}
