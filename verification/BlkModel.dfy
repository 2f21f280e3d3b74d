/**
 * Converting POL to BLK: rounding to eight decimals, the fee, the cool-down and the daily cap.
 *
 * Amounts are whole numbers of 1e-8; times are milliseconds.
 */
module BlkModel {
  import opened Tables

  const UNIT := 100_000_000
  const DAY_MS := 86_400_000

  datatype Config = Config(
    convertFeeBps: int, polPerBlk: int, minConvertPol: int, dailyLimit: Option<int>, cooldownSec: int)

  /** What updateBlkEconomyConfig admits. */
  predicate Admissible(cfg: Config) {
    && 0 <= cfg.convertFeeBps <= 10000 && cfg.polPerBlk > 0 && cfg.minConvertPol > 0 && cfg.cooldownSec >= 0
    && (cfg.dailyLimit.Some? ==> cfg.dailyLimit.value > 0)
  }

  // ---------------------------------------------------------------- arithmetic

  /** round8 on the fraction n / d of a unit: to the nearest whole unit, halves up. */
  function RoundDiv(n: nat, d: int): nat
    requires d > 0
  {
    (2 * n + d) / (2 * d)
  }

  datatype Estimate = Estimate(gross: int, fee: int, net: int, out: int)

  /** estimatePolToBlk */
  function EstimateFor(cfg: Config, gross: int): Option<Estimate>
    requires Admissible(cfg)
  {
    if gross <= 0 then None
    else
      NonNegative(gross, cfg.convertFeeBps);
      var fee := RoundDiv(gross * cfg.convertFeeBps, 10000);
      FeeBounded(cfg, gross);
      var net := gross - fee;
      Some(Estimate(gross, fee, net, RoundDiv(net * UNIT, cfg.polPerBlk)))
  }

  lemma NonNegative(a: int, b: int)
    requires a >= 0 && b >= 0
    ensures a * b >= 0
  {
  }

  lemma ScaleUp(a: int, b: int, c: int)
    requires a <= b && c >= 0
    ensures a * c <= b * c
  {
    NonNegative(b - a, c);
  }

  lemma DivBound(n: int, d: int, r: int)
    requires d > 0 && r == n / d
    ensures r * d <= n < r * d + d
  {
  }

  lemma DivFrom(n: int, d: int, r: int)
    requires d > 0 && r * d <= n < r * d + d
    ensures n / d == r
  {
    DivBound(n, d, n / d);
    var q := n / d;
    if q < r {
      ScaleUp(q + 1, r, d);
    } else if q > r {
      ScaleUp(r + 1, q, d);
    }
  }

  /** The rounded quotient is off by at most half a unit. */
  lemma RoundingError(n: nat, d: int)
    requires d > 0
    ensures -d < 2 * (RoundDiv(n, d) * d - n) <= d
  {
    DivBound(2 * n + d, 2 * d, RoundDiv(n, d));
    assert RoundDiv(n, d) * (2 * d) == 2 * (RoundDiv(n, d) * d);
  }

  lemma RoundMonotone(n: nat, m: nat, d: int)
    requires d > 0 && n <= m
    ensures RoundDiv(n, d) <= RoundDiv(m, d)
  {
    var a, b := RoundDiv(n, d), RoundDiv(m, d);
    DivBound(2 * n + d, 2 * d, a);
    DivBound(2 * m + d, 2 * d, b);
    assert (b + 1) * (2 * d) == b * (2 * d) + 2 * d;
    if b < a {
      ScaleUp(b + 1, a, 2 * d);
    }
  }

  lemma RoundShift(n: nat, d: int, k: nat)
    requires d > 0
    ensures n + k * d >= 0 && RoundDiv(n + k * d, d) == RoundDiv(n, d) + k
  {
    NonNegative(k, d);
    var a := RoundDiv(n, d);
    DivBound(2 * n + d, 2 * d, a);
    assert (a + k) * (2 * d) == a * (2 * d) + 2 * (k * d);
    assert 2 * (n + k * d) + d == 2 * n + d + 2 * (k * d);
    DivFrom(2 * (n + k * d) + d, 2 * d, a + k);
  }

  lemma FeeBounded(cfg: Config, gross: int)
    requires Admissible(cfg) && gross >= 0
    ensures gross * cfg.convertFeeBps >= 0
    ensures RoundDiv(gross * cfg.convertFeeBps, 10000) <= gross
  {
    NonNegative(gross, cfg.convertFeeBps);
    ScaleUp(cfg.convertFeeBps, 10000, gross);
    RoundMonotone(gross * cfg.convertFeeBps, gross * 10000, 10000);
    RoundShift(0, 10000, gross);
  }

  /** Fee and net make up the gross, each between nothing and all of it, and both roundings are within half a unit. */
  lemma EstimateSplits(cfg: Config, gross: int)
    requires Admissible(cfg)
    ensures EstimateFor(cfg, gross).Some? <==> gross > 0
    ensures gross > 0 ==>
              var e := EstimateFor(cfg, gross).value;
              && e.gross == gross && e.fee + e.net == gross && 0 <= e.fee <= gross && e.out >= 0
              && -10000 < 2 * (e.fee * 10000 - gross * cfg.convertFeeBps) <= 10000
              && -cfg.polPerBlk < 2 * (e.out * cfg.polPerBlk - e.net * UNIT) <= cfg.polPerBlk
  {
    if gross > 0 {
      FeeBounded(cfg, gross);
      RoundingError(gross * cfg.convertFeeBps, 10000);
      var e := EstimateFor(cfg, gross).value;
      RoundingError(e.net * UNIT, cfg.polPerBlk);
    }
  }

  lemma FeeGrowsSlower(less: nat, extra: nat, bps: nat)
    requires bps <= 10000
    ensures less * bps >= 0 && (less + extra) * bps >= 0
    ensures RoundDiv((less + extra) * bps, 10000) <= RoundDiv(less * bps, 10000) + extra
  {
    NonNegative(less, bps);
    NonNegative(less + extra, bps);
    ScaleUp(bps, 10000, extra);
    assert (less + extra) * bps == less * bps + extra * bps;
    RoundShift(less * bps, 10000, extra);
    RoundMonotone((less + extra) * bps, less * bps + extra * 10000, 10000);
  }

  /** Converting more POL never yields less, net or out. */
  lemma EstimateMonotone(cfg: Config, less: int, more: int)
    requires Admissible(cfg) && 0 < less <= more
    ensures EstimateFor(cfg, less).value.net <= EstimateFor(cfg, more).value.net
    ensures EstimateFor(cfg, less).value.out <= EstimateFor(cfg, more).value.out
  {
    assert EstimateFor(cfg, less).value.net <= EstimateFor(cfg, more).value.net by {
      FeeGrowsSlower(less, more - less, cfg.convertFeeBps);
    }
    FeeBounded(cfg, less);
    FeeBounded(cfg, more);
    RoundMonotone(EstimateFor(cfg, less).value.net * UNIT, EstimateFor(cfg, more).value.net * UNIT, cfg.polPerBlk);
  }

  // ---------------------------------------------------------------- conversions

  datatype Conversion = Conversion(at: int, gross: int, fee: int, out: int)

  datatype State = State(pol: int, blk: int, history: seq<Conversion>)

  datatype Request = Request(gross: int, banned: bool, now: int)

  datatype Reply =
    | Converted(e: Estimate) | InvalidAmount | Restricted | BelowMinimum | RoundsToZero | CoolingDown | CapReached
    | InsufficientBalance

  /** When the newest conversion was made. */
  function LastAt(history: seq<Conversion>): Option<int> {
    if history == [] then None
    else
      var before, last := LastAt(history[..|history| - 1]), history[|history| - 1].at;
      if before.Some? && before.value > last then before else Some(last)
  }

  function StartOfDay(now: int): int { now - now % DAY_MS }

  /** BLK paid out since a time. */
  function OutSince(history: seq<Conversion>, start: int): int {
    if history == [] then 0
    else OutSince(history[..|history| - 1], start)
         + if history[|history| - 1].at >= start then history[|history| - 1].out else 0
  }

  /** assertConvertRules */
  function RuleBroken(cfg: Config, s: State, e: Estimate, now: int): Option<Reply> {
    if e.gross < cfg.minConvertPol then Some(BelowMinimum)
    else if e.out <= 0 then Some(RoundsToZero)
    else if LastAt(s.history).Some? && cfg.cooldownSec > 0 && now - LastAt(s.history).value < 1000 * cfg.cooldownSec
    then Some(CoolingDown)
    else if cfg.dailyLimit.Some? && OutSince(s.history, StartOfDay(now)) + e.out > cfg.dailyLimit.value
    then Some(CapReached)
    else None
  }

  /** convertPolToBlk */
  function Apply(cfg: Config, s: State, q: Request): (State, Reply)
    requires Admissible(cfg)
  {
    var est := EstimateFor(cfg, q.gross);
    if est.None? then (s, InvalidAmount)
    else
      var e := est.value;
      if q.banned then (s, Restricted)
      else if RuleBroken(cfg, s, e, q.now).Some? then (s, RuleBroken(cfg, s, e, q.now).value)
      else if s.pol < e.gross then (s, InsufficientBalance)
      else
        (State(s.pol - e.gross, s.blk + e.out, s.history + [Conversion(q.now, e.gross, e.fee, e.out)]), Converted(e))
  }

  // ---------------------------------------------------------------- runs

  ghost predicate IsRun(cfg: Config, states: seq<State>, qs: seq<Request>)
    requires Admissible(cfg)
  {
    && |states| == |qs| + 1
    && (forall i :: 0 <= i < |qs| ==> states[i + 1] == Apply(cfg, states[i], qs[i]).0)
    && (forall i, j :: 0 <= i < j < |qs| ==> qs[i].now <= qs[j].now)
  }

  function Day(at: int): int { at / DAY_MS }

  function OutOnDay(history: seq<Conversion>, day: int): int {
    if history == [] then 0
    else OutOnDay(history[..|history| - 1], day)
         + if Day(history[|history| - 1].at) == day then history[|history| - 1].out else 0
  }

  function GrossTotal(history: seq<Conversion>): int {
    if history == [] then 0 else GrossTotal(history[..|history| - 1]) + history[|history| - 1].gross
  }

  function OutTotal(history: seq<Conversion>): int {
    if history == [] then 0 else OutTotal(history[..|history| - 1]) + history[|history| - 1].out
  }

  ghost predicate Ordered(history: seq<Conversion>) {
    forall i, j :: 0 <= i < j < |history| ==> history[i].at <= history[j].at
  }

  lemma {:induction false} LastOfOrdered(history: seq<Conversion>)
    requires Ordered(history) && history != []
    ensures LastAt(history) == Some(history[|history| - 1].at)
  {
    if |history| == 1 {
    } else {
      LastOfOrdered(history[..|history| - 1]);
    }
  }

  lemma SameDay(at: int, now: int)
    requires at <= now
    ensures at >= StartOfDay(now) <==> Day(at) == Day(now)
  {
  }

  lemma {:induction false} SinceStartIsDay(history: seq<Conversion>, now: int)
    requires forall i :: 0 <= i < |history| ==> history[i].at <= now
    ensures OutSince(history, StartOfDay(now)) == OutOnDay(history, Day(now))
  {
    if history == [] {
    } else {
      SinceStartIsDay(history[..|history| - 1], now);
      SameDay(history[|history| - 1].at, now);
    }
  }

  /** Every day is within the cap, and conversions keep the cool-down. */
  ghost predicate WithinRules(cfg: Config, s: State) {
    && Ordered(s.history)
    && (cfg.dailyLimit.Some? ==> forall day :: OutOnDay(s.history, day) <= cfg.dailyLimit.value)
    && (forall i, j :: 0 <= i < j < |s.history| ==> s.history[j].at - s.history[i].at >= 1000 * cfg.cooldownSec)
  }

  /** What a granted conversion did to the state. */
  ghost predicate Appends(cfg: Config, s: State, q: Request, e: Estimate, t: State) {
    && RuleBroken(cfg, s, e, q.now) == None && e.gross <= s.pol
    && t == State(s.pol - e.gross, s.blk + e.out, s.history + [Conversion(q.now, e.gross, e.fee, e.out)])
  }

  lemma GrantedAppends(cfg: Config, s: State, q: Request) returns (e: Estimate)
    requires Admissible(cfg) && Apply(cfg, s, q).1.Converted?
    ensures Appends(cfg, s, q, e, Apply(cfg, s, q).0)
  {
    e := EstimateFor(cfg, q.gross).value;
  }

  lemma RefusedKeeps(cfg: Config, s: State, q: Request)
    requires Admissible(cfg) && !Apply(cfg, s, q).1.Converted?
    ensures Apply(cfg, s, q).0 == s
  {
  }

  lemma AppendKeepsCap(cfg: Config, s: State, q: Request, e: Estimate, t: State)
    requires WithinRules(cfg, s) && Appends(cfg, s, q, e, t) && cfg.dailyLimit.Some?
    requires forall i :: 0 <= i < |s.history| ==> s.history[i].at <= q.now
    ensures forall day :: OutOnDay(t.history, day) <= cfg.dailyLimit.value
  {
    SinceStartIsDay(s.history, q.now);
    forall day
      ensures OutOnDay(t.history, day) <= cfg.dailyLimit.value
    {
      assert t.history[..|t.history| - 1] == s.history;
      assert OutOnDay(s.history, day) <= cfg.dailyLimit.value;
    }
  }

  lemma AppendKeepsRules(cfg: Config, s: State, q: Request, e: Estimate, t: State)
    requires cfg.cooldownSec >= 0 && WithinRules(cfg, s) && Appends(cfg, s, q, e, t)
    requires forall i :: 0 <= i < |s.history| ==> s.history[i].at <= q.now
    ensures WithinRules(cfg, t)
  {
    if cfg.dailyLimit.Some? {
      AppendKeepsCap(cfg, s, q, e, t);
    }
    if s.history != [] {
      LastOfOrdered(s.history);
      forall i | 0 <= i < |s.history|
        ensures q.now - s.history[i].at >= 1000 * cfg.cooldownSec
      {
        assert s.history[i].at <= s.history[|s.history| - 1].at;
      }
    }
  }

  /**
   * Over every run under one configuration each UTC day's conversions stay within the cap, conversions are at least
   * the cool-down apart, and POL and BLK move by exactly what the history says.
   */
  lemma {:induction false} RunKeepsRules(cfg: Config, states: seq<State>, qs: seq<Request>, n: nat)
    requires Admissible(cfg) && IsRun(cfg, states, qs) && states[0].history == [] && states[0].pol >= 0 && n <= |qs|
    ensures WithinRules(cfg, states[n])
    ensures n < |qs| ==> forall i :: 0 <= i < |states[n].history| ==> states[n].history[i].at <= qs[n].now
    ensures states[n].pol >= 0 && states[n].pol == states[0].pol - GrossTotal(states[n].history)
    ensures states[n].blk == states[0].blk + OutTotal(states[n].history)
  {
    if n == 0 {
    } else {
      RunKeepsRules(cfg, states, qs, n - 1);
      var s, q, t := states[n - 1], qs[n - 1], states[n];
      assert t == Apply(cfg, states[n - 1], qs[n - 1]).0;
      if Apply(cfg, s, q).1.Converted? {
        var e := GrantedAppends(cfg, s, q);
        AppendKeepsRules(cfg, s, q, e, t);
        assert t.history[..|t.history| - 1] == s.history;
      } else {
        RefusedKeeps(cfg, s, q);
      }
    }
  }
}
