/** The limiter as a cache of the limiter that never forgets, and how many requests a window lets through. */
module RateLimitProofs {
  import opened RateLimitModel

  // ---------------------------------------------------------------- the cache agrees

  /** A table as requests up to `now` leave it. */
  ghost predicate WellFormed(cfg: Config, hits: map<string, Entry>, now: int) {
    forall k :: k in hits ==>
      hits[k].count >= 1 && hits[k].resetAt <= hits[k].lastSeenAt + cfg.windowMs && hits[k].lastSeenAt <= now
  }

  function LastTime(qs: seq<Request>, from: int): int { if qs == [] then from else qs[|qs| - 1].now }

  /** The cache has the entries of the full table but for some whose window has closed before `now`. */
  ghost predicate Agree(cached: map<string, Entry>, full: map<string, Entry>, now: int) {
    && SubTable(cached, full)
    && forall k :: k in full && k !in cached ==> full[k].resetAt < now
  }

  lemma RecordAgrees(cfg: Config, cached: map<string, Entry>, full: map<string, Entry>, from: int, q: Request)
    requires Agree(cached, full, from) && from <= q.now && WellFormed(cfg, full, from)
    ensures Allows(cfg, cached, q) == Allows(cfg, full, q)
    ensures Agree(Record(cfg, cached, q), Record(cfg, full, q), q.now)
    ensures WellFormed(cfg, Record(cfg, full, q), q.now)
  {
  }

  lemma ForgettingAgrees(
    cached: map<string, Entry>, full: map<string, Entry>, kept: map<string, Entry>, from: int, now: int)
    requires Agree(cached, full, from) && from <= now && SubTable(kept, cached) && ForgetsClosed(cached, kept, now)
    ensures Agree(kept, full, now)
  {
    forall k | k in full && k !in kept
      ensures full[k].resetAt < now
    {
    }
  }

  lemma HandlingAgrees(
    cfg: Config, s: State, full: map<string, Entry>, from: int, q: Request, kept: map<string, Entry>, t: State,
    allowed: bool)
    requires Agree(s.hits, full, from) && WellFormed(cfg, full, from) && from <= q.now
    requires HandlesWith(cfg, s, q, kept, t, allowed) && ForgetsClosed(s.hits, kept, q.now)
    ensures allowed == Allows(cfg, full, q)
    ensures Agree(t.hits, Record(cfg, full, q), q.now) && WellFormed(cfg, Record(cfg, full, q), q.now)
  {
    ForgettingAgrees(s.hits, full, kept, from, q.now);
    RecordAgrees(cfg, kept, full, q.now, q);
  }

  /**
   * While clean-ups forget only closed windows, overflowing or not, the cache gives every answer of the limiter that
   * never deletes an entry, and differs from its table by closed windows only.
   */
  lemma {:induction false} CacheAgrees(
    cfg: Config, states: seq<State>, qs: seq<Request>, kepts: seq<map<string, Entry>>, answers: seq<bool>, from: int)
    requires IsRunWith(cfg, states, qs, kepts, answers) && Monotone(qs, from) && WellFormed(cfg, states[0].hits, from)
    requires forall i :: 0 <= i < |qs| ==> ForgetsClosed(states[i].hits, kepts[i], qs[i].now)
    ensures answers == Answers(cfg, states[0].hits, qs)
    ensures WellFormed(cfg, After(cfg, states[0].hits, qs), LastTime(qs, from))
    ensures Agree(states[|qs|].hits, After(cfg, states[0].hits, qs), LastTime(qs, from))
    decreases |qs|
  {
    if qs == [] {
    } else {
      var n := |qs| - 1;
      var front := qs[..n];
      CacheAgrees(cfg, states[..n + 1], front, kepts[..n], answers[..n], from);
      var full := After(cfg, states[0].hits, front);
      assert HandlesWith(cfg, states[n], qs[n], kepts[n], states[n + 1], answers[n]);
      HandlingAgrees(cfg, states[n], full, LastTime(front, from), qs[n], kepts[n], states[n + 1], answers[n]);
      assert answers == answers[..n] + [answers[n]];
    }
  }

  /** When nothing turns stale before its window closes, a clean-up that does not overflow forgets closed windows. */
  lemma CleanupForgetsClosed(cfg: Config, s: State, from: int, now: int, kept: map<string, Entry>)
    requires WellFormed(cfg, s.hits, from) && cfg.staleAfterMs >= cfg.windowMs && Leaves(cfg, s, now, kept)
    requires CleanupDue(cfg, s, now) ==> !Overflows(cfg, s.hits, now)
    ensures ForgetsClosed(s.hits, kept, now)
  {
    forall k | k in s.hits && k !in kept
      ensures s.hits[k].resetAt < now
    {
      assert Stale(cfg, s.hits[k], now);
    }
  }

  lemma HandlingForgetsClosed(
    cfg: Config, s: State, from: int, q: Request, kept: map<string, Entry>, t: State, allowed: bool)
    requires WellFormed(cfg, s.hits, from) && from <= q.now && cfg.staleAfterMs >= cfg.windowMs
    requires HandlesWith(cfg, s, q, kept, t, allowed) && (CleanupDue(cfg, s, q.now) ==> !Overflows(cfg, s.hits, q.now))
    ensures ForgetsClosed(s.hits, kept, q.now) && WellFormed(cfg, t.hits, q.now)
  {
    CleanupForgetsClosed(cfg, s, from, q.now, kept);
  }

  lemma ExtendRunWith(
    cfg: Config, states: seq<State>, qs: seq<Request>, before: seq<map<string, Entry>>, kept: map<string, Entry>,
    answers: seq<bool>)
    requires qs != [] && |states| == |qs| + 1 && |answers| == |qs|
    requires var n := |qs| - 1;
             && IsRunWith(cfg, states[..n + 1], qs[..n], before, answers[..n])
             && HandlesWith(cfg, states[n], qs[n], kept, states[n + 1], answers[n])
    ensures IsRunWith(cfg, states, qs, before + [kept], answers)
  {
    var n, kepts := |qs| - 1, before + [kept];
    forall i | 0 <= i < n
      ensures HandlesWith(cfg, states[i], qs[i], kepts[i], states[i + 1], answers[i])
    {
      assert HandlesWith(cfg, states[..n + 1][i], qs[..n][i], before[i], states[..n + 1][i + 1], answers[..n][i]);
    }
  }

  /** The clean-ups of a run without overflow, and what they leave: they all forget closed windows only. */
  lemma {:induction false} WithoutOverflow(
    cfg: Config, states: seq<State>, qs: seq<Request>, answers: seq<bool>, from: int)
    returns (kepts: seq<map<string, Entry>>)
    requires IsRun(cfg, states, qs, answers) && Monotone(qs, from) && WellFormed(cfg, states[0].hits, from)
    requires cfg.staleAfterMs >= cfg.windowMs && NeverOverflows(cfg, states, qs)
    ensures IsRunWith(cfg, states, qs, kepts, answers)
    ensures forall i :: 0 <= i < |qs| ==> ForgetsClosed(states[i].hits, kepts[i], qs[i].now)
    ensures WellFormed(cfg, states[|qs|].hits, LastTime(qs, from))
    decreases |qs|
  {
    if qs == [] {
      kepts := [];
    } else {
      var n := |qs| - 1;
      var before := WithoutOverflow(cfg, states[..n + 1], qs[..n], answers[..n], from);
      assert Handles(cfg, states[n], qs[n], states[n + 1], answers[n]);
      var kept :| HandlesWith(cfg, states[n], qs[n], kept, states[n + 1], answers[n]);
      HandlingForgetsClosed(cfg, states[n], LastTime(qs[..n], from), qs[n], kept, states[n + 1], answers[n]);
      kepts := before + [kept];
      assert forall i :: 0 <= i < n ==> kepts[i] == before[i] && states[..n + 1][i] == states[i];
      ExtendRunWith(cfg, states, qs, before, kept, answers);
    }
  }

  /** Without overflow every request gets the answer it would get from the limiter that never deletes an entry. */
  lemma SameAnswersAsForever(cfg: Config, states: seq<State>, qs: seq<Request>, answers: seq<bool>, from: int)
    requires IsRun(cfg, states, qs, answers) && Monotone(qs, from) && states[0].hits == map[]
    requires cfg.staleAfterMs >= cfg.windowMs && NeverOverflows(cfg, states, qs)
    ensures answers == Answers(cfg, map[], qs)
    ensures Agree(states[|qs|].hits, After(cfg, map[], qs), LastTime(qs, from))
  {
    var kepts := WithoutOverflow(cfg, states, qs, answers, from);
    CacheAgrees(cfg, states, qs, kepts, answers, from);
  }

  // ---------------------------------------------------------------- when forgetting shows

  function Repeat(q: Request, n: nat): (qs: seq<Request>)
    ensures |qs| == n && forall i :: 0 <= i < n ==> qs[i] == q
  {
    seq(n, _ => q)
  }

  /** The count a request at `now` would find. */
  function OpenCount(hits: map<string, Entry>, key: string, now: int): int {
    if key in hits && now <= hits[key].resetAt then hits[key].count else 0
  }

  lemma {:induction false} RepeatedRequests(cfg: Config, hits: map<string, Entry>, q: Request, n: nat)
    ensures var qs := Repeat(q, n);
            && OpenCount(After(cfg, hits, qs), q.key, q.now) == OpenCount(hits, q.key, q.now) + n
            && forall i :: 0 <= i < n ==>
                 (Answers(cfg, hits, qs)[i] <==> OpenCount(hits, q.key, q.now) + i + 1 <= cfg.max)
  {
    if n == 0 {
    } else {
      RepeatedRequests(cfg, hits, q, n - 1);
      assert Repeat(q, n)[..n - 1] == Repeat(q, n - 1);
    }
  }

  lemma {:induction false} AgreeingTablesAnswerAlike(
    cfg: Config, cached: map<string, Entry>, full: map<string, Entry>, now: int, qs: seq<Request>)
    requires Agree(cached, full, now) && WellFormed(cfg, full, now) && Monotone(qs, now)
    ensures Answers(cfg, cached, qs) == Answers(cfg, full, qs)
    ensures WellFormed(cfg, After(cfg, full, qs), LastTime(qs, now))
    ensures Agree(After(cfg, cached, qs), After(cfg, full, qs), LastTime(qs, now))
  {
    if qs == [] {
    } else {
      var n := |qs| - 1;
      AgreeingTablesAnswerAlike(cfg, cached, full, now, qs[..n]);
      RecordAgrees(cfg, After(cfg, cached, qs[..n]), After(cfg, full, qs[..n]), LastTime(qs[..n], now), qs[n]);
    }
  }

  ghost predicate AnswersAlike(cfg: Config, cached: map<string, Entry>, full: map<string, Entry>, now: int) {
    forall qs :: Monotone(qs, now) ==> Answers(cfg, cached, qs) == Answers(cfg, full, qs)
  }

  /**
   * Dropping entries is invisible to every later sequence of requests exactly when the window of each dropped
   * entry has closed (or when the limiter admits nobody). Overflow eviction is the case where this can fail.
   */
  lemma ForgettingInvisibleIff(cfg: Config, cached: map<string, Entry>, full: map<string, Entry>, now: int)
    requires SubTable(cached, full) && WellFormed(cfg, full, now)
    ensures AnswersAlike(cfg, cached, full, now) <==>
            cfg.max == 0 || forall k :: k in full && k !in cached ==> full[k].resetAt < now
  {
    if cfg.max == 0 {
      forall qs | Monotone(qs, now)
        ensures Answers(cfg, cached, qs) == Answers(cfg, full, qs)
      {
        NobodyAdmitted(cfg, cached, qs);
        NobodyAdmitted(cfg, full, qs);
      }
    } else if forall k :: k in full && k !in cached ==> full[k].resetAt < now {
      forall qs | Monotone(qs, now)
        ensures Answers(cfg, cached, qs) == Answers(cfg, full, qs)
      {
        AgreeingTablesAnswerAlike(cfg, cached, full, now, qs);
      }
    } else {
      var k :| k in full && k !in cached && full[k].resetAt >= now;
      var burst := Repeat(Request(k, now), cfg.max);
      RepeatedRequests(cfg, cached, Request(k, now), cfg.max);
      RepeatedRequests(cfg, full, Request(k, now), cfg.max);
      assert Answers(cfg, cached, burst)[cfg.max - 1] && !Answers(cfg, full, burst)[cfg.max - 1];
      assert Monotone(burst, now);
    }
  }

  /** An overflow that does change an answer: of two keys the older is dropped, and comes back within its window. */
  lemma OverflowWitness(cfg: Config, a: string, b: string)
    returns (states: seq<State>, qs: seq<Request>, answers: seq<bool>)
    requires cfg == Config(10, 1, 1, 100, 1) && a != b
    ensures IsRun(cfg, states, qs, answers) && Monotone(qs, 0) && states[0] == State(map[], 0)
    ensures qs == [Request(a, 0), Request(b, 1), Request(a, 2)]
    ensures answers == [true, true, true] && Answers(cfg, map[], qs) == [true, true, false]
  {
    qs := [Request(a, 0), Request(b, 1), Request(a, 2)];
    var first, second := map[a := Entry(1, 10, 0)], map[a := Entry(1, 10, 0), b := Entry(1, 11, 1)];
    var left := map[b := Entry(1, 11, 1)];
    states := [State(map[], 0), State(first, 0), State(second, 1), State(Record(cfg, left, qs[2]), 2)];
    answers := [true, true, true];
    assert HandlesWith(cfg, states[0], qs[0], map[], states[1], true);
    assert FreshPart(cfg, first, 1) == first && |first| == 1;
    assert HandlesWith(cfg, states[1], qs[1], first, states[2], true);
    assert FreshPart(cfg, second, 2) == second && |second| == 2;
    assert CleanedUp(cfg, second, 2, left);
    assert HandlesWith(cfg, states[2], qs[2], left, states[3], true);
    assert qs[..2][..1] == qs[..1] && qs[..1][..0] == [];
    assert After(cfg, map[], qs[..1]) == first;
    assert After(cfg, map[], qs[..2]) == second;
    assert Answers(cfg, map[], qs[..1]) == [true];
    assert Answers(cfg, map[], qs[..2]) == [true, true];
  }

  lemma {:induction false} NobodyAdmitted(cfg: Config, hits: map<string, Entry>, qs: seq<Request>)
    requires cfg.max == 0 && forall k :: k in hits ==> hits[k].count >= 1
    ensures forall i :: 0 <= i < |qs| ==> !Answers(cfg, hits, qs)[i]
    ensures forall k :: k in After(cfg, hits, qs) ==> After(cfg, hits, qs)[k].count >= 1
  {
    if qs == [] {
    } else {
      NobodyAdmitted(cfg, hits, qs[..|qs| - 1]);
    }
  }
}
