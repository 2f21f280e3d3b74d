/** How many requests of one key an interval of one window length lets through. */
module RateLimitWindow {
  import opened RateLimitModel
  import opened RateLimitProofs
  import opened Tables

  function Min(a: int, b: int): int { if a < b then a else b }

  function Max(a: int, b: int): int { if a < b then b else a }

  /** Splitting an interval splits the count. */
  lemma {:induction false} AdmittedSplit(qs: seq<Request>, answers: seq<bool>, key: string, lo: int, mid: int, hi: int)
    requires |answers| == |qs| && lo <= mid <= hi + 1
    ensures Admitted(qs, answers, key, lo, hi)
            == Admitted(qs, answers, key, lo, mid - 1) + Admitted(qs, answers, key, mid, hi)
  {
    if qs == [] {
    } else {
      AdmittedSplit(qs[..|qs| - 1], answers[..|qs| - 1], key, lo, mid, hi);
    }
  }

  lemma {:induction false} AdmittedWider(
    qs: seq<Request>, answers: seq<bool>, key: string, lo: int, hi: int, lo': int, hi': int)
    requires |answers| == |qs| && lo' <= lo && hi <= hi'
    ensures Admitted(qs, answers, key, lo, hi) <= Admitted(qs, answers, key, lo', hi')
  {
    if qs == [] {
    } else {
      AdmittedWider(qs[..|qs| - 1], answers[..|qs| - 1], key, lo, hi, lo', hi');
    }
  }

  /**
   * What the open window of `key` says about the past: it started at `start`, at the first of its `count`
   * requests; the earlier requests that are less than a window older all belong to the window before it.
   */
  ghost predicate Explains(cfg: Config, e: Entry, qs: seq<Request>, answers: seq<bool>, key: string)
    requires |answers| == |qs|
  {
    var start := e.resetAt - cfg.windowMs;
    && e.count >= 1 && start <= e.lastSeenAt <= e.resetAt
    && (forall lo, hi :: lo > e.lastSeenAt ==> Admitted(qs, answers, key, lo, hi) == 0)
    && (forall hi :: Admitted(qs, answers, key, start, hi) <= Min(e.count, cfg.max))
    && (forall lo, hi :: lo > start ==> Admitted(qs, answers, key, lo, hi) <= Max(0, Min(e.count, cfg.max) - 1))
    && (forall lo, hi :: start - cfg.windowMs <= lo && hi < start ==>
          Admitted(qs, answers, key, lo, hi) <= Max(0, cfg.max - 1))
  }

  lemma {:induction false} NeverSeen(cfg: Config, qs: seq<Request>, key: string)
    requires key !in After(cfg, map[], qs)
    ensures forall lo, hi :: Admitted(qs, Answers(cfg, map[], qs), key, lo, hi) == 0
  {
    if qs == [] {
    } else {
      var n := |qs| - 1;
      NeverSeen(cfg, qs[..n], key);
      assert Answers(cfg, map[], qs)[..n] == Answers(cfg, map[], qs[..n]);
    }
  }

  /** The count of the requests so far, in terms of the count before the last one. */
  lemma LastAdmitted(cfg: Config, qs: seq<Request>, key: string, lo: int, hi: int)
    requires qs != []
    ensures var n := |qs| - 1;
            Admitted(qs, Answers(cfg, map[], qs), key, lo, hi)
            == Admitted(qs[..n], Answers(cfg, map[], qs[..n]), key, lo, hi)
               + if qs[n].key == key && lo <= qs[n].now <= hi && Allows(cfg, After(cfg, map[], qs[..n]), qs[n])
                 then 1 else 0
  {
    var n := |qs| - 1;
    assert Answers(cfg, map[], qs)[..n] == Answers(cfg, map[], qs[..n]);
  }

  lemma FirstRequestExplains(cfg: Config, qs: seq<Request>)
    requires qs != []
    requires var q, front := qs[|qs| - 1], qs[..|qs| - 1];
             var before := After(cfg, map[], front);
             && (q.key in before ==> before[q.key].resetAt < q.now
                                     && Explains(cfg, before[q.key], front, Answers(cfg, map[], front), q.key))
    requires Touched(cfg, After(cfg, map[], qs[..|qs| - 1]), qs[|qs| - 1]).count == 1
    ensures Explains(cfg, After(cfg, map[], qs)[qs[|qs| - 1].key], qs, Answers(cfg, map[], qs), qs[|qs| - 1].key)
  {
    var q, front := qs[|qs| - 1], qs[..|qs| - 1];
    var before := After(cfg, map[], front);
    var earlier := Answers(cfg, map[], front);
    forall lo, hi {
      LastAdmitted(cfg, qs, q.key, lo, hi);
    }
    if q.key in before {
      var e := before[q.key];
      assert forall lo, hi :: q.now - cfg.windowMs <= lo ==>
        Admitted(front, earlier, q.key, lo, hi) <= Max(0, cfg.max - 1);
    } else {
      NeverSeen(cfg, front, q.key);
    }
  }

  lemma LaterRequestExplains(cfg: Config, qs: seq<Request>)
    requires qs != []
    requires var q, front := qs[|qs| - 1], qs[..|qs| - 1];
             var before := After(cfg, map[], front);
             && q.key in before && q.now <= before[q.key].resetAt && before[q.key].lastSeenAt <= q.now
             && Explains(cfg, before[q.key], front, Answers(cfg, map[], front), q.key)
    ensures Explains(cfg, After(cfg, map[], qs)[qs[|qs| - 1].key], qs, Answers(cfg, map[], qs), qs[|qs| - 1].key)
  {
    var q := qs[|qs| - 1];
    forall lo, hi {
      LastAdmitted(cfg, qs, q.key, lo, hi);
    }
  }

  lemma {:induction false} EntryExplains(cfg: Config, qs: seq<Request>, key: string, from: int)
    requires Monotone(qs, from) && key in After(cfg, map[], qs)
    ensures Explains(cfg, After(cfg, map[], qs)[key], qs, Answers(cfg, map[], qs), key)
    ensures After(cfg, map[], qs)[key].lastSeenAt <= LastTime(qs, from)
    decreases |qs|
  {
    var n := |qs| - 1;
    var q, front := qs[n], qs[..n];
    var before := After(cfg, map[], front);
    if key in before {
      EntryExplains(cfg, front, key, from);
    }
    if key == q.key {
      if key in before && q.now <= before[key].resetAt {
        LaterRequestExplains(cfg, qs);
      } else {
        FirstRequestExplains(cfg, qs);
      }
    } else {
      forall lo, hi {
        LastAdmitted(cfg, qs, key, lo, hi);
      }
    }
  }

  /** The bound for an interval that the last request closes, from what the open window says about the past. */
  lemma ExplainedBound(cfg: Config, e: Entry, qs: seq<Request>, answers: seq<bool>, key: string, t: int, hi: int)
    requires |answers| == |qs| && Explains(cfg, e, qs, answers, key)
    requires e.lastSeenAt - cfg.windowMs <= t <= hi
    ensures Admitted(qs, answers, key, t, hi) <= Max(0, 2 * cfg.max - 1)
  {
    var start := e.resetAt - cfg.windowMs;
    if t < start <= hi {
      AdmittedSplit(qs, answers, key, t, start, hi);
      assert Admitted(qs, answers, key, t, start - 1) <= Max(0, cfg.max - 1);
      assert Admitted(qs, answers, key, start, hi) <= cfg.max;
    } else if t < start {
      assert Admitted(qs, answers, key, t, hi) <= Max(0, cfg.max - 1);
    } else {
      AdmittedWider(qs, answers, key, t, hi, start, hi);
      assert Admitted(qs, answers, key, start, hi) <= cfg.max;
    }
  }

  /**
   * No closed interval as long as the window lets more than 2 * max - 1 requests of a key through: the two
   * windows it can meet admit max each, and the first request of the earlier one cannot lie in it.
   */
  lemma {:induction false} IntervalBound(cfg: Config, qs: seq<Request>, key: string, from: int, t: int)
    requires Monotone(qs, from)
    ensures Admitted(qs, Answers(cfg, map[], qs), key, t, t + cfg.windowMs) <= Max(0, 2 * cfg.max - 1)
    decreases |qs|
  {
    if qs == [] {
    } else {
      var q := qs[|qs| - 1];
      if q.key == key && t <= q.now <= t + cfg.windowMs {
        EntryExplains(cfg, qs, key, from);
        var e := After(cfg, map[], qs)[key];
        assert e.lastSeenAt == q.now;
        ExplainedBound(cfg, e, qs, Answers(cfg, map[], qs), key, t, t + cfg.windowMs);
      } else {
        IntervalBound(cfg, qs[..|qs| - 1], key, from, t);
        LastAdmitted(cfg, qs, key, t, t + cfg.windowMs);
      }
    }
  }

  /** The running limiter, clean-up included, keeps that bound on every run without overflow. */
  lemma RunBound(
    cfg: Config, states: seq<State>, qs: seq<Request>, answers: seq<bool>, from: int, key: string, t: int)
    requires IsRun(cfg, states, qs, answers) && Monotone(qs, from) && states[0].hits == map[]
    requires cfg.staleAfterMs >= cfg.windowMs && NeverOverflows(cfg, states, qs)
    ensures Admitted(qs, answers, key, t, t + cfg.windowMs) <= Max(0, 2 * cfg.max - 1)
    ensures key in states[|qs|].hits ==>
              Admitted(qs, answers, key, states[|qs|].hits[key].resetAt - cfg.windowMs, LastTime(qs, from)) <= cfg.max
  {
    SameAnswersAsForever(cfg, states, qs, answers, from);
    IntervalBound(cfg, qs, key, from, t);
    if key in states[|qs|].hits {
      EntryExplains(cfg, qs, key, from);
    }
  }

  // ---------------------------------------------------------------- the counter counts

  /** How many requests of `key` the log has between `lo` and `hi`, answered one way or the other. */
  function Seen(qs: seq<Request>, key: string, lo: int, hi: int): nat {
    if qs == [] then 0
    else
      var q := qs[|qs| - 1];
      Seen(qs[..|qs| - 1], key, lo, hi) + if q.key == key && lo <= q.now <= hi then 1 else 0
  }

  /** When the window of `key` began: with its first request, or with the first one more than a window later. */
  function WindowStart(cfg: Config, qs: seq<Request>, key: string): Option<int> {
    if qs == [] then None
    else
      var q, before := qs[|qs| - 1], WindowStart(cfg, qs[..|qs| - 1], key);
      if q.key != key || (before.Some? && q.now - before.value <= cfg.windowMs) then before else Some(q.now)
  }

  lemma {:induction false} NoneSeenAfter(qs: seq<Request>, key: string, lo: int, hi: int)
    requires forall i :: 0 <= i < |qs| ==> qs[i].now < lo
    ensures Seen(qs, key, lo, hi) == 0
  {
    if qs == [] {
    } else {
      NoneSeenAfter(qs[..|qs| - 1], key, lo, hi);
    }
  }

  /** The entry of a key says when its window began and how many requests came since. */
  lemma {:induction false} EntryCounts(cfg: Config, qs: seq<Request>, key: string, from: int, hi: int)
    requires Monotone(qs, from) && LastTime(qs, from) <= hi
    ensures WindowStart(cfg, qs, key).Some? <==> key in After(cfg, map[], qs)
    ensures key in After(cfg, map[], qs) ==>
              var e, start := After(cfg, map[], qs)[key], WindowStart(cfg, qs, key).value;
              e.resetAt == start + cfg.windowMs && start <= LastTime(qs, from) && e.count == Seen(qs, key, start, hi)
    decreases |qs|
  {
    if qs == [] {
    } else {
      var n := |qs| - 1;
      EntryCounts(cfg, qs[..n], key, from, hi);
      if qs[n].key == key && WindowStart(cfg, qs, key) != WindowStart(cfg, qs[..n], key) {
        NoneInLaterWindow(cfg, qs[..n], key, from, qs[n].now, hi);
      }
    }
  }

  /** Every request of a key lies within the window of the key. */
  lemma {:induction false} NoneInLaterWindow(
    cfg: Config, qs: seq<Request>, key: string, from: int, lo: int, hi: int)
    requires Monotone(qs, from)
    requires var start := WindowStart(cfg, qs, key); start.None? || lo - start.value > cfg.windowMs
    ensures Seen(qs, key, lo, hi) == 0
    decreases |qs|
  {
    if qs == [] {
    } else {
      var n := |qs| - 1;
      if qs[n].key == key && WindowStart(cfg, qs[..n], key) != WindowStart(cfg, qs, key) {
        assert qs[n].now < lo;
        forall i | 0 <= i < |qs|
          ensures qs[i].now < lo
        {
        }
        NoneSeenAfter(qs, key, lo, hi);
      } else {
        NoneInLaterWindow(cfg, qs[..n], key, from, lo, hi);
      }
    }
  }

  /** A request is let through exactly when it is among the first max of its key since its window began. */
  lemma AllowedIff(cfg: Config, qs: seq<Request>, from: int)
    requires qs != [] && Monotone(qs, from)
    ensures var n, q := |qs| - 1, qs[|qs| - 1];
            && WindowStart(cfg, qs, q.key).Some?
            && (Answers(cfg, map[], qs)[n] <==> Seen(qs, q.key, WindowStart(cfg, qs, q.key).value, q.now) <= cfg.max)
  {
    var q := qs[|qs| - 1];
    EntryCounts(cfg, qs, q.key, from, q.now);
  }

  // ---------------------------------------------------------------- the bound is reached

  lemma {:induction false} AppendRun(cfg: Config, hits: map<string, Entry>, a: seq<Request>, b: seq<Request>)
    ensures After(cfg, hits, a + b) == After(cfg, After(cfg, hits, a), b)
    ensures Answers(cfg, hits, a + b) == Answers(cfg, hits, a) + Answers(cfg, After(cfg, hits, a), b)
  {
    if b == [] {
      assert a + b == a;
    } else {
      var n := |b| - 1;
      AppendRun(cfg, hits, a, b[..n]);
      assert (a + b)[..|a + b| - 1] == a + b[..n];
    }
  }

  lemma {:induction false} AppendAdmitted(
    a: seq<Request>, x: seq<bool>, b: seq<Request>, y: seq<bool>, key: string, lo: int, hi: int)
    requires |a| == |x| && |b| == |y|
    ensures Admitted(a + b, x + y, key, lo, hi) == Admitted(a, x, key, lo, hi) + Admitted(b, y, key, lo, hi)
  {
    if b == [] {
      assert a + b == a && x + y == x;
    } else {
      var n := |b| - 1;
      AppendAdmitted(a, x, b[..n], y[..n], key, lo, hi);
      assert (a + b)[..|a + b| - 1] == a + b[..n] && (x + y)[..|x + y| - 1] == x + y[..n];
    }
  }

  lemma {:induction false} AllAdmitted(q: Request, n: nat, answers: seq<bool>, lo: int, hi: int)
    requires |answers| == n && lo <= q.now <= hi && forall i :: 0 <= i < n ==> answers[i]
    ensures Admitted(Repeat(q, n), answers, q.key, lo, hi) == n
  {
    if n == 0 {
    } else {
      assert Repeat(q, n)[..n - 1] == Repeat(q, n - 1);
      AllAdmitted(q, n - 1, answers[..n - 1], lo, hi);
    }
  }

  lemma {:induction false} RepeatKeepsWindow(cfg: Config, hits: map<string, Entry>, q: Request, n: nat)
    requires q.key in hits && q.now <= hits[q.key].resetAt
    ensures q.key in After(cfg, hits, Repeat(q, n))
    ensures After(cfg, hits, Repeat(q, n))[q.key].resetAt == hits[q.key].resetAt
  {
    if n == 0 {
    } else {
      assert Repeat(q, n)[..n - 1] == Repeat(q, n - 1);
      RepeatKeepsWindow(cfg, hits, q, n - 1);
    }
  }

  lemma AfterOne(cfg: Config, hits: map<string, Entry>, q: Request)
    ensures After(cfg, hits, [q]) == Record(cfg, hits, q)
  {
    var qs := [q];
    assert After(cfg, hits, qs) == Record(cfg, After(cfg, hits, qs[..|qs| - 1]), qs[|qs| - 1]);
    assert qs[..|qs| - 1] == [];
  }

  /** n requests at one time, all within the limit, are all admitted and leave an open window as long as it was. */
  lemma AdmittedBlock(cfg: Config, hits: map<string, Entry>, q: Request, n: nat, lo: int, hi: int)
    requires lo <= q.now <= hi && OpenCount(hits, q.key, q.now) + n <= cfg.max
    ensures Admitted(Repeat(q, n), Answers(cfg, hits, Repeat(q, n)), q.key, lo, hi) == n
    ensures q.key in hits && q.now <= hits[q.key].resetAt ==>
              q.key in After(cfg, hits, Repeat(q, n)) &&
              After(cfg, hits, Repeat(q, n))[q.key].resetAt == hits[q.key].resetAt
  {
    RepeatedRequests(cfg, hits, q, n);
    AllAdmitted(q, n, Answers(cfg, hits, Repeat(q, n)), lo, hi);
    if q.key in hits && q.now <= hits[q.key].resetAt {
      RepeatKeepsWindow(cfg, hits, q, n);
    }
  }

  lemma ThreeBlocks(
    cfg: Config, a: seq<Request>, b: seq<Request>, c: seq<Request>, key: string, lo: int, hi: int)
    ensures var h1 := After(cfg, map[], a);
            var h2 := After(cfg, h1, b);
            Admitted(a + b + c, Answers(cfg, map[], a + b + c), key, lo, hi)
            == Admitted(a, Answers(cfg, map[], a), key, lo, hi) + Admitted(b, Answers(cfg, h1, b), key, lo, hi)
               + Admitted(c, Answers(cfg, h2, c), key, lo, hi)
  {
    AppendRun(cfg, map[], a, b);
    AppendRun(cfg, map[], a + b, c);
    var x, y := Answers(cfg, map[], a), Answers(cfg, After(cfg, map[], a), b);
    AppendAdmitted(a, x, b, y, key, lo, hi);
    AppendAdmitted(a + b, x + y, c, Answers(cfg, After(cfg, map[], a + b), c), key, lo, hi);
  }

  lemma FirstBlock(cfg: Config, key: string)
    ensures After(cfg, map[], [Request(key, 0)]) == map[key := Entry(1, cfg.windowMs, 0)]
    ensures Admitted([Request(key, 0)], Answers(cfg, map[], [Request(key, 0)]), key, 1, 1 + cfg.windowMs) == 0
  {
    AfterOne(cfg, map[], Request(key, 0));
    AllLater([Request(key, 0)], Answers(cfg, map[], [Request(key, 0)]), key, 1, 1 + cfg.windowMs);
  }

  lemma SecondBlock(cfg: Config, key: string, h1: map<string, Entry>, b2: seq<Request>)
    requires cfg.max >= 1 && cfg.windowMs >= 1 && h1 == map[key := Entry(1, cfg.windowMs, 0)]
    requires b2 == Repeat(Request(key, cfg.windowMs), cfg.max - 1)
    ensures Admitted(b2, Answers(cfg, h1, b2), key, 1, 1 + cfg.windowMs) == cfg.max - 1
    ensures OpenCount(After(cfg, h1, b2), key, cfg.windowMs + 1) == 0
  {
    AdmittedBlock(cfg, h1, Request(key, cfg.windowMs), cfg.max - 1, 1, 1 + cfg.windowMs);
  }

  lemma ThirdBlock(cfg: Config, key: string, h2: map<string, Entry>, b3: seq<Request>)
    requires cfg.max >= 1 && OpenCount(h2, key, cfg.windowMs + 1) == 0
    requires b3 == Repeat(Request(key, cfg.windowMs + 1), cfg.max)
    ensures Admitted(b3, Answers(cfg, h2, b3), key, 1, 1 + cfg.windowMs) == cfg.max
  {
    AdmittedBlock(cfg, h2, Request(key, cfg.windowMs + 1), cfg.max, 1, 1 + cfg.windowMs);
  }

  lemma Joined(
    cfg: Config, a: seq<Request>, b: seq<Request>, c: seq<Request>, key: string, lo: int, hi: int,
    h1: map<string, Entry>, n: int)
    requires After(cfg, map[], a) == h1 && Admitted(a, Answers(cfg, map[], a), key, lo, hi) == 0
    requires Admitted(b, Answers(cfg, h1, b), key, lo, hi)
             + Admitted(c, Answers(cfg, After(cfg, h1, b), c), key, lo, hi) == n
    ensures Admitted(a + b + c, Answers(cfg, map[], a + b + c), key, lo, hi) == n
  {
    ThreeBlocks(cfg, a, b, c, key, lo, hi);
  }

  lemma BlocksMonotone(a: Request, b2: seq<Request>, b3: seq<Request>, w: nat)
    requires a.now == 0 && (forall i :: 0 <= i < |b2| ==> b2[i].now == w)
    requires forall i :: 0 <= i < |b3| ==> b3[i].now == w + 1
    ensures Monotone([a] + b2 + b3, 0)
  {
  }

  /**
   * The bound cannot be improved: one request, max - 1 more as the window closes and max as the next one opens are
   * all admitted, and all but the first lie in one interval.
   */
  lemma BoundReached(cfg: Config, key: string) returns (qs: seq<Request>)
    requires cfg.max >= 1 && cfg.windowMs >= 1
    ensures Monotone(qs, 0)
    ensures Admitted(qs, Answers(cfg, map[], qs), key, 1, 1 + cfg.windowMs) == 2 * cfg.max - 1
  {
    var b2, b3 := Repeat(Request(key, cfg.windowMs), cfg.max - 1), Repeat(Request(key, cfg.windowMs + 1), cfg.max);
    qs := [Request(key, 0)] + b2 + b3;
    BlocksMonotone(Request(key, 0), b2, b3, cfg.windowMs);
    var h1 := map[key := Entry(1, cfg.windowMs, 0)];
    assert Admitted(qs, Answers(cfg, map[], qs), key, 1, 1 + cfg.windowMs) == 2 * cfg.max - 1 by {
      FirstBlock(cfg, key);
      SecondBlock(cfg, key, h1, b2);
      ThirdBlock(cfg, key, After(cfg, h1, b2), b3);
      Joined(cfg, [Request(key, 0)], b2, b3, key, 1, 1 + cfg.windowMs, h1, 2 * cfg.max - 1);
    }
  }

  lemma {:induction false} AllLater(qs: seq<Request>, answers: seq<bool>, key: string, lo: int, hi: int)
    requires |answers| == |qs| && forall i :: 0 <= i < |qs| ==> qs[i].now < lo
    ensures Admitted(qs, answers, key, lo, hi) == 0
  {
    if qs == [] {
    } else {
      AllLater(qs[..|qs| - 1], answers[..|qs| - 1], key, lo, hi);
    }
  }
}
