/** The fixed-window rate limiter: one entry per key, and a clean-up that forgets stale and surplus keys. */
module RateLimitModel {

  datatype Config = Config(windowMs: nat, max: nat, cleanupIntervalMs: int, staleAfterMs: int, maxKeys: int)

  datatype Entry = Entry(count: int, resetAt: int, lastSeenAt: int)

  datatype Request = Request(key: string, now: int)

  datatype State = State(hits: map<string, Entry>, lastCleanupAt: int)

  // ---------------------------------------------------------------- one request

  function Touched(cfg: Config, hits: map<string, Entry>, q: Request): Entry {
    var found := if q.key in hits then hits[q.key] else Entry(0, q.now + cfg.windowMs, q.now);
    var open := if q.now > found.resetAt then Entry(0, q.now + cfg.windowMs, found.lastSeenAt) else found;
    Entry(open.count + 1, open.resetAt, q.now)
  }

  function Record(cfg: Config, hits: map<string, Entry>, q: Request): map<string, Entry> {
    hits[q.key := Touched(cfg, hits, q)]
  }

  predicate Allows(cfg: Config, hits: map<string, Entry>, q: Request) { Touched(cfg, hits, q).count <= cfg.max }

  // ---------------------------------------------------------------- the limiter that never forgets

  function After(cfg: Config, hits: map<string, Entry>, qs: seq<Request>): map<string, Entry> {
    if qs == [] then hits else Record(cfg, After(cfg, hits, qs[..|qs| - 1]), qs[|qs| - 1])
  }

  function Answers(cfg: Config, hits: map<string, Entry>, qs: seq<Request>): (answers: seq<bool>)
    ensures |answers| == |qs|
  {
    if qs == [] then []
    else Answers(cfg, hits, qs[..|qs| - 1]) + [Allows(cfg, After(cfg, hits, qs[..|qs| - 1]), qs[|qs| - 1])]
  }

  predicate Monotone(qs: seq<Request>, from: int) {
    && (forall i :: 0 <= i < |qs| ==> from <= qs[i].now)
    && forall i, j :: 0 <= i < j < |qs| ==> qs[i].now <= qs[j].now
  }

  // ---------------------------------------------------------------- clean-up

  predicate Stale(cfg: Config, e: Entry, now: int) { now - e.lastSeenAt > cfg.staleAfterMs }

  function FreshPart(cfg: Config, hits: map<string, Entry>, now: int): map<string, Entry> {
    map k | k in hits && !Stale(cfg, hits[k], now) :: hits[k]
  }

  predicate SubTable(part: map<string, Entry>, whole: map<string, Entry>) {
    forall k :: k in part ==> k in whole && part[k] == whole[k]
  }

  predicate Overflows(cfg: Config, hits: map<string, Entry>, now: int) {
    cfg.maxKeys > 0 && |FreshPart(cfg, hits, now)| > cfg.maxKeys
  }

  /** Stale keys are gone; on overflow exactly maxKeys keys stay, none last seen before a dropped one. */
  predicate CleanedUp(cfg: Config, hits: map<string, Entry>, now: int, kept: map<string, Entry>) {
    var live := FreshPart(cfg, hits, now);
    if Overflows(cfg, hits, now) then
      && SubTable(kept, live) && |kept| == cfg.maxKeys
      && forall d, k :: d in live && d !in kept && k in kept ==> live[d].lastSeenAt <= live[k].lastSeenAt
    else kept == live
  }

  predicate CleanupDue(cfg: Config, s: State, now: int) {
    cfg.cleanupIntervalMs > 0 && now - s.lastCleanupAt >= cfg.cleanupIntervalMs
  }

  /** `kept` is what the limiter has left of its table when it looks up the key of a request. */
  predicate Leaves(cfg: Config, s: State, now: int, kept: map<string, Entry>) {
    if CleanupDue(cfg, s, now) then CleanedUp(cfg, s.hits, now, kept) else kept == s.hits
  }

  /** What the limiter does with a request: clean up when it is time, which leaves `kept`, then count and answer. */
  predicate HandlesWith(
    cfg: Config, s: State, q: Request, kept: map<string, Entry>, t: State, allowed: bool)
  {
    && Leaves(cfg, s, q.now, kept)
    && t == State(Record(cfg, kept, q), if CleanupDue(cfg, s, q.now) then q.now else s.lastCleanupAt)
    && allowed == Allows(cfg, kept, q)
  }

  ghost predicate Handles(cfg: Config, s: State, q: Request, t: State, allowed: bool) {
    exists kept :: HandlesWith(cfg, s, q, kept, t, allowed)
  }

  ghost predicate IsRun(cfg: Config, states: seq<State>, qs: seq<Request>, answers: seq<bool>) {
    && |states| == |qs| + 1 && |answers| == |qs|
    && forall i :: 0 <= i < |qs| ==> Handles(cfg, states[i], qs[i], states[i + 1], answers[i])
  }

  /** A run, with what each request found left of the table. */
  predicate IsRunWith(
    cfg: Config, states: seq<State>, qs: seq<Request>, kepts: seq<map<string, Entry>>, answers: seq<bool>)
  {
    && |states| == |qs| + 1 && |answers| == |qs| == |kepts|
    && forall i :: 0 <= i < |qs| ==> HandlesWith(cfg, states[i], qs[i], kepts[i], states[i + 1], answers[i])
  }

  /** A clean-up that forgets only keys whose window has closed. */
  predicate ForgetsClosed(hits: map<string, Entry>, kept: map<string, Entry>, now: int) {
    forall k :: k in hits && k !in kept ==> hits[k].resetAt < now
  }

  /** Overflow eviction never fires in the run. */
  ghost predicate NeverOverflows(cfg: Config, states: seq<State>, qs: seq<Request>)
    requires |states| == |qs| + 1
  {
    forall i :: 0 <= i < |qs| && CleanupDue(cfg, states[i], qs[i].now) ==> !Overflows(cfg, states[i].hits, qs[i].now)
  }

  // ---------------------------------------------------------------- counting answers

  /** How many requests of `key` between `lo` and `hi` were let through. */
  function Admitted(qs: seq<Request>, answers: seq<bool>, key: string, lo: int, hi: int): nat
    requires |answers| == |qs|
  {
    if qs == [] then 0
    else
      var q := qs[|qs| - 1];
      Admitted(qs[..|qs| - 1], answers[..|qs| - 1], key, lo, hi)
      + if q.key == key && lo <= q.now <= hi && answers[|qs| - 1] then 1 else 0
  }
}
