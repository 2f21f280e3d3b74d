/**
 * What one player's watching earns and buys: heartbeats credit seconds, video claims and GPU claims spend them,
 * each under a limit over the last 24 hours. Times are milliseconds.
 */
module ActivityModel {
  import opened Tables

  const DAY_MS := 86_400_000
  const THROTTLE_MS := 8_000
  const BEAT_SECONDS := 10
  const VIDEO_COST := 60
  const GPU_COST := 300
  const GPU_DAILY_LIMIT := 24
  const VIDEO_REWARD := 3
  const VIDEO_DAILY_LIMIT := 1440

  datatype Kind = Youtube | AutoMining

  datatype Claim = Claim(claimedAt: int, expiresAt: int)

  /** `gpus` has the unclaimed and claimed GPUs; `videos` the claim time of every history row. */
  datatype State = State(
    lastBeat: Option<int>, ytSeconds: int, amSeconds: int, gpus: map<int, Option<Claim>>, videos: map<int, int>,
    nextId: int)

  /** Every request bears the time it is made at; a release has it for its place in a run only. */
  datatype Op =
    | Heartbeat(kind: Option<Kind>, bot: bool, readable: bool, ts: Option<int>, now: int)
    | ClaimVideo(named: bool, now: int)
    | ReleaseGpu(active: bool, now: int)
    | ClaimGpu(id: int, now: int)
    | RemoveExpired(now: int)

  datatype Reply = Accepted(kind: Kind) | Throttled | Refused | LimitReached | VideoClaimed | GpuClaimed | Done

  // ---------------------------------------------------------------- requests

  /** The claims of the table made in the last 24 hours. */
  function RecentGpus(s: State, now: int): set<int> {
    set k | k in s.gpus && s.gpus[k].Some? && s.gpus[k].value.claimedAt > now - DAY_MS
  }

  function RecentVideos(s: State, now: int): set<int> { set k | k in s.videos && s.videos[k] > now - DAY_MS }

  predicate TimestampOff(ts: Option<int>, now: int) {
    ts.Some? && (ts.value > now + 5000 || ts.value < now - 60000)
  }

  function HeartbeatEffect(
    s: State, kind: Option<Kind>, bot: bool, readable: bool, ts: Option<int>, now: int): (State, Reply)
  {
    if kind.None? || bot || !readable || TimestampOff(ts, now) then (s, Refused)
    else if s.lastBeat.Some? && now - s.lastBeat.value < THROTTLE_MS then (s, Throttled)
    else if kind.value == Youtube then
      (s.(lastBeat := Some(now), ytSeconds := s.ytSeconds + BEAT_SECONDS), Accepted(Youtube))
    else (s.(lastBeat := Some(now), amSeconds := s.amSeconds + BEAT_SECONDS), Accepted(AutoMining))
  }

  function ClaimVideoEffect(s: State, named: bool, now: int): (State, Reply) {
    if !named || s.ytSeconds < VIDEO_COST then (s, Refused)
    else if VIDEO_REWARD * |RecentVideos(s, now)| + VIDEO_REWARD > VIDEO_DAILY_LIMIT then (s, LimitReached)
    else
      (s.(ytSeconds := s.ytSeconds - VIDEO_COST, videos := s.videos[s.nextId := now], nextId := s.nextId + 1),
       VideoClaimed)
  }

  function ClaimGpuEffect(s: State, id: int, now: int): (State, Reply) {
    if id !in s.gpus || s.gpus[id].Some? then (s, Refused)
    else if |RecentGpus(s, now)| >= GPU_DAILY_LIMIT then (s, LimitReached)
    else if s.amSeconds < GPU_COST then (s, Refused)
    else
      (s.(gpus := s.gpus[id := Some(Claim(now, now + DAY_MS))], amSeconds := s.amSeconds - GPU_COST), GpuClaimed)
  }

  /** Only claimed GPUs whose day is over are deleted. */
  function Unexpired(gpus: map<int, Option<Claim>>, now: int): map<int, Option<Claim>> {
    map k | k in gpus && !(gpus[k].Some? && gpus[k].value.expiresAt < now) :: gpus[k]
  }

  function Apply(s: State, op: Op): (State, Reply) {
    match op
    case Heartbeat(kind, bot, readable, ts, now) => HeartbeatEffect(s, kind, bot, readable, ts, now)
    case ClaimVideo(named, now) => ClaimVideoEffect(s, named, now)
    case ReleaseGpu(active, _) =>
      if !active then (s, Refused) else (s.(gpus := s.gpus[s.nextId := None], nextId := s.nextId + 1), Done)
    case ClaimGpu(id, now) => ClaimGpuEffect(s, id, now)
    case RemoveExpired(now) => (s.(gpus := Unexpired(s.gpus, now)), Done)
  }

  // ---------------------------------------------------------------- runs

  ghost predicate IsRun(states: seq<State>, ops: seq<Op>, replies: seq<Reply>) {
    && |states| == |ops| + 1 && |replies| == |ops|
    && forall i :: 0 <= i < |ops| ==>
         states[i + 1] == Apply(states[i], ops[i]).0 && replies[i] == Apply(states[i], ops[i]).1
  }

  predicate Monotone(ops: seq<Op>) { forall i, j :: 0 <= i < j < |ops| ==> ops[i].now <= ops[j].now }

  function Count(replies: seq<Reply>, reply: Reply, n: nat): nat
    requires n <= |replies|
  {
    if n == 0 then 0 else Count(replies, reply, n - 1) + if replies[n - 1] == reply then 1 else 0
  }

  /** Seconds are neither lost nor invented: what was earned is what was spent and what is left. */
  lemma {:induction false} SecondsConserved(states: seq<State>, ops: seq<Op>, replies: seq<Reply>, n: nat)
    requires IsRun(states, ops, replies) && n <= |ops| && states[0].ytSeconds >= 0 && states[0].amSeconds >= 0
    ensures states[n].ytSeconds + VIDEO_COST * Count(replies, VideoClaimed, n)
            == states[0].ytSeconds + BEAT_SECONDS * Count(replies, Accepted(Youtube), n)
    ensures states[n].amSeconds + GPU_COST * Count(replies, GpuClaimed, n)
            == states[0].amSeconds + BEAT_SECONDS * Count(replies, Accepted(AutoMining), n)
    ensures states[n].ytSeconds >= 0 && states[n].amSeconds >= 0
  {
    if n == 0 {
    } else {
      SecondsConserved(states, ops, replies, n - 1);
    }
  }

  /** The heartbeats accepted from time a to time b, among the first n requests. */
  function Beats(ops: seq<Op>, replies: seq<Reply>, a: int, b: int, n: nat): nat
    requires n <= |ops| == |replies|
  {
    if n == 0 then 0
    else Beats(ops, replies, a, b, n - 1) + if replies[n - 1].Accepted? && a <= ops[n - 1].now <= b then 1 else 0
  }

  function Min(x: int, y: int): int { if x < y then x else y }

  /** Accepted heartbeats are 8 seconds apart, even when the clock goes back in between. */
  lemma {:induction false} BeatsSpaced(states: seq<State>, ops: seq<Op>, replies: seq<Reply>, a: int, b: int, n: nat)
    requires IsRun(states, ops, replies) && n <= |ops|
    ensures Beats(ops, replies, a, b, n) > 0 ==>
              states[n].lastBeat.Some? &&
              THROTTLE_MS * (Beats(ops, replies, a, b, n) - 1) <= Min(states[n].lastBeat.value, b) - a
  {
    if n == 0 {
    } else {
      BeatsSpaced(states, ops, replies, a, b, n - 1);
    }
  }

  /** Any stretch of T milliseconds has at most floor(T / 8000) + 1 accepted heartbeats. */
  lemma BeatsBound(states: seq<State>, ops: seq<Op>, replies: seq<Reply>, a: int, span: nat)
    requires IsRun(states, ops, replies)
    ensures Beats(ops, replies, a, a + span, |ops|) <= span / THROTTLE_MS + 1
  {
    BeatsSpaced(states, ops, replies, a, a + span, |ops|);
  }

  // ---------------------------------------------------------------- rolling limits

  /** The claims of a history in (t - 24h, t]. */
  function Window(history: map<int, int>, t: int): set<int> {
    set k | k in history && t - DAY_MS < history[k] <= t
  }

  ghost predicate Limited(history: map<int, int>, limit: nat) { forall t: int :: |Window(history, t)| <= limit }

  /** A claim made at the latest time, with less than the limit in the last 24 hours, keeps every window within it. */
  lemma ClaimKeepsLimited(history: map<int, int>, id: int, now: int, limit: nat)
    requires id !in history && Limited(history, limit) && forall k :: k in history ==> history[k] <= now
    requires |Window(history, now)| < limit
    ensures Limited(history[id := now], limit)
  {
    var grown := history[id := now];
    forall t: int
      ensures |Window(grown, t)| <= limit
    {
      if t < now {
        assert forall k :: k in Window(grown, t) <==> k in Window(history, t);
        assert Window(grown, t) == Window(history, t);
      } else {
        var wider := Window(history, now) + {id};
        assert forall k :: k in Window(grown, t) ==> k in wider;
        SubsetSize(Window(grown, t), wider);
      }
    }
  }

  /** All GPU claims of the first n requests, by GPU, never deleted. */
  function ClaimsSoFar(ops: seq<Op>, replies: seq<Reply>, n: nat): map<int, int>
    requires n <= |ops| == |replies|
  {
    if n == 0 then map[]
    else if replies[n - 1] == GpuClaimed && ops[n - 1].ClaimGpu? then
      ClaimsSoFar(ops, replies, n - 1)[ops[n - 1].id := ops[n - 1].now]
    else ClaimsSoFar(ops, replies, n - 1)
  }

  /** The table has the claims of the history but for some that are more than 24 hours old at time `now`. */
  ghost predicate Tracks(s: State, history: map<int, int>, now: int) {
    && (forall k :: k in s.gpus ==> k < s.nextId)
    && (forall k :: k in history ==> k < s.nextId && history[k] <= now)
    && (forall k :: k in s.gpus && s.gpus[k].Some? ==>
          k in history && history[k] == s.gpus[k].value.claimedAt
          && s.gpus[k].value.expiresAt == s.gpus[k].value.claimedAt + DAY_MS)
    && (forall k :: k in s.gpus && s.gpus[k].None? ==> k !in history)
    && (forall k :: k in history && k !in s.gpus ==> history[k] + DAY_MS < now)
  }

  lemma TracksDecides(s: State, history: map<int, int>, before: int, now: int)
    requires Tracks(s, history, before) && before <= now
    ensures RecentGpus(s, now) == Window(history, now)
  {
    forall k
      ensures k in RecentGpus(s, now) <==> k in Window(history, now)
    {
    }
  }

  lemma TracksStep(s: State, op: Op, history: map<int, int>, before: int)
    requires Tracks(s, history, before) && before <= op.now
    ensures var (t, reply) := Apply(s, op);
            var grown := if reply == GpuClaimed && op.ClaimGpu? then history[op.id := op.now] else history;
            Tracks(t, grown, op.now)
  {
  }

  function Latest(ops: seq<Op>, start: int, n: nat): int
    requires n <= |ops|
  {
    if n == 0 then start else ops[n - 1].now
  }

  /** A state without claims, from which runs start. */
  predicate NoClaims(s: State) {
    s.videos == map[] && s.nextId >= 0 && forall k :: k in s.gpus ==> s.gpus[k].None? && k < s.nextId
  }

  lemma {:induction false} RunTracks(states: seq<State>, ops: seq<Op>, replies: seq<Reply>, start: int, n: nat)
    requires IsRun(states, ops, replies) && Monotone(ops) && NoClaims(states[0]) && n <= |ops|
    requires forall i :: 0 <= i < |ops| ==> start <= ops[i].now
    ensures Tracks(states[n], ClaimsSoFar(ops, replies, n), Latest(ops, start, n))
    ensures Limited(ClaimsSoFar(ops, replies, n), GPU_DAILY_LIMIT)
  {
    if n == 0 {
      forall t: int
        ensures |Window(map[], t)| <= GPU_DAILY_LIMIT
      {
        assert Window(map[], t) == {};
      }
    } else {
      RunTracks(states, ops, replies, start, n - 1);
      var history, op := ClaimsSoFar(ops, replies, n - 1), ops[n - 1];
      TracksStep(states[n - 1], op, history, Latest(ops, start, n - 1));
      if op.ClaimGpu? && replies[n - 1] == GpuClaimed {
        TracksDecides(states[n - 1], history, Latest(ops, start, n - 1), op.now);
        ClaimKeepsLimited(history, op.id, op.now, GPU_DAILY_LIMIT);
      }
    }
  }

  /** At every request the limit counts on the cleaned table what it would count on the full history. */
  lemma CleanedTableDecidesAlike(
    states: seq<State>, ops: seq<Op>, replies: seq<Reply>, start: int, n: nat)
    requires IsRun(states, ops, replies) && Monotone(ops) && NoClaims(states[0]) && n < |ops|
    requires forall i :: 0 <= i < |ops| ==> start <= ops[i].now
    ensures RecentGpus(states[n], ops[n].now) == Window(ClaimsSoFar(ops, replies, n), ops[n].now)
  {
    RunTracks(states, ops, replies, start, n);
    TracksDecides(states[n], ClaimsSoFar(ops, replies, n), Latest(ops, start, n), ops[n].now);
  }

  /** No 24 hours of any run have more than 24 GPU claims, deleted ones included. */
  lemma GpuLimit(states: seq<State>, ops: seq<Op>, replies: seq<Reply>, start: int, t: int)
    requires IsRun(states, ops, replies) && Monotone(ops) && NoClaims(states[0])
    requires forall i :: 0 <= i < |ops| ==> start <= ops[i].now
    ensures |Window(ClaimsSoFar(ops, replies, |ops|), t)| <= 24
  {
    RunTracks(states, ops, replies, start, |ops|);
  }

  /** No 24 hours of any run grant more than 1440 of video reward. */
  lemma {:induction false} VideoLimit(states: seq<State>, ops: seq<Op>, replies: seq<Reply>, start: int, n: nat)
    requires IsRun(states, ops, replies) && Monotone(ops) && NoClaims(states[0]) && n <= |ops|
    requires forall i :: 0 <= i < |ops| ==> start <= ops[i].now
    ensures forall t: int :: VIDEO_REWARD * |Window(states[n].videos, t)| <= VIDEO_DAILY_LIMIT
    ensures Limited(states[n].videos, 480)
    ensures forall k :: k in states[n].videos ==> k < states[n].nextId && states[n].videos[k] <= Latest(ops, start, n)
  {
    if n == 0 {
      forall t: int
        ensures |Window(states[0].videos, t)| <= 480
      {
        assert Window(states[0].videos, t) == {};
      }
    } else {
      VideoLimit(states, ops, replies, start, n - 1);
      var s, op := states[n - 1], ops[n - 1];
      if op.ClaimVideo? && replies[n - 1] == VideoClaimed {
        assert forall k :: k in RecentVideos(s, op.now) <==> k in Window(s.videos, op.now);
        assert RecentVideos(s, op.now) == Window(s.videos, op.now);
        ClaimKeepsLimited(s.videos, s.nextId, op.now, 480);
      }
    }
  }
}
