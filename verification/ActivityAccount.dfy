/** The heartbeat, video and GPU handlers as they run for one player. */
module ActivityAccount {
  import opened ActivityModel
  import opened Tables

  class Account {
    var lastBeat: Option<int>
    var ytSeconds: int
    var amSeconds: int
    var gpus: map<int, Option<Claim>>
    var videos: map<int, int>
    var nextId: int

    constructor ()
      ensures Snapshot() == State(None, 0, 0, map[], map[], 1) && NoClaims(Snapshot())
    {
      lastBeat, ytSeconds, amSeconds, gpus, videos, nextId := None, 0, 0, map[], map[], 1;
    }

    function Snapshot(): State
      reads this
    {
      State(lastBeat, ytSeconds, amSeconds, gpus, videos, nextId)
    }

    /** sessionController.processHeartbeat; `readable` says whether the fingerprint decodes, `ts` what it says. */
    method ProcessHeartbeat(kind: Option<Kind>, bot: bool, readable: bool, ts: Option<int>, now: int)
      returns (reply: Reply)
      modifies this
      ensures (Snapshot(), reply) == Apply(old(Snapshot()), Heartbeat(kind, bot, readable, ts, now))
    {
      if kind.None? { return Refused; }
      if bot { return Refused; }
      if !readable { return Refused; }
      if ts.Some? && (ts.value > now + 5000 || ts.value < now - 60000) { return Refused; }
      if lastBeat.Some? {
        var diff := now - lastBeat.value;
        if diff < THROTTLE_MS { return Throttled; }
      }
      lastBeat := Some(now);
      if kind.value == Youtube {
        ytSeconds := ytSeconds + BEAT_SECONDS;
      } else {
        amSeconds := amSeconds + BEAT_SECONDS;
      }
      return Accepted(kind.value);
    }

    /** youtubeController.claimReward */
    method ClaimReward(named: bool, now: int) returns (reply: Reply)
      modifies this
      ensures (Snapshot(), reply) == Apply(old(Snapshot()), ClaimVideo(named, now))
    {
      if !named { return Refused; }
      if ytSeconds < VIDEO_COST { return Refused; }
      var claims24h := set k | k in videos && videos[k] > now - DAY_MS;
      assert claims24h == RecentVideos(Snapshot(), now);
      var currentDailyHash := VIDEO_REWARD * |claims24h|;
      if currentDailyHash + VIDEO_REWARD > VIDEO_DAILY_LIMIT { return LimitReached; }
      videos := videos[nextId := now];
      nextId := nextId + 1;
      ytSeconds := ytSeconds - VIDEO_COST;
      return VideoClaimed;
    }

    /** autoMiningGpuModel.releaseNewGPU; `active` says whether its reward is. */
    method ReleaseNewGpu(active: bool, now: int) returns (reply: Reply)
      modifies this
      ensures (Snapshot(), reply) == Apply(old(Snapshot()), ReleaseGpu(active, now))
    {
      if !active { return Refused; }
      gpus := gpus[nextId := None];
      nextId := nextId + 1;
      return Done;
    }

    /** autoMiningGpuModel.claimGPU */
    method ClaimGpuReward(gpuId: int, now: int) returns (reply: Reply)
      modifies this
      ensures (Snapshot(), reply) == Apply(old(Snapshot()), ClaimGpu(gpuId, now))
    {
      if gpuId !in gpus || gpus[gpuId].Some? { return Refused; }
      var yesterday := now - DAY_MS;
      var claims24h := set k | k in gpus && gpus[k].Some? && gpus[k].value.claimedAt > yesterday;
      assert claims24h == RecentGpus(Snapshot(), now);
      if |claims24h| >= GPU_DAILY_LIMIT { return LimitReached; }
      if amSeconds < GPU_COST { return Refused; }
      var expiresAt := now + DAY_MS;
      gpus := gpus[gpuId := Some(Claim(now, expiresAt))];
      amSeconds := amSeconds - GPU_COST;
      return GpuClaimed;
    }

    /** autoMiningGpuModel.removeExpiredGPUs: collect the ids, then delete them. */
    method RemoveExpiredGpus(now: int) returns (removed: nat)
      modifies `gpus
      ensures (Snapshot(), Done) == Apply(old(Snapshot()), RemoveExpired(now))
      ensures removed + |gpus| == |old(gpus)|
    {
      var ids := set k | k in gpus && gpus[k].Some? && gpus[k].value.expiresAt < now;
      removed := |ids|;
      ghost var before := gpus;
      gpus := gpus - ids;
      assert gpus == Unexpired(before, now);
      assert before.Keys == gpus.Keys + ids;
    }
  }
}
