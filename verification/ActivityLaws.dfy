/** When heartbeats and claims are granted, and what they then do, said of times and numbers alone. */
module ActivityLaws {
  import opened ActivityModel
  import opened Tables

  /**
   * A heartbeat is accepted exactly when its kind is known, nothing marks a bot, the fingerprint reads and is at most
   * 5 s ahead and 60 s behind, and the last accepted one is 8 s back; it then credits 10 s of its kind.
   */
  lemma HeartbeatCreditsIff(s: State, kind: Option<Kind>, bot: bool, readable: bool, ts: Option<int>, now: int)
    ensures var (t, reply) := Apply(s, Heartbeat(kind, bot, readable, ts, now));
            if kind.Some? && !bot && readable && (ts.Some? ==> now - 60_000 <= ts.value <= now + 5_000)
               && (s.lastBeat.Some? ==> now - s.lastBeat.value >= 8_000)
            then
              && reply == Accepted(kind.value)
              && t == s.(lastBeat := Some(now), ytSeconds := s.ytSeconds + (if kind == Some(Youtube) then 10 else 0),
                         amSeconds := s.amSeconds + if kind == Some(AutoMining) then 10 else 0)
            else !reply.Accepted? && t == s
  {
  }

  /** A video claim is granted exactly with 60 s to spend and fewer than 480 claims in the last 24 hours. */
  lemma VideoClaimedIff(s: State, named: bool, now: int)
    ensures var (t, reply) := Apply(s, ClaimVideo(named, now));
            var recent := set k | k in s.videos && s.videos[k] > now - 86_400_000;
            if named && s.ytSeconds >= 60 && |recent| < 480 then
              && reply == VideoClaimed
              && t == s.(ytSeconds := s.ytSeconds - 60, videos := s.videos[s.nextId := now], nextId := s.nextId + 1)
            else reply != VideoClaimed && t == s
  {
    assert RecentVideos(s, now) == set k | k in s.videos && s.videos[k] > now - 86_400_000;
  }

  /** A GPU claim is granted exactly on an unclaimed GPU, with 300 s to spend and fewer than 24 claims in 24 hours. */
  lemma GpuClaimedIff(s: State, id: int, now: int)
    ensures var (t, reply) := Apply(s, ClaimGpu(id, now));
            var recent := set k | k in s.gpus && s.gpus[k].Some? && s.gpus[k].value.claimedAt > now - 86_400_000;
            if id in s.gpus && s.gpus[id].None? && s.amSeconds >= 300 && |recent| < 24 then
              && reply == GpuClaimed
              && t == s.(amSeconds := s.amSeconds - 300, gpus := s.gpus[id := Some(Claim(now, now + 86_400_000))])
            else reply != GpuClaimed && t == s
  {
    assert RecentGpus(s, now)
           == set k | k in s.gpus && s.gpus[k].Some? && s.gpus[k].value.claimedAt > now - 86_400_000;
  }

  /** The clean-up takes the claimed GPUs whose day is over; unclaimed ones and the rest of the state stay. */
  lemma ExpiredGo(s: State, now: int)
    ensures var (t, reply) := Apply(s, RemoveExpired(now));
            && reply == Done && t.videos == s.videos && t.ytSeconds == s.ytSeconds && t.amSeconds == s.amSeconds
            && t.lastBeat == s.lastBeat && t.nextId == s.nextId
            && (forall k :: k in t.gpus <==> k in s.gpus && (s.gpus[k].None? || s.gpus[k].value.expiresAt >= now))
            && (forall k :: k in t.gpus ==> t.gpus[k] == s.gpus[k])
  {
  }

  /** A released GPU is new and unclaimed. */
  lemma ReleaseAddsOne(s: State, active: bool, now: int)
    ensures Apply(s, ReleaseGpu(active, now)) ==
            if active then (s.(gpus := s.gpus[s.nextId := None], nextId := s.nextId + 1), Done) else (s, Refused)
  {
  }
}
