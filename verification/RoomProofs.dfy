/** What every run of room requests keeps, and how the requests undo and repeat each other. */
module RoomProofs {
  import opened Machines
  import opened RoomModel
  import opened Tables

  // ---------------------------------------------------------------- slot indexes

  lemma RoomsApart(racksPerRoom: nat, room1: int, room2: int)
    requires room1 < room2
    ensures (room1 - 1) * racksPerRoom + racksPerRoom <= (room2 - 1) * racksPerRoom
  {
    var gap := room2 - 1 - room1;
    assert 0 <= gap * racksPerRoom;
    assert (room2 - 1) * racksPerRoom == (room1 + gap) * racksPerRoom == room1 * racksPerRoom + gap * racksPerRoom;
  }

  /** Rack slot indexes decode: two racks share one only when they are the same place of the same room. */
  lemma SlotIndexInjective(racksPerRoom: nat, room1: int, pos1: int, room2: int, pos2: int)
    requires 0 <= pos1 < racksPerRoom && 0 <= pos2 < racksPerRoom
    requires RackSlotIndex(racksPerRoom, room1, pos1) == RackSlotIndex(racksPerRoom, room2, pos2)
    ensures room1 == room2 && pos1 == pos2
  {
    if room1 < room2 {
      RoomsApart(racksPerRoom, room1, room2);
    } else if room2 < room1 {
      RoomsApart(racksPerRoom, room2, room1);
    }
  }

  /** The unique index on slot indexes never refuses an installation, and rack slots never meet grid slots. */
  lemma SlotIndexesDistinct(s: State, m: int, n: int)
    requires Consistent(s) && m in s.miners && n in s.miners
    ensures s.miners[m].slot == s.miners[n].slot ==> m == n
    ensures s.miners[m].slot >= 1000
  {
    var a :| Holds(s, a, m);
    var b :| Holds(s, b, n);
    assert (s.rooms[s.racks[a].room] - 1) * s.racksPerRoom >= 0;
    if s.miners[m].slot == s.miners[n].slot {
      SlotIndexInjective(s.racksPerRoom, s.rooms[s.racks[a].room], s.racks[a].position,
                         s.rooms[s.racks[b].room], s.racks[b].position);
    }
  }

  // ---------------------------------------------------------------- invariants

  lemma BuyKeepsPlaces(s: State, t: State, a: int, b: int)
    requires IdsIssued(s) && LaidOut(s) && t == BuyEffect(s)
    requires a in t.racks && b in t.racks && SamePlace(t.racks[a], t.racks[b])
    ensures a == b
  {
    assert a in s.racks ==> t.racks[a] == s.racks[a] && s.racks[a].room != s.nextRoom;
    assert b in s.racks ==> t.racks[b] == s.racks[b] && s.racks[b].room != s.nextRoom;
  }

  lemma BuyKeepsIds(s: State, t: State)
    requires IdsIssued(s) && t == BuyEffect(s)
    ensures IdsIssued(t)
  {
  }

  lemma NextNumber(rooms: map<int, int>, room: int)
    requires Numbered(rooms) && room !in rooms
    ensures Numbered(rooms[room := |rooms| + 1])
  {
    var grown := rooms[room := |rooms| + 1];
    assert |grown| == |rooms| + 1;
  }

  lemma BuyKeepsLaidOut(s: State, t: State)
    requires IdsIssued(s) && LaidOut(s) && t == BuyEffect(s)
    ensures LaidOut(t)
  {
    forall a, b | a in t.racks && b in t.racks && SamePlace(t.racks[a], t.racks[b])
      ensures a == b
    {
      BuyKeepsPlaces(s, t, a, b);
    }
    NextNumber(s.rooms, s.nextRoom);
    forall r | r in t.racks
      ensures t.racks[r].room in t.rooms && 0 <= t.racks[r].position < t.racksPerRoom
    {
      assert r in s.racks ==> t.racks[r].room in s.rooms;
    }
  }

  lemma BuyKeepsHolds(s: State, t: State, r: int, m: int)
    requires IdsIssued(s) && LaidOut(s) && t == BuyEffect(s)
    ensures Holds(t, r, m) <==> Holds(s, r, m)
    ensures Holds(s, r, m) ==> t.racks[r] == s.racks[r] && s.racks[r].room in s.rooms
                               && t.rooms[s.racks[r].room] == s.rooms[s.racks[r].room]
  {
  }

  lemma BuyKeepsSeated(s: State, t: State)
    requires IdsIssued(s) && LaidOut(s) && Seated(s) && t == BuyEffect(s)
    ensures Seated(t)
  {
    forall r, m
      ensures Holds(t, r, m) <==> Holds(s, r, m)
      ensures Holds(s, r, m) ==> t.racks[r] == s.racks[r] && s.racks[r].room in s.rooms
                                 && t.rooms[s.racks[r].room] == s.rooms[s.racks[r].room]
    {
      BuyKeepsHolds(s, t, r, m);
    }
    forall m | m in t.miners
      ensures exists r :: Holds(t, r, m)
    {
      var r :| Holds(s, r, m);
      assert Holds(t, r, m);
    }
  }

  lemma BuyKeepsBlocking(s: State, t: State)
    requires Consistent(s) && t == BuyEffect(s)
    ensures Blocking(t)
  {
    assert forall r, m :: Holds(t, r, m) <==> Holds(s, r, m);
    forall q, r | q in s.racks
      ensures Follows(t, q, r) <==> Follows(s, q, r)
    {
    }
    assert forall q, r, m :: Blocks(t, q, r, m) <==> Blocks(s, q, r, m);
  }

  lemma BuyKeepsConsistent(s: State, t: State)
    requires Consistent(s) && t == BuyEffect(s)
    ensures Consistent(t)
  {
    BuyKeepsIds(s, t);
    BuyKeepsLaidOut(s, t);
    BuyKeepsSeated(s, t);
    BuyKeepsBlocking(s, t);
  }

  /** An installable item's machine blocks one rack at most. */
  lemma AtMostOneNext(s: State, rackId: int, a: int, b: int)
    requires LaidOut(s) && rackId in s.racks && a in NextRacks(s, rackId) && b in NextRacks(s, rackId)
    ensures a == b
  {
    assert SamePlace(s.racks[a], s.racks[b]);
  }

  lemma InstallKeepsLaidOut(s: State, rackId: int, itemId: int)
    requires Consistent(s) && InstallVerdict(s, rackId, itemId) == Ok
    ensures rackId in s.racks && s.racks[rackId].room in s.rooms && itemId in s.inventory
    ensures IdsIssued(InstallEffect(s, rackId, itemId)) && LaidOut(InstallEffect(s, rackId, itemId))
  {
    var t := InstallEffect(s, rackId, itemId);
    forall a, b | a in t.racks && b in t.racks && SamePlace(t.racks[a], t.racks[b])
      ensures a == b
    {
      assert SamePlace(s.racks[a], s.racks[b]);
    }
  }

  lemma InstallKeepsSeated(s: State, rackId: int, itemId: int)
    requires Consistent(s) && InstallVerdict(s, rackId, itemId) == Ok
    requires rackId in s.racks && s.racks[rackId].room in s.rooms && itemId in s.inventory
    ensures Seated(InstallEffect(s, rackId, itemId))
  {
    var t := InstallEffect(s, rackId, itemId);
    forall r, m
      ensures Holds(t, r, m) <==> (if r == rackId then m == s.nextMiner else Holds(s, r, m))
    {
    }
    forall m | m in t.miners
      ensures exists r :: Holds(t, r, m)
    {
      if m == s.nextMiner {
        assert Holds(t, rackId, m);
      } else {
        var r :| Holds(s, r, m);
        assert Holds(t, r, m);
      }
    }
  }

  /** After an installation the new machine blocks the rack after it, for two slots; the others block as before. */
  lemma InstallBlocks(s: State, rackId: int, itemId: int, q: int, r: int, m: int)
    requires IdsIssued(s) && Seated(s)
    requires rackId in s.racks && s.racks[rackId].room in s.rooms && itemId in s.inventory
    requires s.racks[rackId].installed.None?
    ensures Blocks(InstallEffect(s, rackId, itemId), q, r, m) <==>
            if q == rackId then s.inventory[itemId].slotSize == 2 && m == s.nextMiner && Follows(s, q, r)
            else Blocks(s, q, r, m)
  {
    var t := InstallEffect(s, rackId, itemId);
    assert Follows(t, q, r) <==> Follows(s, q, r);
    if q != rackId {
      assert Holds(t, q, m) <==> Holds(s, q, m);
    }
  }

  lemma InstallLinksCalledFor(s: State, rackId: int, itemId: int, r: int)
    requires IdsIssued(s) && Seated(s) && Blocking(s) && InstallVerdict(s, rackId, itemId) == Ok
    requires rackId in s.racks && s.racks[rackId].room in s.rooms && itemId in s.inventory
    requires var t := InstallEffect(s, rackId, itemId); r in t.racks && t.racks[r].blockedBy.Some?
    ensures var t := InstallEffect(s, rackId, itemId); exists q :: Blocks(t, q, r, t.racks[r].blockedBy.value)
  {
    var t := InstallEffect(s, rackId, itemId);
    if s.inventory[itemId].slotSize == 2 && r in NextRacks(s, rackId) {
      InstallBlocks(s, rackId, itemId, rackId, r, s.nextMiner);
      assert Blocks(t, rackId, r, s.nextMiner);
    } else {
      var m := s.racks[r].blockedBy.value;
      var q :| Blocks(s, q, r, m);
      InstallBlocks(s, rackId, itemId, q, r, m);
      assert Blocks(t, q, r, m);
    }
  }

  lemma InstallLinksPresent(s: State, rackId: int, itemId: int, q: int, r: int, m: int)
    requires Consistent(s) && InstallVerdict(s, rackId, itemId) == Ok
    requires rackId in s.racks && s.racks[rackId].room in s.rooms && itemId in s.inventory
    requires Blocks(InstallEffect(s, rackId, itemId), q, r, m)
    ensures InstallEffect(s, rackId, itemId).racks[r].blockedBy == Some(m)
  {
    InstallBlocks(s, rackId, itemId, q, r, m);
    if q == rackId {
      assert r in NextRacks(s, rackId);
    } else {
      assert s.racks[r].blockedBy == Some(m);
    }
  }

  lemma InstallHasNext(s: State, rackId: int, itemId: int, q: int, m: int)
    requires Consistent(s) && InstallVerdict(s, rackId, itemId) == Ok
    requires rackId in s.racks && s.racks[rackId].room in s.rooms && itemId in s.inventory
    requires var t := InstallEffect(s, rackId, itemId);
             Holds(t, q, m) && m in t.miners && t.miners[m].machine.slotSize == 2
    ensures exists r :: Follows(InstallEffect(s, rackId, itemId), q, r)
  {
    var t := InstallEffect(s, rackId, itemId);
    if q == rackId {
      var r := Element(NextRacks(s, rackId));
      assert Follows(t, rackId, r);
    } else {
      assert Holds(s, q, m);
      var r :| Follows(s, q, r);
      assert Follows(t, q, r);
    }
  }

  lemma InstallNeverBoth(s: State, rackId: int, itemId: int, r: int)
    requires Consistent(s) && InstallVerdict(s, rackId, itemId) == Ok
    requires rackId in s.racks && s.racks[rackId].room in s.rooms && itemId in s.inventory && r in s.racks
    ensures var rack := InstallEffect(s, rackId, itemId).racks[r]; rack.installed.None? || rack.blockedBy.None?
  {
    if s.inventory[itemId].slotSize == 2 && r in NextRacks(s, rackId) {
      assert !Occupied(s.racks[r]);
    }
  }

  lemma InstallKeepsBlocking(s: State, rackId: int, itemId: int)
    requires Consistent(s) && InstallVerdict(s, rackId, itemId) == Ok
    requires rackId in s.racks && s.racks[rackId].room in s.rooms && itemId in s.inventory
    ensures Blocking(InstallEffect(s, rackId, itemId))
  {
    var t := InstallEffect(s, rackId, itemId);
    forall r | r in t.racks && t.racks[r].blockedBy.Some?
      ensures exists q :: Blocks(t, q, r, t.racks[r].blockedBy.value)
    {
      InstallLinksCalledFor(s, rackId, itemId, r);
    }
    forall q, r, m | Blocks(t, q, r, m)
      ensures t.racks[r].blockedBy == Some(m)
    {
      InstallLinksPresent(s, rackId, itemId, q, r, m);
    }
    forall r | r in t.racks
      ensures t.racks[r].installed.None? || t.racks[r].blockedBy.None?
    {
      InstallNeverBoth(s, rackId, itemId, r);
    }
    forall q, m | Holds(t, q, m) && m in t.miners && t.miners[m].machine.slotSize == 2
      ensures exists r :: Follows(t, q, r)
    {
      InstallHasNext(s, rackId, itemId, q, m);
    }
  }

  lemma InstallKeepsConsistent(s: State, rackId: int, itemId: int)
    requires Consistent(s) && InstallVerdict(s, rackId, itemId) == Ok
    ensures rackId in s.racks && s.racks[rackId].room in s.rooms && itemId in s.inventory
    ensures Consistent(InstallEffect(s, rackId, itemId))
  {
    InstallKeepsLaidOut(s, rackId, itemId);
    InstallKeepsSeated(s, rackId, itemId);
    InstallKeepsBlocking(s, rackId, itemId);
  }

  /** Clearing the rack and the links of its room clears every link to the machine. */
  lemma ReleasesInRoom(s: State, rackId: int, m: int)
    requires Consistent(s) && Holds(s, rackId, m)
    ensures ClearRack(s.racks, rackId, m) == Release(s.racks, {m})
  {
    forall r | r in s.racks && s.racks[r].blockedBy == Some(m)
      ensures s.racks[r].room == s.racks[rackId].room
    {
      var q :| Blocks(s, q, r, m);
      assert q == rackId;
    }
    forall r | r in s.racks && s.racks[r].installed == Some(m)
      ensures r == rackId
    {
      assert Holds(s, r, m);
    }
  }

  lemma UninstallKeepsLaidOut(s: State, rackId: int)
    requires Consistent(s) && UninstallVerdict(s, rackId) == Ok
    ensures rackId in s.racks && Holds(s, rackId, s.racks[rackId].installed.value)
    ensures s.racks[rackId].installed.value in s.miners
    ensures IdsIssued(UninstallEffect(s, rackId)) && LaidOut(UninstallEffect(s, rackId))
  {
    var m := s.racks[rackId].installed.value;
    assert Holds(s, rackId, m);
    var t := UninstallEffect(s, rackId);
    forall a, b | a in t.racks && b in t.racks && SamePlace(t.racks[a], t.racks[b])
      ensures a == b
    {
      assert SamePlace(s.racks[a], s.racks[b]);
    }
  }

  lemma UninstallKeepsSeated(s: State, rackId: int)
    requires Consistent(s) && UninstallVerdict(s, rackId) == Ok
    requires rackId in s.racks && s.racks[rackId].installed.value in s.miners
    ensures Seated(UninstallEffect(s, rackId))
  {
    var out := s.racks[rackId].installed.value;
    ReleasesInRoom(s, rackId, out);
    var t := UninstallEffect(s, rackId);
    forall r, m
      ensures Holds(t, r, m) <==> Holds(s, r, m) && m != out
    {
    }
    forall m | m in t.miners
      ensures exists r :: Holds(t, r, m)
    {
      var r :| Holds(s, r, m);
      assert Holds(t, r, m);
    }
  }

  lemma UninstallKeepsBlocking(s: State, rackId: int)
    requires Consistent(s) && UninstallVerdict(s, rackId) == Ok
    requires rackId in s.racks && s.racks[rackId].installed.value in s.miners
    ensures Blocking(UninstallEffect(s, rackId))
  {
    var out := s.racks[rackId].installed.value;
    ReleasesInRoom(s, rackId, out);
    var t := UninstallEffect(s, rackId);
    forall r, m
      ensures Holds(t, r, m) <==> Holds(s, r, m) && m != out
    {
    }
    forall q, r
      ensures Follows(t, q, r) <==> Follows(s, q, r)
    {
    }
    assert forall q, r, m :: Blocks(t, q, r, m) <==> Blocks(s, q, r, m) && m != out;
    forall r | r in t.racks && t.racks[r].blockedBy.Some?
      ensures exists q :: Blocks(t, q, r, t.racks[r].blockedBy.value)
    {
      var q :| Blocks(s, q, r, s.racks[r].blockedBy.value);
      assert Blocks(t, q, r, t.racks[r].blockedBy.value);
    }
    forall q, m | Holds(t, q, m) && m in t.miners && t.miners[m].machine.slotSize == 2
      ensures exists r :: Follows(t, q, r)
    {
      var r :| Follows(s, q, r);
      assert Follows(t, q, r);
    }
  }

  lemma UninstallKeepsConsistent(s: State, rackId: int)
    requires Consistent(s) && UninstallVerdict(s, rackId) == Ok
    ensures rackId in s.racks && s.racks[rackId].installed.value in s.miners
    ensures Consistent(UninstallEffect(s, rackId))
  {
    UninstallKeepsLaidOut(s, rackId);
    UninstallKeepsSeated(s, rackId);
    UninstallKeepsBlocking(s, rackId);
  }

  lemma {:induction false} EachKeepsConsistent(s: State, ids: seq<int>)
    requires Consistent(s)
    ensures Consistent(UninstallEach(s, ids))
  {
    if ids == [] {
    } else {
      var before, last := UninstallEach(s, ids[..|ids| - 1]), ids[|ids| - 1];
      EachKeepsConsistent(s, ids[..|ids| - 1]);
      if UninstallVerdict(before, last) == Ok {
        UninstallKeepsConsistent(before, last);
      }
    }
  }

  lemma NextKeepsConsistent(s: State, op: Op, t: State, r: Result)
    requires Consistent(s) && Next(s, op, t, r)
    ensures Consistent(t)
  {
    if r == Ok {
      match op
      case BuyRoom(_) => BuyKeepsConsistent(s, t);
      case Install(rackId, itemId) => InstallKeepsConsistent(s, rackId, itemId);
      case Uninstall(rackId) => UninstallKeepsConsistent(s, rackId);
      case UninstallBatch(raw) => EachKeepsConsistent(s, Normalize(raw));
    }
  }

  datatype Step = Step(op: Op, result: Result)

  ghost predicate IsRun(states: seq<State>, steps: seq<Step>) {
    && |states| == |steps| + 1
    && forall i :: 0 <= i < |steps| ==> Next(states[i], steps[i].op, states[i + 1], steps[i].result)
  }

  lemma {:induction false} RunKeepsConsistent(states: seq<State>, steps: seq<Step>, i: nat)
    requires IsRun(states, steps) && Consistent(states[0]) && i < |states|
    ensures Consistent(states[i])
  {
    if i == 0 {
    } else {
      RunKeepsConsistent(states, steps, i - 1);
      NextKeepsConsistent(states[i - 1], steps[i - 1].op, states[i], steps[i - 1].result);
    }
  }

  /** In every reachable state a rack is blocked by m exactly when the one before it in its row holds the two-slot m. */
  lemma BlockedIff(states: seq<State>, steps: seq<Step>, i: nat, r: int, m: int)
    requires IsRun(states, steps) && Consistent(states[0]) && i < |states| && r in states[i].racks
    ensures states[i].racks[r].blockedBy == Some(m) <==> exists q :: Blocks(states[i], q, r, m)
    ensures !(states[i].racks[r].installed.Some? && states[i].racks[r].blockedBy.Some?)
    ensures forall r' :: Holds(states[i], r, m) && Holds(states[i], r', m) ==> r == r'
  {
    RunKeepsConsistent(states, steps, i);
  }
}
