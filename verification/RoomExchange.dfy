/** How room requests undo, repeat and count each other. */
module RoomExchange {
  import opened Machines
  import opened RoomModel
  import opened RoomProofs
  import opened Tables

  // ---------------------------------------------------------------- machines kept

  /** How many machines like `m` the player has, on racks or in the inventory. */
  ghost function Owned(s: State, m: Machine): nat {
    Copies(Payloads(s.miners), m) + Copies(s.inventory, m)
  }

  lemma InstallKeepsOwned(s: State, rackId: int, itemId: int, m: Machine)
    requires Consistent(s) && InstallVerdict(s, rackId, itemId) == Ok
    ensures rackId in s.racks && s.racks[rackId].room in s.rooms && itemId in s.inventory
    ensures Owned(InstallEffect(s, rackId, itemId), m) == Owned(s, m)
  {
    var placed := InstallEffect(s, rackId, itemId).miners[s.nextMiner];
    AddPayload(s.miners, s.nextMiner, placed, m);
    CopiesRemove(s.inventory, itemId, m);
  }

  lemma UninstallKeepsOwned(s: State, rackId: int, m: Machine)
    requires Consistent(s) && UninstallVerdict(s, rackId) == Ok
    ensures rackId in s.racks && s.racks[rackId].installed.value in s.miners
    ensures Owned(UninstallEffect(s, rackId), m) == Owned(s, m)
  {
    UninstallKeepsLaidOut(s, rackId);
    var id := s.racks[rackId].installed.value;
    TakePayload(s.miners, id, m);
    CopiesInsert(s.inventory, s.nextItem, s.miners[id].machine, m);
  }

  lemma {:induction false} EachKeepsOwned(s: State, ids: seq<int>, m: Machine)
    requires Consistent(s)
    ensures Owned(UninstallEach(s, ids), m) == Owned(s, m)
  {
    if ids == [] {
    } else {
      var before, last := UninstallEach(s, ids[..|ids| - 1]), ids[|ids| - 1];
      EachKeepsConsistent(s, ids[..|ids| - 1]);
      EachKeepsOwned(s, ids[..|ids| - 1], m);
      if UninstallVerdict(before, last) == Ok {
        UninstallKeepsOwned(before, last, m);
      }
    }
  }

  lemma NextKeepsOwned(s: State, op: Op, t: State, r: Result, m: Machine)
    requires Consistent(s) && Next(s, op, t, r)
    ensures Owned(t, m) == Owned(s, m)
  {
    if r == Ok {
      match op
      case BuyRoom(_) =>
      case Install(rackId, itemId) => InstallKeepsOwned(s, rackId, itemId, m);
      case Uninstall(rackId) => UninstallKeepsOwned(s, rackId, m);
      case UninstallBatch(raw) => EachKeepsOwned(s, Normalize(raw), m);
    }
  }

  lemma StepKeepsOwned(states: seq<State>, steps: seq<Step>, i: nat, m: Machine)
    requires IsRun(states, steps) && Consistent(states[0]) && i < |steps|
    ensures Owned(states[i + 1], m) == Owned(states[i], m)
  {
    RunKeepsConsistent(states, steps, i);
    NextKeepsOwned(states[i], steps[i].op, states[i + 1], steps[i].result, m);
  }

  lemma {:induction false} OwnedAlong(states: seq<State>, i: nat, m: Machine)
    requires i < |states| && forall k :: 0 <= k < i ==> Owned(states[k + 1], m) == Owned(states[k], m)
    ensures Owned(states[i], m) == Owned(states[0], m)
  {
    if i == 0 {
    } else {
      OwnedAlong(states, i - 1, m);
      assert Owned(states[i - 1 + 1], m) == Owned(states[i - 1], m);
    }
  }

  /** Over a whole run no machine appears, disappears or changes. */
  lemma RunKeepsOwned(states: seq<State>, steps: seq<Step>, i: nat, m: Machine)
    requires IsRun(states, steps) && Consistent(states[0]) && i < |states|
    ensures Owned(states[i], m) == Owned(states[0], m)
  {
    forall k | 0 <= k < i
      ensures Owned(states[k + 1], m) == Owned(states[k], m)
    {
      StepKeepsOwned(states, steps, k, m);
    }
    OwnedAlong(states, i, m);
  }

  // ---------------------------------------------------------------- install, then uninstall

  /** Uninstalling what was just installed restores the racks, the machines and the inventory but for one row id. */
  lemma InstallThenUninstall(s: State, rackId: int, itemId: int, t: State, u: State)
    requires Consistent(s)
    requires Next(s, Install(rackId, itemId), t, Ok) && Next(t, Uninstall(rackId), u, UninstallVerdict(t, rackId))
    ensures UninstallVerdict(t, rackId) == Ok
    ensures u.rooms == s.rooms && u.racks == s.racks && u.miners == s.miners
    ensures itemId in s.inventory
    ensures u.inventory == (s.inventory - {itemId})[s.nextItem := s.inventory[itemId]]
    ensures forall m :: Copies(u.inventory, m) == Copies(s.inventory, m)
  {
    InstallKeepsConsistent(s, rackId, itemId);
    ReinstatesRacks(s, rackId, itemId, t);
    UninstallsInstalled(s, rackId, itemId, t);
    SwapRow(s.inventory, itemId, s.nextItem);
  }

  /** What uninstalling does to the state an installation left, given that it clears the links. */
  lemma UninstallsInstalled(s: State, rackId: int, itemId: int, t: State)
    requires rackId > 0 && rackId in s.racks && s.racks[rackId].room in s.rooms && itemId in s.inventory
    requires t == InstallEffect(s, rackId, itemId) && s.nextMiner !in s.miners
    requires ClearRack(t.racks, rackId, s.nextMiner) == s.racks
    ensures UninstallVerdict(t, rackId) == Ok && t.racks[rackId].installed == Some(s.nextMiner)
    ensures s.nextMiner in t.miners
    ensures var u := UninstallEffect(t, rackId);
            && u.rooms == s.rooms && u.racks == s.racks && u.miners == s.miners
            && u.inventory == (s.inventory - {itemId})[s.nextItem := s.inventory[itemId]]
  {
  }

  /** Filing a row under another id changes no count. */
  lemma SwapRow(inventory: map<int, Machine>, id: int, next: int)
    requires id in inventory && next !in inventory
    ensures forall m :: Copies((inventory - {id})[next := inventory[id]], m) == Copies(inventory, m)
  {
    forall m
      ensures Copies((inventory - {id})[next := inventory[id]], m) == Copies(inventory, m)
    {
      CopiesRemove(inventory, id, m);
      CopiesInsert(inventory - {id}, next, inventory[id], m);
    }
  }

  lemma ReinstatesRacks(s: State, rackId: int, itemId: int, t: State)
    requires Consistent(s) && Consistent(t) && InstallVerdict(s, rackId, itemId) == Ok
    requires s.racks[rackId].room in s.rooms && t == InstallEffect(s, rackId, itemId)
    ensures ClearRack(t.racks, rackId, s.nextMiner) == s.racks
  {
    assert Holds(t, rackId, s.nextMiner);
    ReleasesInRoom(t, rackId, s.nextMiner);
    forall r | r in s.racks
      ensures s.racks[r].installed != Some(s.nextMiner) && s.racks[r].blockedBy != Some(s.nextMiner)
    {
      UnusedLink(s, r);
    }
    ReleaseInstalled(s, rackId, itemId, t);
  }

  lemma ReleaseInstalled(s: State, rackId: int, itemId: int, t: State)
    requires InstallVerdict(s, rackId, itemId) == Ok
    requires s.racks[rackId].room in s.rooms && t == InstallEffect(s, rackId, itemId)
    requires forall r :: r in s.racks ==>
               s.racks[r].installed != Some(s.nextMiner) && s.racks[r].blockedBy != Some(s.nextMiner)
    ensures Release(t.racks, {s.nextMiner}) == s.racks
  {
    forall r | r in s.racks
      ensures Release(t.racks, {s.nextMiner})[r] == s.racks[r]
    {
    }
  }

  /** No link names the id the next machine will get. */
  lemma UnusedLink(s: State, r: int)
    requires Consistent(s) && r in s.racks
    ensures s.racks[r].installed != Some(s.nextMiner) && s.racks[r].blockedBy != Some(s.nextMiner)
  {
    if s.racks[r].installed.Some? {
      assert Holds(s, r, s.racks[r].installed.value);
    }
    if s.racks[r].blockedBy.Some? {
      var q :| Blocks(s, q, r, s.racks[r].blockedBy.value);
    }
  }

  // ---------------------------------------------------------------- batches

  predicate Distinct(ids: seq<int>) { forall a, b :: 0 <= a < b < |ids| ==> ids[a] != ids[b] }

  predicate AllInstalled(s: State, ids: seq<int>) {
    forall i :: i in ids ==> i > 0 && i in s.racks && s.racks[i].installed.Some?
  }

  /** A batch is granted exactly when each of its racks holds a machine; otherwise it changes nothing. */
  lemma BatchGrantedIff(s: State, raw: seq<int>, t: State, r: Result)
    requires Next(s, UninstallBatch(raw), t, r)
    ensures r == Ok <==> Normalize(raw) != [] && AllInstalled(s, Normalize(raw))
    ensures r != Ok ==> t == s
  {
    FaultlessIff(s, Normalize(raw));
  }

  lemma {:induction false} FaultlessIff(s: State, ids: seq<int>)
    ensures FirstFault(s, ids) == Ok <==> forall i :: i in ids ==> i in s.racks && s.racks[i].installed.Some?
  {
    if ids == [] {
    } else {
      FaultlessIff(s, ids[1..]);
      assert forall i :: i in ids <==> i == ids[0] || i in ids[1..];
    }
  }

  /** The machines on the listed racks. */
  function Seats(s: State, ids: seq<int>): set<int>
    requires AllInstalled(s, ids)
  {
    set i | i in ids :: s.racks[i].installed.value
  }

  lemma ReleaseTwice(racks: map<int, Rack>, a: set<int>, b: set<int>)
    ensures Release(Release(racks, a), b) == Release(racks, a + b)
    ensures Release(racks, {}) == racks
  {
    forall r | r in racks
      ensures Release(Release(racks, a), b)[r] == Release(racks, a + b)[r]
      ensures Release(racks, {})[r] == racks[r]
    {
    }
  }

  lemma OneMoreSeat(s: State, front: seq<int>, last: int, m: int)
    requires Seated(s) && AllInstalled(s, front) && last !in front && Holds(s, last, m)
    requires AllInstalled(s, front + [last])
    ensures m !in Seats(s, front)
    ensures Seats(s, front + [last]) == Seats(s, front) + {m}
  {
    if m in Seats(s, front) {
      var i :| i in front && s.racks[i].installed.value == m;
      assert Holds(s, i, m);
    }
    assert last in front + [last];
    forall k
      ensures k in Seats(s, front + [last]) <==> k in Seats(s, front) || k == m
    {
      if k in Seats(s, front + [last]) {
        var i :| i in front + [last] && s.racks[i].installed.value == k;
      }
      if k in Seats(s, front) {
        var i :| i in front && s.racks[i].installed.value == k;
        assert i in front + [last];
      }
    }
  }

  lemma StillInstalled(s: State, last: int, m: int, gone: set<int>, before: State)
    requires Seated(s) && Holds(s, last, m) && last > 0 && m !in gone
    requires before.racks == Release(s.racks, gone) && before.miners == s.miners - gone
    ensures UninstallVerdict(before, last) == Ok && Holds(before, last, m) && m in before.miners
  {
    assert before.racks[last].installed == Some(m);
  }

  /** One more granted uninstall, after those of the machines `gone`. */
  lemma OneMore(s: State, last: int, m: int, gone: set<int>, before: State)
    requires Seated(s) && Holds(s, last, m) && last > 0 && m !in gone
    requires before.racks == Release(s.racks, gone) && before.miners == s.miners - gone
    requires Holds(before, last, m) ==> ClearRack(before.racks, last, m) == Release(before.racks, {m})
    ensures UninstallVerdict(before, last) == Ok && Holds(before, last, m) && m in before.miners
    ensures UninstallEffect(before, last).racks == Release(s.racks, gone + {m})
    ensures UninstallEffect(before, last).miners == s.miners - (gone + {m})
  {
    StillInstalled(s, last, m, gone, before);
    ReleaseTwice(s.racks, gone, {m});
  }

  lemma EachUnfold(s: State, ids: seq<int>, i: nat)
    requires i < |ids|
    ensures UninstallEach(s, ids[..i + 1]) ==
            (var before := UninstallEach(s, ids[..i]);
             if UninstallVerdict(before, ids[i]) == Ok && before.racks[ids[i]].installed.value in before.miners
             then UninstallEffect(before, ids[i]) else before)
  {
    var upTo := ids[..i + 1];
    assert upTo[..|upTo| - 1] == ids[..i] && upTo[|upTo| - 1] == ids[i];
  }

  lemma FrontInstalled(s: State, ids: seq<int>)
    requires Distinct(ids) && AllInstalled(s, ids) && ids != []
    ensures var front := ids[..|ids| - 1];
            Distinct(front) && AllInstalled(s, front) && ids == front + [ids[|ids| - 1]]
  {
    var front := ids[..|ids| - 1];
    assert forall a :: 0 <= a < |front| ==> front[a] == ids[a];
    assert forall i :: i in front ==> i in ids;
  }

  lemma EachClosedEmpty(s: State)
    ensures UninstallEach(s, []).racks == Release(s.racks, Seats(s, []))
    ensures UninstallEach(s, []).miners == s.miners - Seats(s, [])
  {
    assert Seats(s, []) == {};
    ReleaseTwice(s.racks, {}, {});
    assert s.miners - {} == s.miners;
  }

  lemma EachClosedStep(s: State, ids: seq<int>, front: seq<int>, last: int, before: State)
    requires Seated(s) && Consistent(before) && Distinct(ids) && AllInstalled(s, ids) && AllInstalled(s, front)
    requires ids == front + [last] && before == UninstallEach(s, front)
    requires before.racks == Release(s.racks, Seats(s, front)) && before.miners == s.miners - Seats(s, front)
    ensures UninstallEach(s, ids).racks == Release(s.racks, Seats(s, ids))
    ensures UninstallEach(s, ids).miners == s.miners - Seats(s, ids)
  {
    var n := |ids| - 1;
    assert ids[..n] == front && ids[n] == last && ids[..n + 1] == ids;
    assert last !in front && last in ids;
    var m := s.racks[last].installed.value;
    assert Holds(s, last, m);
    OneMoreSeat(s, front, last, m);
    StillInstalled(s, last, m, Seats(s, front), before);
    ReleasesInRoom(before, last, m);
    OneMore(s, last, m, Seats(s, front), before);
    EachUnfold(s, ids, n);
  }

  /** After a list of uninstalls every one of which is granted, exactly the listed machines are released. */
  lemma {:induction false} EachClosed(s: State, ids: seq<int>)
    requires Consistent(s) && Distinct(ids) && AllInstalled(s, ids)
    ensures UninstallEach(s, ids).racks == Release(s.racks, Seats(s, ids))
    ensures UninstallEach(s, ids).miners == s.miners - Seats(s, ids)
    decreases |ids|
  {
    if ids == [] {
      EachClosedEmpty(s);
    } else {
      var front, last := ids[..|ids| - 1], ids[|ids| - 1];
      FrontInstalled(s, ids);
      EachClosed(s, front);
      EachKeepsConsistent(s, front);
      EachClosedStep(s, ids, front, last, UninstallEach(s, front));
    }
  }

  /** A granted batch is a list of single uninstalls each of which would be granted in its turn. */
  lemma EachGranted(s: State, ids: seq<int>, i: nat)
    requires Consistent(s) && Distinct(ids) && AllInstalled(s, ids) && i < |ids|
    ensures Next(UninstallEach(s, ids[..i]), Uninstall(ids[i]), UninstallEach(s, ids[..i + 1]), Ok)
  {
    EachKeepsConsistent(s, ids[..i]);
    EachStep(s, ids, i, UninstallEach(s, ids[..i]));
    EachUnfold(s, ids, i);
  }

  /** The i-th round of a granted batch: the machine read at the start is still on its rack. */
  lemma EachStep(s: State, ids: seq<int>, i: nat, before: State)
    requires Consistent(s) && Distinct(ids) && AllInstalled(s, ids) && i < |ids|
    requires before == UninstallEach(s, ids[..i]) && Consistent(before)
    ensures UninstallVerdict(before, ids[i]) == Ok && before.racks[ids[i]].installed.value in before.miners
    ensures ids[i] in s.racks && before.racks[ids[i]].installed == s.racks[ids[i]].installed
  {
    var front, last := ids[..i], ids[i];
    assert last in ids && last !in front;
    assert AllInstalled(s, front) && AllInstalled(s, front + [last]);
    EachClosed(s, front);
    OneMoreSeat(s, front, last, s.racks[last].installed.value);
    assert before.racks[last].installed == s.racks[last].installed;
    assert Holds(before, last, s.racks[last].installed.value);
  }

  /** The order of the racks does not matter: racks and machines end up equal, inventories equal up to row ids. */
  lemma BatchOrderIrrelevant(s: State, ids: seq<int>, other: seq<int>)
    requires Consistent(s) && AllInstalled(s, ids)
    requires Distinct(ids) && Distinct(other) && forall i :: i in ids <==> i in other
    ensures UninstallEach(s, other).racks == UninstallEach(s, ids).racks
    ensures UninstallEach(s, other).miners == UninstallEach(s, ids).miners
    ensures forall m :: Copies(UninstallEach(s, other).inventory, m) == Copies(UninstallEach(s, ids).inventory, m)
  {
    EachClosed(s, ids);
    EachClosed(s, other);
    assert Seats(s, ids) == Seats(s, other);
    forall m
      ensures Copies(UninstallEach(s, other).inventory, m) == Copies(UninstallEach(s, ids).inventory, m)
    {
      EachKeepsOwned(s, ids, m);
      EachKeepsOwned(s, other, m);
    }
  }

  // ---------------------------------------------------------------- occupancy

  ghost function OccupiedRacks(s: State): set<int> { set r | r in s.racks && Occupied(s.racks[r]) }

  ghost function InstalledRacks(s: State): set<int> { set r | r in s.racks && s.racks[r].installed.Some? }

  ghost function BlockedRacks(s: State): set<int> { set r | r in s.racks && s.racks[r].blockedBy.Some? }

  ghost function Big(miners: map<int, Placed>): set<int> { set m | m in miners && miners[m].machine.slotSize == 2 }

  ghost function SizeOf(p: Placed): int { p.machine.slotSize }

  lemma InstalledCount(s: State)
    requires Consistent(s)
    ensures |InstalledRacks(s)| == |s.miners|
  {
    var seat := map r | r in InstalledRacks(s) :: s.racks[r].installed.value;
    forall a, b | a in seat && b in seat && seat[a] == seat[b]
      ensures a == b
    {
      assert Holds(s, a, seat[a]) && Holds(s, b, seat[b]);
    }
    InjectiveSize(seat);
    assert seat.Keys == InstalledRacks(s);
    forall m
      ensures m in seat.Values <==> m in s.miners
    {
      if m in seat.Values {
        var r := KeyOf(seat, m);
        assert Holds(s, r, m);
      }
      if m in s.miners {
        var r :| Holds(s, r, m);
        assert r in seat && seat[r] == m;
      }
    }
    assert seat.Values == s.miners.Keys;
  }

  lemma BlockedCount(s: State)
    requires Consistent(s)
    ensures |BlockedRacks(s)| == |Big(s.miners)|
  {
    var blocker := map r | r in BlockedRacks(s) :: s.racks[r].blockedBy.value;
    forall a, b | a in blocker && b in blocker && blocker[a] == blocker[b]
      ensures a == b
    {
      var p :| Blocks(s, p, a, blocker[a]);
      var q :| Blocks(s, q, b, blocker[b]);
      assert p == q && SamePlace(s.racks[a], s.racks[b]);
    }
    InjectiveSize(blocker);
    assert blocker.Keys == BlockedRacks(s);
    forall m
      ensures m in blocker.Values <==> m in Big(s.miners)
    {
      if m in blocker.Values {
        var r := KeyOf(blocker, m);
        var q :| Blocks(s, q, r, m);
      }
      if m in Big(s.miners) {
        var q :| Holds(s, q, m);
        var r :| Follows(s, q, r);
        assert Blocks(s, q, r, m);
        assert r in blocker && blocker[r] == m;
      }
    }
    assert blocker.Values == Big(s.miners);
  }

  lemma {:induction false} TotalSize(miners: map<int, Placed>)
    ensures Total(miners, SizeOf) == |miners| + |Big(miners)|
    decreases |miners|
  {
    if miners == map[] {
      assert Big(miners) == {};
    } else {
      var k := AnyKey(miners);
      var rest := miners - {k};
      TotalSize(rest);
      assert Total(miners, SizeOf) == SizeOf(miners[k]) + Total(rest, SizeOf);
      assert rest.Keys == miners.Keys - {k};
      assert Big(miners) == Big(rest) + (if miners[k].machine.slotSize == 2 then {k} else {});
    }
  }

  /**
   * In every reachable state the occupied racks number the slots of the installed machines, that is the racks
   * with a machine plus one more for every two-slot machine.
   */
  lemma OccupancyCounts(states: seq<State>, steps: seq<Step>, i: nat)
    requires IsRun(states, steps) && Consistent(states[0]) && i < |states|
    ensures |OccupiedRacks(states[i])| == Total(states[i].miners, SizeOf)
    ensures |OccupiedRacks(states[i])| == |InstalledRacks(states[i])| + |Big(states[i].miners)|
  {
    RunKeepsConsistent(states, steps, i);
    Occupancy(states[i]);
  }

  lemma Occupancy(s: State)
    requires Consistent(s)
    ensures |OccupiedRacks(s)| == Total(s.miners, SizeOf)
    ensures |OccupiedRacks(s)| == |InstalledRacks(s)| + |Big(s.miners)|
  {
    InstalledCount(s);
    BlockedCount(s);
    TotalSize(s.miners);
    var installed, blocked := InstalledRacks(s), BlockedRacks(s);
    assert forall r :: r in installed ==> r !in blocked;
    assert forall r :: r in OccupiedRacks(s) <==> r in installed || r in blocked;
    assert OccupiedRacks(s) == installed + blocked;
  }
}
