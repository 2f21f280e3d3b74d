/** The room handlers as they run, step by step, over the rooms, racks, machines and inventory tables. */
module RoomStore {
  import opened Machines
  import opened RoomModel
  import opened Tables
  import Exchange = RoomExchange
  import Proofs = RoomProofs

  class Store {
    var rooms: map<int, int>
    var racks: map<int, Rack>
    var miners: map<int, Placed>
    var inventory: map<int, Machine>
    var nextRoom: int
    var nextRack: int
    var nextMiner: int
    var nextItem: int
    const racksPerRoom: nat
    const roomMax: nat

    constructor (racksPerRoom: nat, roomMax: nat)
      ensures Snapshot() == State(map[], map[], map[], map[], 1, 1, 1, 1, racksPerRoom, roomMax)
      ensures Consistent(Snapshot())
    {
      rooms, racks, miners, inventory := map[], map[], map[], map[];
      nextRoom, nextRack, nextMiner, nextItem := 1, 1, 1, 1;
      this.racksPerRoom, this.roomMax := racksPerRoom, roomMax;
    }

    function Snapshot(): State
      reads this
    {
      State(rooms, racks, miners, inventory, nextRoom, nextRack, nextMiner, nextItem, racksPerRoom, roomMax)
    }

    /** roomsController.buyRoom; `paid` says whether the balance covered the price. */
    method BuyRoom(paid: bool) returns (r: Result)
      modifies this
      ensures Next(old(Snapshot()), Op.BuyRoom(paid), Snapshot(), r)
    {
      var nextNumber := |rooms| + 1;
      if nextNumber > roomMax { return MaxRoomsReached; }
      if !paid { return PaymentRefused; }
      rooms := rooms[nextRoom := nextNumber];
      racks := racks + NewRacks(nextRoom, nextRack, racksPerRoom);
      nextRoom, nextRack := nextRoom + 1, nextRack + racksPerRoom;
      r := Ok;
    }

    /** The rack one position further in the same room, if there is one. */
    method FindAdjacent(rackId: int) returns (adjacent: Option<int>)
      requires Consistent(Snapshot()) && rackId in racks
      ensures adjacent.None? <==> NextRacks(Snapshot(), rackId) == {}
      ensures adjacent.Some? ==> NextRacks(Snapshot(), rackId) == {adjacent.value}
    {
      var candidates := set k | k in racks && racks[k].room == racks[rackId].room
                                && racks[k].position == racks[rackId].position + 1;
      assert candidates == NextRacks(Snapshot(), rackId);
      if candidates == {} { return None; }
      ghost var any := Element(candidates);
      var next :| next in candidates;
      forall c | c in candidates
        ensures c == next
      {
        Proofs.AtMostOneNext(Snapshot(), rackId, c, next);
      }
      assert candidates == {next};
      return Some(next);
    }

    /** What installMiner checks before its transaction, in its order. */
    method CheckInstall(rackId: int, inventoryId: int) returns (r: Result, adjacent: Option<int>)
      requires Consistent(Snapshot())
      ensures r == InstallVerdict(Snapshot(), rackId, inventoryId)
      ensures r == Ok ==> rackId in racks && inventoryId in inventory
      ensures r == Ok && inventory[inventoryId].slotSize >= 2 ==>
                adjacent.Some? && NextRacks(Snapshot(), rackId) == {adjacent.value}
    {
      adjacent := None;
      if rackId <= 0 { return InvalidId, None; }
      if inventoryId <= 0 { return InvalidId, None; }
      if rackId !in racks { return RackNotFound, None; }
      var rack := racks[rackId];
      if rack.installed.Some? || rack.blockedBy.Some? { return RackOccupied, None; }
      if inventoryId !in inventory { return ItemNotFound, None; }
      var item := inventory[inventoryId];
      if item.slotSize >= 2 {
        if rack.position % COLUMNS > COLUMNS - item.slotSize { return RowEdge, None; }
        adjacent := FindAdjacent(rackId);
        if adjacent.None? { return NoSpace, None; }
        var nextId := adjacent.value;
        assert nextId in NextRacks(Snapshot(), rackId);
        var next := racks[nextId];
        if next.installed.Some? || next.blockedBy.Some? {
          assert Occupied(racks[nextId]);
          assert !AllFree(racks, {nextId});
          return AdjacentOccupied, None;
        }
      }
      r := Ok;
    }

    /** roomsController.installMiner */
    method InstallMiner(rackId: int, inventoryId: int) returns (r: Result)
      requires Consistent(Snapshot())
      modifies this
      ensures Next(old(Snapshot()), Install(rackId, inventoryId), Snapshot(), r) && Consistent(Snapshot())
    {
      ghost var before := Snapshot();
      var adjacent: Option<int>;
      r, adjacent := CheckInstall(rackId, inventoryId);
      if r != Ok { return; }
      var item, rack := inventory[inventoryId], racks[rackId];
      var id := nextMiner;
      miners := miners[id := Placed(RackSlotIndex(racksPerRoom, rooms[rack.room], rack.position), item)];
      nextMiner := nextMiner + 1;
      racks := racks[rackId := rack.(installed := Some(id))];
      if item.slotSize >= 2 && adjacent.Some? {
        racks := racks[adjacent.value := racks[adjacent.value].(blockedBy := Some(id))];
      }
      inventory := inventory - {inventoryId};
      assert racks == InstallEffect(before, rackId, inventoryId).racks;
      Proofs.InstallKeepsConsistent(before, rackId, inventoryId);
    }

    /** Clears the rack's own link and the blocking links of its room, and files the machine in the inventory. */
    method ReturnToInventory(rackId: int, miner: int)
      requires rackId in racks && racks[rackId].installed == Some(miner) && miner in miners
      modifies this
      ensures Snapshot() == UninstallEffect(old(Snapshot()), rackId)
    {
      ghost var before := racks;
      var room := racks[rackId].room;
      racks := racks[rackId := racks[rackId].(installed := None)];
      racks := map k | k in racks :: if racks[k].room == room && racks[k].blockedBy == Some(miner)
                                     then racks[k].(blockedBy := None) else racks[k];
      assert racks == ClearRack(before, rackId, miner);
      inventory := inventory[nextItem := miners[miner].machine];
      nextItem := nextItem + 1;
      miners := miners - {miner};
    }

    /** roomsController.moveRackMinerBackToInventoryTx */
    method MoveRackMinerBack(rackId: int, miner: int)
      requires Consistent(Snapshot()) && Holds(Snapshot(), rackId, miner) && miner in miners && rackId > 0
      modifies this
      ensures Snapshot() == UninstallEffect(old(Snapshot()), rackId) && Consistent(Snapshot())
    {
      Proofs.UninstallKeepsConsistent(Snapshot(), rackId);
      ReturnToInventory(rackId, miner);
    }

    /** roomsController.uninstallMiner */
    method UninstallMiner(rackId: int) returns (r: Result)
      requires Consistent(Snapshot())
      modifies this
      ensures Next(old(Snapshot()), Uninstall(rackId), Snapshot(), r) && Consistent(Snapshot())
    {
      if rackId <= 0 { return InvalidId; }
      if rackId !in racks { return RackNotFound; }
      if racks[rackId].installed.None? { return RackEmpty; }
      assert Holds(Snapshot(), rackId, racks[rackId].installed.value);
      MoveRackMinerBack(rackId, racks[rackId].installed.value);
      r := Ok;
    }

    /** The first loop of the batch: the first rack that is missing or empty decides. */
    method FindFault(rackIds: seq<int>) returns (fault: Result)
      ensures fault == FirstFault(Snapshot(), rackIds)
    {
      for i := 0 to |rackIds|
        invariant FirstFault(Snapshot(), rackIds) == FirstFault(Snapshot(), rackIds[i..])
      {
        assert rackIds[i..][1..] == rackIds[i + 1..];
        if rackIds[i] !in racks { return RackNotFound; }
        if racks[rackIds[i]].installed.None? { return RackEmpty; }
      }
      return Ok;
    }

    /** The second loop: each rack is emptied, of the machine that was read from it at the start. */
    method EmptyRacks(rackIds: seq<int>)
      requires Consistent(Snapshot()) && Exchange.Distinct(rackIds) && Exchange.AllInstalled(Snapshot(), rackIds)
      modifies this
      ensures Snapshot() == UninstallEach(old(Snapshot()), rackIds) && Consistent(Snapshot())
    {
      ghost var before := Snapshot();
      var rows := racks;
      for i := 0 to |rackIds|
        invariant Snapshot() == UninstallEach(before, rackIds[..i]) && Consistent(Snapshot())
      {
        Exchange.EachStep(before, rackIds, i, Snapshot());
        Exchange.EachUnfold(before, rackIds, i);
        MoveRackMinerBack(rackIds[i], rows[rackIds[i]].installed.value);
      }
      assert rackIds[..|rackIds|] == rackIds;
    }

    /** roomsController.uninstallMinerBatch */
    method UninstallMinerBatch(rawIds: seq<int>) returns (r: Result)
      requires Consistent(Snapshot())
      modifies this
      ensures Next(old(Snapshot()), UninstallBatch(rawIds), Snapshot(), r) && Consistent(Snapshot())
      ensures r == Ok <==> Normalize(rawIds) != [] && Exchange.AllInstalled(old(Snapshot()), Normalize(rawIds))
    {
      var rackIds := Normalize(rawIds);
      Exchange.FaultlessIff(Snapshot(), rackIds);
      if |rackIds| == 0 { return InvalidId; }
      r := FindFault(rackIds);
      if r == Ok {
        EmptyRacks(rackIds);
      }
    }

    /** The occupied racks as listRooms adds them up, room by room. */
    method CountOccupiedRacks() returns (occupied: nat)
      requires Consistent(Snapshot())
      ensures occupied == Total(miners, Exchange.SizeOf)
      ensures occupied == |Exchange.InstalledRacks(Snapshot())| + |Exchange.Big(miners)|
    {
      occupied := 0;
      var todo := rooms.Keys;
      assert (set r | r in racks && Occupied(racks[r]) && racks[r].room !in todo) == {} by {
        assert forall r :: r in racks ==> racks[r].room in todo;
      }
      while todo != {}
        invariant todo <= rooms.Keys
        invariant occupied == |set r | r in racks && Occupied(racks[r]) && racks[r].room !in todo|
        decreases todo
      {
        ghost var any := Element(todo);
        var room :| room in todo;
        var here := set r | r in racks && Occupied(racks[r]) && racks[r].room == room;
        ghost var before := set r | r in racks && Occupied(racks[r]) && racks[r].room !in todo;
        occupied := occupied + |here|;
        todo := todo - {room};
        ghost var after := set r | r in racks && Occupied(racks[r]) && racks[r].room !in todo;
        assert forall r :: r in after <==> r in before || r in here;
        assert forall r :: r in before ==> r !in here;
        assert after == before + here;
      }
      ghost var counted := set r | r in racks && Occupied(racks[r]) && racks[r].room !in todo;
      assert forall r :: r in counted <==> r in Exchange.OccupiedRacks(Snapshot());
      assert counted == Exchange.OccupiedRacks(Snapshot());
      Exchange.Occupancy(Snapshot());
    }

    /** The occupied racks as getSlotsSummary counts them: one per machine. */
    method CountInstalledRacks() returns (occupied: nat)
      requires Consistent(Snapshot())
      ensures occupied == |miners|
      ensures occupied + |Exchange.Big(miners)| == |Exchange.OccupiedRacks(Snapshot())|
    {
      occupied := |set r | r in racks && racks[r].installed != None|;
      assert (set r | r in racks && racks[r].installed != None) == Exchange.InstalledRacks(Snapshot());
      Exchange.InstalledCount(Snapshot());
      Exchange.Occupancy(Snapshot());
    }
  }
}
