/** The grid handlers as they run, step by step, over the three tables. */
module GridStore {
  import opened Machines
  import opened Tables
  import opened GridModel
  import Proofs = GridProofs

  class Store {
    var grid: map<int, Placed>
    var inventory: map<int, Machine>
    var vault: map<int, Machine>
    var nextMiner: int
    var nextItem: int
    var nextVault: int
    const catalogue: set<int>

    /** The store over tables as they are found. */
    constructor (tables: State)
      requires Aligned(tables)
      ensures Snapshot() == tables && Aligned(Snapshot())
    {
      catalogue := tables.catalogue;
      grid, inventory, vault := tables.grid, tables.inventory, tables.vault;
      nextMiner, nextItem, nextVault := tables.nextMiner, tables.nextItem, tables.nextVault;
    }

    function Snapshot(): State
      reads this
    {
      State(grid, inventory, vault, nextMiner, nextItem, nextVault, catalogue)
    }

    /** Sends one placed machine to the inventory. */
    method Evict(id: int)
      requires IdsIssued(Snapshot()) && id in grid
      modifies `grid, `inventory, `nextItem
      ensures IdsIssued(Snapshot())
      ensures grid == old(grid) - {id}
      ensures Extends(old(inventory), inventory, old(nextItem), nextItem)
      ensures forall m :: Owned(Snapshot(), m) == old(Owned(Snapshot(), m))
    {
      ghost var before := Snapshot();
      var m := grid[id].machine;
      inventory := inventory[nextItem := m];
      nextItem := nextItem + 1;
      grid := grid - {id};
      forall n
        ensures Owned(Snapshot(), n) == Owned(before, n)
      {
        TakePayload(before.grid, id, n);
        CopiesInsert(before.inventory, before.nextItem, m, n);
      }
    }

    method EvictAll(ids: set<int>)
      requires IdsIssued(Snapshot()) && ids <= grid.Keys
      modifies `grid, `inventory, `nextItem
      ensures IdsIssued(Snapshot())
      ensures grid == old(grid) - ids
      ensures Extends(old(inventory), inventory, old(nextItem), nextItem)
      ensures forall m :: Owned(Snapshot(), m) == old(Owned(Snapshot(), m))
    {
      var todo := ids;
      while todo != {}
        invariant todo <= ids && ids <= old(grid).Keys
        invariant IdsIssued(Snapshot())
        invariant grid == old(grid) - (ids - todo)
        invariant Extends(old(inventory), inventory, old(nextItem), nextItem)
        invariant forall m :: Owned(Snapshot(), m) == old(Owned(Snapshot(), m))
        decreases todo
      {
        ghost var any := Element(todo);
        var id :| id in todo;
        Evict(id);
        todo := todo - {id};
      }
    }

    /** On an odd slot, sends the two-slot machine that starts just before it to the inventory. */
    method EvictPrevious(slot: int, keep: set<int>)
      requires IdsIssued(Snapshot())
      requires forall a, b :: a in grid && b in grid && grid[a].slot == grid[b].slot ==> a == b
      modifies `grid, `inventory, `nextItem
      ensures IdsIssued(Snapshot())
      ensures grid == map k | k in old(grid) && (k in keep || !CoversFromTheLeft(old(grid)[k], slot)) :: old(grid)[k]
      ensures Extends(old(inventory), inventory, old(nextItem), nextItem)
      ensures forall m :: Owned(Snapshot(), m) == old(Owned(Snapshot(), m))
    {
      if slot % 2 == 1 {
        var previous := set k | k in grid && grid[k].slot == slot - 1 && k !in keep;
        if previous != {} {
          ghost var any := Element(previous);
          var id :| id in previous;
          assert forall k :: k in grid && CoversFromTheLeft(grid[k], slot) ==> k == id;
          if grid[id].machine.slotSize == 2 {
            Evict(id);
          }
        } else {
          assert forall k :: k in grid && grid[k].slot == slot - 1 && k !in keep ==> k in previous;
        }
      }
    }

    /** The machines that start in the target slots go first, then the one that covers an odd target. */
    method ClearTarget(slot: int, size: SlotSize, keep: set<int>)
      requires Aligned(Snapshot()) && InGrid(slot) && LegalStart(slot, size)
      modifies `grid, `inventory, `nextItem
      ensures IdsIssued(Snapshot())
      ensures grid == Survivors(old(grid), slot, size, keep)
      ensures Extends(old(inventory), inventory, old(nextItem), nextItem)
      ensures forall m :: Owned(Snapshot(), m) == old(Owned(Snapshot(), m))
    {
      Proofs.SurvivorsByStart(grid, slot, size, keep);
      var existing := set k | k in grid && StartsIn(grid[k], slot, size) && k !in keep;
      EvictAll(existing);
      EvictPrevious(slot, keep);
    }

    /** inventoryController.installInventoryItem */
    method InstallInventoryItem(slotIndex: int, inventoryId: int) returns (r: Result)
      requires Aligned(Snapshot())
      modifies this
      ensures Next(old(Snapshot()), Install(slotIndex, inventoryId), Snapshot(), r)
      ensures Proofs.Keeps(old(Snapshot()), Install(slotIndex, inventoryId), Snapshot(), r)
    {
      ghost var before, op := Snapshot(), Install(slotIndex, inventoryId);
      assert Selects(op, {});
      if !(0 <= slotIndex < SLOT_COUNT) { return InvalidState; }
      if inventoryId < 1 { return InvalidState; }
      if inventoryId !in inventory { return NotFound; }
      var item := inventory[inventoryId];
      if item.slotSize == 2 && slotIndex % 2 != 0 { return InvalidSlot; }
      ClearTarget(slotIndex, item.slotSize, {});
      ghost var cleared := Snapshot();
      var id := nextMiner;
      grid := grid[id := Placed(slotIndex, item)];
      nextMiner := nextMiner + 1;
      inventory := inventory - {inventoryId};
      forall m
        ensures Owned(Snapshot(), m) == Owned(before, m)
      {
        AddPayload(cleared.grid, id, Placed(slotIndex, item), m);
        CopiesRemove(cleared.inventory, inventoryId, m);
      }
      r := Ok;
      assert Verdict(before, op, {}, r) && Effect(before, op, {}, Snapshot());
      Proofs.NextKeeps(before, op, Snapshot(), r);
    }

    /** machinesController.moveMachine */
    method MoveMachine(machineId: int, targetSlotIndex: int) returns (r: Result)
      requires Aligned(Snapshot())
      modifies this
      ensures Next(old(Snapshot()), Move(machineId, targetSlotIndex), Snapshot(), r)
      ensures Proofs.Keeps(old(Snapshot()), Move(machineId, targetSlotIndex), Snapshot(), r)
    {
      ghost var before, op := Snapshot(), Move(machineId, targetSlotIndex);
      assert Selects(op, {});
      if !(0 <= targetSlotIndex < SLOT_COUNT) { return InvalidState; }
      if machineId !in grid { return NotFound; }
      var machine := grid[machineId].machine;
      if machine.slotSize == 2 && targetSlotIndex % 2 != 0 { return InvalidSlot; }
      ClearTarget(targetSlotIndex, machine.slotSize, {machineId});
      ghost var cleared := Snapshot();
      grid := grid[machineId := Placed(targetSlotIndex, machine)];
      assert Payloads(grid) == Payloads(cleared.grid);
      r := Ok;
      assert Verdict(before, op, {}, r) && Effect(before, op, {}, Snapshot());
      Proofs.NextKeeps(before, op, Snapshot(), r);
    }

    /** machinesController.removeMachine */
    method RemoveMachine(machineId: int) returns (r: Result)
      requires Aligned(Snapshot())
      modifies this
      ensures Next(old(Snapshot()), Uninstall(machineId), Snapshot(), r)
      ensures Proofs.Keeps(old(Snapshot()), Uninstall(machineId), Snapshot(), r)
    {
      ghost var before, op := Snapshot(), Uninstall(machineId);
      assert Selects(op, {});
      if machineId !in grid { return NotFound; }
      inventory := inventory[nextItem := grid[machineId].machine];
      nextItem := nextItem + 1;
      grid := grid - {machineId};
      r := Ok;
      assert Verdict(before, op, {}, r) && Effect(before, op, {}, Snapshot());
      Proofs.NextKeeps(before, op, Snapshot(), r);
    }

    /** inventoryController.removeInventoryItem */
    method RemoveInventoryItem(inventoryId: int) returns (r: Result)
      requires Aligned(Snapshot())
      modifies this
      ensures Next(old(Snapshot()), Discard(inventoryId), Snapshot(), r)
      ensures Proofs.Keeps(old(Snapshot()), Discard(inventoryId), Snapshot(), r)
    {
      ghost var before, op := Snapshot(), Discard(inventoryId);
      assert Selects(op, {});
      if inventoryId < 1 { return InvalidState; }
      if inventoryId !in inventory { return NotFound; }
      inventory := inventory - {inventoryId};
      r := Ok;
      assert Verdict(before, op, {}, r) && Effect(before, op, {}, Snapshot());
      Proofs.NextKeeps(before, op, Snapshot(), r);
    }

    /**
     * Moves the rows `ids` from one table to another under fresh ids, one by one; `found` is false, and the
     * transaction is to be abandoned, as soon as one of them is missing.
     */
    method TransferRows(source: map<int, Machine>, target: map<int, Machine>, next: int, ids: set<int>)
      returns (found: bool, source': map<int, Machine>, target': map<int, Machine>, next': int)
      requires forall k :: k in target ==> k < next
      ensures found <==> ids <= source.Keys
      ensures found ==> source' == source - ids && Extends(target, target', next, next')
      ensures found ==> forall m ::
        Copies(target', m) == Copies(target, m) + Copies(Scrubbed(catalogue, Rows(source, ids)), m)
    {
      source', target', next' := source, target, next;
      var todo := ids;
      while todo != {}
        invariant todo <= ids && ids - todo <= source.Keys
        invariant source' == source - (ids - todo)
        invariant Extends(target, target', next, next')
        invariant forall m ::
          Copies(target', m) == Copies(target, m) + Copies(Scrubbed(catalogue, Rows(source, ids - todo)), m)
        decreases todo
      {
        ghost var any := Element(todo);
        var id :| id in todo;
        if id !in source' {
          return false, source, target, next;
        }
        ghost var done, before := ids - todo, target';
        target' := target'[next' := Scrub(catalogue, source'[id])];
        next' := next' + 1;
        source' := source' - {id};
        todo := todo - {id};
        assert ids - todo == done + {id};
        forall m
          ensures Copies(target', m) == Copies(target, m) + Copies(Scrubbed(catalogue, Rows(source, ids - todo)), m)
        {
          Proofs.TransferRow(catalogue, source, done, before, next' - 1, id, m);
        }
      }
      assert ids - todo == ids;
      found := true;
    }

    /** vaultController.moveToVault from the inventory: all the rows, or none when one is missing. */
    method MoveItemsToVault(itemIds: set<int>) returns (r: Result)
      requires Aligned(Snapshot())
      modifies this
      ensures Next(old(Snapshot()), StoreItems(itemIds), Snapshot(), r)
      ensures Proofs.Keeps(old(Snapshot()), StoreItems(itemIds), Snapshot(), r)
    {
      ghost var before, op := Snapshot(), StoreItems(itemIds);
      var ids := PositiveIds(itemIds);
      assert Selects(op, ids);
      if |ids| == 0 || |ids| > VAULT_BULK_MAX { return InvalidState; }
      var found, inventory', vault', next := TransferRows(inventory, vault, nextVault, ids);
      if !found { return NotFound; }
      inventory, vault, nextVault := inventory', vault', next;
      r := Ok;
      assert Verdict(before, op, ids, r) && Effect(before, op, ids, Snapshot());
      Proofs.NextKeeps(before, op, Snapshot(), r);
    }

    /** vaultController.moveToVault from the rack */
    method MoveMachineToVault(machineId: int) returns (r: Result)
      requires Aligned(Snapshot())
      modifies this
      ensures Next(old(Snapshot()), StoreMachine(machineId), Snapshot(), r)
      ensures Proofs.Keeps(old(Snapshot()), StoreMachine(machineId), Snapshot(), r)
    {
      ghost var before, op := Snapshot(), StoreMachine(machineId);
      assert Selects(op, {});
      if machineId < 1 { return InvalidState; }
      if machineId !in grid { return NotFound; }
      vault := vault[nextVault := Scrub(catalogue, grid[machineId].machine)];
      nextVault := nextVault + 1;
      grid := grid - {machineId};
      r := Ok;
      assert Verdict(before, op, {}, r) && Effect(before, op, {}, Snapshot());
      Proofs.NextKeeps(before, op, Snapshot(), r);
    }

    /** The ids in ascending order, cut after the first VAULT_BULK_MAX. */
    method FirstIds(ids: set<int>) returns (first: set<int>)
      ensures IsFirst(first, ids, VAULT_BULK_MAX)
    {
      first := {};
      while |first| < VAULT_BULK_MAX && first != ids
        invariant first <= ids && |first| <= VAULT_BULK_MAX
        invariant forall a, b :: a in first && b in ids && b !in first ==> a < b
        decreases ids - first
      {
        var rest := ids - first;
        var least := Least(rest);
        assert forall b :: b in ids && b !in first ==> b in rest;
        first := first + {least};
      }
      SubsetSize(first, ids);
    }

    /** vaultController.retrieveFromVault to the inventory: all the selected rows, or none when one is missing. */
    method RetrieveItems(vaultIds: set<int>) returns (r: Result)
      requires Aligned(Snapshot())
      modifies this
      ensures Next(old(Snapshot()), FetchItems(vaultIds), Snapshot(), r)
      ensures Proofs.Keeps(old(Snapshot()), FetchItems(vaultIds), Snapshot(), r)
    {
      ghost var before, op := Snapshot(), FetchItems(vaultIds);
      var ids := FirstIds(PositiveIds(vaultIds));
      assert Selects(op, ids);
      if |ids| == 0 || |ids| > VAULT_BULK_MAX { return InvalidState; }
      var found, vault', inventory', next := TransferRows(vault, inventory, nextItem, ids);
      if !found { return NotFound; }
      inventory, vault, nextItem := inventory', vault', next;
      r := Ok;
      assert Verdict(before, op, ids, r) && Effect(before, op, ids, Snapshot());
      Proofs.NextKeeps(before, op, Snapshot(), r);
    }

    /** vaultController.retrieveFromVault to the rack */
    method RetrieveToGrid(vaultId: int, slotIndex: int) returns (r: Result)
      requires Aligned(Snapshot())
      modifies this
      ensures Next(old(Snapshot()), FetchToGrid(vaultId, slotIndex), Snapshot(), r)
      ensures Proofs.Keeps(old(Snapshot()), FetchToGrid(vaultId, slotIndex), Snapshot(), r)
    {
      ghost var before, op := Snapshot(), FetchToGrid(vaultId, slotIndex);
      assert Selects(op, {});
      if vaultId < 1 { return InvalidState; }
      if !(0 <= slotIndex < SLOT_COUNT) { return InvalidState; }
      if vaultId !in vault { return NotFound; }
      var item := vault[vaultId];
      if item.slotSize == 2 && slotIndex % 2 != 0 { return InvalidSlot; }
      var existing := set k | k in grid && StartsIn(grid[k], slotIndex, item.slotSize);
      EvictAll(existing);
      ghost var cleared := Snapshot();
      var id, placed := nextMiner, Scrub(catalogue, item);
      grid := grid[id := Placed(slotIndex, placed)];
      nextMiner := nextMiner + 1;
      vault := vault - {vaultId};
      forall m
        ensures Owned(Snapshot(), m) + One(item, m) == Owned(before, m) + One(placed, m)
      {
        AddPayload(cleared.grid, id, Placed(slotIndex, placed), m);
        CopiesRemove(cleared.vault, vaultId, m);
      }
      r := Ok;
      assert GridEffect(before, op, Snapshot());
      assert StockEffect(before, op, {}, Snapshot());
      assert Verdict(before, op, {}, r) && Effect(before, op, {}, Snapshot());
      Proofs.NextKeeps(before, op, Snapshot(), r);
    }

    /** machineModel.checkSlotAvailability: the fast test agrees with disjointness from every machine. */
    method CheckSlotAvailability(slotIndex: int, slotsNeeded: int) returns (free: bool)
      requires Aligned(Snapshot()) && slotsNeeded >= 1
      ensures free <==> LegalStart(slotIndex, slotsNeeded) &&
                        forall k :: k in grid ==> !Meets(grid[k], slotIndex, slotsNeeded)
    {
      if slotsNeeded == 2 && slotIndex % 2 != 0 { return false; }
      var machines := set k | k in grid && StartsIn(grid[k], slotIndex, slotsNeeded);
      if |machines| > 0 {
        ghost var k := Element(machines);
        assert Meets(grid[k], slotIndex, slotsNeeded);
        return false;
      }
      assert forall k :: k in grid ==> k !in machines;
      if slotIndex % 2 == 1 {
        var previous := set k | k in grid && grid[k].slot == slotIndex - 1;
        if previous != {} {
          ghost var any := Element(previous);
          var id :| id in previous;
          if grid[id].machine.slotSize == 2 { return false; }
        }
        assert forall k :: k in grid && grid[k].slot == slotIndex - 1 ==> k in previous;
      }
      return true;
    }
  }
}
