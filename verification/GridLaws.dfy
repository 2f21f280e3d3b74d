/** What a granted grid request does, and when it is granted, said of slots and rows alone. */
module GridLaws {
  import opened Machines
  import opened GridModel
  import opened GridProofs
  import opened Tables

  // ---------------------------------------------------------------- where machines end up

  /** The slots of `p` and the `size` slots from `slot` on have none in common. */
  predicate Clear(p: Placed, slot: int, size: int) {
    p.slot + p.machine.slotSize <= slot || slot + size <= p.slot
  }

  /** A moved machine stands on its target; the others stay where they were, or leave if they were in the way. */
  lemma MoveLands(s: State, id: int, slot: int, t: State)
    requires Next(s, Move(id, slot), t, Ok)
    ensures id in s.grid && id in t.grid && t.grid[id] == Placed(slot, s.grid[id].machine)
    ensures forall k :: k in t.grid ==> k in s.grid
    ensures forall k :: k in s.grid && k != id ==>
              (k in t.grid <==> Clear(s.grid[k], slot, s.grid[id].machine.slotSize))
    ensures forall k :: k in t.grid && k != id ==> t.grid[k] == s.grid[k]
    ensures t.vault == s.vault && forall k :: k in s.inventory ==> k in t.inventory && t.inventory[k] == s.inventory[k]
  {
  }

  /** An installed item becomes one new machine on its target, with the item's payload. */
  lemma InstallLands(s: State, slot: int, itemId: int, t: State)
    requires Aligned(s) && Next(s, Install(slot, itemId), t, Ok)
    ensures itemId in s.inventory && itemId !in t.inventory && t.vault == s.vault
    ensures s.nextMiner !in s.grid && s.nextMiner in t.grid
    ensures t.grid[s.nextMiner] == Placed(slot, s.inventory[itemId])
    ensures forall k :: k in t.grid && k != s.nextMiner ==> k in s.grid && t.grid[k] == s.grid[k]
    ensures forall k :: k in s.grid ==> (k in t.grid <==> Clear(s.grid[k], slot, s.inventory[itemId].slotSize))
    ensures forall k :: k in s.inventory && k != itemId ==> k in t.inventory && t.inventory[k] == s.inventory[k]
  {
  }

  /** A machine from the vault becomes one new machine on its target; those that start there leave. */
  lemma FetchLands(s: State, vaultId: int, slot: int, t: State)
    requires Aligned(s) && ForeignKeys(s) && Next(s, FetchToGrid(vaultId, slot), t, Ok)
    ensures vaultId in s.vault && t.vault == s.vault - {vaultId}
    ensures s.nextMiner !in s.grid && s.nextMiner in t.grid
    ensures t.grid[s.nextMiner] == Placed(slot, s.vault[vaultId])
    ensures forall k :: k in t.grid && k != s.nextMiner ==> k in s.grid && t.grid[k] == s.grid[k]
    ensures forall k :: k in s.grid ==>
              (k in t.grid <==> s.grid[k].slot < slot || slot + s.vault[vaultId].slotSize <= s.grid[k].slot)
    ensures forall k :: k in s.inventory ==> k in t.inventory && t.inventory[k] == s.inventory[k]
  {
  }

  /** A machine taken off the grid is the only one that goes, and becomes one inventory or vault row. */
  lemma RemovalLands(s: State, id: int, t: State, u: State)
    requires Aligned(s) && ForeignKeys(s) && Next(s, Uninstall(id), t, Ok) && Next(s, StoreMachine(id), u, Ok)
    ensures id in s.grid && t.grid == s.grid - {id} == u.grid && t.vault == s.vault && u.inventory == s.inventory
    ensures s.nextItem !in s.inventory && t.inventory == s.inventory[s.nextItem := s.grid[id].machine]
    ensures s.nextVault !in s.vault && u.vault == s.vault[s.nextVault := s.grid[id].machine]
  {
  }

  lemma DiscardTakesOne(s: State, id: int, t: State)
    requires Next(s, Discard(id), t, Ok)
    ensures id in s.inventory && t == s.(inventory := s.inventory - {id})
  {
  }

  /** Of a bulk transfer the chosen rows leave their table, with as many copies of each machine reaching the other. */
  lemma TransfersLand(s: State, op: Op, t: State) returns (chosen: set<int>)
    requires Aligned(s) && ForeignKeys(s) && (op.StoreItems? || op.FetchItems?) && Next(s, op, t, Ok)
    ensures op.StoreItems? ==>
              && chosen == (set k | k in op.itemIds && k >= 1) && chosen <= s.inventory.Keys
              && t.grid == s.grid && t.inventory == s.inventory - chosen
              && (forall k :: k in s.vault ==> k in t.vault && t.vault[k] == s.vault[k])
              && (forall m :: Copies(t.vault, m) == Copies(s.vault, m) + Copies(Rows(s.inventory, chosen), m))
    ensures op.FetchItems? ==>
              && Smallest(chosen, set k | k in op.vaultIds && k >= 1) && chosen <= s.vault.Keys
              && t.grid == s.grid && t.vault == s.vault - chosen
              && (forall k :: k in s.inventory ==> k in t.inventory && t.inventory[k] == s.inventory[k])
              && (forall m :: Copies(t.inventory, m) == Copies(s.inventory, m) + Copies(Rows(s.vault, chosen), m))
  {
    chosen :| Selects(op, chosen) && Verdict(s, op, chosen, Ok) && Effect(s, op, chosen, t);
    if op.FetchItems? {
      SubsetSize(chosen, PositiveIds(op.vaultIds));
    }
    KnownUnchanged(s.catalogue, if op.StoreItems? then Rows(s.inventory, chosen) else Rows(s.vault, chosen));
  }

  /** All of the ids, or the 120 smallest. */
  ghost predicate Smallest(chosen: set<int>, ids: set<int>) {
    && chosen <= ids && (if |ids| <= 120 then chosen == ids else |chosen| == 120)
    && forall a, b :: a in chosen && b in ids && b !in chosen ==> a < b
  }

  lemma SmallestUnique(a: set<int>, b: set<int>, ids: set<int>)
    requires Smallest(a, ids) && Smallest(b, ids)
    ensures a == b
  {
    if forall x :: x in a ==> x in b {
      forall x | x in a
        ensures x in b
      {
      }
      SubsetSize(a, b);
    } else {
      var x :| x in a && x !in b;
      forall y | y in b
        ensures y in a
      {
        assert y in ids && x in ids;
      }
      SubsetSize(b, a);
    }
  }

  // ---------------------------------------------------------------- when a request is granted

  predicate Startable(slot: int, size: int) { 0 <= slot <= 79 && (size == 2 ==> slot % 2 == 0) }

  /** Any existing machine or item may go to any slot of the grid it may start on; nothing else is granted. */
  lemma PlacementGrantedIff(s: State, op: Op, t: State, r: Result)
    requires Next(s, op, t, r) && (op.Install? || op.Move? || op.FetchToGrid?)
    ensures r == Ok <==>
            match op
            case Install(slot, id) => id >= 1 && id in s.inventory && Startable(slot, s.inventory[id].slotSize)
            case Move(id, slot) => id in s.grid && Startable(slot, s.grid[id].machine.slotSize)
            case FetchToGrid(id, slot) => id >= 1 && id in s.vault && Startable(slot, s.vault[id].slotSize)
    ensures r != Ok ==> t == s
  {
  }

  /** Any existing machine or item may be taken away. */
  lemma RemovalGrantedIff(s: State, op: Op, t: State, r: Result)
    requires Next(s, op, t, r) && (op.Uninstall? || op.StoreMachine? || op.Discard?)
    ensures r == Ok <==>
            match op
            case Uninstall(id) => id in s.grid
            case StoreMachine(id) => id >= 1 && id in s.grid
            case Discard(id) => id >= 1 && id in s.inventory
    ensures r != Ok ==> t == s
  {
  }

  /** At most 120 rows that all exist may be stored; of rows to retrieve, the 120 smallest ids must exist. */
  lemma TransferGrantedIff(s: State, op: Op, t: State, r: Result, first: set<int>)
    requires Next(s, op, t, r) && (op.StoreItems? || op.FetchItems?)
    requires op.FetchItems? ==> Smallest(first, set k | k in op.vaultIds && k >= 1)
    ensures op.StoreItems? ==>
              var ids := set k | k in op.itemIds && k >= 1;
              r == Ok <==> 1 <= |ids| <= 120 && ids <= s.inventory.Keys
    ensures op.FetchItems? ==> (r == Ok <==> (exists k :: k in op.vaultIds && k >= 1) && first <= s.vault.Keys)
    ensures r != Ok ==> t == s
  {
    if op.FetchItems? {
      var ids := set k | k in op.vaultIds && k >= 1;
      assert ids == PositiveIds(op.vaultIds);
      var chosen :| Selects(op, chosen) && Verdict(s, op, chosen, r);
      SubsetSize(chosen, ids);
      SmallestUnique(chosen, first, ids);
      if k :| k in op.vaultIds && k >= 1 {
        assert k in ids;
      } else {
        assert ids == {};
      }
    }
  }
}
