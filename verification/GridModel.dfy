/**
 * The 80-slot machine grid of one player, its inventory and its vault, as a state machine.
 *
 * `Next` says declaratively what every request does: which machines an installation or a move
 * displaces is stated with intervals of slots, not with the start indexes the handlers query.
 */
module GridModel {
  import opened Machines
  import opened Tables

  const SLOT_COUNT := 80
  const VAULT_BULK_MAX := 120

  /** The three tables, their id sequences, and the ids of the miners catalogue. */
  datatype State = State(
    grid: map<int, Placed>, inventory: map<int, Machine>, vault: map<int, Machine>,
    nextMiner: int, nextItem: int, nextVault: int, catalogue: set<int>)

  datatype Result = Ok | InvalidState | NotFound | InvalidSlot

  datatype Op =
    | Install(slot: int, itemId: int)
    | Move(machineId: int, slot: int)
    | Uninstall(machineId: int)
    | Discard(itemId: int)
    | StoreItems(itemIds: set<int>)
    | StoreMachine(machineId: int)
    | FetchItems(vaultIds: set<int>)
    | FetchToGrid(vaultId: int, slot: int)

  // ---------------------------------------------------------------- geometry

  /** The intervals [p.slot, p.slot + size) and [slot, slot + size) share a slot. */
  predicate Meets(p: Placed, slot: int, size: int) {
    p.slot < slot + size && slot < p.slot + p.machine.slotSize
  }

  predicate Overlap(p: Placed, q: Placed) {
    Meets(p, q.slot, q.machine.slotSize)
  }

  predicate StartsIn(p: Placed, slot: int, size: int) {
    slot <= p.slot < slot + size
  }

  /** A two-slot machine that starts just before an odd slot. */
  predicate CoversFromTheLeft(p: Placed, slot: int) {
    slot % 2 == 1 && p.slot == slot - 1 && p.machine.slotSize == 2
  }

  /** The machines that stay when [slot, slot + size) is cleared; those in `keep` are never displaced. */
  function Survivors(grid: map<int, Placed>, slot: int, size: int, keep: set<int>): map<int, Placed> {
    map k | k in grid && (k in keep || !Meets(grid[k], slot, size)) :: grid[k]
  }

  /** The machines that stay when only those that start in [slot, slot + size) are removed. */
  function NonStarters(grid: map<int, Placed>, slot: int, size: int): map<int, Placed> {
    map k | k in grid && !StartsIn(grid[k], slot, size) :: grid[k]
  }

  // ---------------------------------------------------------------- holdings

  /** How many machines like `m` the player has, wherever they are. */
  ghost function Owned(s: State, m: Machine): nat {
    Copies(Payloads(s.grid), m) + Copies(s.inventory, m) + Copies(s.vault, m)
  }

  /** The vault drops a miner id that the catalogue does not know. */
  function Scrub(catalogue: set<int>, m: Machine): Machine {
    if m.minerId.Some? && m.minerId.value >= 1 && m.minerId.value in catalogue then m else m.(minerId := None)
  }

  ghost function Scrubbed(catalogue: set<int>, rows: map<int, Machine>): map<int, Machine> {
    map k | k in rows :: Scrub(catalogue, rows[k])
  }

  // ---------------------------------------------------------------- requests

  predicate InGrid(slot: int) { 0 <= slot < SLOT_COUNT }

  predicate LegalStart(slot: int, size: int) { size == 2 ==> slot % 2 == 0 }

  function PositiveIds(ids: set<int>): set<int> { set k | k in ids && k >= 1 }

  /** `first` holds the n smallest of `ids`, or all of them. */
  ghost predicate IsFirst(first: set<int>, ids: set<int>, n: nat) {
    && first <= ids
    && |first| == (if |ids| < n then |ids| else n)
    && forall a, b :: a in first && b in ids && b !in first ==> a < b
  }

  /** Which ids a bulk request is about. */
  ghost predicate Selects(op: Op, chosen: set<int>) {
    match op
    case StoreItems(ids) => chosen == PositiveIds(ids)
    case FetchItems(ids) => IsFirst(chosen, PositiveIds(ids), VAULT_BULK_MAX)
    case _ => chosen == {}
  }

  /** The answer to a request. */
  ghost predicate Verdict(s: State, op: Op, chosen: set<int>, r: Result) {
    match op
    case Install(slot, id) =>
      r == if !InGrid(slot) || id < 1 then InvalidState
           else if id !in s.inventory then NotFound
           else if !LegalStart(slot, s.inventory[id].slotSize) then InvalidSlot
           else Ok
    case Move(id, slot) =>
      r == if !InGrid(slot) then InvalidState
           else if id !in s.grid then NotFound
           else if !LegalStart(slot, s.grid[id].machine.slotSize) then InvalidSlot
           else Ok
    case Uninstall(id) => r == if id !in s.grid then NotFound else Ok
    case Discard(id) => r == if id < 1 then InvalidState else if id !in s.inventory then NotFound else Ok
    case StoreItems(_) =>
      r == if |chosen| == 0 || |chosen| > VAULT_BULK_MAX then InvalidState
           else if chosen <= s.inventory.Keys then Ok else NotFound
    case StoreMachine(id) => r == if id < 1 then InvalidState else if id !in s.grid then NotFound else Ok
    case FetchItems(_) =>
      r == if |chosen| == 0 then InvalidState else if chosen <= s.vault.Keys then Ok else NotFound
    case FetchToGrid(id, slot) =>
      r == if id < 1 || !InGrid(slot) then InvalidState
           else if id !in s.vault then NotFound
           else if !LegalStart(slot, s.vault[id].slotSize) then InvalidSlot
           else Ok
  }

  /** `b` has every row of `a`, and its other rows got their ids from the sequence at `from`. */
  ghost predicate Extends<T>(a: map<int, T>, b: map<int, T>, from: int, to: int) {
    && (forall k :: k in a ==> k in b && b[k] == a[k])
    && (forall k :: k in b && k !in a ==> from <= k < to)
    && from <= to
  }

  /** What a granted request does to the grid. */
  ghost predicate GridEffect(s: State, op: Op, t: State) {
    match op
    case Install(slot, id) =>
      && id in s.inventory && t.nextMiner == s.nextMiner + 1
      && t.grid == Survivors(s.grid, slot, s.inventory[id].slotSize, {})[s.nextMiner := Placed(slot, s.inventory[id])]
    case Move(id, slot) =>
      && id in s.grid && t.nextMiner == s.nextMiner
      && t.grid == Survivors(s.grid, slot, s.grid[id].machine.slotSize, {id})[id := Placed(slot, s.grid[id].machine)]
    case Uninstall(id) => id in s.grid && t.grid == s.grid - {id} && t.nextMiner == s.nextMiner
    case StoreMachine(id) => id in s.grid && t.grid == s.grid - {id} && t.nextMiner == s.nextMiner
    case FetchToGrid(id, slot) =>
      && id in s.vault && t.nextMiner == s.nextMiner + 1
      && t.grid == NonStarters(s.grid, slot, s.vault[id].slotSize)
                   [s.nextMiner := Placed(slot, Scrub(s.catalogue, s.vault[id]))]
    case _ => t.grid == s.grid && t.nextMiner == s.nextMiner
  }

  /** What it does to the inventory and the vault; `chosen` are the rows a bulk request moves. */
  ghost predicate StockEffect(s: State, op: Op, chosen: set<int>, t: State) {
    match op
    case Install(_, id) =>
      && id in s.inventory && t.vault == s.vault && t.nextVault == s.nextVault
      && Extends(s.inventory - {id}, t.inventory, s.nextItem, t.nextItem)
    case Move(_, _) =>
      && t.vault == s.vault && t.nextVault == s.nextVault
      && Extends(s.inventory, t.inventory, s.nextItem, t.nextItem)
    case Uninstall(id) =>
      && id in s.grid && t.vault == s.vault && t.nextVault == s.nextVault
      && t.inventory == s.inventory[s.nextItem := s.grid[id].machine] && t.nextItem == s.nextItem + 1
    case Discard(id) =>
      && t.inventory == s.inventory - {id} && t.vault == s.vault
      && t.nextItem == s.nextItem && t.nextVault == s.nextVault
    case StoreItems(_) =>
      && t.inventory == s.inventory - chosen && t.nextItem == s.nextItem
      && Extends(s.vault, t.vault, s.nextVault, t.nextVault)
      && (forall m ::
            Copies(t.vault, m) == Copies(s.vault, m) + Copies(Scrubbed(s.catalogue, Rows(s.inventory, chosen)), m))
    case StoreMachine(id) =>
      && id in s.grid && t.inventory == s.inventory && t.nextItem == s.nextItem
      && t.vault == s.vault[s.nextVault := Scrub(s.catalogue, s.grid[id].machine)]
      && t.nextVault == s.nextVault + 1
    case FetchItems(_) =>
      && t.vault == s.vault - chosen && t.nextVault == s.nextVault
      && Extends(s.inventory, t.inventory, s.nextItem, t.nextItem)
      && (forall m ::
            Copies(t.inventory, m)
            == Copies(s.inventory, m) + Copies(Scrubbed(s.catalogue, Rows(s.vault, chosen)), m))
    case FetchToGrid(id, _) =>
      && id in s.vault && t.vault == s.vault - {id} && t.nextVault == s.nextVault
      && Extends(s.inventory, t.inventory, s.nextItem, t.nextItem)
  }

  /** Displaced machines go to the inventory as they are; only the catalogue check can change the one that moves. */
  ghost predicate Displaces(s: State, op: Op, t: State) {
    match op
    case Install(_, _) => forall m :: Owned(t, m) == Owned(s, m)
    case Move(_, _) => forall m :: Owned(t, m) == Owned(s, m)
    case FetchToGrid(id, _) =>
      id in s.vault &&
      forall m :: Owned(t, m) + One(s.vault[id], m) == Owned(s, m) + One(Scrub(s.catalogue, s.vault[id]), m)
    case _ => true
  }

  ghost predicate Effect(s: State, op: Op, chosen: set<int>, t: State) {
    && t.catalogue == s.catalogue
    && GridEffect(s, op, t)
    && StockEffect(s, op, chosen, t)
    && Displaces(s, op, t)
  }

  ghost predicate Next(s: State, op: Op, t: State, r: Result) {
    exists chosen :: Selects(op, chosen) && Verdict(s, op, chosen, r) &&
                     if r == Ok then Effect(s, op, chosen, t) else t == s
  }

  // ---------------------------------------------------------------- invariants

  ghost predicate IdsIssued(s: State) {
    && (forall k :: k in s.grid ==> 1 <= k < s.nextMiner)
    && (forall k :: k in s.inventory ==> 1 <= k < s.nextItem)
    && (forall k :: k in s.vault ==> 1 <= k < s.nextVault)
    && 1 <= s.nextMiner && 1 <= s.nextItem && 1 <= s.nextVault
  }

  /** Every machine lies in the grid, two-slot machines on even slots, and no two start on the same slot. */
  ghost predicate AlignedGrid(grid: map<int, Placed>) {
    && (forall k :: k in grid ==> InGrid(grid[k].slot) && LegalStart(grid[k].slot, grid[k].machine.slotSize))
    && (forall a, b :: a in grid && b in grid && grid[a].slot == grid[b].slot ==> a == b)
  }

  ghost predicate Aligned(s: State) { IdsIssued(s) && AlignedGrid(s.grid) }

  /** No two machines share a slot. */
  ghost predicate NoOverlap(s: State) {
    forall a, b :: a in s.grid && b in s.grid && a != b ==> !Overlap(s.grid[a], s.grid[b])
  }

  /** Some two-slot machine starts just before an odd slot. */
  ghost predicate CoveredFromTheLeft(s: State, slot: int) {
    exists k :: k in s.grid && CoversFromTheLeft(s.grid[k], slot)
  }

  predicate Known(catalogue: set<int>, m: Machine) {
    m.minerId.Some? ==> m.minerId.value >= 1 && m.minerId.value in catalogue
  }

  /** The foreign keys of the three tables: every miner id in them is one of the catalogue's. */
  ghost predicate ForeignKeys(s: State) {
    && (forall k :: k in s.grid ==> Known(s.catalogue, s.grid[k].machine))
    && (forall k :: k in s.inventory ==> Known(s.catalogue, s.inventory[k]))
    && (forall k :: k in s.vault ==> Known(s.catalogue, s.vault[k]))
  }
}
