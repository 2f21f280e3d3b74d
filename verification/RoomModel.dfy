/**
 * The rooms of one player: racks laid out in rows of four, machines installed on them, and the inventory.
 *
 * A two-slot machine sits on one rack and blocks the next one of its row.
 */
module RoomModel {
  import opened Machines
  import opened Tables

  const COLUMNS := 4

  datatype Rack = Rack(room: int, position: int, installed: Option<int>, blockedBy: Option<int>)

  datatype State = State(
    rooms: map<int, int>, racks: map<int, Rack>, miners: map<int, Placed>, inventory: map<int, Machine>,
    nextRoom: int, nextRack: int, nextMiner: int, nextItem: int, racksPerRoom: nat, roomMax: nat)

  datatype Result =
    | Ok | InvalidId | RackNotFound | RackOccupied | ItemNotFound | RowEdge | NoSpace | AdjacentOccupied
    | RackEmpty | MaxRoomsReached | PaymentRefused

  datatype Op =
    | BuyRoom(paid: bool)
    | Install(rackId: int, itemId: int)
    | Uninstall(rackId: int)
    | UninstallBatch(rackIds: seq<int>)

  // ---------------------------------------------------------------- layout

  function RackSlotIndex(racksPerRoom: nat, roomNumber: int, position: int): int {
    1000 + (roomNumber - 1) * racksPerRoom + position
  }

  predicate Occupied(rack: Rack) { rack.installed.Some? || rack.blockedBy.Some? }

  /** The racks one position further in the same room. */
  function NextRacks(s: State, rackId: int): set<int>
    requires rackId in s.racks
  {
    set r | r in s.racks && s.racks[r].room == s.racks[rackId].room
            && s.racks[r].position == s.racks[rackId].position + 1
  }

  predicate AllFree(racks: map<int, Rack>, ids: set<int>) {
    forall r :: r in racks && r in ids ==> !Occupied(racks[r])
  }

  /** `r` follows `q` in the same row of the same room. */
  predicate Follows(s: State, q: int, r: int) {
    && q in s.racks && r in s.racks && s.racks[q].room == s.racks[r].room
    && s.racks[q].position + 1 == s.racks[r].position
    && s.racks[q].position % COLUMNS != COLUMNS - 1
  }

  predicate Holds(s: State, r: int, m: int) { r in s.racks && s.racks[r].installed == Some(m) }

  // ---------------------------------------------------------------- requests

  function InstallVerdict(s: State, rackId: int, itemId: int): Result {
    if rackId <= 0 || itemId <= 0 then InvalidId
    else if rackId !in s.racks then RackNotFound
    else if Occupied(s.racks[rackId]) then RackOccupied
    else if itemId !in s.inventory then ItemNotFound
    else if s.inventory[itemId].slotSize < 2 then Ok
    else if s.racks[rackId].position % COLUMNS > COLUMNS - 2 then RowEdge
    else if NextRacks(s, rackId) == {} then NoSpace
    else if !AllFree(s.racks, NextRacks(s, rackId)) then AdjacentOccupied
    else Ok
  }

  /** Installs an item; the rack after it is blocked when the machine takes two slots. */
  function InstallEffect(s: State, rackId: int, itemId: int): State
    requires rackId in s.racks && s.racks[rackId].room in s.rooms && itemId in s.inventory
  {
    var item, rack, id := s.inventory[itemId], s.racks[rackId], s.nextMiner;
    var blocked := if item.slotSize >= 2 then NextRacks(s, rackId) else {};
    s.(miners := s.miners[id := Placed(RackSlotIndex(s.racksPerRoom, s.rooms[rack.room], rack.position), item)],
       racks := map r | r in s.racks :: if r == rackId then s.racks[r].(installed := Some(id))
                                        else if r in blocked then s.racks[r].(blockedBy := Some(id))
                                        else s.racks[r],
       inventory := s.inventory - {itemId},
       nextMiner := id + 1)
  }

  function UninstallVerdict(s: State, rackId: int): Result {
    if rackId <= 0 then InvalidId
    else if rackId !in s.racks then RackNotFound
    else if s.racks[rackId].installed.None? then RackEmpty
    else Ok
  }

  /** No rack refers to the machines `gone` any more. `ReleasesInRoom` of RoomProofs ties `ClearRack` to this. */
  function Release(racks: map<int, Rack>, gone: set<int>): map<int, Rack> {
    map r | r in racks ::
      racks[r].(installed := Without(racks[r].installed, gone), blockedBy := Without(racks[r].blockedBy, gone))
  }

  function Without(link: Option<int>, gone: set<int>): Option<int> {
    if link.Some? && link.value in gone then None else link
  }

  /** What the handler clears: the rack's own link, then the blocking links of the same room. */
  function ClearRack(racks: map<int, Rack>, rackId: int, m: int): map<int, Rack>
    requires rackId in racks
  {
    map r | r in racks ::
      var rack := if r == rackId then racks[r].(installed := None) else racks[r];
      if rack.room == racks[rackId].room && rack.blockedBy == Some(m) then rack.(blockedBy := None) else rack
  }

  function UninstallEffect(s: State, rackId: int): State
    requires rackId in s.racks && s.racks[rackId].installed.Some? && s.racks[rackId].installed.value in s.miners
  {
    var m := s.racks[rackId].installed.value;
    s.(racks := ClearRack(s.racks, rackId, m),
       inventory := s.inventory[s.nextItem := s.miners[m].machine],
       nextItem := s.nextItem + 1,
       miners := s.miners - {m})
  }

  /** The positive ids, each once, in the order in which they first occur. */
  function Normalize(raw: seq<int>): (ids: seq<int>)
    ensures forall i :: i in ids <==> i in raw && i > 0
    ensures forall a, b :: 0 <= a < b < |ids| ==> ids[a] != ids[b]
  {
    if raw == [] then []
    else
      var before, last := Normalize(raw[..|raw| - 1]), raw[|raw| - 1];
      assert raw == raw[..|raw| - 1] + [last];
      if last > 0 && last !in before then before + [last] else before
  }

  /** The first rack of the list that cannot be emptied decides the answer. */
  function FirstFault(s: State, ids: seq<int>): Result {
    if ids == [] then Ok
    else if ids[0] !in s.racks then RackNotFound
    else if s.racks[ids[0]].installed.None? then RackEmpty
    else FirstFault(s, ids[1..])
  }

  function BatchVerdict(s: State, raw: seq<int>): Result {
    var ids := Normalize(raw);
    if ids == [] then InvalidId else FirstFault(s, ids)
  }

  /** Uninstalls one rack after the other. */
  function UninstallEach(s: State, ids: seq<int>): State {
    if ids == [] then s
    else
      var before, last := UninstallEach(s, ids[..|ids| - 1]), ids[|ids| - 1];
      if UninstallVerdict(before, last) == Ok && before.racks[last].installed.value in before.miners
      then UninstallEffect(before, last)
      else before
  }

  function BuyVerdict(s: State, paid: bool): Result {
    if |s.rooms| + 1 > s.roomMax then MaxRoomsReached else if !paid then PaymentRefused else Ok
  }

  /** The n empty racks of a new room, at positions 0, 1, ... */
  function NewRacks(room: int, from: int, n: nat): (racks: map<int, Rack>)
    ensures forall r :: r in racks <==> from <= r < from + n
    ensures forall r :: r in racks ==> racks[r] == Rack(room, r - from, None, None)
  {
    if n == 0 then map[] else NewRacks(room, from, n - 1)[from + n - 1 := Rack(room, n - 1, None, None)]
  }

  function BuyEffect(s: State): State {
    s.(rooms := s.rooms[s.nextRoom := |s.rooms| + 1],
       racks := s.racks + NewRacks(s.nextRoom, s.nextRack, s.racksPerRoom),
       nextRoom := s.nextRoom + 1,
       nextRack := s.nextRack + s.racksPerRoom)
  }

  /** The answer to a request and what it leaves behind; refused requests change nothing. */
  ghost predicate Next(s: State, op: Op, t: State, r: Result) {
    match op
    case BuyRoom(paid) => r == BuyVerdict(s, paid) && t == if r == Ok then BuyEffect(s) else s
    case Install(rackId, itemId) =>
      r == InstallVerdict(s, rackId, itemId) &&
      if r == Ok then s.racks[rackId].room in s.rooms && t == InstallEffect(s, rackId, itemId) else t == s
    case Uninstall(rackId) =>
      r == UninstallVerdict(s, rackId) &&
      if r == Ok then s.racks[rackId].installed.value in s.miners && t == UninstallEffect(s, rackId) else t == s
    case UninstallBatch(raw) =>
      r == BatchVerdict(s, raw) && t == if r == Ok then UninstallEach(s, Normalize(raw)) else s
  }

  // ---------------------------------------------------------------- invariants

  ghost predicate IdsIssued(s: State) {
    && (forall k :: k in s.rooms ==> 1 <= k < s.nextRoom)
    && (forall k :: k in s.racks ==> 1 <= k < s.nextRack)
    && (forall k :: k in s.miners ==> 1 <= k < s.nextMiner)
    && (forall k :: k in s.inventory ==> 1 <= k < s.nextItem)
    && 1 <= s.nextRoom && 1 <= s.nextRack && 1 <= s.nextMiner && 1 <= s.nextItem
  }

  predicate SamePlace(a: Rack, b: Rack) { a.room == b.room && a.position == b.position }

  /** The rooms bear different numbers, from 1 to the number of rooms. */
  ghost predicate Numbered(rooms: map<int, int>) {
    && (forall k :: k in rooms ==> 1 <= rooms[k] <= |rooms|)
    && (forall a, b :: a in rooms && b in rooms && rooms[a] == rooms[b] ==> a == b)
  }

  /** Every rack has a place in a room of the player, and no two racks share one. */
  ghost predicate LaidOut(s: State) {
    && Numbered(s.rooms)
    && (forall r :: r in s.racks ==> s.racks[r].room in s.rooms && 0 <= s.racks[r].position < s.racksPerRoom)
    && (forall a, b :: a in s.racks && b in s.racks && SamePlace(s.racks[a], s.racks[b]) ==> a == b)
  }

  /** Every machine sits on exactly one rack and has that rack's slot index. */
  ghost predicate Seated(s: State) {
    && (forall r, m :: Holds(s, r, m) ==>
          m in s.miners && s.racks[r].room in s.rooms &&
          s.miners[m].slot == RackSlotIndex(s.racksPerRoom, s.rooms[s.racks[r].room], s.racks[r].position))
    && (forall a, b, m :: Holds(s, a, m) && Holds(s, b, m) ==> a == b)
    && (forall m :: m in s.miners ==> exists r :: Holds(s, r, m))
  }

  /** `q` holds the two-slot machine `m`, and `r` is the rack after it in the row. */
  predicate Blocks(s: State, q: int, r: int, m: int) {
    Follows(s, q, r) && Holds(s, q, m) && m in s.miners && s.miners[m].machine.slotSize == 2
  }

  /** Blocking links are exactly those the installed two-slot machines call for. */
  ghost predicate Blocking(s: State) {
    && (forall r :: r in s.racks && s.racks[r].blockedBy.Some? ==>
          exists q :: Blocks(s, q, r, s.racks[r].blockedBy.value))
    && (forall q, r, m :: Blocks(s, q, r, m) ==> s.racks[r].blockedBy == Some(m))
    && (forall r :: r in s.racks ==> s.racks[r].installed.None? || s.racks[r].blockedBy.None?)
    && (forall q, m :: Holds(s, q, m) && m in s.miners && s.miners[m].machine.slotSize == 2 ==>
          exists r :: Follows(s, q, r))
  }

  ghost predicate Consistent(s: State) {
    IdsIssued(s) && LaidOut(s) && Seated(s) && Blocking(s)
  }
}
