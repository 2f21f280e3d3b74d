/** What every run of grid requests keeps. */
module GridProofs {
  import opened Machines
  import opened Tables
  import opened GridModel

  // ---------------------------------------------------------------- geometry over runs

  /** The guards that a granted request has passed. */
  ghost predicate Admitted(s: State, op: Op) {
    match op
    case Install(slot, id) => InGrid(slot) && id in s.inventory && LegalStart(slot, s.inventory[id].slotSize)
    case Move(id, slot) => InGrid(slot) && id in s.grid && LegalStart(slot, s.grid[id].machine.slotSize)
    case FetchToGrid(id, slot) => InGrid(slot) && id in s.vault && LegalStart(slot, s.vault[id].slotSize)
    case _ => true
  }

  lemma GridEffectKeepsAligned(s: State, op: Op, t: State)
    requires Aligned(s) && Admitted(s, op) && GridEffect(s, op, t)
    ensures AlignedGrid(t.grid) && forall k :: k in t.grid ==> 1 <= k < t.nextMiner
  {
  }

  /** In an aligned grid, looking at start indexes and one slot to the left finds every machine in the way. */
  lemma SurvivorsByStart(grid: map<int, Placed>, slot: int, size: SlotSize, keep: set<int>)
    requires AlignedGrid(grid) && LegalStart(slot, size)
    ensures Survivors(grid, slot, size, keep) ==
            map k | k in grid && (k in keep || (!StartsIn(grid[k], slot, size) && !CoversFromTheLeft(grid[k], slot)))
              :: grid[k]
  {
    assert forall k :: k in grid ==>
      (Meets(grid[k], slot, size) <==> StartsIn(grid[k], slot, size) || CoversFromTheLeft(grid[k], slot));
  }

  lemma NextKeepsAligned(s: State, op: Op, t: State, r: Result)
    requires Aligned(s) && Next(s, op, t, r)
    ensures Aligned(t)
  {
    if r == Ok {
      GridEffectKeepsAligned(s, op, t);
    }
  }

  lemma GridEffectOverlaps(s: State, op: Op, t: State, a: int, b: int)
    requires Aligned(s) && Admitted(s, op) && GridEffect(s, op, t)
    requires a in t.grid && b in t.grid && a != b && Overlap(t.grid[a], t.grid[b])
    ensures || (a in s.grid && b in s.grid && s.grid[a] == t.grid[a] && s.grid[b] == t.grid[b])
            || (op.FetchToGrid? && CoveredFromTheLeft(s, op.slot))
  {
  }

  /** Two machines can only begin to overlap when a retrieval from the vault lands on a covered slot. */
  lemma OverlapsComeFromFetch(s: State, op: Op, t: State, r: Result, a: int, b: int)
    requires Aligned(s) && Next(s, op, t, r)
    requires a in t.grid && b in t.grid && a != b && Overlap(t.grid[a], t.grid[b])
    ensures || (a in s.grid && b in s.grid && s.grid[a] == t.grid[a] && s.grid[b] == t.grid[b])
            || (op.FetchToGrid? && r == Ok && CoveredFromTheLeft(s, op.slot))
  {
    if r == Ok {
      GridEffectOverlaps(s, op, t, a, b);
    }
  }

  /** Retrieval from the vault to the grid keeps the machines apart exactly when its target is not covered. */
  lemma FetchKeepsApartIff(s: State, op: Op, t: State)
    requires Aligned(s) && NoOverlap(s) && op.FetchToGrid? && Next(s, op, t, Ok)
    ensures NoOverlap(t) <==> !CoveredFromTheLeft(s, op.slot)
  {
    if CoveredFromTheLeft(s, op.slot) {
      var k :| k in s.grid && CoversFromTheLeft(s.grid[k], op.slot);
      assert k in t.grid && t.grid[k] == s.grid[k];
      assert Overlap(t.grid[k], t.grid[s.nextMiner]);
    } else {
      forall a, b | a in t.grid && b in t.grid && a != b
        ensures !Overlap(t.grid[a], t.grid[b])
      {
        if Overlap(t.grid[a], t.grid[b]) {
          OverlapsComeFromFetch(s, op, t, Ok, a, b);
        }
      }
    }
  }

  ghost predicate UncoveredFetch(s: State, op: Op, r: Result) {
    op.FetchToGrid? && r == Ok ==> !CoveredFromTheLeft(s, op.slot)
  }

  lemma NextKeepsApartIff(s: State, op: Op, t: State, r: Result)
    requires Aligned(s) && NoOverlap(s) && Next(s, op, t, r)
    ensures NoOverlap(t) <==> UncoveredFetch(s, op, r)
  {
    if op.FetchToGrid? && r == Ok {
      FetchKeepsApartIff(s, op, t);
    } else {
      forall a, b | a in t.grid && b in t.grid && a != b
        ensures !Overlap(t.grid[a], t.grid[b])
      {
        if Overlap(t.grid[a], t.grid[b]) {
          OverlapsComeFromFetch(s, op, t, r, a, b);
        }
      }
    }
  }

  datatype Step = Step(op: Op, result: Result)

  /** `states[i + 1]` is what `steps[i]` made of `states[i]`. */
  ghost predicate IsRun(states: seq<State>, steps: seq<Step>) {
    && |states| == |steps| + 1
    && forall i :: 0 <= i < |steps| ==> Next(states[i], steps[i].op, states[i + 1], steps[i].result)
  }

  lemma {:induction false} RunKeepsAligned(states: seq<State>, steps: seq<Step>, i: nat)
    requires IsRun(states, steps) && Aligned(states[0]) && i < |states|
    ensures Aligned(states[i])
  {
    if i == 0 {
    } else {
      RunKeepsAligned(states, steps, i - 1);
      NextKeepsAligned(states[i - 1], steps[i - 1].op, states[i], steps[i - 1].result);
    }
  }

  ghost predicate OnlyUncoveredFetches(states: seq<State>, steps: seq<Step>)
    requires IsRun(states, steps)
  {
    forall i :: 0 <= i < |steps| ==> UncoveredFetch(states[i], steps[i].op, steps[i].result)
  }

  /** Over a whole run no two machines ever share a slot, exactly when no retrieval hit a covered slot. */
  lemma RunKeepsApartIff(states: seq<State>, steps: seq<Step>)
    requires IsRun(states, steps) && Aligned(states[0]) && NoOverlap(states[0])
    ensures (forall i :: 0 <= i < |states| ==> NoOverlap(states[i])) <==> OnlyUncoveredFetches(states, steps)
  {
    if OnlyUncoveredFetches(states, steps) {
      forall i | 0 <= i < |states|
        ensures NoOverlap(states[i])
      {
        ApartUpTo(states, steps, i);
      }
    } else {
      var i :| 0 <= i < |steps| && !UncoveredFetch(states[i], steps[i].op, steps[i].result);
      if NoOverlap(states[i]) {
        RunKeepsAligned(states, steps, i);
        NextKeepsApartIff(states[i], steps[i].op, states[i + 1], steps[i].result);
      }
    }
  }

  lemma {:induction false} ApartUpTo(states: seq<State>, steps: seq<Step>, i: nat)
    requires IsRun(states, steps) && Aligned(states[0]) && NoOverlap(states[0])
    requires OnlyUncoveredFetches(states, steps) && i < |states|
    ensures NoOverlap(states[i])
  {
    if i == 0 {
    } else {
      ApartUpTo(states, steps, i - 1);
      RunKeepsAligned(states, steps, i - 1);
      NextKeepsApartIff(states[i - 1], steps[i - 1].op, states[i], steps[i - 1].result);
    }
  }

  /** A retrieval that does land on a covered slot: a two-slot machine on 0, a one-slot machine sent to 1. */
  lemma FetchOverlapWitness() returns (s: State, op: Op, t: State)
    ensures Aligned(s) && NoOverlap(s) && Next(s, op, t, Ok) && !NoOverlap(t)
  {
    var big, small := Machine(None, 1, 10.0, 2), Machine(None, 1, 5.0, 1);
    s := State(map[1 := Placed(0, big)], map[], map[1 := small], 2, 1, 2, {});
    op := FetchToGrid(1, 1);
    t := s.(grid := map[1 := Placed(0, big), 2 := Placed(1, small)], vault := map[], nextMiner := 3);
    assert t.grid == NonStarters(s.grid, 1, 1)[2 := Placed(1, small)] == s.grid[2 := Placed(1, small)];
    assert t.vault == s.vault - {1};
    forall m
      ensures Owned(t, m) == Owned(s, m)
    {
      AddPayload(s.grid, 2, Placed(1, small), m);
      CopiesRemove(s.vault, 1, m);
    }
    assert Selects(op, {}) && Verdict(s, op, {}, Ok) && Effect(s, op, {}, t);
    assert Overlap(t.grid[1], t.grid[2]);
  }

  // ---------------------------------------------------------------- machines over runs

  /** Splitting a table by ids splits its rows. */
  lemma {:induction false} SplitRows(table: map<int, Machine>, ids: set<int>, m: Machine)
    requires ids <= table.Keys
    ensures Copies(table, m) == Copies(table - ids, m) + Copies(Rows(table, ids), m)
    decreases |ids|
  {
    if ids == {} {
      assert table - ids == table && Rows(table, ids) == map[];
    } else {
      var k := Element(ids);
      var less := ids - {k};
      SplitRows(table, less, m);
      CopiesRemove(table - less, k, m);
      assert table - less - {k} == table - ids;
      CopiesInsert(Rows(table, less), k, table[k], m);
      assert Rows(table, less)[k := table[k]] == Rows(table, ids);
    }
  }

  lemma TransferRow(
    catalogue: set<int>, source: map<int, Machine>, done: set<int>, target: map<int, Machine>, next: int, id: int,
    m: Machine)
    requires id in source && id !in done && next !in target
    ensures Copies(target[next := Scrub(catalogue, source[id])], m) - Copies(target, m)
            == Copies(Scrubbed(catalogue, Rows(source, done + {id})), m)
               - Copies(Scrubbed(catalogue, Rows(source, done)), m)
  {
    var row := Scrub(catalogue, source[id]);
    CopiesInsert(target, next, row, m);
    CopiesInsert(Scrubbed(catalogue, Rows(source, done)), id, row, m);
    assert Scrubbed(catalogue, Rows(source, done))[id := row] == Scrubbed(catalogue, Rows(source, done + {id}));
  }

  ghost predicate AllKnown(catalogue: set<int>, rows: map<int, Machine>) {
    forall k :: k in rows ==> Known(catalogue, rows[k])
  }

  lemma RowsKnownIff(catalogue: set<int>, rows: map<int, Machine>)
    ensures AllKnown(catalogue, rows) <==> forall m :: Copies(rows, m) > 0 ==> Known(catalogue, m)
  {
    forall m
      ensures Copies(rows, m) > 0 <==> exists k :: k in rows && rows[k] == m
    {
      CopiesPositive(rows, m);
    }
    if k :| k in rows && !Known(catalogue, rows[k]) {
      assert Copies(rows, rows[k]) > 0;
    }
  }

  /** The foreign keys in terms of what the player owns. */
  lemma ForeignKeysIff(s: State)
    ensures ForeignKeys(s) <==> forall m :: Owned(s, m) > 0 ==> Known(s.catalogue, m)
  {
    RowsKnownIff(s.catalogue, Payloads(s.grid));
    RowsKnownIff(s.catalogue, s.inventory);
    RowsKnownIff(s.catalogue, s.vault);
    forall k | k in s.grid
      ensures k in Payloads(s.grid) && Payloads(s.grid)[k] == s.grid[k].machine
    {
    }
    if forall m :: Owned(s, m) > 0 ==> Known(s.catalogue, m) {
      assert forall m :: Copies(Payloads(s.grid), m) > 0 ==> Owned(s, m) > 0;
      assert forall m :: Copies(s.inventory, m) > 0 ==> Owned(s, m) > 0;
      assert forall m :: Copies(s.vault, m) > 0 ==> Owned(s, m) > 0;
    }
  }

  /** The machines a granted request destroys: the discarded item, nothing otherwise. */
  ghost function Lost(s: State, step: Step, m: Machine): nat {
    if step.op.Discard? && step.result == Ok && step.op.itemId in s.inventory
    then One(s.inventory[step.op.itemId], m)
    else 0
  }

  predicate IsVaultOp(op: Op) { op.StoreItems? || op.StoreMachine? || op.FetchItems? || op.FetchToGrid? }

  /** The machines a vault request carries from one table to another. */
  ghost function Moved(s: State, op: Op, chosen: set<int>): map<int, Machine>
    requires IsVaultOp(op)
  {
    match op
    case StoreItems(_) => Rows(s.inventory, chosen)
    case FetchItems(_) => Rows(s.vault, chosen)
    case StoreMachine(id) => if id in s.grid then map[id := s.grid[id].machine] else map[]
    case FetchToGrid(id, _) => if id in s.vault then map[id := s.vault[id]] else map[]
  }

  lemma CopiesOfOne(catalogue: set<int>, id: int, row: Machine, m: Machine)
    ensures Copies(map[id := row], m) == One(row, m)
    ensures Copies(Scrubbed(catalogue, map[id := row]), m) == One(Scrub(catalogue, row), m)
  {
    CopiesInsert(map[], id, row, m);
    CopiesInsert(map[], id, Scrub(catalogue, row), m);
    assert Scrubbed(catalogue, map[id := row]) == map[id := Scrub(catalogue, row)];
  }

  /** A vault request changes nothing the player owns but what the catalogue check does to the machines it moves. */
  lemma VaultExchanges(s: State, op: Op, chosen: set<int>, t: State, m: Machine)
    requires Aligned(s) && IsVaultOp(op) && Verdict(s, op, chosen, Ok) && Effect(s, op, chosen, t)
    ensures Owned(t, m) + Copies(Moved(s, op, chosen), m)
            == Owned(s, m) + Copies(Scrubbed(s.catalogue, Moved(s, op, chosen)), m)
  {
    match op
    case StoreItems(_) =>
      SplitRows(s.inventory, chosen, m);
    case FetchItems(_) =>
      SplitRows(s.vault, chosen, m);
    case StoreMachine(id) =>
      TakePayload(s.grid, id, m);
      CopiesInsert(s.vault, s.nextVault, Scrub(s.catalogue, s.grid[id].machine), m);
      CopiesOfOne(s.catalogue, id, s.grid[id].machine, m);
    case FetchToGrid(id, _) =>
      CopiesOfOne(s.catalogue, id, s.vault[id], m);
  }

  lemma KnownUnchanged(catalogue: set<int>, rows: map<int, Machine>)
    requires AllKnown(catalogue, rows)
    ensures Scrubbed(catalogue, rows) == rows
  {
    forall k | k in rows
      ensures Scrub(catalogue, rows[k]) == rows[k]
    {
    }
  }

  /** The check leaves no copy of a machine whose miner it does not know. */
  lemma UnknownVanishes(catalogue: set<int>, rows: map<int, Machine>, k: int)
    requires k in rows && !Known(catalogue, rows[k])
    ensures Copies(Scrubbed(catalogue, rows), rows[k]) == 0 < Copies(rows, rows[k])
  {
    CopiesPositive(rows, rows[k]);
    CopiesPositive(Scrubbed(catalogue, rows), rows[k]);
    assert forall j :: j in rows ==> Scrub(catalogue, rows[j]) != rows[k];
  }

  /**
   * A vault request keeps what the player owns exactly when the catalogue knows the miner id of every machine it
   * moves. The foreign keys see to that.
   */
  lemma VaultKeepsMachinesIff(s: State, op: Op, t: State) returns (chosen: set<int>)
    requires Aligned(s) && IsVaultOp(op) && Next(s, op, t, Ok)
    ensures Selects(op, chosen)
    ensures (forall m :: Owned(t, m) == Owned(s, m)) <==> AllKnown(s.catalogue, Moved(s, op, chosen))
    ensures ForeignKeys(s) ==> AllKnown(s.catalogue, Moved(s, op, chosen))
  {
    chosen :| Selects(op, chosen) && Verdict(s, op, chosen, Ok) && Effect(s, op, chosen, t);
    var moved := Moved(s, op, chosen);
    if AllKnown(s.catalogue, moved) {
      KnownUnchanged(s.catalogue, moved);
      forall m
        ensures Owned(t, m) == Owned(s, m)
      {
        VaultExchanges(s, op, chosen, t, m);
      }
    } else {
      var k :| k in moved && !Known(s.catalogue, moved[k]);
      UnknownVanishes(s.catalogue, moved, k);
      VaultExchanges(s, op, chosen, t, moved[k]);
      assert Owned(t, moved[k]) != Owned(s, moved[k]);
    }
  }

  lemma NextKeepsMachine(s: State, op: Op, t: State, r: Result, m: Machine)
    requires Aligned(s) && ForeignKeys(s) && Next(s, op, t, r)
    ensures Owned(t, m) + Lost(s, Step(op, r), m) == Owned(s, m)
  {
    if r == Ok {
      if IsVaultOp(op) {
        var chosen := VaultKeepsMachinesIff(s, op, t);
      } else {
        var chosen :| Selects(op, chosen) && Verdict(s, op, chosen, r) && Effect(s, op, chosen, t);
        match op
        case Install(_, _) =>
        case Move(_, _) =>
        case Discard(id) =>
          CopiesRemove(s.inventory, id, m);
        case Uninstall(id) =>
          TakePayload(s.grid, id, m);
          CopiesInsert(s.inventory, s.nextItem, s.grid[id].machine, m);
      }
    }
  }

  lemma NextKeepsForeignKeys(s: State, op: Op, t: State, r: Result)
    requires Aligned(s) && ForeignKeys(s) && Next(s, op, t, r)
    ensures ForeignKeys(t)
  {
    ForeignKeysIff(s);
    ForeignKeysIff(t);
    forall m | Owned(t, m) > 0
      ensures Known(t.catalogue, m)
    {
      NextKeepsMachine(s, op, t, r, m);
    }
  }

  /** What a request keeps, whatever it is: alignment, disjointness unless it hits a covered slot, foreign keys. */
  ghost predicate Keeps(s: State, op: Op, t: State, r: Result) {
    && Aligned(t)
    && (NoOverlap(s) ==> (NoOverlap(t) <==> UncoveredFetch(s, op, r)))
    && (ForeignKeys(s) ==> ForeignKeys(t))
  }

  lemma NextKeeps(s: State, op: Op, t: State, r: Result)
    requires Aligned(s) && Next(s, op, t, r)
    ensures Keeps(s, op, t, r)
  {
    NextKeepsAligned(s, op, t, r);
    if NoOverlap(s) {
      NextKeepsApartIff(s, op, t, r);
    }
    if ForeignKeys(s) {
      NextKeepsForeignKeys(s, op, t, r);
    }
  }

  ghost function AllLost(states: seq<State>, steps: seq<Step>, i: nat, m: Machine): nat
    requires i <= |steps| < |states|
  {
    if i == 0 then 0 else AllLost(states, steps, i - 1, m) + Lost(states[i - 1], steps[i - 1], m)
  }

  /** Over a whole run machines only leave the player by being discarded, and none appears or changes. */
  lemma {:induction false} RunKeepsMachines(states: seq<State>, steps: seq<Step>, i: nat)
    requires IsRun(states, steps) && Aligned(states[0]) && ForeignKeys(states[0]) && i < |states|
    ensures forall m :: Owned(states[i], m) + AllLost(states, steps, i, m) == Owned(states[0], m)
    ensures ForeignKeys(states[i])
  {
    if i == 0 {
    } else {
      RunKeepsMachines(states, steps, i - 1);
      RunKeepsAligned(states, steps, i - 1);
      NextKeepsForeignKeys(states[i - 1], steps[i - 1].op, states[i], steps[i - 1].result);
      forall m {
        NextKeepsMachine(states[i - 1], steps[i - 1].op, states[i], steps[i - 1].result, m);
      }
    }
  }
}
