/** Machines as the placement, inventory and vault tables carry them. */
module Machines {
  import opened Tables

  /** The catalogue and the shop admit one- and two-slot machines only. */
  type SlotSize = n: nat | n == 1 || n == 2 witness 1

  /** What a machine carries from table to table. */
  datatype Machine = Machine(minerId: Option<int>, level: int, hashRate: real, slotSize: SlotSize)

  datatype Placed = Placed(slot: int, machine: Machine)

  ghost function Payloads(placed: map<int, Placed>): map<int, Machine> {
    map k | k in placed :: placed[k].machine
  }

  ghost function Rows(table: map<int, Machine>, ids: set<int>): map<int, Machine> {
    map k | k in table && k in ids :: table[k]
  }

  function One(m: Machine, n: Machine): nat { if m == n then 1 else 0 }

  /** A machine has copies in a table exactly when some row is that machine. */
  lemma {:induction false} CopiesPositive(rows: map<int, Machine>, m: Machine)
    ensures Copies(rows, m) > 0 <==> exists k :: k in rows && rows[k] == m
    decreases |rows|
  {
    if rows == map[] {
    } else {
      var j := AnyKey(rows);
      CopiesPositive(rows - {j}, m);
      forall k | k in rows && k != j
        ensures k in rows - {j} && (rows - {j})[k] == rows[k]
      {
      }
    }
  }

  lemma TakePayload(placed: map<int, Placed>, k: int, m: Machine)
    requires k in placed
    ensures Copies(Payloads(placed), m) == Copies(Payloads(placed - {k}), m) + One(placed[k].machine, m)
  {
    CopiesRemove(Payloads(placed), k, m);
    assert Payloads(placed) - {k} == Payloads(placed - {k});
  }

  lemma AddPayload(placed: map<int, Placed>, k: int, p: Placed, m: Machine)
    requires k !in placed
    ensures Copies(Payloads(placed[k := p]), m) == Copies(Payloads(placed), m) + One(p.machine, m)
  {
    CopiesInsert(Payloads(placed), k, p.machine, m);
    assert Payloads(placed)[k := p.machine] == Payloads(placed[k := p]);
  }
}
