/** What room requests do, and when they are granted, said of racks, machines and items alone. */
module RoomLaws {
  import opened Machines
  import opened RoomModel
  import opened RoomProofs
  import opened Tables

  predicate Free(s: State, r: int) {
    r in s.racks && s.racks[r].installed.None? && s.racks[r].blockedBy.None?
  }

  /** `r` is the rack right of `q`: in the same room, one position on, and in the same row of four. */
  predicate RightOf(s: State, q: int, r: int) {
    && q in s.racks && r in s.racks && s.racks[q].room == s.racks[r].room
    && s.racks[r].position == s.racks[q].position + 1 && s.racks[q].position / 4 == s.racks[r].position / 4
  }

  /**
   * An installation is granted exactly when rack and item exist, the rack is free, and so is the rack right of it
   * when the item takes two slots; otherwise nothing happens.
   */
  lemma InstallGrantedIff(s: State, rackId: int, itemId: int, t: State, result: Result)
    requires Consistent(s) && Next(s, Install(rackId, itemId), t, result)
    ensures result == Ok <==>
            && rackId > 0 && itemId > 0 && Free(s, rackId) && itemId in s.inventory
            && (s.inventory[itemId].slotSize == 2 ==> exists r :: RightOf(s, rackId, r) && Free(s, r))
    ensures result != Ok ==> t == s
  {
    if rackId in s.racks {
      forall r
        ensures RightOf(s, rackId, r) <==> r in NextRacks(s, rackId) && s.racks[rackId].position % 4 <= 2
      {
      }
      if r :| r in NextRacks(s, rackId) {
        forall q | q in NextRacks(s, rackId)
          ensures q == r
        {
          AtMostOneNext(s, rackId, q, r);
        }
      }
      if s.racks[rackId].position % 4 <= 2 && NextRacks(s, rackId) != {} {
        var r := Element(NextRacks(s, rackId));
        assert RightOf(s, rackId, r);
        assert AllFree(s.racks, NextRacks(s, rackId)) <==> Free(s, r);
      }
    }
  }

  /** An installed item sits on its rack as a new machine; only the rack right of it is blocked, for two slots. */
  lemma InstallLands(s: State, rackId: int, itemId: int, t: State)
    requires Consistent(s) && Next(s, Install(rackId, itemId), t, Ok)
    ensures rackId in s.racks && itemId in s.inventory && s.nextMiner !in s.miners && s.racks[rackId].room in s.rooms
    ensures var rack := s.racks[rackId];
            t.miners == s.miners[s.nextMiner :=
              Placed(1000 + (s.rooms[rack.room] - 1) * s.racksPerRoom + rack.position, s.inventory[itemId])]
    ensures t.inventory == s.inventory - {itemId} && t.rooms == s.rooms && t.racks.Keys == s.racks.Keys
    ensures t.racks[rackId] == s.racks[rackId].(installed := Some(s.nextMiner))
    ensures forall r :: r in s.racks && r != rackId ==>
              t.racks[r] == if s.inventory[itemId].slotSize == 2 && RightOf(s, rackId, r)
                            then s.racks[r].(blockedBy := Some(s.nextMiner)) else s.racks[r]
  {
  }

  /** Uninstallation is granted exactly on a rack with a machine. */
  lemma UninstallGrantedIff(s: State, rackId: int, t: State, result: Result)
    requires Consistent(s) && Next(s, Uninstall(rackId), t, result)
    ensures result == Ok <==> rackId in s.racks && s.racks[rackId].installed.Some?
    ensures result != Ok ==> t == s
  {
  }

  /** The machine of the rack becomes one inventory row, and its links go; nothing else changes. */
  lemma UninstallLands(s: State, rackId: int, t: State)
    requires Consistent(s) && Next(s, Uninstall(rackId), t, Ok)
    ensures rackId in s.racks && s.racks[rackId].installed.Some?
    ensures var m := s.racks[rackId].installed.value;
            && m in s.miners && t.miners == s.miners - {m} && t.rooms == s.rooms && t.racks.Keys == s.racks.Keys
            && s.nextItem !in s.inventory && t.inventory == s.inventory[s.nextItem := s.miners[m].machine]
            && (forall r :: r in s.racks ==>
                  t.racks[r] == if r == rackId then s.racks[r].(installed := None)
                                else if s.racks[r].blockedBy == Some(m) then s.racks[r].(blockedBy := None)
                                else s.racks[r])
  {
    var m := s.racks[rackId].installed.value;
    assert Holds(s, rackId, m);
    ReleasesInRoom(s, rackId, m);
    forall r | r in s.racks
      ensures t.racks[r] == if r == rackId then s.racks[r].(installed := None)
                            else if s.racks[r].blockedBy == Some(m) then s.racks[r].(blockedBy := None)
                            else s.racks[r]
    {
    }
  }

  /** A room is sold below the maximum number when it is paid: it has the next number and an empty rack a position. */
  lemma BuyingBuilds(s: State, paid: bool, t: State, result: Result)
    requires Consistent(s) && Next(s, BuyRoom(paid), t, result)
    ensures result == Ok <==> |s.rooms| < s.roomMax && paid
    ensures result != Ok ==> t == s
    ensures result == Ok ==>
              && s.nextRoom !in s.rooms && t.rooms == s.rooms[s.nextRoom := |s.rooms| + 1]
              && t.miners == s.miners && t.inventory == s.inventory
              && (forall r :: r in s.racks ==> r in t.racks && t.racks[r] == s.racks[r])
              && (forall r :: r in t.racks && r !in s.racks ==>
                    t.racks[r].room == s.nextRoom && Free(t, r) && 0 <= t.racks[r].position < s.racksPerRoom)
              && (forall p :: 0 <= p < s.racksPerRoom ==> HasNewRack(s, t, p))
  {
    if result == Ok {
      forall p | 0 <= p < s.racksPerRoom
        ensures HasNewRack(s, t, p)
      {
        var r := s.nextRack + p;
        assert r in NewRacks(s.nextRoom, s.nextRack, s.racksPerRoom);
        assert r in t.racks && r !in s.racks && t.racks[r].position == p;
      }
    }
  }

  ghost predicate HasNewRack(s: State, t: State, position: int) {
    exists r :: r in t.racks && r !in s.racks && t.racks[r].position == position
  }
}
