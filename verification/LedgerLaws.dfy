/**
 * What each request of the ledger answers and leaves, said of the tables alone: conditions are spelt out in rows,
 * amounts and statuses, and every table that is not named stays as it was.
 */
module LedgerLaws {
  import opened LedgerModel
  import opened LedgerProofs
  import opened Tables
  import opened TxHashes
  import Checkin = CheckinModel
  import Runs = LedgerRuns

  // ---------------------------------------------------------------- withdrawals

  /** A request reserves exactly its amount, when no withdrawal of the player is pending and the balance covers it. */
  lemma RequestReserves(cfg: Config, s: State, user: int, amount: int)
    requires Regular(s)
    ensures var pending := exists k :: k in s.txs && s.txs[k].user == user && s.txs[k].kind == Withdrawal
                                       && s.txs[k].status == Pending;
            Apply(cfg, s, RequestWithdrawal(user, amount)) ==
            if amount > 0 && !pending && user in s.balances && s.balances[user] >= amount then
              (s.(txs := s.txs[s.nextId := Tx(user, Withdrawal, amount, None, Pending, true)],
                  balances := s.balances[user := s.balances[user] - amount], nextId := s.nextId + 1), Done)
            else (s, Refused)
  {
    if pending :| PendingWithdrawal(s, user, pending) {
      assert s.txs[pending].status == Pending;
    }
    if k :| k in s.txs && s.txs[k].user == user && s.txs[k].kind == Withdrawal && s.txs[k].status == Pending {
      assert PendingWithdrawal(s, user, k);
    }
  }

  lemma ApprovalMarks(cfg: Config, s: State, id: int)
    ensures Apply(cfg, s, ApproveWithdrawal(id)) ==
            if id in s.txs && s.txs[id].kind == Withdrawal && s.txs[id].status == Pending then
              (s.(txs := s.txs[id := s.txs[id].(status := Approved)]), Done)
            else (s, Refused)
  {
  }

  /** A rejection fails a pending or approved withdrawal and returns its whole amount. */
  lemma RejectionRefunds(cfg: Config, s: State, id: int)
    requires Regular(s)
    ensures Apply(cfg, s, RejectWithdrawal(id)) ==
            if id in s.txs && s.txs[id].kind == Withdrawal
               && (s.txs[id].status == Pending || s.txs[id].status == Approved) then
              var tx := s.txs[id];
              (s.(txs := s.txs[id := tx.(status := Failed)],
                  balances := s.balances[tx.user := s.balances[tx.user] + tx.amount]), Refunded(id))
            else (s, Refused)
  {
  }

  /** Completion settles the row under the transaction's hash and moves no money. */
  lemma CompletionSettles(cfg: Config, s: State, id: int, text: string)
    ensures Apply(cfg, s, CompleteWithdrawal(id, text)) ==
            if IsHash(Trim(text)) && id in s.txs && s.txs[id].kind == Withdrawal
               && (s.txs[id].status == Pending || s.txs[id].status == Approved) then
              (s.(txs := s.txs[id := s.txs[id].(status := Completed, hash := Some(Trim(text)))]), Done)
            else (s, Refused)
  {
  }

  lemma SendingSettles(cfg: Config, s: State, id: int, hash: string)
    ensures Apply(cfg, s, AutoSend(id, hash)) ==
            if id in s.txs && s.txs[id].kind == Withdrawal && s.txs[id].status == Approved then
              (s.(txs := s.txs[id := s.txs[id].(status := Completed,
                                                hash := if hash == "" then s.txs[id].hash else Some(hash))]), Done)
            else (s, Refused)
  {
  }

  /** Approved and rejected, a pending withdrawal has failed, and its player has the amount. */
  lemma ApproveReject(cfg: Config, s: State, id: int)
    requires Regular(s) && id in s.txs && s.txs[id].kind == Withdrawal && s.txs[id].status == Pending
    ensures s.txs[id].user in s.balances
    ensures var (t, yes) := Apply(cfg, s, ApproveWithdrawal(id));
            var (u, back) := Apply(cfg, t, RejectWithdrawal(id));
            var tx := s.txs[id];
            && yes == Done && back == Refunded(id) && u.txs == s.txs[id := tx.(status := Failed)]
            && u.balances == s.balances[tx.user := s.balances[tx.user] + tx.amount]
  {
    var t := Apply(cfg, s, ApproveWithdrawal(id)).0;
    assert Regular(t) by {
      ApplyConserves(cfg, s, ApproveWithdrawal(id));
    }
    ApprovalMarks(cfg, s, id);
    RejectionRefunds(cfg, t, id);
  }

  /** A withdrawal requested, approved and rejected leaves the balances as they were, and one failed row. */
  lemma RequestApproveReject(cfg: Config, s: State, user: int, amount: int)
    requires Regular(s) && Apply(cfg, s, RequestWithdrawal(user, amount)).1 == Done
    ensures var (id, requested) := (s.nextId, Apply(cfg, s, RequestWithdrawal(user, amount)).0);
            var (approved, yes) := Apply(cfg, requested, ApproveWithdrawal(id));
            var (rejected, back) := Apply(cfg, approved, RejectWithdrawal(id));
            && yes == Done && back == Refunded(id) && rejected.balances == s.balances
            && rejected.txs == s.txs[id := Tx(user, Withdrawal, amount, None, Failed, true)]
  {
    var requested := Apply(cfg, s, RequestWithdrawal(user, amount)).0;
    assert Regular(requested) by {
      ApplyConserves(cfg, s, RequestWithdrawal(user, amount));
    }
    RequestReserves(cfg, s, user, amount);
    ApproveReject(cfg, requested, s.nextId);
    assert requested.balances[user := s.balances[user]] == s.balances;
  }

  // ---------------------------------------------------------------- deposits

  predicate IsDeposit(txs: map<int, Tx>, k: int, hash: string) {
    k in txs && txs[k].kind == Deposit && txs[k].hash == Some(hash)
  }

  ghost predicate HasDeposit(txs: map<int, Tx>, hash: string) { exists k :: IsDeposit(txs, k, hash) }

  lemma HasDepositIff(txs: map<int, Tx>, hash: string)
    ensures HasDeposit(txs, hash) <==> DepositsOf(txs, hash) != {}
  {
    if k :| IsDeposit(txs, k, hash) {
      assert k in DepositsOf(txs, hash);
    }
    if DepositsOf(txs, hash) != {} {
      var k := Element(DepositsOf(txs, hash));
      assert IsDeposit(txs, k, hash);
    }
  }

  lemma OnlyDeposit(s: State, k: int, hash: string)
    requires Regular(s) && IsDeposit(s.txs, k, hash)
    ensures DepositsOf(s.txs, hash) != {} && DepositOf(s.txs, hash) == k
  {
    assert k in DepositsOf(s.txs, hash);
    assert SameDeposit(s.txs[k], s.txs[DepositOf(s.txs, hash)]);
  }

  /** A deposit is credited at once when the chain confirms it and no deposit has its hash. */
  lemma DepositCredits(cfg: Config, s: State, user: int, amount: int, hash: string, verified: bool)
    ensures Apply(cfg, s, CreateDeposit(user, amount, hash, verified)) ==
            if hash != "" && amount > 0 && verified && user in s.balances && !HasDeposit(s.txs, hash) then
              (s.(txs := s.txs[s.nextId := Tx(user, Deposit, amount, Some(hash), Completed, false)],
                  balances := s.balances[user := s.balances[user] + amount], nextId := s.nextId + 1),
               CreditedTo(user, Some(hash), amount, None))
            else (s, Refused)
  {
    HasDepositIff(s.txs, hash);
  }

  /** A submitted hash waits for the verifier, in lower case and without the blanks around it; nothing is credited. */
  lemma SubmissionWaits(cfg: Config, s: State, user: int, text: string, claimed: int)
    ensures var hash := Lower(Trim(text));
            Apply(cfg, s, SubmitDeposit(user, text, claimed)) ==
            if IsHash(hash) && claimed >= 0 && user in s.balances && !HasDeposit(s.txs, hash) then
              (s.(txs := s.txs[s.nextId := Tx(user, Deposit, claimed, Some(hash), PendingVerification, false)],
                  nextId := s.nextId + 1), Done)
            else (s, Refused)
  {
    HasDepositIff(s.txs, Lower(Trim(text)));
  }

  /** The verifier leaves a waiting deposit, fails it, or completes it with what the chain says was paid. */
  lemma VerdictSettles(cfg: Config, s: State, id: int, verdict: Verdict)
    requires Regular(s)
    ensures Apply(cfg, s, VerifyDeposit(id, verdict)) ==
            if !(id in s.txs && s.txs[id].kind == Deposit && s.txs[id].status == PendingVerification) then (s, Refused)
            else
              var tx := s.txs[id];
              if verdict == Wait then (s, Done)
              else if verdict == Reject || verdict.amount <= 0
                      || (exists k :: k in s.txs && k != id && s.txs[k].kind == Deposit
                                      && s.txs[k].status == Completed && s.txs[k].hash == tx.hash)
              then (s.(txs := s.txs[id := tx.(status := Failed)]), Done)
              else
                (s.(txs := s.txs[id := tx.(status := Completed, amount := verdict.amount)],
                    balances := s.balances[tx.user := s.balances[tx.user] + verdict.amount]),
                 CreditedTo(tx.user, tx.hash, verdict.amount, None))
  {
  }

  lemma InvoiceWaits(cfg: Config, s: State, user: int, amount: int, invoiceId: string)
    ensures var hash := "btcpay:" + Trim(invoiceId);
            Apply(cfg, s, CreateInvoice(user, amount, invoiceId)) ==
            if amount > 0 && user in s.balances && !HasDeposit(s.txs, hash) then
              (s.(txs := s.txs[s.nextId := Tx(user, Deposit, amount, Some(hash), BtcpayPending, false)],
                  nextId := s.nextId + 1), Done)
            else (s, Refused)
  {
    HasDepositIff(s.txs, "btcpay:" + Trim(invoiceId));
  }

  /** An invoice without a row is ignored. */
  lemma UnknownInvoiceIgnored(
    cfg: Config, s: State, invoiceId: string, settled: bool, metaUser: Option<int>, metaAmount: Option<int>)
    requires !HasDeposit(s.txs, "btcpay:" + Trim(invoiceId))
    ensures Apply(cfg, s, SettleInvoice(invoiceId, settled, metaUser, metaAmount)) == (s, Refused)
  {
    HasDepositIff(s.txs, "btcpay:" + Trim(invoiceId));
  }

  /**
   * The row k of an invoice is completed and credited exactly when the invoice is settled, the row waits for it, and
   * the metadata name the player and an amount no further off than 1e-6 POL (100 units) and a billionth of the row's.
   */
  lemma SettlementCredits(
    cfg: Config, s: State, invoiceId: string, settled: bool, metaUser: Option<int>, metaAmount: Option<int>, k: int)
    requires Regular(s) && IsDeposit(s.txs, k, "btcpay:" + Trim(invoiceId))
    ensures var tx := s.txs[k];
            Apply(cfg, s, SettleInvoice(invoiceId, settled, metaUser, metaAmount)) ==
            if settled && tx.status == BtcpayPending && tx.amount > 0 && metaUser == Some(tx.user) && metaAmount.Some?
               && -100_000_000_000 - tx.amount <= 1_000_000_000 * (tx.amount - metaAmount.value)
                  <= 100_000_000_000 + tx.amount
            then
              (s.(txs := s.txs[k := tx.(status := Completed)],
                  balances := s.balances[tx.user := s.balances[tx.user] + tx.amount]),
               CreditedTo(tx.user, tx.hash, tx.amount, None))
            else (s, Refused)
  {
    OnlyDeposit(s, k, "btcpay:" + Trim(invoiceId));
  }

  // ---------------------------------------------------------------- tickets

  predicate IsOpen(ticket: Ticket) { ticket.status == Open || ticket.status == Analyzing }

  function OpenTickets(s: State, user: int): set<int> {
    set k | k in s.tickets && s.tickets[k].user == user && IsOpen(s.tickets[k])
  }

  /** A ticket is opened while the player has fewer than three open ones, and none about the same trimmed text. */
  lemma OpeningBounded(cfg: Config, s: State, user: int, text: Option<string>)
    ensures var kept := if text.Some? && text.value != "" then Some(Trim(text.value)) else None;
            Apply(cfg, s, OpenTicket(user, text)) ==
            if user in s.balances && |OpenTickets(s, user)| < 3
               && (kept.Some? ==> forall k :: k in s.tickets && s.tickets[k].user == user ==> s.tickets[k].hash != kept)
            then (s.(tickets := s.tickets[s.nextId := Ticket(user, kept, Open)], nextId := s.nextId + 1), Done)
            else (s, Refused)
  {
    forall k
      ensures k in OpenTickets(s, user) <==> k in Unresolved(s, user)
    {
    }
    assert OpenTickets(s, user) == Unresolved(s, user);
  }

  lemma LookingMarks(cfg: Config, s: State, id: int)
    ensures Apply(cfg, s, AnalyzeTicket(id)) ==
            if id in s.tickets && IsOpen(s.tickets[id]) then
              (s.(tickets := s.tickets[id := s.tickets[id].(status := Analyzing)]), Done)
            else (s, Refused)
  {
  }

  lemma RejectionCloses(cfg: Config, s: State, id: int)
    ensures Apply(cfg, s, RejectTicket(id)) ==
            if id in s.tickets && IsOpen(s.tickets[id]) then
              (s.(tickets := s.tickets[id := s.tickets[id].(status := Rejected)]), Done)
            else (s, Refused)
  {
  }

  /** An approvable ticket without a hash, or whose hash no deposit has, becomes a completed deposit. */
  lemma ApprovalCreates(cfg: Config, s: State, id: int, amount: int)
    requires Regular(s) && amount > 0
    requires id in s.tickets && s.tickets[id].status != TicketApproved && s.tickets[id].status != Credited
    requires s.tickets[id].hash.None? || s.tickets[id].hash == Some("") || !HasDeposit(s.txs, s.tickets[id].hash.value)
    ensures var ticket := s.tickets[id];
            var hash := if ticket.hash == Some("") then None else ticket.hash;
            Apply(cfg, s, ApproveTicket(id, amount)) ==
            (s.(txs := s.txs[s.nextId := Tx(ticket.user, Deposit, amount, hash, Completed, false)],
                tickets := s.tickets[id := ticket.(status := Credited)],
                balances := s.balances[ticket.user := s.balances[ticket.user] + amount], nextId := s.nextId + 1),
             CreditedTo(ticket.user, hash, amount, Some(id)))
  {
    if s.tickets[id].hash.Some? {
      HasDepositIff(s.txs, s.tickets[id].hash.value);
    }
  }

  /** A ticket that is opened and rejected can still be approved, and credits then. */
  lemma RejectedTicketWitness(cfg: Config) returns (s: State, t: State, u: State, v: State)
    ensures Regular(s) && s.balances == map[1 := 0] && s.tickets == map[]
    ensures Apply(cfg, s, OpenTicket(1, None)) == (t, Done)
    ensures Apply(cfg, t, RejectTicket(1)) == (u, Done) && u.tickets == map[1 := Ticket(1, None, Rejected)]
    ensures Apply(cfg, u, ApproveTicket(1, 5)) == (v, CreditedTo(1, None, 5, Some(1))) && v.balances == map[1 := 5]
  {
    s := State(map[1 := 0], map[], map[], map[], map[], map[], map[], 1);
    OpeningBounded(cfg, s, 1, None);
    assert OpenTickets(s, 1) == {};
    t := s.(tickets := s.tickets[1 := Ticket(1, None, Open)], nextId := 2);
    RejectionCloses(cfg, t, 1);
    u := t.(tickets := t.tickets[1 := Ticket(1, None, Rejected)]);
    ApprovalCreates(cfg, u, 1, 5);
    v := Apply(cfg, u, ApproveTicket(1, 5)).0;
  }

  predicate SameText(a: Ticket, b: Ticket) { a.user == b.user && a.hash.Some? && a.hash == b.hash }

  /** No player has more than three open tickets, or two about one text. */
  ghost predicate TicketsOrderly(s: State) {
    && (forall user: int :: |OpenTickets(s, user)| <= 3)
    && (forall a, b :: a in s.tickets && b in s.tickets && SameText(s.tickets[a], s.tickets[b]) ==> a == b)
  }

  /** Tickets that keep player and text, and open none, stay orderly. */
  lemma ResolvingKeepsOrderly(s: State, t: State)
    requires TicketsOrderly(s) && t.tickets.Keys == s.tickets.Keys
    requires forall k :: k in s.tickets ==>
               t.tickets[k].user == s.tickets[k].user && t.tickets[k].hash == s.tickets[k].hash
    requires forall k :: k in s.tickets && IsOpen(t.tickets[k]) ==> IsOpen(s.tickets[k])
    ensures TicketsOrderly(t)
  {
    forall user: int
      ensures |OpenTickets(t, user)| <= 3
    {
      forall k | k in OpenTickets(t, user)
        ensures k in OpenTickets(s, user)
      {
        assert IsOpen(t.tickets[k]);
      }
      SubsetSize(OpenTickets(t, user), OpenTickets(s, user));
    }
  }

  lemma AnotherTicketCounted(s: State, t: State, id: int, ticket: Ticket, user: int)
    requires id !in s.tickets && t.tickets == s.tickets[id := ticket] && IsOpen(ticket)
    ensures |OpenTickets(t, user)| == |OpenTickets(s, user)| + if ticket.user == user then 1 else 0
  {
    forall k
      ensures k in OpenTickets(t, user) <==> k in OpenTickets(s, user) || (k == id && ticket.user == user)
    {
    }
    assert OpenTickets(t, user) == OpenTickets(s, user) + if ticket.user == user then {id} else {};
  }

  lemma AnotherTicketKeepsOrderly(s: State, t: State, id: int, ticket: Ticket)
    requires TicketsOrderly(s) && id !in s.tickets && t.tickets == s.tickets[id := ticket] && IsOpen(ticket)
    requires |OpenTickets(s, ticket.user)| < 3 && forall k :: k in s.tickets ==> !SameText(ticket, s.tickets[k])
    ensures TicketsOrderly(t)
  {
    forall user: int
      ensures |OpenTickets(t, user)| <= 3
    {
      AnotherTicketCounted(s, t, id, ticket, user);
    }
    forall k | k in s.tickets
      ensures !SameText(ticket, s.tickets[k]) && !SameText(s.tickets[k], ticket)
    {
      assert !SameText(ticket, s.tickets[k]);
    }
  }

  lemma OpeningKeepsOrderly(cfg: Config, s: State, op: Op)
    requires Regular(s) && TicketsOrderly(s) && op.OpenTicket?
    ensures TicketsOrderly(Apply(cfg, s, op).0)
  {
    OpeningBounded(cfg, s, op.user, op.ticketText);
    var (t, reply) := Apply(cfg, s, op);
    if reply == Done {
      AnotherTicketKeepsOrderly(s, t, s.nextId, t.tickets[s.nextId]);
    }
  }

  lemma ApprovalTouchesTicket(s: State, id: int, amount: int)
    ensures var t := ApproveTicketEffect(s, id, amount).0;
            t.tickets == s.tickets
            || (id in s.tickets && t.tickets == s.tickets[id := s.tickets[id].(status := Credited)])
  {
  }

  lemma ApplyKeepsOrderly(cfg: Config, s: State, op: Op)
    requires Regular(s) && TicketsOrderly(s)
    ensures TicketsOrderly(Apply(cfg, s, op).0)
  {
    match op
    case OpenTicket(_, _) =>
      OpeningKeepsOrderly(cfg, s, op);
    case AnalyzeTicket(id) =>
      LookingMarks(cfg, s, id);
      ResolvingKeepsOrderly(s, Apply(cfg, s, op).0);
    case RejectTicket(id) =>
      RejectionCloses(cfg, s, id);
      ResolvingKeepsOrderly(s, Apply(cfg, s, op).0);
    case ApproveTicket(id, amount) =>
      ApprovalTouchesTicket(s, id, amount);
      ResolvingKeepsOrderly(s, Apply(cfg, s, op).0);
    case _ =>
      if IsDepositOp(op) {
        Runs.DepositsKeepTickets(cfg, s, op);
      } else {
        Runs.OthersKeepTickets(cfg, s, op);
      }
      ResolvingKeepsOrderly(s, Apply(cfg, s, op).0);
  }

  /** In every reachable state a player has at most three open tickets and one ticket per text. */
  lemma {:induction false} RunKeepsOrderly(cfg: Config, states: seq<State>, ops: seq<Op>, replies: seq<Reply>, i: nat)
    requires IsRun(cfg, states, ops, replies) && Regular(states[0]) && TicketsOrderly(states[0]) && i < |states|
    ensures TicketsOrderly(states[i])
  {
    if i == 0 {
    } else {
      RunKeepsOrderly(cfg, states, ops, replies, i - 1);
      RegularAt(cfg, states, ops, replies, i - 1);
      ApplyKeepsOrderly(cfg, states[i - 1], ops[i - 1]);
    }
  }

  // ---------------------------------------------------------------- rooms

  /** The player's next room costs the price next in the list, which the balance must cover. */
  lemma RoomCharges(cfg: Config, s: State, user: int)
    ensures var n := |set k | k in s.rooms && s.rooms[k].user == user|;
            var price := if n < |cfg.roomPrices| then cfg.roomPrices[n] else 0;
            Apply(cfg, s, BuyRoom(user)) ==
            if n < cfg.roomMax && price >= 0 && user in s.balances && s.balances[user] >= price then
              (s.(rooms := s.rooms[s.nextId := Room(user, n + 1, price)],
                  balances := s.balances[user := s.balances[user] - price], nextId := s.nextId + 1), Done)
            else (s, Refused)
  {
    assert RoomsOf(s, user) == set k | k in s.rooms && s.rooms[k].user == user;
  }

  /** The sum of the first n prices of the list; rooms past its end are free. */
  function SumOfPrices(prices: seq<int>, n: nat): int {
    if n == 0 then 0 else SumOfPrices(prices, n - 1) + if n <= |prices| then prices[n - 1] else 0
  }

  /** A player with n rooms has paid the first n prices of the list. */
  ghost predicate RoomsPaid(cfg: Config, s: State, user: int) {
    Total(s.rooms, RoomCost(user)) == SumOfPrices(cfg.roomPrices, |RoomsOf(s, user)|)
  }

  lemma ApplyKeepsRoomsPaid(cfg: Config, s: State, op: Op, user: int)
    requires Regular(s) && RoomsPaid(cfg, s, user)
    ensures RoomsPaid(cfg, Apply(cfg, s, op).0, user)
  {
    if op.BuyRoom? {
      RoomCharges(cfg, s, op.user);
      if Apply(cfg, s, op).1 == Done {
        var row := Apply(cfg, s, op).0.rooms[s.nextId];
        AnotherRoomCounted(s, Apply(cfg, s, op).0, s.nextId, row, user);
        TotalInsert(s.rooms, s.nextId, row, RoomCost(user));
      }
    } else {
      OthersKeepRooms(cfg, s, op);
    }
  }

  lemma AnotherRoomCounted(s: State, t: State, id: int, row: Room, user: int)
    requires id !in s.rooms && t.rooms == s.rooms[id := row]
    ensures |RoomsOf(t, user)| == |RoomsOf(s, user)| + if row.user == user then 1 else 0
  {
    if row.user == user {
      assert RoomsOf(t, user) == RoomsOf(s, user) + {id};
    } else {
      assert RoomsOf(t, user) == RoomsOf(s, user);
    }
  }

  lemma OthersKeepRooms(cfg: Config, s: State, op: Op)
    requires Regular(s) && !op.BuyRoom?
    ensures Apply(cfg, s, op).0.rooms == s.rooms
  {
    if !Spends(op) {
      var p := ApplyPosts(cfg, s, op);
    }
  }

  /** Over a run, what a player has paid for rooms is the sum of the first prices of the list, one per room. */
  lemma {:induction false} RunChargesRooms(
    cfg: Config, states: seq<State>, ops: seq<Op>, replies: seq<Reply>, i: nat, user: int)
    requires IsRun(cfg, states, ops, replies) && Regular(states[0]) && RoomsPaid(cfg, states[0], user) && i < |states|
    ensures RoomsPaid(cfg, states[i], user)
  {
    if i == 0 {
    } else {
      RunChargesRooms(cfg, states, ops, replies, i - 1, user);
      RegularAt(cfg, states, ops, replies, i - 1);
      ApplyKeepsRoomsPaid(cfg, states[i - 1], ops[i - 1], user);
    }
  }

  // ---------------------------------------------------------------- the shop

  /** A purchase costs price times quantity, and is made exactly when the conditions named hold. */
  lemma PurchaseCharges(cfg: Config, s: State, user: int, minerId: int, quantity: int, owned: int)
    ensures Apply(cfg, s, BuyMiners(user, minerId, quantity, owned)) ==
            if minerId in s.shop && 1 <= quantity <= cfg.maxBulk
               && s.shop[minerId].available && s.shop[minerId].price > 0
               && (s.shop[minerId].stockTotal.Some? ==>
                     s.shop[minerId].stockSold + quantity <= s.shop[minerId].stockTotal.value)
               && (s.shop[minerId].maxPerUser.Some? ==> owned + quantity <= s.shop[minerId].maxPerUser.value)
               && user in s.balances && s.balances[user] >= s.shop[minerId].price * quantity
            then
              var m := s.shop[minerId];
              (s.(balances := s.balances[user := s.balances[user] - m.price * quantity],
                  purchases := s.purchases[s.nextId := Purchase(user, minerId, quantity, m.price * quantity)],
                  shop := s.shop[minerId := m.(stockSold := m.stockSold + quantity)], nextId := s.nextId + 1), Done)
            else (s, Refused)
  {
  }

  ghost function SpentBy(user: int, minerId: int): Purchase -> int {
    (p: Purchase) => if p.user == user && p.minerId == minerId then p.total else 0
  }

  /** The miner has this price, and the player has paid it for every machine bought. */
  ghost predicate PaidPerPiece(s: State, user: int, minerId: int, price: int) {
    && minerId in s.shop && s.shop[minerId].price == price
    && Total(s.purchases, SpentBy(user, minerId)) == price * Runs.Bought(s, user, minerId)
  }

  lemma BuyingKeepsPaidPerPiece(cfg: Config, s: State, op: Op, user: int, minerId: int, price: int)
    requires Regular(s) && op.BuyMiners? && PaidPerPiece(s, user, minerId, price)
    ensures PaidPerPiece(Apply(cfg, s, op).0, user, minerId, price)
  {
    PurchaseCharges(cfg, s, op.user, op.minerId, op.quantity, op.owned);
    var (t, reply) := Apply(cfg, s, op);
    if reply == Done {
      TotalInsert(s.purchases, s.nextId, t.purchases[s.nextId], SpentBy(user, minerId));
      TotalInsert(s.purchases, s.nextId, t.purchases[s.nextId], Runs.BoughtBy(user, minerId));
      if op.user == user && op.minerId == minerId {
        var bought := Total(s.purchases, Runs.BoughtBy(user, minerId));
        assert price * bought + price * op.quantity == price * (bought + op.quantity);
      }
    }
  }

  /** Over a run, what a player has paid for a miner is its price times the machines bought. */
  lemma {:induction false} RunChargesPerPiece(
    cfg: Config, states: seq<State>, ops: seq<Op>, replies: seq<Reply>, i: nat, user: int, minerId: int, price: int)
    requires IsRun(cfg, states, ops, replies) && Regular(states[0]) && i < |states|
    requires PaidPerPiece(states[0], user, minerId, price)
    ensures PaidPerPiece(states[i], user, minerId, price)
  {
    if i == 0 {
    } else {
      RunChargesPerPiece(cfg, states, ops, replies, i - 1, user, minerId, price);
      RegularAt(cfg, states, ops, replies, i - 1);
      if ops[i - 1].BuyMiners? {
        BuyingKeepsPaidPerPiece(cfg, states[i - 1], ops[i - 1], user, minerId, price);
      } else {
        Runs.OthersKeepShop(cfg, states[i - 1], ops[i - 1]);
      }
    }
  }

  // ---------------------------------------------------------------- check-ins

  /** A check-in request does at the ledger what it does at the desk, to rows and balances, and nothing else. */
  lemma CheckInAtDesk(cfg: Config, s: State, op: Checkin.Op)
    ensures var desk := Checkin.Apply(cfg.digest, Checkin.Desk(s.checkins, s.balances), op).0;
            Apply(cfg, s, CheckIn(op)) == (s.(checkins := desk.rows, balances := desk.balances), Done)
  {
  }
}
