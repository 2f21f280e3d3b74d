/** The money-moving handlers as they run, step by step, over the tables of the ledger. */
module Wallet {
  import opened LedgerModel
  import opened Tables
  import opened TxHashes
  import Checkin = CheckinModel
  import Proofs = LedgerProofs

  class Ledger {
    const cfg: Config
    var balances: map<int, int>
    var txs: map<int, Tx>
    var tickets: map<int, Ticket>
    var rooms: map<int, Room>
    var purchases: map<int, Purchase>
    var shop: map<int, ShopMiner>
    var checkins: map<Checkin.Key, Checkin.Row>
    var nextId: int

    constructor (cfg: Config, balances: map<int, int>, shop: map<int, ShopMiner>)
      requires Proofs.Solvent(balances)
      ensures this.cfg == cfg && Snapshot() == State(balances, map[], map[], map[], map[], shop, map[], 1)
      ensures Valid()
    {
      this.cfg, this.balances, this.shop := cfg, balances, shop;
      txs, tickets, rooms, purchases, checkins, nextId := map[], map[], map[], map[], map[], 1;
    }

    function Snapshot(): State
      reads this
    {
      State(balances, txs, tickets, rooms, purchases, shop, checkins, nextId)
    }

    ghost predicate Valid()
      reads this
    {
      Proofs.Regular(Snapshot())
    }

    /** The row an `update` on the balance touches; a player without one makes the transaction fail before. */
    method Increment(user: int, amount: int)
      requires user in balances
      modifies `balances
      ensures balances == Credit(old(balances), user, amount)
    {
      balances := balances[user := balances[user] + amount];
    }

    method InsertTx(tx: Tx) returns (id: int)
      modifies `txs, `nextId
      ensures id == old(nextId) && txs == old(txs)[id := tx] && nextId == old(nextId) + 1
    {
      id := nextId;
      txs := txs[id := tx];
      nextId := nextId + 1;
    }

    /** `findFirst` on a deposit hash. */
    method FindDeposit(hash: string) returns (found: Option<int>)
      requires Valid()
      ensures found.None? <==> DepositsOf(txs, hash) == {}
      ensures found.Some? ==> DepositsOf(txs, hash) != {} && found.value == DepositOf(txs, hash)
    {
      var ids := DepositsOf(txs, hash);
      if ids == {} { return None; }
      ghost var any := Element(ids);
      var id :| id in ids;
      assert Proofs.SameDeposit(txs[id], txs[DepositOf(txs, hash)]);
      return Some(id);
    }

    /** walletModel.createDepositRequest; `verified` is the answer of the chain. */
    method CreateDepositRequest(user: int, amount: int, hash: string, verified: bool) returns (reply: Reply)
      requires Valid()
      modifies this
      ensures (Snapshot(), reply) == Apply(cfg, old(Snapshot()), CreateDeposit(user, amount, hash, verified))
      ensures Valid() && Proofs.KeepsBooks(old(Snapshot()), Snapshot())
    {
      Proofs.ApplyConserves(cfg, Snapshot(), CreateDeposit(user, amount, hash, verified));
      if hash == "" || amount <= 0 { return Refused; }
      var existing := FindDeposit(hash);
      if existing.Some? { return Refused; }
      if !verified || user !in balances { return Refused; }
      var id := InsertTx(Tx(user, Deposit, amount, Some(hash), Completed, false));
      Increment(user, amount);
      return CreditedTo(user, Some(hash), amount, None);
    }

    /** wallet.controller.submitDeposit: register the hash, to be verified later. */
    method SubmitDeposit(user: int, text: string, claimed: int) returns (reply: Reply)
      requires Valid()
      modifies this
      ensures (Snapshot(), reply) == Apply(cfg, old(Snapshot()), Op.SubmitDeposit(user, text, claimed))
      ensures Valid() && Proofs.KeepsBooks(old(Snapshot()), Snapshot())
    {
      var hash := Lower(Trim(text));
      if !IsHash(hash) { return Refused; }
      if claimed < 0 || user !in balances { return Refused; }
      var existing := FindDeposit(hash);
      if existing.Some? { return Refused; }
      var id := InsertTx(Tx(user, Deposit, claimed, Some(hash), PendingVerification, false));
      Proofs.ApplyConserves(cfg, old(Snapshot()), Op.SubmitDeposit(user, text, claimed));
      return Done;
    }

    /** depositVerifier.verifyOnePendingDeposit, on a row its caller found waiting. */
    method VerifyOnePendingDeposit(id: int, verdict: Verdict) returns (reply: Reply)
      requires Valid()
      modifies this
      ensures (Snapshot(), reply) == Apply(cfg, old(Snapshot()), VerifyDeposit(id, verdict))
      ensures Valid() && Proofs.KeepsBooks(old(Snapshot()), Snapshot())
    {
      Proofs.ApplyConserves(cfg, Snapshot(), VerifyDeposit(id, verdict));
      if id !in txs || txs[id].kind != Deposit || txs[id].status != PendingVerification { return Refused; }
      var tx := txs[id];
      match verdict
      case Wait => return Done;
      case Reject =>
        txs := txs[id := tx.(status := Failed)];
        return Done;
      case Accept(amount) =>
        if amount <= 0 || CreditedElsewhere(txs, id) {
          txs := txs[id := tx.(status := Failed)];
          return Done;
        }
        txs := txs[id := tx.(status := Completed, amount := amount)];
        Increment(tx.user, amount);
        return CreditedTo(tx.user, tx.hash, amount, None);
    }

    /** btcpayDepositController.postBtcpayInvoice: one waiting row per invoice. */
    method PostBtcpayInvoice(user: int, amountPol: int, invoiceId: string) returns (reply: Reply)
      requires Valid()
      modifies this
      ensures (Snapshot(), reply) == Apply(cfg, old(Snapshot()), CreateInvoice(user, amountPol, invoiceId))
      ensures Valid() && Proofs.KeepsBooks(old(Snapshot()), Snapshot())
    {
      Proofs.ApplyConserves(cfg, Snapshot(), CreateInvoice(user, amountPol, invoiceId));
      var hash := InvoiceHash(invoiceId);
      if amountPol <= 0 || user !in balances { return Refused; }
      var existing := FindDeposit(hash);
      if existing.Some? { return Refused; }
      var id := InsertTx(Tx(user, Deposit, amountPol, Some(hash), BtcpayPending, false));
      return Done;
    }

    /** btcpayWebhookController.creditIfSettled; the invoice's status and metadata come from BTCPay. */
    method CreditIfSettled(invoiceId: string, settled: bool, metaUser: Option<int>, metaAmount: Option<int>)
      returns (reply: Reply)
      requires Valid()
      modifies this
      ensures (Snapshot(), reply)
              == Apply(cfg, old(Snapshot()), SettleInvoice(invoiceId, settled, metaUser, metaAmount))
      ensures Valid() && Proofs.KeepsBooks(old(Snapshot()), Snapshot())
    {
      if !settled { return Refused; }
      var hash := InvoiceHash(invoiceId);
      var row := FindDeposit(hash);
      if row.None? { return Refused; }
      var id := row.value;
      var tx := txs[id];
      if tx.status == Completed { return Refused; }
      if tx.status != BtcpayPending { return Refused; }
      if metaUser != Some(tx.user) { return Refused; }
      if metaAmount.None? || !CloseEnough(tx.amount, metaAmount.value) { return Refused; }
      if tx.amount <= 0 { return Refused; }
      txs := txs[id := tx.(status := Completed)];
      Increment(tx.user, tx.amount);
      Proofs.ApplyConserves(cfg, old(Snapshot()), SettleInvoice(invoiceId, settled, metaUser, metaAmount));
      return CreditedTo(tx.user, tx.hash, tx.amount, None);
    }

    /** depositTicketController.createTicket */
    method CreateTicket(user: int, text: Option<string>) returns (reply: Reply)
      requires Valid()
      modifies this
      ensures (Snapshot(), reply) == Apply(cfg, old(Snapshot()), OpenTicket(user, text))
      ensures Valid() && Proofs.KeepsBooks(old(Snapshot()), Snapshot())
    {
      Proofs.ApplyConserves(cfg, Snapshot(), OpenTicket(user, text));
      if user !in balances { return Refused; }
      if |Unresolved(Snapshot(), user)| >= MAX_TICKETS_OPEN { return Refused; }
      var hash: Option<string> := None;
      if text.Some? && text.value != "" {
        hash := Some(Trim(text.value));
        if exists k :: k in tickets && tickets[k].user == user && tickets[k].hash == hash { return Refused; }
      }
      tickets := tickets[nextId := Ticket(user, hash, Open)];
      nextId := nextId + 1;
      return Done;
    }

    /** depositTicketController.adminGetTicket: looking at an unresolved ticket marks it. */
    method AdminGetTicket(id: int) returns (reply: Reply)
      requires Valid()
      modifies this
      ensures (Snapshot(), reply) == Apply(cfg, old(Snapshot()), AnalyzeTicket(id))
      ensures Valid() && Proofs.KeepsBooks(old(Snapshot()), Snapshot())
    {
      Proofs.ApplyConserves(cfg, Snapshot(), AnalyzeTicket(id));
      if id !in tickets { return Refused; }
      if tickets[id].status == Open || tickets[id].status == Analyzing {
        tickets := tickets[id := tickets[id].(status := Analyzing)];
        return Done;
      }
      return Refused;
    }

    /** What `existing` must be for a ticket: the deposit row of its hash, if there is one. */
    ghost predicate IsRowOf(id: int, existing: Option<int>)
      requires id in tickets
      reads this
    {
      var hash := TicketHash(tickets[id]);
      if hash.None? || DepositsOf(txs, hash.value) == {} then existing == None
      else existing == Some(DepositOf(txs, hash.value))
    }

    /** The transaction of adminApproveTicket: revive the failed row, or create one, and close the ticket. */
    method CloseTicket(id: int, amount: int, existing: Option<int>) returns (reply: Reply)
      requires amount > 0 && Approvable(Snapshot(), id) && tickets[id].user in balances && IsRowOf(id, existing)
      requires existing.Some? ==>
                 txs[existing.value].user == tickets[id].user && txs[existing.value].status in {Failed, Completed}
      modifies this
      ensures (Snapshot(), reply) == Apply(cfg, old(Snapshot()), ApproveTicket(id, amount))
    {
      var ticket := tickets[id];
      reply := CreditedTo(ticket.user, TicketHash(ticket), amount, Some(id));
      if existing.Some? && txs[existing.value].status == Failed {
        Increment(ticket.user, amount);
        txs := txs[existing.value := txs[existing.value].(status := Completed, amount := amount)];
      } else if existing.None? {
        Increment(ticket.user, amount);
        var created := InsertTx(Tx(ticket.user, Deposit, amount, TicketHash(ticket), Completed, false));
      } else {
        reply := Done;
      }
      tickets := tickets[id := ticket.(status := Credited)];
    }

    /** depositTicketController.adminApproveTicket */
    method AdminApproveTicket(id: int, amount: int) returns (reply: Reply)
      requires Valid()
      modifies this
      ensures (Snapshot(), reply) == Apply(cfg, old(Snapshot()), ApproveTicket(id, amount))
      ensures Valid() && Proofs.KeepsBooks(old(Snapshot()), Snapshot())
    {
      if amount <= 0 { return Refused; }
      if id !in tickets { return Refused; }
      var ticket := tickets[id];
      if ticket.status == TicketApproved || ticket.status == Credited { return Refused; }
      var existing: Option<int> := None;
      var hash := if ticket.hash == Some("") then None else ticket.hash;
      if hash.Some? {
        existing := FindDeposit(hash.value);
      }
      if existing.Some? && txs[existing.value].user != ticket.user { return Refused; }
      if existing.Some? && txs[existing.value].status == Pending { return Refused; }
      if existing.Some? && txs[existing.value].status != Completed && txs[existing.value].status != Failed {
        return Refused;
      }
      reply := CloseTicket(id, amount, existing);
      Proofs.ApplyConserves(cfg, old(Snapshot()), ApproveTicket(id, amount));
    }

    /** depositTicketController.adminRejectTicket */
    method AdminRejectTicket(id: int) returns (reply: Reply)
      requires Valid()
      modifies this
      ensures (Snapshot(), reply) == Apply(cfg, old(Snapshot()), RejectTicket(id))
      ensures Valid() && Proofs.KeepsBooks(old(Snapshot()), Snapshot())
    {
      Proofs.ApplyConserves(cfg, Snapshot(), RejectTicket(id));
      if id !in tickets { return Refused; }
      var status := tickets[id].status;
      if status == TicketApproved || status == Credited || status == Rejected { return Refused; }
      tickets := tickets[id := tickets[id].(status := Rejected)];
      return Done;
    }

    /** walletModel.createWithdrawal */
    method CreateWithdrawal(user: int, amount: int) returns (reply: Reply)
      requires Valid()
      modifies this
      ensures (Snapshot(), reply) == Apply(cfg, old(Snapshot()), RequestWithdrawal(user, amount))
      ensures Valid() && Proofs.KeepsBooks(old(Snapshot()), Snapshot())
    {
      Proofs.ApplyConserves(cfg, Snapshot(), RequestWithdrawal(user, amount));
      if amount <= 0 { return Refused; }
      if exists id :: id in txs && PendingWithdrawal(Snapshot(), user, id) {
        return Refused;
      }
      if user !in balances { return Refused; }
      if balances[user] < amount { return Refused; }
      Increment(user, -amount);
      var id := InsertTx(Tx(user, Withdrawal, amount, None, Pending, true));
      return Done;
    }

    /** walletModel.updateTransactionStatus, for deposits and POL withdrawals. */
    method UpdateTransactionStatus(id: int, status: Status, hash: Option<string>) returns (reply: Reply)
      requires Valid()
      modifies this
      ensures (Snapshot(), reply) == UpdateStatus(old(Snapshot()), id, status, hash)
      ensures WithdrawalIn(old(Snapshot()), id, {Pending, Approved}) && status in {Completed, Failed} ==>
                Valid() && Proofs.KeepsBooks(old(Snapshot()), Snapshot())
    {
      Proofs.UpdateStatusConserves(Snapshot(), id, status, hash);
      if id !in txs { return Refused; }
      var tx := txs[id];
      var previous := tx.status;
      txs := txs[id := tx.(status := status, hash := if hash.Some? && hash.value != "" then hash else tx.hash)];
      reply := Done;
      if tx.kind == Withdrawal {
        if status == Failed && previous != Failed && previous != Completed {
          if tx.reserved {
            Increment(tx.user, tx.amount);
            reply := Refunded(id);
          }
        }
      }
    }

    /** adminController.approveWithdrawal */
    method AdminApproveWithdrawal(id: int) returns (reply: Reply)
      requires Valid()
      modifies this
      ensures (Snapshot(), reply) == Apply(cfg, old(Snapshot()), ApproveWithdrawal(id))
      ensures Valid() && Proofs.KeepsBooks(old(Snapshot()), Snapshot())
    {
      Proofs.ApplyConserves(cfg, Snapshot(), ApproveWithdrawal(id));
      if id !in txs || txs[id].kind != Withdrawal { return Refused; }
      if txs[id].status != Pending { return Refused; }
      txs := txs[id := txs[id].(status := Approved)];
      return Done;
    }

    /** adminController.rejectWithdrawal */
    method AdminRejectWithdrawal(id: int) returns (reply: Reply)
      requires Valid()
      modifies this
      ensures (Snapshot(), reply) == Apply(cfg, old(Snapshot()), RejectWithdrawal(id))
      ensures Valid() && Proofs.KeepsBooks(old(Snapshot()), Snapshot())
    {
      Proofs.ApplyConserves(cfg, Snapshot(), RejectWithdrawal(id));
      if id !in txs || txs[id].kind != Withdrawal { return Refused; }
      if txs[id].status != Pending && txs[id].status != Approved { return Refused; }
      reply := UpdateTransactionStatus(id, Failed, None);
    }

    /** adminController.completeWithdrawal */
    method AdminCompleteWithdrawal(id: int, text: string) returns (reply: Reply)
      requires Valid()
      modifies this
      ensures (Snapshot(), reply) == Apply(cfg, old(Snapshot()), CompleteWithdrawal(id, text))
      ensures Valid() && Proofs.KeepsBooks(old(Snapshot()), Snapshot())
    {
      Proofs.ApplyConserves(cfg, Snapshot(), CompleteWithdrawal(id, text));
      var hash := Trim(text);
      if !IsHash(hash) { return Refused; }
      if id !in txs || txs[id].kind != Withdrawal { return Refused; }
      if txs[id].status == Completed { return Refused; }
      if txs[id].status != Pending && txs[id].status != Approved { return Refused; }
      reply := UpdateTransactionStatus(id, Completed, Some(hash));
    }

    /** withdrawalsCron.processPendingWithdrawals, for one of the approved withdrawals it sends. */
    method SendApproved(id: int, hash: string) returns (reply: Reply)
      requires Valid()
      modifies this
      ensures (Snapshot(), reply) == Apply(cfg, old(Snapshot()), AutoSend(id, hash))
      ensures Valid() && Proofs.KeepsBooks(old(Snapshot()), Snapshot())
    {
      Proofs.ApplyConserves(cfg, Snapshot(), AutoSend(id, hash));
      if id !in txs || txs[id].kind != Withdrawal || txs[id].status != Approved { return Refused; }
      reply := UpdateTransactionStatus(id, Completed, Some(hash));
    }

    /** The transaction of buyRoom: check the balance, charge the price, create the room. */
    method ChargeRoom(user: int, number: int, price: int) returns (reply: Reply)
      requires number == |RoomsOf(Snapshot(), user)| + 1 <= cfg.roomMax && price == PriceOf(cfg, number) >= 0
      modifies this
      ensures (Snapshot(), reply) == Apply(cfg, old(Snapshot()), BuyRoom(user))
    {
      if user !in balances { return Refused; }
      if balances[user] < price { return Refused; }
      if price > 0 {
        Increment(user, -price);
      } else {
        assert balances == Credit(balances, user, -price);
      }
      rooms := rooms[nextId := Room(user, number, price)];
      nextId := nextId + 1;
      return Done;
    }

    /** roomsController.buyRoom, the payment */
    method PayRoom(user: int) returns (reply: Reply)
      requires Valid()
      modifies this
      ensures (Snapshot(), reply) == Apply(cfg, old(Snapshot()), BuyRoom(user))
      ensures Valid() && Proofs.KeepsBooks(old(Snapshot()), Snapshot())
    {
      Proofs.ApplyConserves(cfg, Snapshot(), BuyRoom(user));
      var number := |RoomsOf(Snapshot(), user)| + 1;
      if number > cfg.roomMax { return Refused; }
      var price := PriceOf(cfg, number);
      if price < 0 { return Refused; }
      reply := ChargeRoom(user, number, price);
    }

    /** The transaction of purchaseMiner: stock, personal limit and balance, then the debit. */
    method ChargeMiners(user: int, minerId: int, quantity: int, owned: int) returns (reply: Reply)
      requires 1 <= quantity <= cfg.maxBulk && minerId in shop && shop[minerId].available && shop[minerId].price > 0
      modifies this
      ensures (Snapshot(), reply) == Apply(cfg, old(Snapshot()), BuyMiners(user, minerId, quantity, owned))
    {
      var miner := shop[minerId];
      var total := miner.price * quantity;
      if miner.stockTotal.Some? && miner.stockSold + quantity > miner.stockTotal.value { return Refused; }
      if miner.maxPerUser.Some? && owned + quantity > miner.maxPerUser.value { return Refused; }
      if user !in balances || balances[user] < total { return Refused; }
      Increment(user, -total);
      purchases := purchases[nextId := Purchase(user, minerId, quantity, total)];
      nextId := nextId + 1;
      shop := shop[minerId := miner.(stockSold := miner.stockSold + quantity)];
      return Done;
    }

    /** shopController.purchaseMiner; `owned` counts the machines of that miner the player has. */
    method PurchaseMiner(user: int, minerId: int, quantity: int, owned: int) returns (reply: Reply)
      requires Valid()
      modifies this
      ensures (Snapshot(), reply) == Apply(cfg, old(Snapshot()), BuyMiners(user, minerId, quantity, owned))
      ensures Valid() && Proofs.KeepsBooks(old(Snapshot()), Snapshot())
    {
      Proofs.ApplyConserves(cfg, Snapshot(), BuyMiners(user, minerId, quantity, owned));
      if quantity < 1 || quantity > cfg.maxBulk { return Refused; }
      if minerId !in shop || !shop[minerId].available || shop[minerId].price <= 0 { return Refused; }
      reply := ChargeMiners(user, minerId, quantity, owned);
    }

    /** checkinController.writeDailyCheckinForBrazilDay; false when the unique hash index refuses the row. */
    method WriteDailyCheckin(row: Checkin.Row) returns (written: bool)
      modifies `checkins
      ensures written <==> !Checkin.HashTaken(old(checkins), row.key, row.hash)
      ensures checkins == if written then old(checkins)[row.key := row] else old(checkins)
    {
      if exists k :: k in checkins && k != row.key && checkins[k].hash == row.hash { return false; }
      checkins := checkins[row.key := row];
      return true;
    }

    ghost function Desk(): Checkin.Desk
      reads this
    {
      Checkin.Desk(checkins, balances)
    }

    /** The transaction of confirmDailyCheckin: write what the chain said, unless the day is confirmed. */
    method RecordWalletPayment(key: Checkin.Key, hash: string, ev: Checkin.Evaluation, amount: nat)
      returns (reply: Checkin.Reply)
      requires IsHash(hash) && ev != Checkin.Unreachable
      modifies `checkins
      ensures (Desk(), reply)
              == Checkin.Apply(cfg.digest, old(Desk()), Checkin.PayFromWallet(key, true, true, hash, ev, amount))
    {
      TrimHash(hash);
      if key in checkins && checkins[key].status == Checkin.Confirmed { return Checkin.Already; }
      var status := Checkin.Confirmed;
      if ev == Checkin.Waiting {
        status := Checkin.Pending;
      } else if ev == Checkin.Invalid {
        status := Checkin.Failed;
      }
      var written := WriteDailyCheckin(Checkin.Row(key, status, Checkin.Wallet, hash, amount));
      return if written then Checkin.Recorded(status) else Checkin.Conflict;
    }

    /** checkinController.confirmDailyCheckin */
    method ConfirmDailyCheckin(
      key: Checkin.Key, linked: bool, receiver: bool, text: string, ev: Checkin.Evaluation, amount: nat)
      returns (reply: Checkin.Reply)
      requires Valid()
      modifies `checkins
      ensures (Desk(), reply)
              == Checkin.Apply(cfg.digest, old(Desk()), Checkin.PayFromWallet(key, linked, receiver, text, ev, amount))
      ensures Valid() && Proofs.KeepsBooks(old(Snapshot()), Snapshot())
    {
      Proofs.CheckInConserves(cfg, Snapshot(), Checkin.PayFromWallet(key, linked, receiver, text, ev, amount));
      var hash := Trim(text);
      if !IsHash(hash) { return Checkin.MalformedHash; }
      if !linked { return Checkin.WalletRequired; }
      if !receiver { return Checkin.ReceiverMissing; }
      if key in checkins && checkins[key].status == Checkin.Confirmed { return Checkin.Already; }
      if ev == Checkin.Unreachable { return Checkin.ChainUnavailable; }
      TrimHash(hash);
      reply := RecordWalletPayment(key, hash, ev, amount);
    }

    /** The debit and the row of checkinBalance: the debit is rolled back when the row cannot be written. */
    method DebitCheckin(key: Checkin.Key, cost: nat) returns (written: bool)
      requires key.user in balances
      modifies `checkins, `balances
      ensures written <==> !Checkin.HashTaken(old(checkins), key, cfg.digest(key))
      ensures checkins == if !written then old(checkins) else
                old(checkins)[key := Checkin.Row(key, Checkin.Confirmed, Checkin.Balance, cfg.digest(key), cost)]
      ensures balances == if !written then old(balances) else old(balances)[key.user := old(balances)[key.user] - cost]
    {
      var before := balances;
      Increment(key.user, -(cost as int));
      written := WriteDailyCheckin(Checkin.Row(key, Checkin.Confirmed, Checkin.Balance, cfg.digest(key), cost));
      if !written {
        balances := before;
      }
    }

    /** checkinController.checkinBalance */
    method CheckinBalance(key: Checkin.Key, linked: bool, banned: bool, cost: nat) returns (reply: Checkin.Reply)
      requires Valid()
      modifies `checkins, `balances
      ensures (Desk(), reply)
              == Checkin.Apply(cfg.digest, old(Desk()), Checkin.PayFromBalance(key, linked, banned, cost))
      ensures Valid() && Proofs.KeepsBooks(old(Snapshot()), Snapshot())
    {
      Proofs.CheckInConserves(cfg, Snapshot(), Checkin.PayFromBalance(key, linked, banned, cost));
      if key.user !in balances || banned { return Checkin.Forbidden; }
      if !linked { return Checkin.WalletRequired; }
      if key in checkins && checkins[key].status == Checkin.Confirmed { return Checkin.Already; }
      if key in checkins && checkins[key].status == Checkin.Pending { return Checkin.PendingPayment; }
      if balances[key.user] < cost { return Checkin.InsufficientBalance; }
      var written := DebitCheckin(key, cost);
      return if written then Checkin.Debited(cost) else Checkin.Conflict;
    }

    /** checkinController.tryFinalizeCheckinRow */
    method TryFinalizeCheckin(key: Checkin.Key, linked: bool, receiver: bool, ev: Checkin.Evaluation, amount: nat)
      returns (reply: Checkin.Reply)
      requires Valid()
      modifies `checkins
      ensures (Desk(), reply)
              == Checkin.Apply(cfg.digest, old(Desk()), Checkin.Finalize(key, linked, receiver, ev, amount))
      ensures Valid() && Proofs.KeepsBooks(old(Snapshot()), Snapshot())
    {
      Proofs.CheckInConserves(cfg, Snapshot(), Checkin.Finalize(key, linked, receiver, ev, amount));
      if key !in checkins || checkins[key].status != Checkin.Pending { return Checkin.Untouched; }
      if checkins[key].payment == Checkin.Balance { return Checkin.Untouched; }
      if !linked || !receiver || ev == Checkin.Unreachable { return Checkin.Untouched; }
      var row := checkins[key];
      if ev == Checkin.Paid {
        checkins := checkins[key := row.(status := Checkin.Confirmed, amount := amount, payment := Checkin.Wallet)];
        return Checkin.Recorded(Checkin.Confirmed);
      }
      if ev == Checkin.Invalid {
        checkins := checkins[key := row.(status := Checkin.Failed)];
        return Checkin.Recorded(Checkin.Failed);
      }
      return Checkin.Untouched;
    }

    /** checkinController.processStalePendingCheckins: one finalization per row of the batch, in order. */
    method SweepPending(batch: seq<Checkin.Op>)
      requires Valid() && forall i :: 0 <= i < |batch| ==> batch[i].Finalize?
      modifies `checkins
      ensures Desk() == Checkin.ApplyAll(cfg.digest, old(Desk()), batch)
      ensures Valid() && Proofs.KeepsBooks(old(Snapshot()), Snapshot())
    {
      for i := 0 to |batch|
        invariant Valid() && Proofs.KeepsBooks(old(Snapshot()), Snapshot())
        invariant Desk() == Checkin.ApplyAll(cfg.digest, old(Desk()), batch[..i])
      {
        assert batch[..i + 1][..i] == batch[..i];
        var op := batch[i];
        var reply := TryFinalizeCheckin(op.key, op.linked, op.receiver, op.ev, op.amount);
      }
      assert batch[..|batch|] == batch;
    }
  }
}
