/**
 * Credited once, refunded once: what the replies of a whole run of ledger requests can contain. Hashes are the texts
 * in the table here; `LedgerPayments` is about the payments they name.
 */
module LedgerRuns {
  import opened LedgerModel
  import opened LedgerProofs
  import opened Tables
  import opened TxHashes

  // ---------------------------------------------------------------- credits per hash

  predicate CompletedDeposit(tx: Tx, hash: string) {
    tx.kind == Deposit && tx.hash == Some(hash) && tx.status == Completed
  }

  ghost predicate IsCredited(txs: map<int, Tx>, hash: string) {
    exists k :: k in txs && CompletedDeposit(txs[k], hash)
  }

  predicate Credits(reply: Reply, hash: string) { reply.CreditedTo? && reply.hash == Some(hash) }

  ghost function CountCredits(replies: seq<Reply>, hash: string, n: nat): nat
    requires n <= |replies|
  {
    if n == 0 then 0 else CountCredits(replies, hash, n - 1) + if Credits(replies[n - 1], hash) then 1 else 0
  }

  /** A credit completes one row of its player and raises that player's balance by the row's amount. */
  ghost predicate CreditsRow(s: State, t: State, reply: Reply, id: int) {
    && reply.CreditedTo? && id in t.txs
    && t.txs[id] == Tx(reply.user, Deposit, reply.amount, reply.hash, Completed, t.txs[id].reserved)
    && (id in s.txs ==> s.txs[id].kind == Deposit && s.txs[id].status != Completed && s.txs[id].hash == reply.hash)
    && (id !in s.txs && reply.hash.Some? ==> DepositsOf(s.txs, reply.hash.value) == {})
    && reply.user in s.balances && t.balances == s.balances[reply.user := s.balances[reply.user] + reply.amount]
  }

  lemma DepositOpCreditsRow(cfg: Config, s: State, op: Op) returns (id: int)
    requires Regular(s) && IsDepositOp(op) && Apply(cfg, s, op).1.CreditedTo?
    ensures CreditsRow(s, Apply(cfg, s, op).0, Apply(cfg, s, op).1, id)
  {
    match op
    case CreateDeposit(_, _, _, _) => id := s.nextId;
    case VerifyDeposit(tx, _) => id := tx;
    case SettleInvoice(invoiceId, _, _, _) => id := DepositOf(s.txs, InvoiceHash(invoiceId));
    case _ => id := 0;
  }

  lemma TicketCreditsRow(s: State, ticket: int, amount: int) returns (id: int)
    requires Regular(s) && ApproveTicketEffect(s, ticket, amount).1.CreditedTo?
    ensures CreditsRow(s, ApproveTicketEffect(s, ticket, amount).0, ApproveTicketEffect(s, ticket, amount).1, id)
  {
    var hash := TicketHash(s.tickets[ticket]);
    if hash.None? || DepositsOf(s.txs, hash.value) == {} {
      id := s.nextId;
    } else {
      id := DepositOf(s.txs, hash.value);
    }
  }

  lemma CreditCompletesRow(cfg: Config, s: State, op: Op) returns (id: int)
    requires Regular(s) && Apply(cfg, s, op).1.CreditedTo?
    ensures CreditsRow(s, Apply(cfg, s, op).0, Apply(cfg, s, op).1, id)
  {
    if IsDepositOp(op) {
      id := DepositOpCreditsRow(cfg, s, op);
    } else {
      assert op.ApproveTicket?;
      id := TicketCreditsRow(s, op.id, op.amount);
    }
  }

  lemma NotCreditedBefore(s: State, t: State, reply: Reply, id: int, hash: string)
    requires Regular(s) && CreditsRow(s, t, reply, id) && Credits(reply, hash)
    ensures !IsCredited(s.txs, hash) && IsCredited(t.txs, hash)
  {
    assert CompletedDeposit(t.txs[id], hash);
    forall k | k in s.txs && s.txs[k].kind == Deposit && s.txs[k].hash == Some(hash)
      ensures s.txs[k].status != Completed
    {
      assert k in DepositsOf(s.txs, hash);
      assert SameDeposit(s.txs[k], s.txs[id]);
    }
  }

  lemma CreditOnlyUncredited(cfg: Config, s: State, op: Op, hash: string)
    requires Regular(s)
    ensures var (t, reply) := Apply(cfg, s, op);
            && (IsCredited(s.txs, hash) ==> IsCredited(t.txs, hash) && !Credits(reply, hash))
            && (Credits(reply, hash) ==> IsCredited(t.txs, hash))
  {
    var (t, reply) := Apply(cfg, s, op);
    if Credits(reply, hash) {
      var id := CreditCompletesRow(cfg, s, op);
      NotCreditedBefore(s, t, reply, id, hash);
    } else if IsCredited(s.txs, hash) {
      var k :| k in s.txs && CompletedDeposit(s.txs[k], hash);
      if !Spends(op) {
        var p := ApplyPosts(cfg, s, op);
      }
      assert k in t.txs && CompletedDeposit(t.txs[k], hash);
    }
  }

  /** In every run, in whatever order requests come, a text is credited at most once, and never when it was before. */
  lemma {:induction false} HashCreditedOnce(
    cfg: Config, states: seq<State>, ops: seq<Op>, replies: seq<Reply>, hash: string, n: nat)
    requires IsRun(cfg, states, ops, replies) && Regular(states[0]) && n <= |ops|
    ensures CountCredits(replies, hash, n) <= 1
    ensures CountCredits(replies, hash, n) == 1 ==> IsCredited(states[n].txs, hash)
    ensures IsCredited(states[0].txs, hash) ==> CountCredits(replies, hash, n) == 0 && IsCredited(states[n].txs, hash)
  {
    if n == 0 {
    } else {
      HashCreditedOnce(cfg, states, ops, replies, hash, n - 1);
      RunConserves(cfg, states, ops, replies, n - 1);
      CreditOnlyUncredited(cfg, states[n - 1], ops[n - 1], hash);
    }
  }

  /** In every reachable state a hash has at most one deposit row. */
  lemma HashHasOneRow(cfg: Config, states: seq<State>, ops: seq<Op>, replies: seq<Reply>, i: nat, hash: string)
    requires IsRun(cfg, states, ops, replies) && Regular(states[0]) && i < |states|
    ensures |DepositsOf(states[i].txs, hash)| <= 1
  {
    RunConserves(cfg, states, ops, replies, i);
    var ids := DepositsOf(states[i].txs, hash);
    if ids != {} {
      var a := Element(ids);
      forall b | b in ids
        ensures b == a
      {
        assert SameDeposit(states[i].txs[a], states[i].txs[b]);
      }
      assert ids == {a};
    }
  }

  /**
   * What a credit rests on: the chain's word, the verifier's, BTCPay's, or an administrator's on a ticket that is
   * neither approved nor credited. A rejected ticket will do.
   */
  lemma CreditGrounds(cfg: Config, s: State, op: Op)
    requires Regular(s) && Apply(cfg, s, op).1.CreditedTo?
    ensures var reply := Apply(cfg, s, op).1;
            match op
            case CreateDeposit(user, amount, hash, verified) =>
              verified && reply == CreditedTo(user, Some(hash), amount, None)
            case VerifyDeposit(id, verdict) => id in s.txs && verdict == Accept(reply.amount)
            case SettleInvoice(invoiceId, settled, metaUser, metaAmount) =>
              && settled && metaUser == Some(reply.user) && reply.hash == Some(InvoiceHash(invoiceId))
              && metaAmount.Some? && CloseEnough(reply.amount, metaAmount.value)
            case ApproveTicket(id, amount) =>
              && Approvable(s, id)
              && reply == CreditedTo(s.tickets[id].user, TicketHash(s.tickets[id]), amount, Some(id))
            case _ => false
  {
    if op.SettleInvoice? {
      var hash := InvoiceHash(op.invoiceId);
      assert DepositOf(s.txs, hash) in DepositsOf(s.txs, hash);
    }
  }

  /**
   * Approving a ticket that is not yet approved or credited, rejected ones included, with a row k for its hash: it
   * revives k when k failed, only closes when k is completed, and is refused when k is another player's or still on
   * its way.
   */
  lemma TicketOutcome(s: State, id: int, amount: int, k: int)
    requires Regular(s) && amount > 0 && Approvable(s, id)
    requires k in s.txs && s.txs[k].kind == Deposit && s.tickets[id].hash.Some? && s.txs[k].hash == s.tickets[id].hash
    ensures var (t, reply) := ApproveTicketEffect(s, id, amount);
            var row := s.txs[k];
            if row.user != s.tickets[id].user || row.status !in {Failed, Completed} then t == s && reply == Refused
            else
              && t.tickets == s.tickets[id := s.tickets[id].(status := Credited)]
              && reply == (if row.status == Failed then CreditedTo(row.user, row.hash, amount, Some(id)) else Done)
              && t.txs == s.txs[k := row.(status := Completed,
                                          amount := if row.status == Failed then amount else row.amount)]
              && t.balances[row.user] == s.balances[row.user] + if row.status == Failed then amount else 0
  {
    assert k in DepositsOf(s.txs, s.tickets[id].hash.value);
    assert SameDeposit(s.txs[k], s.txs[DepositOf(s.txs, s.tickets[id].hash.value)]);
    assert s.txs[k := s.txs[k]] == s.txs;
  }

  /**
   * Approval credits exactly when the ticket is neither approved nor credited, and every deposit row of its hash is
   * the player's own and failed. Rejection is not among the obstacles.
   */
  lemma ApprovalCreditsIff(s: State, id: int, amount: int)
    requires Regular(s)
    ensures ApproveTicketEffect(s, id, amount).1.CreditedTo? <==>
            && amount > 0 && Approvable(s, id)
            && forall k :: k in s.txs && s.txs[k].kind == Deposit && s.txs[k].hash.Some?
                           && s.txs[k].hash == TicketHash(s.tickets[id]) ==>
                 s.txs[k].user == s.tickets[id].user && s.txs[k].status == Failed
  {
    if amount > 0 && Approvable(s, id) && TicketHash(s.tickets[id]).Some? {
      var hash := TicketHash(s.tickets[id]).value;
      if DepositsOf(s.txs, hash) != {} {
        var prior := DepositOf(s.txs, hash);
        forall k | k in s.txs && s.txs[k].kind == Deposit && s.txs[k].hash == Some(hash)
          ensures k == prior
        {
          assert SameDeposit(s.txs[k], s.txs[prior]);
        }
      } else {
        assert forall k :: k in s.txs && s.txs[k].kind == Deposit && s.txs[k].hash == Some(hash) ==>
          k in DepositsOf(s.txs, hash);
      }
    }
  }

  // ---------------------------------------------------------------- credits per ticket

  ghost function CountTicketCredits(replies: seq<Reply>, ticket: int, n: nat): nat
    requires n <= |replies|
  {
    if n == 0 then 0
    else CountTicketCredits(replies, ticket, n - 1)
         + if replies[n - 1].CreditedTo? && replies[n - 1].ticket == Some(ticket) then 1 else 0
  }

  predicate TicketCredited(s: State, ticket: int) { ticket in s.tickets && s.tickets[ticket].status == Credited }

  lemma DepositsKeepTickets(cfg: Config, s: State, op: Op)
    requires IsDepositOp(op)
    ensures Apply(cfg, s, op).0.tickets == s.tickets
    ensures Apply(cfg, s, op).1.CreditedTo? ==> Apply(cfg, s, op).1.ticket == None
  {
  }

  lemma OthersKeepTickets(cfg: Config, s: State, op: Op)
    requires !IsTicketOp(op) && !IsDepositOp(op)
    ensures Apply(cfg, s, op).0.tickets == s.tickets && !Apply(cfg, s, op).1.CreditedTo?
  {
  }

  lemma TicketOpStep(cfg: Config, s: State, op: Op, ticket: int)
    requires Regular(s) && IsTicketOp(op)
    ensures var (t, reply) := Apply(cfg, s, op);
            && (TicketCredited(s, ticket) ==> TicketCredited(t, ticket))
            && (reply.CreditedTo? && reply.ticket == Some(ticket) ==>
                  !TicketCredited(s, ticket) && TicketCredited(t, ticket))
  {
  }

  lemma TicketStep(cfg: Config, s: State, op: Op, ticket: int)
    requires Regular(s)
    ensures var (t, reply) := Apply(cfg, s, op);
            && (TicketCredited(s, ticket) ==> TicketCredited(t, ticket))
            && (reply.CreditedTo? && reply.ticket == Some(ticket) ==>
                  !TicketCredited(s, ticket) && TicketCredited(t, ticket))
  {
    if IsTicketOp(op) {
      TicketOpStep(cfg, s, op, ticket);
    } else if IsDepositOp(op) {
      DepositsKeepTickets(cfg, s, op);
    } else {
      OthersKeepTickets(cfg, s, op);
    }
  }

  /** A credited ticket stays credited and never credits again. */
  lemma {:induction false} TicketCreditsOnce(
    cfg: Config, states: seq<State>, ops: seq<Op>, replies: seq<Reply>, ticket: int, n: nat)
    requires IsRun(cfg, states, ops, replies) && Regular(states[0]) && n <= |ops|
    ensures CountTicketCredits(replies, ticket, n) <= 1
    ensures CountTicketCredits(replies, ticket, n) == 1 ==> TicketCredited(states[n], ticket)
    ensures TicketCredited(states[0], ticket) ==>
              CountTicketCredits(replies, ticket, n) == 0 && TicketCredited(states[n], ticket)
  {
    if n == 0 {
    } else {
      TicketCreditsOnce(cfg, states, ops, replies, ticket, n - 1);
      RunConserves(cfg, states, ops, replies, n - 1);
      TicketStep(cfg, states[n - 1], ops[n - 1], ticket);
    }
  }

  // ---------------------------------------------------------------- withdrawals

  ghost function CountRefunds(replies: seq<Reply>, id: int, n: nat): nat
    requires n <= |replies|
  {
    if n == 0 then 0 else CountRefunds(replies, id, n - 1) + if replies[n - 1] == Refunded(id) then 1 else 0
  }

  lemma RefundStep(cfg: Config, s: State, op: Op, id: int)
    requires Regular(s) && Apply(cfg, s, op).1 == Refunded(id)
    ensures id in s.txs && s.txs[id].kind == Withdrawal && !Settled(s.txs[id])
    ensures var (t, tx) := (Apply(cfg, s, op).0, s.txs[id]);
            && t.txs == s.txs[id := tx.(status := Failed)]
            && t.balances == s.balances[tx.user := s.balances[tx.user] + tx.amount]
  {
    assert op.RejectWithdrawal?;
  }

  predicate IsSettled(txs: map<int, Tx>, id: int) { id in txs && Settled(txs[id]) }

  predicate HasFailed(txs: map<int, Tx>, id: int) {
    id in txs && txs[id].kind == Withdrawal && txs[id].status == Failed
  }

  /** A request refunds only what was not settled, and what it refunds has failed then; settled rows stay so. */
  lemma RefundsUnsettled(cfg: Config, s: State, op: Op, id: int)
    requires Regular(s)
    ensures var (t, reply) := Apply(cfg, s, op);
            && (IsSettled(s.txs, id) ==> reply != Refunded(id) && IsSettled(t.txs, id))
            && (HasFailed(s.txs, id) || reply == Refunded(id) ==> HasFailed(t.txs, id))
  {
    if Apply(cfg, s, op).1 == Refunded(id) {
      RefundStep(cfg, s, op, id);
    }
    if IsSettled(s.txs, id) {
      SettledStep(cfg, s, op, id);
    }
  }

  /** A withdrawal is refunded at most once, has failed then, and one settled before is never refunded. */
  lemma {:induction false} RefundedOnce(
    cfg: Config, states: seq<State>, ops: seq<Op>, replies: seq<Reply>, id: int, n: nat)
    requires IsRun(cfg, states, ops, replies) && Regular(states[0]) && n <= |ops|
    ensures CountRefunds(replies, id, n) <= 1
    ensures CountRefunds(replies, id, n) == 1 ==> HasFailed(states[n].txs, id)
    ensures IsSettled(states[0].txs, id) ==> CountRefunds(replies, id, n) == 0 && IsSettled(states[n].txs, id)
  {
    if n == 0 {
    } else {
      RefundedOnce(cfg, states, ops, replies, id, n - 1);
      RegularAt(cfg, states, ops, replies, n - 1);
      RefundsUnsettled(cfg, states[n - 1], ops[n - 1], id);
    }
  }

  /** In every reachable state a player has at most one pending withdrawal. */
  lemma OnePendingWithdrawal(
    cfg: Config, states: seq<State>, ops: seq<Op>, replies: seq<Reply>, i: nat, user: int, a: int, b: int)
    requires IsRun(cfg, states, ops, replies) && Regular(states[0]) && i < |states|
    requires PendingWithdrawal(states[i], user, a) && PendingWithdrawal(states[i], user, b)
    ensures a == b
  {
    RunConserves(cfg, states, ops, replies, i);
    assert Waits(states[i].txs[a], user) && Waits(states[i].txs[b], user);
  }

  /**
   * updateTransactionStatus checks no transition. On its own it keeps the books balanced exactly when it does not
   * leave `failed`, does not fail a completed withdrawal, and does not complete or uncomplete a deposit.
   */
  lemma UpdateStatusConservesIff(s: State, id: int, status: Status, hash: Option<string>)
    requires Regular(s) && id in s.txs
    ensures var tx, t := s.txs[id], UpdateStatus(s, id, status, hash).0;
            && tx.user in t.balances
            && (Unexplained(t, tx.user) == Unexplained(s, tx.user) <==>
                  if tx.kind == Withdrawal then
                    (tx.status == Failed ==> status == Failed) && (tx.status == Completed ==> status != Failed)
                  else tx.amount == 0 || (tx.status == Completed <==> status == Completed))
  {
    var tx, t := s.txs[id], UpdateStatus(s, id, status, hash).0;
    assert RowRegular(tx) && tx.user in s.balances;
    TotalUpdate(s.txs, id, t.txs[id], EffectOn(tx.user));
  }

  lemma UpdateBreaksBooks(s: State, tx: Tx, status: Status)
    requires Regular(s) && s.txs == map[1 := tx] && tx.amount > 0
    requires if tx.kind == Withdrawal then tx.status == Failed && status == Pending
             else tx.status == Completed && status == Failed
    ensures var t := UpdateStatus(s, 1, status, None).0;
            tx.user in t.balances && Unexplained(t, tx.user) != Unexplained(s, tx.user)
  {
    UpdateStatusConservesIff(s, 1, status, None);
  }

  function OneRow(tx: Tx): State { State(map[1 := 0], map[1 := tx], map[], map[], map[], map[], map[], 2) }

  /** An update that does break the books: a failed withdrawal, refunded before, is made pending. */
  lemma ReopenedWithdrawalWitness() returns (s: State)
    ensures Regular(s) && s.txs == map[1 := Tx(1, Withdrawal, 5, None, Failed, true)] && 1 in s.balances
    ensures var t := UpdateStatus(s, 1, Pending, None).0;
            1 in t.balances && Unexplained(t, 1) != Unexplained(s, 1)
  {
    s := OneRow(Tx(1, Withdrawal, 5, None, Failed, true));
    UpdateBreaksBooks(s, s.txs[1], Pending);
  }

  /** Another: a completed deposit is failed. */
  lemma FailedDepositWitness() returns (s: State)
    ensures Regular(s) && s.txs == map[1 := Tx(1, Deposit, 5, None, Completed, false)] && 1 in s.balances
    ensures var t := UpdateStatus(s, 1, Failed, None).0;
            1 in t.balances && Unexplained(t, 1) != Unexplained(s, 1)
  {
    s := OneRow(Tx(1, Deposit, 5, None, Completed, false));
    UpdateBreaksBooks(s, s.txs[1], Failed);
  }

  // ---------------------------------------------------------------- stock

  ghost predicate Stocked(s: State) {
    forall k :: k in s.shop && s.shop[k].stockTotal.Some? ==> s.shop[k].stockSold <= s.shop[k].stockTotal.value
  }

  lemma ApplyKeepsStocked(cfg: Config, s: State, op: Op)
    requires Regular(s) && Stocked(s)
    ensures Stocked(Apply(cfg, s, op).0)
  {
    if !Spends(op) {
      var p := ApplyPosts(cfg, s, op);
      assert Apply(cfg, s, op).0.shop == s.shop;
    }
  }

  /** No run sells more of a miner than its stock. */
  lemma {:induction false} NeverOversold(cfg: Config, states: seq<State>, ops: seq<Op>, replies: seq<Reply>, i: nat)
    requires IsRun(cfg, states, ops, replies) && Regular(states[0]) && Stocked(states[0]) && i < |states|
    ensures Stocked(states[i])
  {
    if i == 0 {
    } else {
      NeverOversold(cfg, states, ops, replies, i - 1);
      RegularAt(cfg, states, ops, replies, i - 1);
      ApplyKeepsStocked(cfg, states[i - 1], ops[i - 1]);
    }
  }

  ghost function BoughtBy(user: int, minerId: int): Purchase -> int {
    (p: Purchase) => if p.user == user && p.minerId == minerId then p.quantity else 0
  }

  /** What a player has bought of a miner. */
  ghost function Bought(s: State, user: int, minerId: int): int { Total(s.purchases, BoughtBy(user, minerId)) }

  ghost predicate WithinLimit(s: State, user: int, minerId: int) {
    minerId in s.shop && s.shop[minerId].maxPerUser.Some? ==>
      Bought(s, user, minerId) <= s.shop[minerId].maxPerUser.value
  }

  /** The machines the handler counts include those the player bought before. */
  ghost predicate CountsBought(s: State, op: Op) {
    op.BuyMiners? ==> op.owned >= Bought(s, op.user, op.minerId)
  }

  lemma BuyKeepsLimit(cfg: Config, s: State, op: Op, user: int, minerId: int)
    requires Regular(s) && op.BuyMiners? && CountsBought(s, op) && WithinLimit(s, user, minerId)
    ensures WithinLimit(Apply(cfg, s, op).0, user, minerId)
  {
    var (t, reply) := Apply(cfg, s, op);
    if reply == Done {
      TotalInsert(s.purchases, s.nextId, t.purchases[s.nextId], BoughtBy(user, minerId));
    }
  }

  lemma OthersKeepShop(cfg: Config, s: State, op: Op)
    requires Regular(s) && !op.BuyMiners?
    ensures Apply(cfg, s, op).0.purchases == s.purchases && Apply(cfg, s, op).0.shop == s.shop
  {
    if !Spends(op) {
      var p := ApplyPosts(cfg, s, op);
    }
  }

  /** No player ever buys more of a miner than the personal limit, while what was bought is still counted. */
  lemma {:induction false} NeverBeyondLimit(
    cfg: Config, states: seq<State>, ops: seq<Op>, replies: seq<Reply>, i: nat, user: int, minerId: int)
    requires IsRun(cfg, states, ops, replies) && Regular(states[0]) && i < |states|
    requires WithinLimit(states[0], user, minerId)
    requires forall k :: 0 <= k < |ops| ==> CountsBought(states[k], ops[k])
    ensures WithinLimit(states[i], user, minerId)
  {
    if i == 0 {
    } else {
      NeverBeyondLimit(cfg, states, ops, replies, i - 1, user, minerId);
      RegularAt(cfg, states, ops, replies, i - 1);
      if ops[i - 1].BuyMiners? {
        BuyKeepsLimit(cfg, states[i - 1], ops[i - 1], user, minerId);
      } else {
        OthersKeepShop(cfg, states[i - 1], ops[i - 1]);
      }
    }
  }
}
