/**
 * Conservation, single crediting and the life of a withdrawal, over every run of ledger requests.
 *
 * The core is `ApplyPosts`: whatever a request does to the transaction table is nothing, or one legal posting.
 */
module LedgerProofs {
  import opened LedgerModel
  import opened Tables
  import opened TxHashes
  import Checkin = CheckinModel

  // ---------------------------------------------------------------- what the tables say a balance should be

  /** A completed deposit adds its amount; a reserved withdrawal takes it until it has failed. */
  function Effect(tx: Tx, user: int): int {
    if tx.user != user then 0
    else if tx.kind == Deposit then (if tx.status == Completed then tx.amount else 0)
    else if tx.reserved && tx.status != Failed then -tx.amount
    else 0
  }

  ghost function EffectOn(user: int): Tx -> int { (tx: Tx) => Effect(tx, user) }

  ghost function RoomCost(user: int): Room -> int { (room: Room) => if room.user == user then room.price else 0 }

  ghost function ShopCost(user: int): Purchase -> int { (p: Purchase) => if p.user == user then p.total else 0 }

  /** The balance less what the tables account for: what the player started with. */
  ghost function Unexplained(s: State, user: int): int
    requires user in s.balances
  {
    s.balances[user] - Total(s.txs, EffectOn(user)) + Total(s.rooms, RoomCost(user))
    + Total(s.purchases, ShopCost(user)) + Total(s.checkins, Checkin.CostOf(user))
  }

  // ---------------------------------------------------------------- the transaction table

  /** A row nothing may change any more: completed, or a withdrawal that failed. */
  predicate Settled(tx: Tx) { tx.status == Completed || (tx.kind == Withdrawal && tx.status == Failed) }

  predicate SameDeposit(a: Tx, b: Tx) { a.kind == Deposit && b.kind == Deposit && a.hash.Some? && a.hash == b.hash }

  predicate Waits(tx: Tx, user: int) { tx.user == user && tx.kind == Withdrawal && tx.status == Pending }

  /** Withdrawals are reserved, positive, and in one of four states. */
  predicate RowRegular(tx: Tx) {
    && (tx.kind == Withdrawal ==>
          tx.reserved && tx.amount > 0 && tx.status in {Pending, Approved, Completed, Failed})
    && (tx.kind == Deposit ==> tx.hash != Some("") && (tx.status == Completed ==> tx.amount > 0))
  }

  /** One deposit row per hash, one waiting withdrawal per player. */
  ghost predicate BooksRegular(txs: map<int, Tx>, users: set<int>, nextId: int) {
    && (forall k :: k in txs ==> k < nextId && txs[k].user in users && RowRegular(txs[k]))
    && (forall a, b :: a in txs && b in txs && SameDeposit(txs[a], txs[b]) ==> a == b)
    && (forall a, b, user :: a in txs && b in txs && Waits(txs[a], user) && Waits(txs[b], user) ==> a == b)
  }

  datatype Posting = NoPosting | Posting(id: int, tx: Tx)

  function Post(txs: map<int, Tx>, p: Posting): map<int, Tx> {
    if p.NoPosting? then txs else txs[p.id := p.tx]
  }

  /** What a posting must do to the balance of its player. */
  function Delta(txs: map<int, Tx>, p: Posting): int
    requires p.Posting?
  {
    Effect(p.tx, p.tx.user) - if p.id in txs then Effect(txs[p.id], p.tx.user) else 0
  }

  /**
   * A posting writes a new row, or an unsettled one keeping its player, kind and deposit hash; it moves the balance
   * by what the row's effect changes, and does not overdraw it.
   */
  ghost predicate Legal(txs: map<int, Tx>, balances: map<int, int>, nextId: int, p: Posting) {
    p.Posting? ==>
      && RowRegular(p.tx) && p.tx.user in balances && balances[p.tx.user] + Delta(txs, p) >= 0
      && (if p.id in txs then
            && !Settled(txs[p.id]) && p.tx.user == txs[p.id].user && p.tx.kind == txs[p.id].kind
            && (p.tx.kind == Deposit ==> p.tx.hash == txs[p.id].hash)
            && (Waits(p.tx, p.tx.user) ==> Waits(txs[p.id], p.tx.user))
          else
            && p.id == nextId
            && (p.tx.kind == Deposit && p.tx.hash.Some? ==> DepositsOf(txs, p.tx.hash.value) == {})
            && (Waits(p.tx, p.tx.user) ==> forall k :: k in txs ==> !Waits(txs[k], p.tx.user)))
  }

  lemma PostKeepsBooks(txs: map<int, Tx>, balances: map<int, int>, nextId: int, next': int, p: Posting)
    requires BooksRegular(txs, balances.Keys, nextId) && Legal(txs, balances, nextId, p)
    requires next' >= nextId && (p.Posting? && p.id !in txs ==> next' > nextId)
    ensures BooksRegular(Post(txs, p), balances.Keys, next')
  {
    if p.Posting? && p.id !in txs && p.tx.kind == Deposit && p.tx.hash.Some? {
      forall k | k in txs
        ensures !SameDeposit(txs[k], p.tx)
      {
        assert k !in DepositsOf(txs, p.tx.hash.value);
      }
    }
  }

  /** The effect of the whole table on one player moves with the posting. */
  lemma PostMovesEffect(txs: map<int, Tx>, p: Posting, user: int)
    requires p.Posting? && (p.id in txs ==> txs[p.id].user == p.tx.user)
    ensures Total(Post(txs, p), EffectOn(user))
            == Total(txs, EffectOn(user)) + if user == p.tx.user then Delta(txs, p) else 0
  {
    if p.id in txs {
      TotalUpdate(txs, p.id, p.tx, EffectOn(user));
    } else {
      TotalInsert(txs, p.id, p.tx, EffectOn(user));
    }
  }

  // ---------------------------------------------------------------- the other tables

  ghost predicate TicketsRegular(s: State) {
    forall k :: k in s.tickets ==> k < s.nextId && s.tickets[k].user in s.balances
  }

  ghost predicate SpendingRegular(s: State) {
    && (forall k :: k in s.rooms ==> k < s.nextId)
    && (forall k :: k in s.purchases ==> k < s.nextId)
    && Checkin.Sound(s.checkins)
  }

  ghost predicate Solvent(balances: map<int, int>) { forall user :: user in balances ==> balances[user] >= 0 }

  ghost predicate Regular(s: State) {
    && BooksRegular(s.txs, s.balances.Keys, s.nextId) && TicketsRegular(s) && SpendingRegular(s) && Solvent(s.balances)
  }

  // ---------------------------------------------------------------- every request is at most one legal posting

  /** The request leaves spending alone, and the books and balances move by one legal posting. */
  ghost predicate Posts(s: State, t: State, p: Posting) {
    && Legal(s.txs, s.balances, s.nextId, p)
    && t.txs == Post(s.txs, p)
    && t.balances == (if p.NoPosting? then s.balances else Credit(s.balances, p.tx.user, Delta(s.txs, p)))
    && t.rooms == s.rooms && t.purchases == s.purchases && t.checkins == s.checkins && t.shop == s.shop
    && t.nextId >= s.nextId && (p.Posting? && p.id !in s.txs ==> t.nextId > s.nextId)
    && (forall k :: k in t.tickets ==> k < t.nextId && t.tickets[k].user in t.balances)
  }

  lemma CreateDepositPosts(s: State, user: int, amount: int, hash: string, verified: bool) returns (p: Posting)
    requires Regular(s)
    ensures Posts(s, CreateDepositEffect(s, user, amount, hash, verified).0, p)
  {
    p := if CreateDepositEffect(s, user, amount, hash, verified).1 == Refused then NoPosting
         else Posting(s.nextId, Tx(user, Deposit, amount, Some(hash), Completed, false));
  }

  lemma AwaitDepositPosts(s: State, user: int, amount: int, hash: string, status: Status) returns (p: Posting)
    requires Regular(s) && status in {PendingVerification, BtcpayPending}
    ensures Posts(s, AwaitDeposit(s, user, amount, hash, status).0, p)
  {
    p := if AwaitDeposit(s, user, amount, hash, status).1 == Refused then NoPosting
         else Posting(s.nextId, Tx(user, Deposit, amount, Some(hash), status, false));
  }

  lemma SubmitDepositPosts(s: State, user: int, text: string, claimed: int) returns (p: Posting)
    requires Regular(s)
    ensures Posts(s, SubmitDepositEffect(s, user, text, claimed).0, p)
  {
    p := NoPosting;
    if IsHash(Lower(Trim(text))) {
      p := AwaitDepositPosts(s, user, claimed, Lower(Trim(text)), PendingVerification);
    }
  }

  lemma VerifyDepositPosts(s: State, id: int, verdict: Verdict) returns (p: Posting)
    requires Regular(s)
    ensures Posts(s, VerifyDepositEffect(s, id, verdict).0, p)
  {
    var (t, reply) := VerifyDepositEffect(s, id, verdict);
    p := NoPosting;
    if reply.CreditedTo? {
      p := Posting(id, s.txs[id].(status := Completed, amount := verdict.amount));
    } else if reply == Done && !verdict.Wait? {
      p := Posting(id, s.txs[id].(status := Failed));
    }
  }

  lemma SettleInvoicePosts(s: State, invoiceId: string, settled: bool, metaUser: Option<int>, metaAmount: Option<int>)
    returns (p: Posting)
    requires Regular(s)
    ensures Posts(s, SettleInvoiceEffect(s, invoiceId, settled, metaUser, metaAmount).0, p)
  {
    var (t, reply) := SettleInvoiceEffect(s, invoiceId, settled, metaUser, metaAmount);
    p := NoPosting;
    if reply != Refused {
      var id := DepositOf(s.txs, InvoiceHash(invoiceId));
      p := Posting(id, t.txs[id]);
    }
  }

  lemma CreateForTicketPosts(s: State, id: int, amount: int) returns (p: Posting)
    requires Regular(s) && ApproveTicketEffect(s, id, amount).1.CreditedTo?
    requires var hash := TicketHash(s.tickets[id]); hash.None? || DepositsOf(s.txs, hash.value) == {}
    ensures Posts(s, ApproveTicketEffect(s, id, amount).0, p)
  {
    var ticket := s.tickets[id];
    p := Posting(s.nextId, Tx(ticket.user, Deposit, amount, TicketHash(ticket), Completed, false));
  }

  lemma ReviveForTicketPosts(s: State, id: int, amount: int) returns (p: Posting)
    requires Regular(s) && ApproveTicketEffect(s, id, amount).1.CreditedTo?
    requires var hash := TicketHash(s.tickets[id]); hash.Some? && DepositsOf(s.txs, hash.value) != {}
    ensures Posts(s, ApproveTicketEffect(s, id, amount).0, p)
  {
    var prior := DepositOf(s.txs, TicketHash(s.tickets[id]).value);
    p := Posting(prior, s.txs[prior].(status := Completed, amount := amount));
  }

  lemma ApproveTicketPosts(s: State, id: int, amount: int) returns (p: Posting)
    requires Regular(s)
    ensures Posts(s, ApproveTicketEffect(s, id, amount).0, p)
  {
    p := NoPosting;
    if ApproveTicketEffect(s, id, amount).1.CreditedTo? {
      var hash := TicketHash(s.tickets[id]);
      if hash.None? || DepositsOf(s.txs, hash.value) == {} {
        p := CreateForTicketPosts(s, id, amount);
      } else {
        p := ReviveForTicketPosts(s, id, amount);
      }
    }
  }

  lemma RequestWithdrawalPosts(s: State, user: int, amount: int) returns (p: Posting)
    requires Regular(s)
    ensures Posts(s, RequestWithdrawalEffect(s, user, amount).0, p)
  {
    p := if RequestWithdrawalEffect(s, user, amount).1 == Refused then NoPosting
         else Posting(s.nextId, Tx(user, Withdrawal, amount, None, Pending, true));
    if p.Posting? {
      forall k | k in s.txs
        ensures !Waits(s.txs[k], user)
      {
        assert !PendingWithdrawal(s, user, k);
      }
    }
  }

  /** Behind the guards of its callers the unguarded status update is a legal posting. */
  lemma UpdateStatusPosts(s: State, id: int, status: Status, hash: Option<string>) returns (p: Posting)
    requires Regular(s) && WithdrawalIn(s, id, {Pending, Approved}) && status in {Completed, Failed}
    ensures Posts(s, UpdateStatus(s, id, status, hash).0, p)
  {
    p := Posting(id, UpdateStatus(s, id, status, hash).0.txs[id]);
  }

  predicate Spends(op: Op) { op.BuyRoom? || op.BuyMiners? || op.CheckIn? }

  lemma OpenTicketPosts(s: State, user: int, text: Option<string>)
    requires Regular(s)
    ensures Posts(s, OpenTicketEffect(s, user, text).0, NoPosting)
  {
  }

  lemma ResolvePosts(s: State, id: int, status: TicketStatus)
    requires Regular(s) && id in s.tickets
    ensures Posts(s, Resolve(s, id, status), NoPosting)
  {
  }

  lemma ApproveWithdrawalPosts(s: State, id: int)
    requires Regular(s) && WithdrawalIn(s, id, {Pending})
    ensures Posts(s, s.(txs := s.txs[id := s.txs[id].(status := Approved)]),
                  Posting(id, s.txs[id].(status := Approved)))
  {
  }

  predicate IsDepositOp(op: Op) {
    op.CreateDeposit? || op.SubmitDeposit? || op.VerifyDeposit? || op.CreateInvoice? || op.SettleInvoice?
  }

  predicate IsTicketOp(op: Op) { op.OpenTicket? || op.AnalyzeTicket? || op.ApproveTicket? || op.RejectTicket? }

  lemma DepositOpPosts(cfg: Config, s: State, op: Op) returns (p: Posting)
    requires Regular(s) && IsDepositOp(op)
    ensures Posts(s, Apply(cfg, s, op).0, p)
  {
    match op
    case CreateDeposit(user, amount, hash, verified) => p := CreateDepositPosts(s, user, amount, hash, verified);
    case SubmitDeposit(user, text, claimed) => p := SubmitDepositPosts(s, user, text, claimed);
    case VerifyDeposit(id, verdict) => p := VerifyDepositPosts(s, id, verdict);
    case CreateInvoice(user, amount, invoiceId) =>
      p := NoPosting;
      if amount > 0 {
        p := AwaitDepositPosts(s, user, amount, InvoiceHash(invoiceId), BtcpayPending);
      }
    case SettleInvoice(invoiceId, settled, metaUser, metaAmount) =>
      p := SettleInvoicePosts(s, invoiceId, settled, metaUser, metaAmount);
  }

  lemma TicketOpPosts(cfg: Config, s: State, op: Op) returns (p: Posting)
    requires Regular(s) && IsTicketOp(op)
    ensures Posts(s, Apply(cfg, s, op).0, p)
  {
    p := NoPosting;
    match op
    case OpenTicket(user, text) => OpenTicketPosts(s, user, text);
    case AnalyzeTicket(id) =>
      if id in s.tickets {
        ResolvePosts(s, id, Analyzing);
      }
    case ApproveTicket(id, amount) => p := ApproveTicketPosts(s, id, amount);
    case RejectTicket(id) =>
      if id in s.tickets {
        ResolvePosts(s, id, Rejected);
      }
  }

  lemma WithdrawalOpPosts(cfg: Config, s: State, op: Op) returns (p: Posting)
    requires Regular(s) && !IsDepositOp(op) && !IsTicketOp(op) && !Spends(op)
    ensures Posts(s, Apply(cfg, s, op).0, p)
  {
    p := NoPosting;
    match op
    case RequestWithdrawal(user, amount) => p := RequestWithdrawalPosts(s, user, amount);
    case ApproveWithdrawal(id) =>
      if WithdrawalIn(s, id, {Pending}) {
        p := Posting(id, s.txs[id].(status := Approved));
        ApproveWithdrawalPosts(s, id);
      }
    case RejectWithdrawal(id) =>
      if WithdrawalIn(s, id, {Pending, Approved}) {
        p := UpdateStatusPosts(s, id, Failed, None);
      }
    case CompleteWithdrawal(id, text) =>
      if IsHash(Trim(text)) && WithdrawalIn(s, id, {Pending, Approved}) {
        p := UpdateStatusPosts(s, id, Completed, Some(Trim(text)));
      }
    case AutoSend(id, hash) =>
      if WithdrawalIn(s, id, {Approved}) {
        p := UpdateStatusPosts(s, id, Completed, Some(hash));
      }
  }

  /** Whatever a request that spends nothing does to the books is nothing, or one legal posting. */
  lemma ApplyPosts(cfg: Config, s: State, op: Op) returns (p: Posting)
    requires Regular(s) && !Spends(op)
    ensures Posts(s, Apply(cfg, s, op).0, p)
  {
    if IsDepositOp(op) {
      p := DepositOpPosts(cfg, s, op);
    } else if IsTicketOp(op) {
      p := TicketOpPosts(cfg, s, op);
    } else {
      p := WithdrawalOpPosts(cfg, s, op);
    }
  }

  // ---------------------------------------------------------------- conservation

  /** The players are the same, and what each started with still explains the balance. */
  ghost predicate KeepsBooks(s: State, t: State) {
    && t.balances.Keys == s.balances.Keys
    && forall user :: user in s.balances ==> Unexplained(t, user) == Unexplained(s, user)
  }

  lemma PostingConserves(s: State, t: State, p: Posting)
    requires Regular(s) && Posts(s, t, p)
    ensures Regular(t) && KeepsBooks(s, t)
  {
    PostKeepsBooks(s.txs, s.balances, s.nextId, t.nextId, p);
    forall user | user in s.balances
      ensures Unexplained(t, user) == Unexplained(s, user)
    {
      if p.Posting? {
        PostMovesEffect(s.txs, p, user);
      }
    }
  }

  /** Behind the guards of its callers the unguarded status update keeps the books. */
  lemma UpdateStatusConserves(s: State, id: int, status: Status, hash: Option<string>)
    requires Regular(s)
    ensures var t := UpdateStatus(s, id, status, hash).0;
            WithdrawalIn(s, id, {Pending, Approved}) && status in {Completed, Failed} ==> Regular(t) && KeepsBooks(s, t)
  {
    if WithdrawalIn(s, id, {Pending, Approved}) && status in {Completed, Failed} {
      var p := UpdateStatusPosts(s, id, status, hash);
      PostingConserves(s, UpdateStatus(s, id, status, hash).0, p);
    }
  }

  lemma BuyRoomConserves(cfg: Config, s: State, user: int)
    requires Regular(s)
    ensures var t := BuyRoomEffect(cfg, s, user).0;
            Regular(t) && KeepsBooks(s, t)
  {
    var (t, reply) := BuyRoomEffect(cfg, s, user);
    if reply == Done {
      forall u | u in s.balances
        ensures Unexplained(t, u) == Unexplained(s, u)
      {
        TotalInsert(s.rooms, s.nextId, t.rooms[s.nextId], RoomCost(u));
      }
    }
  }

  lemma BuyMinersConserves(cfg: Config, s: State, user: int, minerId: int, quantity: int, owned: int)
    requires Regular(s)
    ensures var t := BuyMinersEffect(cfg, s, user, minerId, quantity, owned).0;
            Regular(t) && KeepsBooks(s, t)
  {
    var (t, reply) := BuyMinersEffect(cfg, s, user, minerId, quantity, owned);
    if reply == Done {
      forall u | u in s.balances
        ensures Unexplained(t, u) == Unexplained(s, u)
      {
        TotalInsert(s.purchases, s.nextId, t.purchases[s.nextId], ShopCost(u));
      }
    }
  }

  lemma CheckInConserves(cfg: Config, s: State, op: Checkin.Op)
    requires Regular(s)
    ensures var t := CheckInEffect(cfg, s, op).0;
            Regular(t) && KeepsBooks(s, t)
  {
    var desk := Checkin.Desk(s.checkins, s.balances);
    var after := Checkin.Apply(cfg.digest, desk, op).0;
    Checkin.ApplyKeepsSound(cfg.digest, desk, op);
    Checkin.ApplyKeepsPlayers(cfg.digest, desk, op);
    forall u | u in s.balances
      ensures after.balances[u] + Total(after.rows, Checkin.CostOf(u))
              == s.balances[u] + Total(s.checkins, Checkin.CostOf(u))
      ensures after.balances[u] >= 0
    {
      Checkin.ApplyConserves(cfg.digest, desk, op, u);
    }
  }

  lemma ApplyConserves(cfg: Config, s: State, op: Op)
    requires Regular(s)
    ensures var t := Apply(cfg, s, op).0;
            Regular(t) && KeepsBooks(s, t)
  {
    match op
    case BuyRoom(user) => BuyRoomConserves(cfg, s, user);
    case BuyMiners(user, minerId, quantity, owned) => BuyMinersConserves(cfg, s, user, minerId, quantity, owned);
    case CheckIn(checkin) => CheckInConserves(cfg, s, checkin);
    case _ =>
      var p := ApplyPosts(cfg, s, op);
      PostingConserves(s, Apply(cfg, s, op).0, p);
  }

  // ---------------------------------------------------------------- runs

  ghost predicate IsRun(cfg: Config, states: seq<State>, ops: seq<Op>, replies: seq<Reply>) {
    && |states| == |ops| + 1 && |replies| == |ops|
    && forall i :: 0 <= i < |ops| ==>
         states[i + 1] == Apply(cfg, states[i], ops[i]).0 && replies[i] == Apply(cfg, states[i], ops[i]).1
  }

  /**
   * Over a whole run every balance stays non-negative and equals what the player started with, plus completed
   * deposits, less withdrawals that have not failed, room prices, shop totals and balance check-ins.
   */
  lemma {:induction false} RunConserves(cfg: Config, states: seq<State>, ops: seq<Op>, replies: seq<Reply>, i: nat)
    requires IsRun(cfg, states, ops, replies) && Regular(states[0]) && i < |states|
    ensures Regular(states[i]) && states[i].balances.Keys == states[0].balances.Keys
    ensures forall user :: user in states[0].balances ==>
              Unexplained(states[i], user) == Unexplained(states[0], user) && states[i].balances[user] >= 0
  {
    if i == 0 {
    } else {
      RunConserves(cfg, states, ops, replies, i - 1);
      ApplyConserves(cfg, states[i - 1], ops[i - 1]);
    }
  }

  lemma SettledStep(cfg: Config, s: State, op: Op, id: int)
    requires Regular(s) && id in s.txs && Settled(s.txs[id])
    ensures id in Apply(cfg, s, op).0.txs && Apply(cfg, s, op).0.txs[id] == s.txs[id]
  {
    if !Spends(op) {
      var p := ApplyPosts(cfg, s, op);
    }
  }

  lemma RegularAt(cfg: Config, states: seq<State>, ops: seq<Op>, replies: seq<Reply>, i: nat)
    requires IsRun(cfg, states, ops, replies) && Regular(states[0]) && i < |states|
    ensures Regular(states[i])
    ensures i < |ops| ==> states[i + 1] == Apply(cfg, states[i], ops[i]).0
  {
    RunConserves(cfg, states, ops, replies, i);
  }

  ghost predicate KeepsSettled(s: State, t: State, id: int) {
    id in s.txs && Settled(s.txs[id]) ==> id in t.txs && t.txs[id] == s.txs[id]
  }

  lemma {:induction false} SettledAlong(states: seq<State>, i: nat, j: nat, id: int)
    requires i <= j < |states| && forall k :: i <= k < j ==> KeepsSettled(states[k], states[k + 1], id)
    requires id in states[i].txs && Settled(states[i].txs[id])
    ensures id in states[j].txs && states[j].txs[id] == states[i].txs[id]
    decreases j
  {
    if i == j {
    } else {
      SettledAlong(states, i, j - 1, id);
      assert KeepsSettled(states[j - 1], states[j - 1 + 1], id);
    }
  }

  /** Settled rows never change: a credited deposit, a completed withdrawal and a failed one are final. */
  lemma SettledIsFinal(
    cfg: Config, states: seq<State>, ops: seq<Op>, replies: seq<Reply>, i: nat, j: nat, id: int)
    requires IsRun(cfg, states, ops, replies) && Regular(states[0]) && i <= j < |states|
    requires id in states[i].txs && Settled(states[i].txs[id])
    ensures id in states[j].txs && states[j].txs[id] == states[i].txs[id]
  {
    forall k | i <= k < j
      ensures KeepsSettled(states[k], states[k + 1], id)
    {
      RegularAt(cfg, states, ops, replies, k);
      if id in states[k].txs && Settled(states[k].txs[id]) {
        SettledStep(cfg, states[k], ops[k], id);
      }
    }
    SettledAlong(states, i, j, id);
  }
}
