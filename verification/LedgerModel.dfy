/**
 * The POL ledger: balances, deposit and withdrawal rows, deposit tickets, rooms, shop purchases and check-ins.
 *
 * Amounts are whole numbers of the smallest unit. `Apply` is one request, taken as one atomic transaction.
 */
module LedgerModel {
  import opened Tables
  import opened TxHashes
  import Checkin = CheckinModel

  datatype Kind = Deposit | Withdrawal

  datatype Status =
    | Pending | Approved | PendingVerification | BtcpayPending | Completed | Failed | Other(name: string)

  datatype Tx = Tx(user: int, kind: Kind, amount: int, hash: Option<string>, status: Status, reserved: bool)

  datatype TicketStatus = Open | Analyzing | TicketApproved | Credited | Rejected

  /** `hash` is the text the player gave, trimmed; an empty one counts as none. */
  datatype Ticket = Ticket(user: int, hash: Option<string>, status: TicketStatus)

  datatype Room = Room(user: int, number: int, price: int)

  datatype Purchase = Purchase(user: int, minerId: int, quantity: int, total: int)

  datatype ShopMiner = ShopMiner(
    available: bool, price: int, stockTotal: Option<int>, stockSold: int, maxPerUser: Option<int>)

  datatype Config = Config(roomMax: int, roomPrices: seq<int>, maxBulk: int, digest: Checkin.Key -> string)

  datatype State = State(
    balances: map<int, int>, txs: map<int, Tx>, tickets: map<int, Ticket>, rooms: map<int, Room>,
    purchases: map<int, Purchase>, shop: map<int, ShopMiner>, checkins: map<Checkin.Key, Checkin.Row>,
    nextId: int)

  /** What the verifier learns about a submitted hash. */
  datatype Verdict = Wait | Reject | Accept(amount: int)

  datatype Op =
    | CreateDeposit(user: int, amount: int, hash: string, verified: bool)
    | SubmitDeposit(user: int, text: string, claimed: int)
    | VerifyDeposit(id: int, verdict: Verdict)
    | CreateInvoice(user: int, amount: int, invoiceId: string)
    | SettleInvoice(invoiceId: string, settled: bool, metaUser: Option<int>, metaAmount: Option<int>)
    | OpenTicket(user: int, ticketText: Option<string>)
    | AnalyzeTicket(id: int)
    | ApproveTicket(id: int, amount: int)
    | RejectTicket(id: int)
    | RequestWithdrawal(user: int, amount: int)
    | ApproveWithdrawal(id: int)
    | RejectWithdrawal(id: int)
    | CompleteWithdrawal(id: int, text: string)
    | AutoSend(id: int, hash: string)
    | BuyRoom(user: int)
    | BuyMiners(user: int, minerId: int, quantity: int, owned: int)
    | CheckIn(op: Checkin.Op)

  datatype Reply =
    | Done
    | Refused
    | CreditedTo(user: int, hash: Option<string>, amount: int, ticket: Option<int>)
    | Refunded(id: int)

  // ---------------------------------------------------------------- deposits

  function DepositsOf(txs: map<int, Tx>, hash: string): set<int> {
    set k | k in txs && txs[k].kind == Deposit && txs[k].hash == Some(hash)
  }

  /** The deposit row of a hash; the database allows one. */
  ghost function DepositOf(txs: map<int, Tx>, hash: string): (id: int)
    requires DepositsOf(txs, hash) != {}
    ensures id in DepositsOf(txs, hash)
  {
    AnyOf(DepositsOf(txs, hash))
  }

  function Credit(balances: map<int, int>, user: int, amount: int): map<int, int> {
    if user in balances then balances[user := balances[user] + amount] else balances
  }

  function NewTx(s: State, tx: Tx): State { s.(txs := s.txs[s.nextId := tx], nextId := s.nextId + 1) }

  ghost function CreateDepositEffect(s: State, user: int, amount: int, hash: string, verified: bool): (State, Reply) {
    if hash == "" || amount <= 0 || DepositsOf(s.txs, hash) != {} || !verified || user !in s.balances then (s, Refused)
    else
      (NewTx(s, Tx(user, Deposit, amount, Some(hash), Completed, false))
         .(balances := Credit(s.balances, user, amount)),
       CreditedTo(user, Some(hash), amount, None))
  }

  /** Hashes are compared and stored as typed here, but trimmed and in lower case when they are submitted. */
  ghost function SubmitDepositEffect(s: State, user: int, text: string, claimed: int): (State, Reply) {
    if !IsHash(Lower(Trim(text))) then (s, Refused)
    else AwaitDeposit(s, user, claimed, Lower(Trim(text)), PendingVerification)
  }

  /** A row that waits for the chain (or for the invoice); the claimed amount is a reference only. */
  ghost function AwaitDeposit(s: State, user: int, amount: int, hash: string, status: Status): (State, Reply) {
    if hash == "" || amount < 0 || user !in s.balances || DepositsOf(s.txs, hash) != {} then (s, Refused)
    else (NewTx(s, Tx(user, Deposit, amount, Some(hash), status, false)), Done)
  }

  ghost function VerifyDepositEffect(s: State, id: int, verdict: Verdict): (State, Reply) {
    if id !in s.txs || s.txs[id].kind != Deposit || s.txs[id].status != PendingVerification then (s, Refused)
    else
      var tx := s.txs[id];
      match verdict
      case Wait => (s, Done)
      case Reject => (s.(txs := s.txs[id := tx.(status := Failed)]), Done)
      case Accept(amount) =>
        if amount <= 0 || CreditedElsewhere(s.txs, id) then (s.(txs := s.txs[id := tx.(status := Failed)]), Done)
        else
          (s.(txs := s.txs[id := tx.(status := Completed, amount := amount)],
              balances := Credit(s.balances, tx.user, amount)),
           CreditedTo(tx.user, tx.hash, amount, None))
  }

  predicate CreditedElsewhere(txs: map<int, Tx>, id: int)
    requires id in txs
  {
    exists k :: k in txs && k != id && txs[k].kind == Deposit && txs[k].status == Completed
                && txs[k].hash == txs[id].hash
  }

  function Abs(x: int): int { if x < 0 then -x else x }

  /** |a - b| <= 1e-6 + |a| * 1e-9, in units of 1e-8. */
  predicate CloseEnough(expected: int, fromMeta: int) {
    1_000_000_000 * Abs(expected - fromMeta) <= 100_000_000_000 + Abs(expected)
  }

  ghost function SettleInvoiceEffect(
    s: State, invoiceId: string, settled: bool, metaUser: Option<int>, metaAmount: Option<int>): (State, Reply)
  {
    var hash := InvoiceHash(invoiceId);
    if !settled || DepositsOf(s.txs, hash) == {} then (s, Refused)
    else
      var id := DepositOf(s.txs, hash);
      var tx := s.txs[id];
      if tx.status != BtcpayPending || metaUser != Some(tx.user) || metaAmount.None?
         || !CloseEnough(tx.amount, metaAmount.value) || tx.amount <= 0
      then (s, Refused)
      else
        (s.(txs := s.txs[id := tx.(status := Completed)], balances := Credit(s.balances, tx.user, tx.amount)),
         CreditedTo(tx.user, tx.hash, tx.amount, None))
  }

  // ---------------------------------------------------------------- tickets

  function Unresolved(s: State, user: int): set<int> {
    set k | k in s.tickets && s.tickets[k].user == user && s.tickets[k].status in {Open, Analyzing}
  }

  predicate TicketRepeats(s: State, user: int, hash: string) {
    exists k :: k in s.tickets && s.tickets[k].user == user && s.tickets[k].hash == Some(hash)
  }

  const MAX_TICKETS_OPEN := 3

  /** What a ticket keeps of the text it is opened with. */
  function Kept(text: Option<string>): Option<string> {
    if text.Some? && text.value != "" then Some(Trim(text.value)) else None
  }

  /** The hash a ticket is about. */
  function TicketHash(ticket: Ticket): Option<string> { if ticket.hash == Some("") then None else ticket.hash }

  ghost function OpenTicketEffect(s: State, user: int, text: Option<string>): (State, Reply) {
    if user !in s.balances || |Unresolved(s, user)| >= MAX_TICKETS_OPEN
       || (Kept(text).Some? && TicketRepeats(s, user, Kept(text).value))
    then (s, Refused)
    else
      (s.(tickets := s.tickets[s.nextId := Ticket(user, Kept(text), Open)], nextId := s.nextId + 1), Done)
  }

  function Resolve(s: State, id: int, status: TicketStatus): State
    requires id in s.tickets
  {
    s.(tickets := s.tickets[id := s.tickets[id].(status := status)])
  }

  predicate Approvable(s: State, id: int) {
    id in s.tickets && s.tickets[id].status !in {TicketApproved, Credited}
  }

  /** Create a deposit, revive a failed one, or only close the ticket of a completed one. */
  ghost function ApproveTicketEffect(s: State, id: int, amount: int): (State, Reply) {
    if amount <= 0 || !Approvable(s, id) then (s, Refused)
    else
      var ticket := s.tickets[id];
      var hash := TicketHash(ticket);
      var closed := Resolve(s, id, Credited);
      var paid := Credit(s.balances, ticket.user, amount);
      if hash.None? || DepositsOf(s.txs, hash.value) == {} then
        (NewTx(closed, Tx(ticket.user, Deposit, amount, hash, Completed, false)).(balances := paid),
         CreditedTo(ticket.user, hash, amount, Some(id)))
      else
        var prior := DepositOf(s.txs, hash.value);
        var tx := s.txs[prior];
        if tx.user != ticket.user then (s, Refused)
        else if tx.status == Failed then
          (closed.(txs := s.txs[prior := tx.(status := Completed, amount := amount)], balances := paid),
           CreditedTo(ticket.user, hash, amount, Some(id)))
        else if tx.status == Completed then (closed, Done)
        else (s, Refused)
  }

  ghost function RejectTicketEffect(s: State, id: int): (State, Reply) {
    if id !in s.tickets || s.tickets[id].status in {TicketApproved, Credited, Rejected} then (s, Refused)
    else (Resolve(s, id, Rejected), Done)
  }

  // ---------------------------------------------------------------- withdrawals

  predicate PendingWithdrawal(s: State, user: int, id: int) {
    id in s.txs && s.txs[id].user == user && s.txs[id].kind == Withdrawal && s.txs[id].status == Pending
  }

  ghost function RequestWithdrawalEffect(s: State, user: int, amount: int): (State, Reply) {
    if amount <= 0 || (exists id :: PendingWithdrawal(s, user, id)) || user !in s.balances || s.balances[user] < amount
    then (s, Refused)
    else
      (NewTx(s, Tx(user, Withdrawal, amount, None, Pending, true))
         .(balances := Credit(s.balances, user, -amount)), Done)
  }

  /** walletModel.updateTransactionStatus: any row, any status; a failed reserved withdrawal is refunded. */
  function UpdateStatus(s: State, id: int, status: Status, hash: Option<string>): (State, Reply) {
    if id !in s.txs then (s, Refused)
    else
      var tx := s.txs[id];
      var given := hash.Some? && hash.value != "";
      var t := s.(txs := s.txs[id := tx.(status := status, hash := if given then hash else tx.hash)]);
      if tx.kind == Withdrawal && status == Failed && tx.status != Failed && tx.status != Completed && tx.reserved
      then (t.(balances := Credit(s.balances, tx.user, tx.amount)), Refunded(id))
      else (t, Done)
  }

  predicate WithdrawalIn(s: State, id: int, statuses: set<Status>) {
    id in s.txs && s.txs[id].kind == Withdrawal && s.txs[id].status in statuses
  }

  // ---------------------------------------------------------------- spending

  function RoomsOf(s: State, user: int): set<int> { set k | k in s.rooms && s.rooms[k].user == user }

  function PriceOf(cfg: Config, number: int): int {
    if 1 <= number <= |cfg.roomPrices| then cfg.roomPrices[number - 1] else 0
  }

  ghost function BuyRoomEffect(cfg: Config, s: State, user: int): (State, Reply) {
    var number := |RoomsOf(s, user)| + 1;
    var price := PriceOf(cfg, number);
    if number > cfg.roomMax || price < 0 || user !in s.balances || s.balances[user] < price then (s, Refused)
    else
      (s.(balances := Credit(s.balances, user, -price), rooms := s.rooms[s.nextId := Room(user, number, price)],
          nextId := s.nextId + 1), Done)
  }

  ghost function BuyMinersEffect(
    cfg: Config, s: State, user: int, minerId: int, quantity: int, owned: int): (State, Reply)
  {
    if !(1 <= quantity <= cfg.maxBulk) || minerId !in s.shop || !s.shop[minerId].available || s.shop[minerId].price <= 0
    then (s, Refused)
    else
      var m := s.shop[minerId];
      var total := m.price * quantity;
      if (m.stockTotal.Some? && m.stockSold + quantity > m.stockTotal.value)
         || (m.maxPerUser.Some? && owned + quantity > m.maxPerUser.value)
         || user !in s.balances || s.balances[user] < total
      then (s, Refused)
      else
        (s.(balances := Credit(s.balances, user, -total),
            purchases := s.purchases[s.nextId := Purchase(user, minerId, quantity, total)],
            shop := s.shop[minerId := m.(stockSold := m.stockSold + quantity)],
            nextId := s.nextId + 1), Done)
  }

  ghost function CheckInEffect(cfg: Config, s: State, op: Checkin.Op): (State, Reply) {
    var desk := Checkin.Apply(cfg.digest, Checkin.Desk(s.checkins, s.balances), op).0;
    (s.(checkins := desk.rows, balances := desk.balances), Done)
  }

  // ---------------------------------------------------------------- one request

  ghost function Apply(cfg: Config, s: State, op: Op): (State, Reply) {
    match op
    case CreateDeposit(user, amount, hash, verified) => CreateDepositEffect(s, user, amount, hash, verified)
    case SubmitDeposit(user, text, claimed) => SubmitDepositEffect(s, user, text, claimed)
    case VerifyDeposit(id, verdict) => VerifyDepositEffect(s, id, verdict)
    case CreateInvoice(user, amount, invoiceId) =>
      if amount <= 0 then (s, Refused) else AwaitDeposit(s, user, amount, InvoiceHash(invoiceId), BtcpayPending)
    case SettleInvoice(invoiceId, settled, metaUser, metaAmount) =>
      SettleInvoiceEffect(s, invoiceId, settled, metaUser, metaAmount)
    case OpenTicket(user, text) => OpenTicketEffect(s, user, text)
    case AnalyzeTicket(id) =>
      if id in s.tickets && s.tickets[id].status in {Open, Analyzing} then (Resolve(s, id, Analyzing), Done)
      else (s, Refused)
    case ApproveTicket(id, amount) => ApproveTicketEffect(s, id, amount)
    case RejectTicket(id) => RejectTicketEffect(s, id)
    case RequestWithdrawal(user, amount) => RequestWithdrawalEffect(s, user, amount)
    case ApproveWithdrawal(id) =>
      if WithdrawalIn(s, id, {Pending}) then (s.(txs := s.txs[id := s.txs[id].(status := Approved)]), Done)
      else (s, Refused)
    case RejectWithdrawal(id) =>
      if WithdrawalIn(s, id, {Pending, Approved}) then UpdateStatus(s, id, Failed, None) else (s, Refused)
    case CompleteWithdrawal(id, text) =>
      if IsHash(Trim(text)) && WithdrawalIn(s, id, {Pending, Approved})
      then UpdateStatus(s, id, Completed, Some(Trim(text)))
      else (s, Refused)
    case AutoSend(id, hash) =>
      if WithdrawalIn(s, id, {Approved}) then UpdateStatus(s, id, Completed, Some(hash)) else (s, Refused)
    case BuyRoom(user) => BuyRoomEffect(cfg, s, user)
    case BuyMiners(user, minerId, quantity, owned) => BuyMinersEffect(cfg, s, user, minerId, quantity, owned)
    case CheckIn(checkin) => CheckInEffect(cfg, s, checkin)
  }
}
