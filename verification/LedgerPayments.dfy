/**
 * One payment, one row, one credit. The table keeps hashes apart by their text, the chain does not: what holds of
 * texts in every run (`LedgerRuns`) holds of payments exactly when no request registers a known hash respelt.
 */
module LedgerPayments {
  import opened LedgerModel
  import opened LedgerProofs
  import opened LedgerRuns
  import opened Tables
  import opened TxHashes

  // ---------------------------------------------------------------- one row per payment

  /** The row is a deposit by this payment, whatever the spelling of its hash. */
  predicate Names(tx: Tx, payment: string) {
    tx.kind == Deposit && tx.hash.Some? && Canonical(tx.hash.value) == payment
  }

  ghost predicate OneRowPerPayment(txs: map<int, Tx>) {
    forall a, b, payment :: a in txs && b in txs && Names(txs[a], payment) && Names(txs[b], payment) ==> a == b
  }

  /** The hash under which a request creates a deposit row, unless a row has it. */
  function Registered(s: State, op: Op): Option<string> {
    match op
    case CreateDeposit(user, amount, hash, verified) =>
      if hash != "" && amount > 0 && verified && user in s.balances then Some(hash) else None
    case SubmitDeposit(user, text, claimed) =>
      if IsHash(Lower(Trim(text))) && claimed >= 0 && user in s.balances then Some(Lower(Trim(text))) else None
    case CreateInvoice(user, amount, invoiceId) =>
      if amount > 0 && user in s.balances then Some(InvoiceHash(invoiceId)) else None
    case ApproveTicket(id, amount) =>
      if amount > 0 && Approvable(s, id) then TicketHash(s.tickets[id]) else None
    case _ => None
  }

  /** Some row has the hash in a different spelling. */
  predicate SpeltOtherwise(txs: map<int, Tx>, hash: string) {
    exists k :: k in txs && Names(txs[k], Canonical(hash)) && txs[k].hash != Some(hash)
  }

  predicate Respells(s: State, op: Op) {
    match Registered(s, op)
    case None => false
    case Some(hash) => SpeltOtherwise(s.txs, hash)
  }

  ghost predicate AddsRow(s: State, t: State, hash: string) {
    && s.nextId !in s.txs && s.nextId in t.txs && t.txs == s.txs[s.nextId := t.txs[s.nextId]]
    && t.txs[s.nextId].kind == Deposit && t.txs[s.nextId].hash == Some(hash)
  }

  lemma RegisteredIsAdded(cfg: Config, s: State, op: Op, hash: string)
    requires Regular(s) && Registered(s, op) == Some(hash) && DepositsOf(s.txs, hash) == {}
    ensures AddsRow(s, Apply(cfg, s, op).0, hash)
  {
  }

  lemma OldRowsKeepHashes(cfg: Config, s: State, op: Op)
    requires Regular(s)
    ensures var txs := Apply(cfg, s, op).0.txs;
            forall k :: k in s.txs ==> k in txs && txs[k].kind == s.txs[k].kind
                                       && (s.txs[k].kind == Deposit ==> txs[k].hash == s.txs[k].hash)
    ensures forall k :: k in Apply(cfg, s, op).0.txs && k !in s.txs ==> k == s.nextId
  {
    if !Spends(op) {
      var p := ApplyPosts(cfg, s, op);
    }
  }

  /** A request that registers no new hash adds no row with a hash. */
  lemma UnregisteredIsNotAdded(cfg: Config, s: State, op: Op)
    requires Regular(s)
    requires KnownOrNone(s, op)
    ensures var txs := Apply(cfg, s, op).0.txs;
            s.nextId in txs ==> txs[s.nextId].kind == Withdrawal || txs[s.nextId].hash == None
  {
    assert s.nextId !in s.txs;
    if IsDepositOp(op) {
      UnregisteredDeposit(cfg, s, op);
    } else if IsTicketOp(op) {
      UnregisteredTicket(cfg, s, op);
    } else if !Spends(op) && !op.RequestWithdrawal? {
      assert s.nextId !in Apply(cfg, s, op).0.txs;
    }
  }

  predicate KnownOrNone(s: State, op: Op) {
    match Registered(s, op) case None => true case Some(hash) => DepositsOf(s.txs, hash) != {}
  }

  lemma UnregisteredDeposit(cfg: Config, s: State, op: Op)
    requires Regular(s) && IsDepositOp(op) && KnownOrNone(s, op)
    ensures s.nextId !in Apply(cfg, s, op).0.txs
  {
  }

  lemma UnregisteredTicket(cfg: Config, s: State, op: Op)
    requires Regular(s) && IsTicketOp(op) && KnownOrNone(s, op)
    ensures var txs := Apply(cfg, s, op).0.txs; s.nextId in txs ==> txs[s.nextId].hash == None
  {
  }

  lemma UnregisteredKeepsOneRow(cfg: Config, s: State, op: Op)
    requires Regular(s) && OneRowPerPayment(s.txs)
    requires KnownOrNone(s, op)
    ensures OneRowPerPayment(Apply(cfg, s, op).0.txs)
  {
    OldRowsKeepHashes(cfg, s, op);
    UnregisteredIsNotAdded(cfg, s, op);
    SameHashesKeepOneRow(s.txs, Apply(cfg, s, op).0.txs, s.nextId);
  }

  /** Rows that keep their hashes, and a new one without a hash, leave one row per payment. */
  lemma SameHashesKeepOneRow(before: map<int, Tx>, after: map<int, Tx>, id: int)
    requires OneRowPerPayment(before)
    requires forall k :: k in before ==> k in after && after[k].kind == before[k].kind
                                         && (before[k].kind == Deposit ==> after[k].hash == before[k].hash)
    requires forall k :: k in after && k !in before ==> k == id
    requires id in after ==> after[id].kind == Withdrawal || after[id].hash == None
    ensures OneRowPerPayment(after)
  {
    assert forall k, payment :: k in after && Names(after[k], payment) ==> k in before && Names(before[k], payment);
  }

  lemma RegisteredKeepsOneRowIff(cfg: Config, s: State, op: Op, hash: string)
    requires Regular(s) && OneRowPerPayment(s.txs)
    requires Registered(s, op) == Some(hash) && DepositsOf(s.txs, hash) == {}
    ensures OneRowPerPayment(Apply(cfg, s, op).0.txs) <==> !SpeltOtherwise(s.txs, hash)
  {
    RegisteredIsAdded(cfg, s, op, hash);
    NewRowAlone(s.txs, s.nextId, Apply(cfg, s, op).0.txs[s.nextId], hash);
  }

  /** A request keeps one row per payment exactly when it does not register the hash of a row spelt otherwise. */
  lemma KeepsOneRowIff(cfg: Config, s: State, op: Op)
    requires Regular(s) && OneRowPerPayment(s.txs)
    ensures OneRowPerPayment(Apply(cfg, s, op).0.txs) <==> !Respells(s, op)
  {
    match Registered(s, op)
    case None =>
      UnregisteredKeepsOneRow(cfg, s, op);
    case Some(hash) =>
      if DepositsOf(s.txs, hash) == {} {
        RegisteredKeepsOneRowIff(cfg, s, op, hash);
      } else {
        UnregisteredKeepsOneRow(cfg, s, op);
        KnownHashAlone(s.txs, hash);
      }
  }

  /** An invoice never respells a hash: only typed hashes can. */
  lemma InvoiceNeverRespells(s: State, op: Op)
    requires op.CreateInvoice?
    ensures !Respells(s, op)
  {
    var hash := InvoiceHash(op.invoiceId);
    forall k | k in s.txs && Names(s.txs[k], Canonical(hash))
      ensures s.txs[k].hash == Some(hash)
    {
      InvoiceStandsAlone(op.invoiceId, s.txs[k].hash.value);
    }
  }

  lemma NewRowAlone(txs: map<int, Tx>, id: int, row: Tx, hash: string)
    requires OneRowPerPayment(txs) && id !in txs && DepositsOf(txs, hash) == {}
    requires row.kind == Deposit && row.hash == Some(hash)
    ensures OneRowPerPayment(txs[id := row]) <==> !SpeltOtherwise(txs, hash)
  {
    assert Names(row, Canonical(hash));
    var grown := txs[id := row];
    if k :| k in txs && Names(txs[k], Canonical(hash)) {
      assert k !in DepositsOf(txs, hash);
      assert grown[k] == txs[k] && Names(grown[id], Canonical(hash));
    } else {
      assert forall a :: a in grown && a != id ==> grown[a] == txs[a];
    }
  }

  lemma KnownHashAlone(txs: map<int, Tx>, hash: string)
    requires OneRowPerPayment(txs) && DepositsOf(txs, hash) != {}
    ensures !SpeltOtherwise(txs, hash)
  {
    var known := Element(DepositsOf(txs, hash));
    assert Names(txs[known], Canonical(hash));
  }

  /** Over a run every payment has one row at most, exactly when no request respells the hash of a row. */
  lemma RunOneRowIff(cfg: Config, states: seq<State>, ops: seq<Op>, replies: seq<Reply>)
    requires IsRun(cfg, states, ops, replies) && Regular(states[0]) && OneRowPerPayment(states[0].txs)
    ensures (forall i :: 0 <= i < |states| ==> OneRowPerPayment(states[i].txs)) <==>
            forall i :: 0 <= i < |ops| ==> !Respells(states[i], ops[i])
  {
    if forall i :: 0 <= i < |ops| ==> !Respells(states[i], ops[i]) {
      forall i | 0 <= i < |states|
        ensures OneRowPerPayment(states[i].txs)
      {
        OneRowUpTo(cfg, states, ops, replies, i);
      }
    } else {
      var i :| 0 <= i < |ops| && Respells(states[i], ops[i]);
      if OneRowPerPayment(states[i].txs) {
        RegularAt(cfg, states, ops, replies, i);
        KeepsOneRowIff(cfg, states[i], ops[i]);
        assert !OneRowPerPayment(states[i + 1].txs);
      }
    }
  }

  lemma {:induction false} OneRowUpTo(
    cfg: Config, states: seq<State>, ops: seq<Op>, replies: seq<Reply>, i: nat)
    requires IsRun(cfg, states, ops, replies) && Regular(states[0]) && OneRowPerPayment(states[0].txs)
    requires (forall j :: 0 <= j < |ops| ==> !Respells(states[j], ops[j])) && i < |states|
    ensures OneRowPerPayment(states[i].txs)
  {
    if i == 0 {
    } else {
      OneRowUpTo(cfg, states, ops, replies, i - 1);
      RegularAt(cfg, states, ops, replies, i - 1);
      KeepsOneRowIff(cfg, states[i - 1], ops[i - 1]);
    }
  }

  // ---------------------------------------------------------------- one credit per payment

  predicate Pays(reply: Reply, payment: string) {
    reply.CreditedTo? && reply.hash.Some? && Canonical(reply.hash.value) == payment
  }

  ghost predicate IsPaid(txs: map<int, Tx>, payment: string) {
    exists k :: k in txs && Names(txs[k], payment) && txs[k].status == Completed
  }

  ghost function CountPaid(replies: seq<Reply>, payment: string, n: nat): nat
    requires n <= |replies|
  {
    if n == 0 then 0 else CountPaid(replies, payment, n - 1) + if Pays(replies[n - 1], payment) then 1 else 0
  }

  lemma PaidStays(cfg: Config, s: State, op: Op, payment: string)
    requires Regular(s) && IsPaid(s.txs, payment)
    ensures IsPaid(Apply(cfg, s, op).0.txs, payment)
  {
    var k :| k in s.txs && Names(s.txs[k], payment) && s.txs[k].status == Completed;
    SettledStep(cfg, s, op, k);
  }

  /** With one row per payment before and after, a credit is for a payment not credited before. */
  lemma PaysOnlyUnpaid(cfg: Config, s: State, op: Op, payment: string)
    requires Regular(s) && OneRowPerPayment(Apply(cfg, s, op).0.txs) && Pays(Apply(cfg, s, op).1, payment)
    ensures !IsPaid(s.txs, payment) && IsPaid(Apply(cfg, s, op).0.txs, payment)
  {
    var (t, reply) := Apply(cfg, s, op);
    var id := CreditCompletesRow(cfg, s, op);
    assert Names(t.txs[id], payment);
    forall k | k in s.txs && Names(s.txs[k], payment)
      ensures s.txs[k].status != Completed
    {
      if s.txs[k].status == Completed {
        SettledStep(cfg, s, op, k);
      }
    }
  }

  /** In a run that respells no hash, in whatever order requests come, a payment is credited at most once. */
  lemma {:induction false} PaymentCreditedOnce(
    cfg: Config, states: seq<State>, ops: seq<Op>, replies: seq<Reply>, payment: string, n: nat)
    requires IsRun(cfg, states, ops, replies) && Regular(states[0]) && OneRowPerPayment(states[0].txs)
    requires (forall i :: 0 <= i < |ops| ==> !Respells(states[i], ops[i])) && n <= |ops|
    ensures CountPaid(replies, payment, n) <= 1
    ensures CountPaid(replies, payment, n) == 1 ==> IsPaid(states[n].txs, payment)
    ensures IsPaid(states[0].txs, payment) ==> CountPaid(replies, payment, n) == 0 && IsPaid(states[n].txs, payment)
  {
    if n == 0 {
    } else {
      PaymentCreditedOnce(cfg, states, ops, replies, payment, n - 1);
      RegularAt(cfg, states, ops, replies, n - 1);
      OneRowUpTo(cfg, states, ops, replies, n);
      if IsPaid(states[n - 1].txs, payment) {
        PaidStays(cfg, states[n - 1], ops[n - 1], payment);
      }
      if Pays(replies[n - 1], payment) {
        PaysOnlyUnpaid(cfg, states[n - 1], ops[n - 1], payment);
      }
    }
  }

  // ---------------------------------------------------------------- two spellings, two credits

  /** A verified new hash credits its player. */
  lemma CreateDepositStep(cfg: Config, s: State, user: int, amount: int, hash: string) returns (t: State)
    requires hash != "" && amount > 0 && user in s.balances && DepositsOf(s.txs, hash) == {}
    ensures Apply(cfg, s, CreateDeposit(user, amount, hash, true)) == (t, CreditedTo(user, Some(hash), amount, None))
    ensures t.txs == s.txs[s.nextId := Tx(user, Deposit, amount, Some(hash), Completed, false)]
    ensures t.balances == s.balances[user := s.balances[user] + amount] && t.nextId == s.nextId + 1
  {
    t := Apply(cfg, s, CreateDeposit(user, amount, hash, true)).0;
  }

  function Opening(): State { State(map[1 := 0], map[], map[], map[], map[], map[], map[], 1) }

  lemma OpeningIsRegular()
    ensures Regular(Opening()) && OneRowPerPayment(Opening().txs)
  {
  }

  /** One verified payment, its hash typed first in lower and then in upper case, is credited twice. */
  lemma TwoSpellingsWitness(cfg: Config)
    returns (states: seq<State>, ops: seq<Op>, replies: seq<Reply>, payment: string)
    ensures IsRun(cfg, states, ops, replies) && |ops| == 2
    ensures Regular(states[0]) && OneRowPerPayment(states[0].txs) && !OneRowPerPayment(states[2].txs)
    ensures CountPaid(replies, payment, 2) == 2
    ensures states[0].balances == map[1 := 0] && states[2].balances == map[1 := 10]
  {
    var lower, upper := Spellings();
    payment := lower;
    OpeningIsRegular();
    var t := CreateDepositStep(cfg, Opening(), 1, 5, lower);
    assert DepositsOf(t.txs, upper) == {};
    var u := CreateDepositStep(cfg, t, 1, 5, upper);
    states, ops := [Opening(), t, u], [CreateDeposit(1, 5, lower, true), CreateDeposit(1, 5, upper, true)];
    replies := [CreditedTo(1, Some(lower), 5, None), CreditedTo(1, Some(upper), 5, None)];
    assert Names(u.txs[1], payment) && Names(u.txs[2], payment);
    assert CountPaid(replies, payment, 1) == 1;
  }

  /** A deposit submitted, verified and credited is credited again by a ticket with the text that was submitted. */
  lemma TicketSpellingWitness(cfg: Config)
    returns (text: string, submitted: State, verified: State, ticketed: State, approved: State)
    ensures Regular(Opening())
    ensures Apply(cfg, Opening(), SubmitDeposit(1, text, 0)) == (submitted, Done)
    ensures Apply(cfg, submitted, VerifyDeposit(1, Accept(5)))
            == (verified, CreditedTo(1, Some(Canonical(text)), 5, None))
    ensures Apply(cfg, verified, OpenTicket(1, Some(text))) == (ticketed, Done)
    ensures Apply(cfg, ticketed, ApproveTicket(2, 5)) == (approved, CreditedTo(1, Some(text), 5, Some(2)))
    ensures Respells(ticketed, ApproveTicket(2, 5)) && approved.balances == map[1 := 10]
  {
    OpeningIsRegular();
    var lower, upper := Spellings();
    text := upper;
    TrimHash(text);
    submitted := Apply(cfg, Opening(), SubmitDeposit(1, text, 0)).0;
    assert submitted.txs == map[1 := Tx(1, Deposit, 0, Some(lower), PendingVerification, false)];
    verified := Apply(cfg, submitted, VerifyDeposit(1, Accept(5))).0;
    assert verified.txs == map[1 := Tx(1, Deposit, 5, Some(lower), Completed, false)];
    assert verified.balances == map[1 := 5];
    ticketed := Apply(cfg, verified, OpenTicket(1, Some(text))).0;
    assert Unresolved(verified, 1) == {};
    assert ticketed.tickets == map[2 := Ticket(1, Some(text), Open)];
    assert DepositsOf(ticketed.txs, text) == {};
    approved := Apply(cfg, ticketed, ApproveTicket(2, 5)).0;
    assert Names(ticketed.txs[1], Canonical(text));
  }
}
