/**
 * The daily check-in table: one row per player and day, paid from a wallet on chain or from the balance.
 *
 * A balance check-in has a digest of its player and day for a hash; `digest` is that function.
 */
module CheckinModel {
  import opened Tables
  import opened TxHashes

  datatype Key = Key(user: int, day: int)

  datatype Status = Pending | Confirmed | Failed

  datatype Payment = Wallet | Balance

  datatype Row = Row(key: Key, status: Status, payment: Payment, hash: string, amount: nat)

  /** What the chain says about a payment; `Unreachable` when it cannot be asked. */
  datatype Evaluation = Paid | Waiting | Invalid | Unreachable

  datatype Reply =
    | Already | Recorded(status: Status) | Debited(amount: nat) | Untouched | Conflict | WalletRequired
    | ReceiverMissing | ChainUnavailable | Forbidden | PendingPayment | InsufficientBalance | MalformedHash

  datatype Desk = Desk(rows: map<Key, Row>, balances: map<int, int>)

  datatype Op =
    | PayFromWallet(key: Key, linked: bool, receiver: bool, text: string, ev: Evaluation, amount: nat)
    | PayFromBalance(key: Key, linked: bool, banned: bool, cost: nat)
    | Finalize(key: Key, linked: bool, receiver: bool, ev: Evaluation, amount: nat)

  predicate HashTaken(rows: map<Key, Row>, key: Key, hash: string) {
    exists k :: k in rows && k != key && rows[k].hash == hash
  }

  function StatusOf(ev: Evaluation): Status {
    match ev case Paid => Confirmed case Invalid => Failed case _ => Pending
  }

  function Apply(digest: Key -> string, d: Desk, op: Op): (Desk, Reply) {
    match op
    case PayFromWallet(key, linked, receiver, text, ev, amount) =>
      if !IsHash(Trim(text)) then (d, MalformedHash)
      else if !linked then (d, WalletRequired)
      else if !receiver then (d, ReceiverMissing)
      else if key in d.rows && d.rows[key].status == Confirmed then (d, Already)
      else if ev == Unreachable then (d, ChainUnavailable)
      else if HashTaken(d.rows, key, Trim(text)) then (d, Conflict)
      else (d.(rows := d.rows[key := Row(key, StatusOf(ev), Wallet, Trim(text), amount)]), Recorded(StatusOf(ev)))
    case PayFromBalance(key, linked, banned, cost) =>
      if key.user !in d.balances || banned then (d, Forbidden)
      else if !linked then (d, WalletRequired)
      else if key in d.rows && d.rows[key].status == Confirmed then (d, Already)
      else if key in d.rows && d.rows[key].status == Pending then (d, PendingPayment)
      else if d.balances[key.user] < cost then (d, InsufficientBalance)
      else if HashTaken(d.rows, key, digest(key)) then (d, Conflict)
      else (Desk(d.rows[key := Row(key, Confirmed, Balance, digest(key), cost)],
                 d.balances[key.user := d.balances[key.user] - cost]), Debited(cost))
    case Finalize(key, linked, receiver, ev, amount) =>
      if key !in d.rows || d.rows[key].status != Pending || d.rows[key].payment == Balance then (d, Untouched)
      else if !linked || !receiver || ev == Unreachable || ev == Waiting then (d, Untouched)
      else if ev == Paid then
        (d.(rows := d.rows[key := d.rows[key].(status := Confirmed, amount := amount, payment := Wallet)]),
         Recorded(Confirmed))
      else (d.(rows := d.rows[key := d.rows[key].(status := Failed)]), Recorded(Failed))
  }

  function ApplyAll(digest: Key -> string, d: Desk, ops: seq<Op>): Desk {
    if ops == [] then d else Apply(digest, ApplyAll(digest, d, ops[..|ops| - 1]), ops[|ops| - 1]).0
  }

  /** Rows are filed under their key, hashes are unique, and balance rows are confirmed. */
  ghost predicate Sound(rows: map<Key, Row>) {
    && (forall k :: k in rows ==> rows[k].key == k)
    && (forall a, b :: a in rows && b in rows && rows[a].hash == rows[b].hash ==> a == b)
    && (forall k :: k in rows && rows[k].payment == Balance ==> rows[k].status == Confirmed)
  }

  /** Balance rows bear the digest of their day. */
  ghost predicate Digested(digest: Key -> string, rows: map<Key, Row>) {
    forall k :: k in rows && rows[k].payment == Balance ==> rows[k].hash == digest(k)
  }

  function Cost(row: Row, user: int): int {
    if row.payment == Balance && row.key.user == user then row.amount else 0
  }

  ghost function CostOf(user: int): Row -> int { (row: Row) => Cost(row, user) }

  lemma ApplyKeepsSound(digest: Key -> string, d: Desk, op: Op)
    requires Sound(d.rows)
    ensures Sound(Apply(digest, d, op).0.rows)
  {
  }

  lemma ApplyKeepsDigested(digest: Key -> string, d: Desk, op: Op)
    requires Sound(d.rows) && Digested(digest, d.rows)
    ensures Digested(digest, Apply(digest, d, op).0.rows)
  {
  }

  lemma ApplyKeepsPlayers(digest: Key -> string, d: Desk, op: Op)
    ensures Apply(digest, d, op).0.balances.Keys == d.balances.Keys
  {
  }

  /** A balance plus what the player's balance check-ins cost never changes. */
  lemma ApplyConserves(digest: Key -> string, d: Desk, op: Op, user: int)
    requires Sound(d.rows) && user in d.balances
    ensures var e := Apply(digest, d, op).0;
            && user in e.balances
            && e.balances[user] + Total(e.rows, CostOf(user)) == d.balances[user] + Total(d.rows, CostOf(user))
    ensures d.balances[user] >= 0 ==> Apply(digest, d, op).0.balances[user] >= 0
  {
    var e := Apply(digest, d, op).0;
    if e.rows != d.rows {
      var key := op.key;
      if key in d.rows {
        TotalUpdate(d.rows, key, e.rows[key], CostOf(user));
      } else {
        TotalInsert(d.rows, key, e.rows[key], CostOf(user));
      }
    }
  }

  // ---------------------------------------------------------------- the balance payment

  /**
   * A balance payment is taken exactly when nothing is confirmed or waiting for the day, the player can pay, and no
   * other row has the digest of the day for its hash.
   */
  lemma DebitedIff(digest: Key -> string, d: Desk, op: Op)
    requires Sound(d.rows) && op.PayFromBalance?
    ensures Apply(digest, d, op).1.Debited? <==>
            && op.key.user in d.balances && !op.banned && op.linked && d.balances[op.key.user] >= op.cost
            && (op.key in d.rows ==> d.rows[op.key].status == Failed)
            && !HashTaken(d.rows, op.key, digest(op.key))
    ensures !Apply(digest, d, op).1.Debited? ==> Apply(digest, d, op).0 == d
  {
  }

  /** Among days whose digests differ, only a hash typed for a wallet payment can stand in the way of a digest. */
  lemma DigestTakenIff(digest: Key -> string, rows: map<Key, Row>, key: Key)
    requires Digested(digest, rows) && forall k :: k in rows && digest(k) == digest(key) ==> k == key
    ensures HashTaken(rows, key, digest(key)) <==>
            exists k :: k in rows && k != key && rows[k].payment == Wallet && rows[k].hash == digest(key)
  {
    if HashTaken(rows, key, digest(key)) {
      var k :| k in rows && k != key && rows[k].hash == digest(key);
      assert rows[k].payment == Wallet;
    }
  }

  /**
   * That happens: a wallet payment for one day is registered, still waiting for the chain, under the digest of
   * another day; nothing is recorded for that day and the player can pay, but the balance payment is refused.
   */
  lemma DigestTakenWitness(digest: Key -> string, a: Key, b: Key)
    returns (desks: seq<Desk>, ops: seq<Op>)
    requires a != b && IsHash(digest(b))
    ensures IsRun(digest, desks, ops) && |ops| == 2 && desks[0].rows == map[]
    ensures Apply(digest, desks[0], ops[0]).1 == Recorded(Pending)
    ensures ops[1] == PayFromBalance(b, true, false, 3) && b !in desks[1].rows && desks[1].balances == map[b.user := 3]
    ensures Apply(digest, desks[1], ops[1]).1 == Conflict
  {
    TrimHash(digest(b));
    ops := [PayFromWallet(a, true, true, digest(b), Waiting, 1), PayFromBalance(b, true, false, 3)];
    var start := Desk(map[], map[b.user := 3]);
    var next := Apply(digest, start, ops[0]).0;
    assert a in next.rows && next.rows[a].hash == digest(b);
    desks := [start, next, next];
  }

  // ---------------------------------------------------------------- runs

  /** Each request starts from the rows the last one left; the rest of the ledger may move balances in between. */
  ghost predicate IsRun(digest: Key -> string, desks: seq<Desk>, ops: seq<Op>) {
    && |desks| == |ops| + 1
    && forall i :: 0 <= i < |ops| ==> desks[i + 1].rows == Apply(digest, desks[i], ops[i]).0.rows
  }

  lemma {:induction false} RunKeepsSound(digest: Key -> string, desks: seq<Desk>, ops: seq<Op>, i: nat)
    requires IsRun(digest, desks, ops) && Sound(desks[0].rows) && Digested(digest, desks[0].rows) && i < |desks|
    ensures Sound(desks[i].rows) && Digested(digest, desks[i].rows)
  {
    if i == 0 {
    } else {
      RunKeepsSound(digest, desks, ops, i - 1);
      ApplyKeepsSound(digest, desks[i - 1], ops[i - 1]);
      ApplyKeepsDigested(digest, desks[i - 1], ops[i - 1]);
    }
  }

  lemma ConfirmedStays(digest: Key -> string, d: Desk, op: Op, key: Key)
    requires key in d.rows && d.rows[key].status == Confirmed
    ensures var (e, reply) := Apply(digest, d, op);
            key in e.rows && e.rows[key] == d.rows[key] && !(op.key == key && reply.Debited?)
  {
  }

  lemma DebitConfirms(digest: Key -> string, d: Desk, op: Op)
    requires Apply(digest, d, op).1.Debited?
    ensures var rows := Apply(digest, d, op).0.rows;
            op.key in rows && rows[op.key].status == Confirmed && rows[op.key].payment == Balance
  {
  }

  /** Once confirmed, a day's row is never touched again, whatever comes later in whatever order. */
  lemma {:induction false} ConfirmedIsFinal(
    digest: Key -> string, desks: seq<Desk>, ops: seq<Op>, i: nat, j: nat, key: Key)
    requires IsRun(digest, desks, ops) && i <= j < |desks|
    requires key in desks[i].rows && desks[i].rows[key].status == Confirmed
    ensures key in desks[j].rows && desks[j].rows[key] == desks[i].rows[key]
    decreases j
  {
    if i == j {
    } else {
      ConfirmedIsFinal(digest, desks, ops, i, j - 1, key);
      ConfirmedStays(digest, desks[j - 1], ops[j - 1], key);
    }
  }

  /** How many of the first n requests took money from the balance for this player's day. */
  ghost function Debits(digest: Key -> string, desks: seq<Desk>, ops: seq<Op>, key: Key, n: nat): nat
    requires n <= |ops| < |desks|
  {
    if n == 0 then 0
    else Debits(digest, desks, ops, key, n - 1)
         + if ops[n - 1].key == key && Apply(digest, desks[n - 1], ops[n - 1]).1.Debited? then 1 else 0
  }

  /** A player is debited at most once a day, and then the day's row is a confirmed balance row. */
  lemma {:induction false} DebitedAtMostOnce(
    digest: Key -> string, desks: seq<Desk>, ops: seq<Op>, key: Key, n: nat)
    requires IsRun(digest, desks, ops) && n <= |ops|
    ensures Debits(digest, desks, ops, key, n) <= 1
    ensures Debits(digest, desks, ops, key, n) == 1 ==>
              key in desks[n].rows && desks[n].rows[key].status == Confirmed && desks[n].rows[key].payment == Balance
  {
    if n == 0 {
    } else {
      DebitedAtMostOnce(digest, desks, ops, key, n - 1);
      var d, op := desks[n - 1], ops[n - 1];
      if Debits(digest, desks, ops, key, n - 1) == 1 {
        ConfirmedStays(digest, d, op, key);
      } else if Apply(digest, d, op).1.Debited? {
        DebitConfirms(digest, d, op);
      }
    }
  }

  /** The chain confirms, for this day, the wallet payment with this hash. */
  predicate ChainPaid(d: Desk, op: Op, key: Key, hash: string) {
    op.key == key && !op.PayFromBalance? && op.ev == Paid
    && if op.PayFromWallet? then Trim(op.text) == hash else key in d.rows && d.rows[key].hash == hash
  }

  /** A request that confirms a day either has the chain's word or debits the balance. */
  lemma ConfirmedByPaying(digest: Key -> string, d: Desk, op: Op, key: Key)
    requires Sound(d.rows)
    requires key in Apply(digest, d, op).0.rows && Apply(digest, d, op).0.rows[key].status == Confirmed
    requires key in d.rows ==> d.rows[key].status != Confirmed
    ensures var row := Apply(digest, d, op).0.rows[key];
            if row.payment == Balance then op.key == key && Apply(digest, d, op).1.Debited?
            else ChainPaid(d, op, key, row.hash)
  {
  }

  /** No day is confirmed for free: the chain has seen the payment on its row, or the balance was debited, once. */
  lemma {:induction false} NoFreeCheckin(digest: Key -> string, desks: seq<Desk>, ops: seq<Op>, key: Key, n: nat)
    requires IsRun(digest, desks, ops) && desks[0].rows == map[] && n <= |ops|
    requires key in desks[n].rows && desks[n].rows[key].status == Confirmed
    ensures if desks[n].rows[key].payment == Balance then Debits(digest, desks, ops, key, n) == 1
            else exists j :: 0 <= j < n && ChainPaid(desks[j], ops[j], key, desks[n].rows[key].hash)
  {
    var before := desks[n - 1].rows;
    if key in before && before[key].status == Confirmed {
      NoFreeCheckin(digest, desks, ops, key, n - 1);
      ConfirmedStays(digest, desks[n - 1], ops[n - 1], key);
      DebitedAtMostOnce(digest, desks, ops, key, n);
    } else {
      RunKeepsSound(digest, desks, ops, n - 1);
      ConfirmedByPaying(digest, desks[n - 1], ops[n - 1], key);
      DebitedAtMostOnce(digest, desks, ops, key, n);
    }
  }

  // ---------------------------------------------------------------- one payment, one day

  /** No two days rest on hashes that the chain reads as the same. */
  ghost predicate OneDayPerPayment(rows: map<Key, Row>) {
    forall a, b :: a in rows && b in rows && Canonical(rows[a].hash) == Canonical(rows[b].hash) ==> a == b
  }

  /** The hash a request writes for its day, unless another row has it. */
  function Written(digest: Key -> string, d: Desk, op: Op): Option<string> {
    match op
    case PayFromWallet(key, linked, receiver, text, ev, _) =>
      if IsHash(Trim(text)) && linked && receiver && ev != Unreachable
         && !(key in d.rows && d.rows[key].status == Confirmed)
      then Some(Trim(text)) else None
    case PayFromBalance(key, linked, banned, cost) =>
      if key.user in d.balances && !banned && linked && d.balances[key.user] >= cost
         && !(key in d.rows && d.rows[key].status in {Confirmed, Pending})
      then Some(digest(key)) else None
    case Finalize(_, _, _, _, _) => None
  }

  /** Another row has the hash in a different spelling. */
  predicate SpeltOtherwise(rows: map<Key, Row>, key: Key, hash: string) {
    exists k :: k in rows && k != key && rows[k].hash != hash && Canonical(rows[k].hash) == Canonical(hash)
  }

  predicate Respells(digest: Key -> string, d: Desk, op: Op) {
    match Written(digest, d, op)
    case None => false
    case Some(hash) => SpeltOtherwise(d.rows, op.key, hash)
  }

  lemma WrittenRow(digest: Key -> string, d: Desk, op: Op, hash: string)
    requires Written(digest, d, op) == Some(hash) && !HashTaken(d.rows, op.key, hash)
    ensures op.key in Apply(digest, d, op).0.rows && Apply(digest, d, op).0.rows[op.key].hash == hash
    ensures Apply(digest, d, op).0.rows - {op.key} == d.rows - {op.key}
  {
  }

  lemma NothingWritten(digest: Key -> string, d: Desk, op: Op)
    requires match Written(digest, d, op) case None => true case Some(hash) => HashTaken(d.rows, op.key, hash)
    ensures var rows := Apply(digest, d, op).0.rows;
            rows.Keys == d.rows.Keys && forall k :: k in rows ==> rows[k].hash == d.rows[k].hash
  {
  }

  /** A request keeps one day per payment exactly when it does not write the hash of another row spelt otherwise. */
  lemma KeepsOneDayIff(digest: Key -> string, d: Desk, op: Op)
    requires OneDayPerPayment(d.rows)
    ensures OneDayPerPayment(Apply(digest, d, op).0.rows) <==> !Respells(digest, d, op)
  {
    var rows, written := Apply(digest, d, op).0.rows, Written(digest, d, op);
    if written.Some? {
      var hash := written.value;
      if HashTaken(d.rows, op.key, hash) {
        NothingWritten(digest, d, op);
        var taken :| taken in d.rows && taken != op.key && d.rows[taken].hash == hash;
        assert forall k :: k in d.rows && Canonical(d.rows[k].hash) == Canonical(hash) ==> k == taken;
      } else {
        WrittenRow(digest, d, op, hash);
        assert forall k :: k in rows && k != op.key ==> k in rows - {op.key};
        assert forall k :: k in d.rows && k != op.key ==> k in d.rows - {op.key} && k in rows && rows[k] == d.rows[k];
      }
    } else {
      NothingWritten(digest, d, op);
    }
  }

  /** Over a run no two days ever rest on one payment, exactly when no request respells the hash of another row. */
  lemma RunOneDayIff(digest: Key -> string, desks: seq<Desk>, ops: seq<Op>)
    requires IsRun(digest, desks, ops) && OneDayPerPayment(desks[0].rows)
    ensures (forall i :: 0 <= i < |desks| ==> OneDayPerPayment(desks[i].rows)) <==>
            forall i :: 0 <= i < |ops| ==> !Respells(digest, desks[i], ops[i])
  {
    if forall i :: 0 <= i < |ops| ==> !Respells(digest, desks[i], ops[i]) {
      forall i | 0 <= i < |desks|
        ensures OneDayPerPayment(desks[i].rows)
      {
        OneDayUpTo(digest, desks, ops, i);
      }
    } else {
      var i :| 0 <= i < |ops| && Respells(digest, desks[i], ops[i]);
      if OneDayPerPayment(desks[i].rows) {
        KeepsOneDayIff(digest, desks[i], ops[i]);
        assert !OneDayPerPayment(desks[i + 1].rows);
      }
    }
  }

  lemma {:induction false} OneDayUpTo(digest: Key -> string, desks: seq<Desk>, ops: seq<Op>, i: nat)
    requires IsRun(digest, desks, ops) && OneDayPerPayment(desks[0].rows) && i < |desks|
    requires forall j :: 0 <= j < |ops| ==> !Respells(digest, desks[j], ops[j])
    ensures OneDayPerPayment(desks[i].rows)
  {
    if i == 0 {
    } else {
      OneDayUpTo(digest, desks, ops, i - 1);
      KeepsOneDayIff(digest, desks[i - 1], ops[i - 1]);
    }
  }

  /** One wallet payment, its hash spelt in two ways, confirms two days. */
  lemma OneDayWitness(digest: Key -> string, a: Key, b: Key) returns (desks: seq<Desk>, ops: seq<Op>)
    requires a != b
    ensures IsRun(digest, desks, ops) && |ops| == 2 && desks[0].rows == map[]
    ensures var rows := desks[2].rows;
            && a in rows && b in rows && rows[a].status == Confirmed && rows[b].status == Confirmed
            && Canonical(rows[a].hash) == Canonical(rows[b].hash)
  {
    var lower, upper := Spellings();
    TrimHash(lower);
    TrimHash(upper);
    ops := [PayFromWallet(a, true, true, lower, Paid, 1), PayFromWallet(b, true, true, upper, Paid, 1)];
    var start := Desk(map[], map[]);
    var next := Apply(digest, start, ops[0]).0;
    desks := [start, next, Apply(digest, next, ops[1]).0];
  }
}
