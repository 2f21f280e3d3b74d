/** What each check-in request answers and leaves, said of the rows and balances alone. */
module CheckinLaws {
  import opened CheckinModel
  import opened Tables
  import opened TxHashes

  /**
   * A wallet payment is recorded as the chain sees it (paid, not valid, not there yet) exactly when it is well-formed,
   * the day is not confirmed, the chain could be asked, and no other row has its hash; else nothing happens.
   */
  lemma WalletPaymentRecords(
    digest: Key -> string, d: Desk, key: Key, linked: bool, receiver: bool, text: string, ev: Evaluation, amount: nat)
    ensures var (e, reply) := Apply(digest, d, PayFromWallet(key, linked, receiver, text, ev, amount));
            var hash := Trim(text);
            if IsHash(hash) && linked && receiver && ev != Unreachable
               && (key in d.rows ==> d.rows[key].status != Confirmed)
               && (forall k :: k in d.rows && k != key ==> d.rows[k].hash != hash)
            then
              var status := match ev case Paid => Confirmed case Invalid => Failed case _ => Pending;
              reply == Recorded(status)
              && e == Desk(d.rows[key := Row(key, status, Wallet, hash, amount)], d.balances)
            else !reply.Recorded? && e == d
  {
    if IsHash(Trim(text)) && HashTaken(d.rows, key, Trim(text)) {
      var k :| k in d.rows && k != key && d.rows[k].hash == Trim(text);
    }
  }

  /** A pending wallet row is confirmed when the chain has the payment, failed when it is not valid, and else waits. */
  lemma FinalizingSettles(
    digest: Key -> string, d: Desk, key: Key, linked: bool, receiver: bool, ev: Evaluation, amount: nat)
    ensures Apply(digest, d, Finalize(key, linked, receiver, ev, amount)) ==
            if key in d.rows && d.rows[key].status == Pending && d.rows[key].payment == Wallet && linked && receiver
               && (ev == Paid || ev == Invalid)
            then
              var row := d.rows[key];
              if ev == Paid then
                (Desk(d.rows[key := Row(row.key, Confirmed, Wallet, row.hash, amount)], d.balances),
                 Recorded(Confirmed))
              else
                (Desk(d.rows[key := Row(row.key, Failed, Wallet, row.hash, row.amount)], d.balances), Recorded(Failed))
            else (d, Untouched)
  {
  }

  /** A balance payment takes its cost and confirms the day, exactly when `DebitedIff` says so. */
  lemma BalancePaymentConfirms(digest: Key -> string, d: Desk, key: Key, linked: bool, banned: bool, cost: nat)
    ensures var (e, reply) := Apply(digest, d, PayFromBalance(key, linked, banned, cost));
            if key.user in d.balances && !banned && linked && d.balances[key.user] >= cost
               && (key in d.rows ==> d.rows[key].status == Failed)
               && (forall k :: k in d.rows && k != key ==> d.rows[k].hash != digest(key))
            then
              && reply == Debited(cost)
              && e == Desk(d.rows[key := Row(key, Confirmed, Balance, digest(key), cost)],
                           d.balances[key.user := d.balances[key.user] - cost])
            else !reply.Debited? && e == d
  {
    if HashTaken(d.rows, key, digest(key)) {
      var k :| k in d.rows && k != key && d.rows[k].hash == digest(key);
    }
  }
}
