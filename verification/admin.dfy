/**
 * The administrator's save of a ledger row (transactions/admin.py). This is
 * also how a loan gets approved: the administrator sets the row's approval
 * flag and saves it.
 */
module Admin {
  import opened Wrappers
  import opened Accounts
  import opened Store

  /**
   * Saving a row through the admin, new (`id` absent) or edited (`id` given):
   * on every save, whatever the amount's sign or size, the row's account is
   * credited with the row's amount, and the stored row gets that account's new
   * balance as snapshot. No other balance changes. A new row is dated today;
   * an edited row keeps its creation day.
   */
  method SaveModel(bank: Bank, id: Option<nat>, account: AccountId, amount: int, kind: TxnType, approve: bool, today: int)
    requires bank.Valid() && account < |bank.accounts|
    requires id.Some? ==> id.value < |bank.ledger|
    modifies bank
    ensures bank.Valid()
    ensures bank.accounts == Credit(old(bank.accounts), account, amount)
    ensures Total(bank.accounts) == Total(old(bank.accounts)) + amount
    ensures id.None? ==>
              bank.ledger == old(bank.ledger) + [Txn(account, amount, kind, bank.accounts[account].balance, today, approve)]
    ensures id.Some? ==>
              bank.ledger == old(bank.ledger)[id.value :=
                Txn(account, amount, kind, bank.accounts[account].balance, old(bank.ledger)[id.value].day, approve)]
  {
    var newBalance := bank.accounts[account].balance + amount;
    bank.SaveBalance(account, newBalance);
    match id
    case None =>
      bank.Insert(Txn(account, amount, kind, newBalance, today, approve));
    case Some(i) =>
      bank.Update(i, Txn(account, amount, kind, newBalance, bank.ledger[i].day, approve));
  }
}
