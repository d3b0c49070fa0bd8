/**
 * The transaction forms (transactions/forms.py): the amount validators of each
 * form, which only accept or refuse, and the shared save step that stamps the
 * new ledger row with its account and that account's balance.
 */
module Forms {
  import opened Wrappers
  import opened Accounts
  import opened Store

  /** Deposit at least 100 units. */
  const MinDeposit: int := 100 * CentsPerUnit
  /** Withdraw at least 500 units ... */
  const MinWithdrawal: int := 500 * CentsPerUnit
  /** ... and at most 20000 units at once. */
  const MaxWithdrawal: int := 20000 * CentsPerUnit

  /** The validation errors the forms raise, one per message. */
  datatype FormError =
    | DepositBelowMinimum
    | WithdrawalBelowMinimum
    | WithdrawalAboveMaximum
    | WithdrawalOverBalance(balance: int)
    | ReceiverNotFound
    | InsufficientBalance
    | NonPositiveAmount

  /** Deposit amount: accepted, unchanged, exactly when it reaches the minimum. */
  function CleanDepositAmount(amount: int): (r: Result<int, FormError>)
    ensures r.Success? <==> amount >= MinDeposit
    ensures r.Success? ==> r.value == amount
    ensures r.Failure? ==> r.error == DepositBelowMinimum
  {
    if amount < MinDeposit then Failure(DepositBelowMinimum) else Success(amount)
  }

  /**
   * Withdrawal amount: accepted, unchanged, exactly when it lies within the
   * inclusive bounds and does not exceed the balance. The checks run in a fixed
   * order and the first one that fails names the error.
   */
  function CleanWithdrawAmount(amount: int, balance: int): (r: Result<int, FormError>)
    ensures r.Success? <==> MinWithdrawal <= amount <= MaxWithdrawal && amount <= balance
    ensures r.Success? ==> r.value == amount
    ensures r == Failure(WithdrawalBelowMinimum) <==> amount < MinWithdrawal
    ensures r == Failure(WithdrawalAboveMaximum) <==> MinWithdrawal <= amount && MaxWithdrawal < amount
    ensures r == Failure(WithdrawalOverBalance(balance)) <==>
              MinWithdrawal <= amount <= MaxWithdrawal && balance < amount
  {
    if amount < MinWithdrawal then Failure(WithdrawalBelowMinimum)
    else if amount > MaxWithdrawal then Failure(WithdrawalAboveMaximum)
    else if amount > balance then Failure(WithdrawalOverBalance(balance))
    else Success(amount)
  }

  /** Loan amount: no check at all; every amount is accepted unchanged. */
  function CleanLoanAmount(amount: int): (r: Result<int, FormError>)
    ensures r.Success? && r.value == amount
  {
    Success(amount)
  }

  /**
   * Transfer: the receiver number must belong to an account (checked before
   * anything about the amount), then the amount must not exceed the sender's
   * balance, then it must be positive. On success the receiver's id is the
   * result.
   */
  function CleanTransfer(accs: seq<Account>, sender: AccountId, receiverNo: string, amount: int): (r: Result<AccountId, FormError>)
    requires sender < |accs|
    ensures r == Failure(ReceiverNotFound) <==> forall i :: 0 <= i < |accs| ==> accs[i].accountNo != receiverNo
    ensures r == Failure(InsufficientBalance) <==>
              (exists i :: 0 <= i < |accs| && accs[i].accountNo == receiverNo) && accs[sender].balance < amount
    ensures r == Failure(NonPositiveAmount) <==>
              (exists i :: 0 <= i < |accs| && accs[i].accountNo == receiverNo) && amount <= accs[sender].balance && amount <= 0
    ensures r.Success? <==>
              (exists i :: 0 <= i < |accs| && accs[i].accountNo == receiverNo) && 0 < amount <= accs[sender].balance
    ensures r.Success? ==> r.value < |accs| && accs[r.value].accountNo == receiverNo
  {
    match FindByNumber(accs, receiverNo)
    case None => Failure(ReceiverNotFound)
    case Some(receiver) =>
      if amount > accs[sender].balance then Failure(InsufficientBalance)
      else if amount <= 0 then Failure(NonPositiveAmount)
      else Success(receiver)
  }

  /**
   * `TransactionForm.save`: the new row belongs to the form's account, carries
   * the form's amount and type, is not approved, is dated today, and its
   * snapshot is that account's balance at the moment of saving. Balances do
   * not change.
   */
  method Save(bank: Bank, acc: AccountId, amount: int, kind: TxnType, today: int)
    requires bank.Valid() && acc < |bank.accounts|
    modifies bank
    ensures bank.Valid() && bank.accounts == old(bank.accounts)
    ensures bank.ledger == old(bank.ledger) + [Txn(acc, amount, kind, bank.accounts[acc].balance, today, false)]
  {
    var row := Txn(acc, amount, kind, bank.accounts[acc].balance, today, false);
    bank.Insert(row);
  }
}
