/**
 * The transaction views (transactions/views.py). Each view validates its form
 * and then changes the account's balance and the ledger step by step: saving
 * the account, creating rows, saving a row again. Every operation is one
 * atomic step here; `today` is the day the request is served.
 */
module Views {
  import opened Wrappers
  import opened Accounts
  import opened Store
  import opened Forms

  /** Why a request was refused: a form error, an insolvent bank, or the loan limit. */
  datatype ViewError = Invalid(reason: FormError) | Bankrupt | LoanLimitReached

  /** How a loan repayment ended. */
  datatype PayLoanResult = NotFound | NotApproved | OverBalance | Paid

  /** An account may hold at most this many approved loans before new requests are refused. */
  const MaxApprovedLoans: nat := 3

  /** The loan-limit query: this account's approved rows of type Loan. */
  function ApprovedLoans(acc: AccountId): Filter
  {
    Filter(Some(acc), Some(Loan), Some(true), None, None)
  }

  /** The loan-list query: this account's rows of type Loan. */
  function LoansOf(acc: AccountId): Filter
  {
    Filter(Some(acc), Some(Loan), None, None, None)
  }

  /** The report's total query: every account's rows dated within the range. */
  function Dated(start: int, end: int): Filter
  {
    Filter(None, None, None, Some(start), Some(end))
  }

  /**
   * Deposit: an accepted amount raises the balance by exactly that amount and
   * adds one Deposit row whose snapshot is the new balance; a refused amount
   * changes nothing.
   */
  method DepositMoney(bank: Bank, acc: AccountId, amount: int, today: int) returns (r: Outcome<ViewError>)
    requires bank.Valid() && acc < |bank.accounts|
    modifies bank
    ensures bank.Valid()
    ensures r.Pass? <==> amount >= MinDeposit
    ensures r.Fail? ==> r.error == Invalid(DepositBelowMinimum)
    ensures r.Fail? ==> bank.accounts == old(bank.accounts) && bank.ledger == old(bank.ledger)
    ensures r.Pass? ==> bank.accounts == Credit(old(bank.accounts), acc, amount)
    ensures r.Pass? ==> Total(bank.accounts) == Total(old(bank.accounts)) + amount
    ensures r.Pass? ==>
              bank.ledger == old(bank.ledger) + [Txn(acc, amount, Deposit, bank.accounts[acc].balance, today, false)]
    ensures NonNegative(old(bank.accounts)) ==> NonNegative(bank.accounts)
  {
    var v := CleanDepositAmount(amount);
    if v.Failure? {
      return Fail(Invalid(v.error));
    }
    bank.SaveBalance(acc, bank.accounts[acc].balance + v.value);
    Save(bank, acc, v.value, Deposit, today);
    r := Pass;
  }

  /**
   * With no negative balance anywhere, an amount the withdrawal form accepted
   * (at most the account's own balance) never exceeds the bank's total, so the
   * solvency check cannot refuse it.
   */
  lemma SolvencyGateNeverRejects(accs: seq<Account>, acc: AccountId, amount: int)
    requires NonNegative(accs) && acc < |accs| && amount <= accs[acc].balance
    ensures amount <= Total(accs)
  {
    TotalCoversEach(accs);
  }

  /**
   * Withdraw: form errors first; then the bank-wide solvency check (the sum of
   * all balances must cover the amount); otherwise the balance drops by exactly
   * the amount and one Withdrawal row with the positive amount and the new
   * balance as snapshot is added. A refusal changes nothing.
   */
  method WithdrawMoney(bank: Bank, acc: AccountId, amount: int, today: int) returns (r: Outcome<ViewError>)
    requires bank.Valid() && acc < |bank.accounts|
    modifies bank
    ensures bank.Valid()
    ensures CleanWithdrawAmount(amount, old(bank.accounts)[acc].balance).Failure? ==>
              r == Fail(Invalid(CleanWithdrawAmount(amount, old(bank.accounts)[acc].balance).error))
    ensures r == Fail(Bankrupt) <==>
              CleanWithdrawAmount(amount, old(bank.accounts)[acc].balance).Success? && Total(old(bank.accounts)) < amount
    ensures r.Pass? <==>
              MinWithdrawal <= amount <= MaxWithdrawal && amount <= old(bank.accounts)[acc].balance
              && amount <= Total(old(bank.accounts))
    ensures r.Fail? ==> bank.accounts == old(bank.accounts) && bank.ledger == old(bank.ledger)
    ensures r.Pass? ==> bank.accounts == Credit(old(bank.accounts), acc, -amount)
    ensures r.Pass? ==>
              bank.ledger == old(bank.ledger) + [Txn(acc, amount, Withdrawal, bank.accounts[acc].balance, today, false)]
    ensures NonNegative(old(bank.accounts)) ==> NonNegative(bank.accounts) && r != Fail(Bankrupt)
  {
    var v := CleanWithdrawAmount(amount, bank.accounts[acc].balance);
    if v.Failure? {
      return Fail(Invalid(v.error));
    }
    if NonNegative(bank.accounts) {
      SolvencyGateNeverRejects(bank.accounts, acc, amount);
    }
    var totalBankBalance := Total(bank.accounts);
    if totalBankBalance < v.value {
      return Fail(Bankrupt);
    }
    bank.SaveBalance(acc, bank.accounts[acc].balance - v.value);
    Save(bank, acc, v.value, Withdrawal, today);
    r := Pass;
  }

  /**
   * Loan request: refused, with no new row, when the account already holds
   * MaxApprovedLoans approved loans; otherwise one unapproved Loan row is added
   * and no balance changes. A request never changes the approved-loan count.
   */
  method RequestLoan(bank: Bank, acc: AccountId, amount: int, today: int) returns (r: Outcome<ViewError>)
    requires bank.Valid() && acc < |bank.accounts|
    modifies bank
    ensures bank.Valid() && bank.accounts == old(bank.accounts)
    ensures r.Pass? <==> |Select(old(bank.ledger), ApprovedLoans(acc))| < MaxApprovedLoans
    ensures r.Fail? ==> r.error == LoanLimitReached && bank.ledger == old(bank.ledger)
    ensures r.Pass? ==>
              bank.ledger == old(bank.ledger) + [Txn(acc, amount, Loan, bank.accounts[acc].balance, today, false)]
    ensures Select(bank.ledger, ApprovedLoans(acc)) == Select(old(bank.ledger), ApprovedLoans(acc))
  {
    var v := CleanLoanAmount(amount);
    var currentLoanCount := |Select(bank.ledger, ApprovedLoans(acc))|;
    if currentLoanCount >= MaxApprovedLoans {
      return Fail(LoanLimitReached);
    }
    Save(bank, acc, v.value, Loan, today);
    SelectAppend(old(bank.ledger), bank.ledger[|bank.ledger| - 1], ApprovedLoans(acc));
    r := Pass;
  }

  /**
   * Transaction report. With both days given: the account's rows dated within
   * [start, end] (inclusive), and as total the sum of the amounts of the rows of
   * every account dated within that range (absent when there is none). With a
   * day missing: all of the account's rows, and its current balance. Rows come
   * in insertion order, each once. Nothing changes.
   */
  method Report(bank: Bank, acc: AccountId, start: Option<int>, end: Option<int>) returns (ids: seq<nat>, shown: Option<int>)
    requires bank.Valid() && acc < |bank.accounts|
    ensures forall k :: 0 <= k < |ids| ==> ids[k] < |bank.ledger|
    ensures forall j, k :: 0 <= j < k < |ids| ==> ids[j] < ids[k]
    ensures start.Some? && end.Some? ==>
              forall i :: 0 <= i < |bank.ledger| ==>
                (i in ids <==> bank.ledger[i].account == acc && start.value <= bank.ledger[i].day <= end.value)
    ensures start.Some? && end.Some? ==> shown == AggregateAmount(bank.ledger, Dated(start.value, end.value))
    ensures start.None? || end.None? ==>
              forall i :: 0 <= i < |bank.ledger| ==> (i in ids <==> bank.ledger[i].account == acc)
    ensures start.None? || end.None? ==> shown == Some(bank.accounts[acc].balance)
  {
    var query := Filter(Some(acc), None, None, None, None);
    if start.Some? && end.Some? {
      query := query.(fromDay := start, toDay := end);
      shown := AggregateAmount(bank.ledger, Dated(start.value, end.value));
    } else {
      shown := Some(bank.accounts[acc].balance);
    }
    ids := Select(bank.ledger, query);
  }

  /**
   * Loan repayment by row id. An unknown id is not found. A row whose approval
   * flag is unset is left alone. Otherwise, when its amount is strictly below
   * its account's balance, the balance drops by that amount and the row gets
   * the new balance as snapshot and the type LoanPaid (its approval flag stays
   * set); else nothing changes. The row's type and owner are not checked.
   */
  method PayLoan(bank: Bank, loanId: nat) returns (r: PayLoanResult)
    requires bank.Valid()
    modifies bank
    ensures bank.Valid()
    ensures r == NotFound <==> |old(bank.ledger)| <= loanId
    ensures r == NotApproved <==> loanId < |old(bank.ledger)| && !old(bank.ledger)[loanId].loanApprove
    ensures r == Paid <==>
              loanId < |old(bank.ledger)| && old(bank.ledger)[loanId].loanApprove
              && old(bank.ledger)[loanId].amount < old(bank.accounts)[old(bank.ledger)[loanId].account].balance
    ensures r != Paid ==> bank.accounts == old(bank.accounts) && bank.ledger == old(bank.ledger)
    ensures r == Paid ==>
              var loan := old(bank.ledger)[loanId];
              && bank.accounts == Credit(old(bank.accounts), loan.account, -loan.amount)
              && bank.ledger == old(bank.ledger)[loanId := loan.(kind := LoanPaid, balanceAfter := bank.accounts[loan.account].balance)]
    ensures r == Paid ==> bank.ledger[loanId].kind == LoanPaid && bank.ledger[loanId].loanApprove
    ensures NonNegative(old(bank.accounts)) ==> NonNegative(bank.accounts)
  {
    if loanId >= |bank.ledger| {
      return NotFound;
    }
    var loan := bank.ledger[loanId];
    if !loan.loanApprove {
      return NotApproved;
    }
    var owner := loan.account;
    if loan.amount < bank.accounts[owner].balance {
      var newBalance := bank.accounts[owner].balance - loan.amount;
      loan := loan.(balanceAfter := newBalance);
      bank.SaveBalance(owner, newBalance);
      loan := loan.(kind := LoanPaid);
      bank.Update(loanId, loan);
      r := Paid;
    } else {
      r := OverBalance;
    }
  }

  /** The loan list: the ids of the account's rows of type Loan, in insertion order. */
  method LoanList(bank: Bank, acc: AccountId) returns (ids: seq<nat>)
    requires bank.Valid() && acc < |bank.accounts|
    ensures forall k :: 0 <= k < |ids| ==> ids[k] < |bank.ledger|
    ensures forall j, k :: 0 <= j < k < |ids| ==> ids[j] < ids[k]
    ensures forall i :: 0 <= i < |bank.ledger| ==>
              (i in ids <==> bank.ledger[i].account == acc && bank.ledger[i].kind == Loan)
  {
    ids := Select(bank.ledger, LoansOf(acc));
  }

  /**
   * Transfer to another account by number: the form's checks decide; on
   * success the sender is debited and the receiver credited by the same amount,
   * so their sum and the bank's total are unchanged and no other balance moves.
   * Three rows are added: the sender's negative row, the receiver's positive
   * row, then the form's own positive row on the sender, each with its
   * account's new balance as snapshot. A refusal changes nothing.
   */
  method TransferMoney(bank: Bank, sender: AccountId, receiverNo: string, amount: int, today: int)
    returns (r: Result<AccountId, ViewError>)
    requires bank.Valid() && sender < |bank.accounts|
    requires receiverNo != bank.accounts[sender].accountNo
    modifies bank
    ensures bank.Valid()
    ensures CleanTransfer(old(bank.accounts), sender, receiverNo, amount).Failure? ==>
              r == Failure(Invalid(CleanTransfer(old(bank.accounts), sender, receiverNo, amount).error))
    ensures CleanTransfer(old(bank.accounts), sender, receiverNo, amount).Success? ==>
              r == Success(CleanTransfer(old(bank.accounts), sender, receiverNo, amount).value)
    ensures r.Failure? ==> bank.accounts == old(bank.accounts) && bank.ledger == old(bank.ledger)
    ensures r.Success? ==> r.value != sender && r.value < |bank.accounts|
    ensures r.Success? ==> bank.accounts == Credit(Credit(old(bank.accounts), sender, -amount), r.value, amount)
    ensures r.Success? ==>
              bank.accounts[sender].balance + bank.accounts[r.value].balance
              == old(bank.accounts)[sender].balance + old(bank.accounts)[r.value].balance
    ensures Total(bank.accounts) == Total(old(bank.accounts))
    ensures r.Success? ==>
              bank.ledger == old(bank.ledger) + [
                Txn(sender, -amount, Transfer, bank.accounts[sender].balance, today, false),
                Txn(r.value, amount, Transfer, bank.accounts[r.value].balance, today, false),
                Txn(sender, amount, Transfer, bank.accounts[sender].balance, today, false)]
    ensures NonNegative(old(bank.accounts)) ==> NonNegative(bank.accounts)
  {
    var v := CleanTransfer(bank.accounts, sender, receiverNo, amount);
    if v.Failure? {
      return Failure(Invalid(v.error));
    }
    var receiver := v.value;
    bank.SaveBalance(sender, bank.accounts[sender].balance - amount);
    bank.SaveBalance(receiver, bank.accounts[receiver].balance + amount);
    bank.Insert(Txn(sender, -amount, Transfer, bank.accounts[sender].balance, today, false));
    bank.Insert(Txn(receiver, amount, Transfer, bank.accounts[receiver].balance, today, false));
    Save(bank, sender, amount, Transfer, today);
    r := Success(receiver);
  }
}
