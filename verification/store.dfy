/**
 * The persisted state the transaction code works on: the account rows and the
 * ledger of transaction rows, the queries the views run over them (filters,
 * counts, sums) and the writes they make (saving an account, creating a row,
 * saving a row again).
 */
module Store {
  import opened Wrappers
  import opened Accounts

  /**
   * Transaction types. The loan filters in the views use the numeric code 3,
   * which the model takes to be Loan.
   */
  datatype TxnType = Deposit | Withdrawal | Loan | LoanPaid | Transfer

  /**
   * One ledger row: the account it belongs to, the signed amount in cents, its
   * type, the balance snapshot taken when it was saved, the calendar day of its
   * creation timestamp, and the loan-approval flag (false unless set by an
   * administrator).
   */
  datatype Txn = Txn(account: AccountId, amount: int, kind: TxnType, balanceAfter: int, day: int, loanApprove: bool)

  /**
   * The conditions of one ledger query; an absent field does not filter. The
   * day bounds are inclusive.
   */
  datatype Filter = Filter(
    account: Option<AccountId>,
    kind: Option<TxnType>,
    approved: Option<bool>,
    fromDay: Option<int>,
    toDay: Option<int>)

  predicate Matches(f: Filter, t: Txn)
  {
    && (f.account.Some? ==> t.account == f.account.value)
    && (f.kind.Some? ==> t.kind == f.kind.value)
    && (f.approved.Some? ==> t.loanApprove == f.approved.value)
    && (f.fromDay.Some? ==> f.fromDay.value <= t.day)
    && (f.toDay.Some? ==> t.day <= f.toDay.value)
  }

  /**
   * The ids (ledger positions) of the rows that match `f`: exactly those rows,
   * each once, in insertion order.
   */
  function Select(ledger: seq<Txn>, f: Filter): (ids: seq<nat>)
    ensures forall k :: 0 <= k < |ids| ==> ids[k] < |ledger| && Matches(f, ledger[ids[k]])
    ensures forall i :: 0 <= i < |ledger| && Matches(f, ledger[i]) ==> i in ids
    ensures forall j, k :: 0 <= j < k < |ids| ==> ids[j] < ids[k]
    decreases |ledger|
  {
    if ledger == [] then []
    else
      var n := |ledger| - 1;
      var ids := Select(ledger[..n], f);
      if Matches(f, ledger[n]) then ids + [n] else ids
  }

  /** Appending a row extends a query's answer by that row's id exactly when the row matches. */
  lemma {:induction false} SelectAppend(ledger: seq<Txn>, t: Txn, f: Filter)
    ensures Select(ledger + [t], f) == if Matches(f, t) then Select(ledger, f) + [|ledger|] else Select(ledger, f)
  {
  }

  /** The sum of the amounts of the rows `ids`. */
  function SumAmounts(ledger: seq<Txn>, ids: seq<nat>): int
    requires forall k :: 0 <= k < |ids| ==> ids[k] < |ledger|
  {
    if ids == [] then 0 else ledger[ids[0]].amount + SumAmounts(ledger, ids[1..])
  }

  /**
   * `aggregate(Sum('amount'))` over a query: absent when no row matches,
   * otherwise the sum of the matching rows' amounts.
   */
  function AggregateAmount(ledger: seq<Txn>, f: Filter): (r: Option<int>)
    ensures r.None? <==> forall i :: 0 <= i < |ledger| ==> !Matches(f, ledger[i])
  {
    var ids := Select(ledger, f);
    if ids == [] then None else Some(SumAmounts(ledger, ids))
  }

  /** The sum of all balances; an empty bank sums to 0. */
  function Total(accs: seq<Account>): (r: int)
    ensures accs == [] ==> r == 0
  {
    if accs == [] then 0 else Total(accs[..|accs| - 1]) + accs[|accs| - 1].balance
  }

  /** Replacing one account changes the total by the difference of the two balances. */
  lemma {:induction false} TotalUpdate(accs: seq<Account>, i: nat, a: Account)
    requires i < |accs|
    ensures Total(accs[i := a]) == Total(accs) - accs[i].balance + a.balance
  {
    var n := |accs| - 1;
    if i == n {
      assert accs[i := a][..n] == accs[..n];
    } else {
      assert accs[i := a][..n] == accs[..n][i := a];
      TotalUpdate(accs[..n], i, a);
    }
  }

  predicate NonNegative(accs: seq<Account>)
  {
    forall i :: 0 <= i < |accs| ==> accs[i].balance >= 0
  }

  /** When no balance is negative, the total is at least every single balance. */
  lemma {:induction false} TotalCoversEach(accs: seq<Account>)
    requires NonNegative(accs)
    ensures 0 <= Total(accs)
    ensures forall i :: 0 <= i < |accs| ==> accs[i].balance <= Total(accs)
  {
    if accs != [] {
      var n := |accs| - 1;
      TotalCoversEach(accs[..n]);
      assert forall i :: 0 <= i < n ==> accs[..n][i] == accs[i];
    }
  }

  /**
   * `balance += delta` on one account: only that account's balance changes,
   * and the bank's total changes by exactly `delta`.
   */
  function Credit(accs: seq<Account>, i: AccountId, delta: int): (r: seq<Account>)
    requires i < |accs|
    ensures |r| == |accs| && r[i] == accs[i].(balance := accs[i].balance + delta)
    ensures forall j :: 0 <= j < |accs| && j != i ==> r[j] == accs[j]
    ensures Total(r) == Total(accs) + delta
  {
    var a := accs[i].(balance := accs[i].balance + delta);
    TotalUpdate(accs, i, a);
    accs[i := a]
  }

  /** The database: the account table and the transaction table. */
  class Bank {
    var accounts: seq<Account>
    var ledger: seq<Txn>

    /** The unique and one-to-one constraints hold, and every row belongs to an existing account. */
    ghost predicate Valid()
      reads this
    {
      && UniqueNumbers(accounts)
      && OneAccountPerUser(accounts)
      && forall k :: 0 <= k < |ledger| ==> ledger[k].account < |accounts|
    }

    constructor ()
      ensures Valid() && accounts == [] && ledger == []
    {
      accounts := [];
      ledger := [];
    }

    /**
     * Inserting an account row: refused when the number or the owner is
     * already taken; otherwise the new account gets the next id and a zero
     * balance.
     */
    method Open(user: UserId, accountType: AccountType, accountNo: string) returns (r: Option<AccountId>)
      requires Valid() && |accountNo| <= AccountNoLength
      modifies this
      ensures Valid() && ledger == old(ledger)
      ensures r.None? <==> FindByNumber(old(accounts), accountNo).Some? || HasAccount(old(accounts), user)
      ensures r.None? ==> accounts == old(accounts)
      ensures r.Some? ==> r.value == |old(accounts)| && accounts == old(accounts) + [NewAccount(user, accountType, accountNo)]
    {
      if FindByNumber(accounts, accountNo).Some? || HasAccount(accounts, user) {
        r := None;
      } else {
        r := Some(|accounts|);
        accounts := accounts + [NewAccount(user, accountType, accountNo)];
      }
    }

    /** `account.save()`: store a new balance for one account; no other column or row changes. */
    method SaveBalance(acc: AccountId, balance: int)
      requires Valid() && acc < |accounts|
      modifies this
      ensures Valid() && ledger == old(ledger)
      ensures accounts == Credit(old(accounts), acc, balance - old(accounts)[acc].balance)
    {
      accounts := accounts[acc := accounts[acc].(balance := balance)];
    }

    /** `Transaction.objects.create(...)`: append a row; the rows already there do not change. */
    method Insert(t: Txn)
      requires Valid() && t.account < |accounts|
      modifies this
      ensures Valid() && accounts == old(accounts)
      ensures ledger == old(ledger) + [t]
    {
      ledger := ledger + [t];
    }

    /** `row.save()` on a row that already exists: overwrite it in place. */
    method Update(id: nat, t: Txn)
      requires Valid() && id < |ledger| && t.account < |accounts|
      modifies this
      ensures Valid() && accounts == old(accounts)
      ensures ledger == old(ledger)[id := t]
    {
      ledger := ledger[id := t];
    }
  }
}
