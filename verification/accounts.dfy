/**
 * The bank-account record (accounts/models.py, UserBankAccount): who owns it,
 * its type, its number and its balance. Balances are fixed-point decimals with
 * two places; the model keeps them as integer cents.
 */
module Accounts {
  import opened Wrappers

  /** The two choices of the account-type column. */
  datatype AccountType = Savings | Current

  type UserId = nat

  /** The primary key of an account; accounts are numbered 0, 1, 2, ... in order of creation. */
  type AccountId = nat

  /** One currency unit is a hundred cents (two decimal places). */
  const CentsPerUnit: int := 100

  /** Ten digits in all, two of them after the point: |balance| < 10^8 units = 10^10 cents. */
  const BalanceBound: int := 10_000_000_000

  /** Width of the account-number column. */
  const AccountNoLength: nat := 10

  datatype Account = Account(user: UserId, accountType: AccountType, accountNo: string, balance: int)

  /** The balance fits the decimal column (at most 10 digits, 2 decimal places). */
  predicate FitsColumn(cents: int)
  {
    -BalanceBound < cents < BalanceBound
  }

  predicate WellFormed(a: Account)
  {
    |a.accountNo| <= AccountNoLength && FitsColumn(a.balance)
  }

  /** A freshly created account: the balance column defaults to zero. */
  function NewAccount(user: UserId, accountType: AccountType, accountNo: string): (a: Account)
    requires |accountNo| <= AccountNoLength
    ensures WellFormed(a) && a.balance == 0
    ensures a.user == user && a.accountType == accountType && a.accountNo == accountNo
  {
    Account(user, accountType, accountNo, 0)
  }

  /** The account-number column is unique. */
  predicate UniqueNumbers(accs: seq<Account>)
  {
    forall i, j :: 0 <= i < j < |accs| ==> accs[i].accountNo != accs[j].accountNo
  }

  /** The owner link is one-to-one: no user owns two accounts. */
  predicate OneAccountPerUser(accs: seq<Account>)
  {
    forall i, j :: 0 <= i < j < |accs| ==> accs[i].user != accs[j].user
  }

  /**
   * Looking an account up by its number: the account found carries that
   * number, nothing is found only when no account carries it, and with unique
   * numbers the account found is the only one.
   */
  function FindByNumber(accs: seq<Account>, no: string): (r: Option<AccountId>)
    ensures r.Some? ==> r.value < |accs| && accs[r.value].accountNo == no
    ensures r.None? <==> forall i :: 0 <= i < |accs| ==> accs[i].accountNo != no
    ensures UniqueNumbers(accs) ==>
              forall i :: 0 <= i < |accs| && accs[i].accountNo == no ==> r == Some(i)
    decreases |accs|
  {
    if accs == [] then None
    else if accs[|accs| - 1].accountNo == no then Some(|accs| - 1)
    else FindByNumber(accs[..|accs| - 1], no)
  }

  /** Some account is owned by `user`. */
  predicate HasAccount(accs: seq<Account>, user: UserId)
  {
    exists i :: 0 <= i < |accs| && accs[i].user == user
  }
}
