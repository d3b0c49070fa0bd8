# Bank balance-mutation rules — a Dafny model

This project models the money-movement core of a small bank web application:
the user's bank account (owner, type, number, balance), the ledger of
transaction rows (account, signed amount, type, balance snapshot, day, loan
approval flag), the form validators that accept or refuse a deposit,
withdrawal, loan request or transfer, the views that then change balances and
write ledger rows, the loan repayment, the transaction report and loan list
queries, and the administrator's save of a row, which credits the row's amount.

The state is one `Store.Bank` object: `accounts`, a sequence indexed by account
id (a finite map from id to account), and `ledger`, the sequence of rows, where
a row's id is its position. Balances and amounts are integer cents (one unit =
100 cents), so the deposit minimum of 100 units is 10000 cents. Each operation
is one atomic step; the current day is a parameter (`today`). The validators are
Dafny functions, so they cannot change any balance; every view calls its
validator first and changes nothing when it refuses.

Behaviour of the code worth noting:

- A loan request is accepted for any amount (no positivity check): `LoanRequestForm.clean_amount` returns the amount as is.
- A successful transfer writes three rows, not two: after the explicit sender (−amount) and receiver (+amount) rows, the generic form save adds a third row on the sender with +amount and the sender's new balance.
- Withdrawal runs the form checks first; the bank-wide solvency check runs only after the form accepted the amount.
- The report's total with a date range sums the amounts of every account's rows in that range, not only the requesting account's, and is absent (not 0) when no row falls in the range, as the database's sum aggregate is.
- PayLoan checks neither the row's type nor its owner, and leaves the approval flag set; the assignment of `loan_approved` in the view names no column and has no effect. An approved row that was already paid can therefore be paid again.
- Withdrawal rows store the positive amount.

Modules: `Wrappers` (Option/Result/Outcome), `Accounts` (the account record),
`Store` (rows, queries, totals and the `Bank` state with its save primitives),
`Forms` (validators and the form save), `Views` (the transaction views),
`Admin` (the admin save).

## Model

| member | source | states |
|---|---|---|
| `Accounts.NewAccount` | accounts/models.py:11-18 | a new account keeps the given owner, type and number, starts with balance 0 and fits the column widths |
| `Accounts.FindByNumber` | accounts/models.py:14 | the account found carries the number; nothing is found only when no account carries it; with unique numbers the found account is the only one with that number |
| `Store.Bank.Open` | accounts/models.py:12-18 | inserting an account is refused iff its number or its owner is already taken; otherwise it gets the next id and balance 0; the uniqueness and one-account-per-user invariants are kept |
| `Store.Select` | transactions/views.py:148-165 | a ledger query returns exactly the ids of the matching rows, each once, in insertion order |
| `Store.AggregateAmount` | transactions/views.py:159-161 | the sum aggregate is absent iff no row matches the query |
| `Store.Total` | transactions/views.py:104 | the sum of all balances; 0 when there is no account (the `or 0` of an empty aggregate); its non-negativity is `Store.TotalCoversEach` |
| `Store.TotalUpdate` | transactions/views.py:104 | replacing one account changes the sum of all balances by the difference of its old and new balance |
| `Store.TotalCoversEach` | transactions/views.py:104-105 | with no negative balance, the sum of all balances is non-negative and at least each single balance |
| `Store.Credit` | transactions/views.py:225-227 | `balance += delta` changes only that account's balance, by exactly delta, and the bank total by exactly delta |
| `Store.Bank.SaveBalance` | transactions/views.py:82-87 | saving an account stores its new balance and changes no other account and no row |
| `Store.Bank.Insert` | transactions/views.py:230-235 | creating a row appends it and changes no existing row and no balance |
| `Store.Bank.Update` | transactions/views.py:189 | saving an existing row overwrites it in place and changes nothing else |
| `Forms.CleanDepositAmount` | transactions/forms.py:29-38 | a deposit is accepted, unchanged, iff amount ≥ 100 units; otherwise the minimum-deposit error |
| `Forms.CleanWithdrawAmount` | transactions/forms.py:40-64 | a withdrawal is accepted, unchanged, iff 500 ≤ amount ≤ 20000 units and amount ≤ balance; the error is below-minimum, else above-maximum, else over-balance, in that order |
| `Forms.CleanLoanAmount` | transactions/forms.py:67-71 | every loan amount is accepted unchanged |
| `Forms.CleanTransfer` | transactions/forms.py:85-104 | an unknown receiver number is refused whatever the amount; then insufficient balance takes precedence over a non-positive amount; accepted iff the receiver exists and 0 < amount ≤ sender balance, and the result is the receiver carrying that number |
| `Forms.Save` | transactions/forms.py:23-26 | the new row belongs to the form's account, is unapproved and dated today, and its snapshot is that account's balance at save time; balances do not change |
| `Views.DepositMoney` | transactions/views.py:78-91 | accepted iff amount ≥ 100 units; then the balance rises by exactly the amount, the bank total by the amount, and one Deposit row with the new balance as snapshot is appended; refused means nothing changes; non-negative balances stay non-negative |
| `Views.SolvencyGateNeverRejects` | transactions/views.py:104-105 | with no negative balance, an amount not above the account's own balance never exceeds the bank total, so the solvency check cannot refuse it |
| `Views.WithdrawMoney` | transactions/views.py:102-118 | form errors first; refused as bankrupt iff the form accepted and the bank total is below the amount; accepted iff within bounds, within balance and within the bank total; then the balance drops by exactly the amount and one Withdrawal row with the positive amount and the new balance is appended; a refusal changes nothing; with non-negative balances the bankrupt refusal never happens and balances stay non-negative |
| `Views.RequestLoan` | transactions/views.py:128-140 | refused with no new row iff the account already has 3 approved Loan rows; otherwise one unapproved Loan row with the unchanged balance as snapshot is appended; balances never change and the approved-loan count never changes |
| `Views.Report` | transactions/views.py:147-165 | with both days: the account's rows dated in [start, end] inclusive, and the sum over every account's rows in range; with a day missing: all the account's rows and its current balance; ids in insertion order, each once |
| `Views.PayLoan` | transactions/views.py:177-197 | not found iff the id is unknown; nothing happens when the row is unapproved or its amount is not strictly below its account's balance; otherwise that account is debited by the amount, the row's snapshot becomes the new balance and its type LoanPaid, the approval flag stays set, and nothing else changes |
| `Views.LoanList` | transactions/views.py:205-209 | exactly the ids of the account's rows of type Loan, in insertion order |
| `Views.TransferMoney` | transactions/views.py:221-247 | the form's verdict decides; on success the sender is debited and a different receiver credited by the same amount, so their sum and the bank total are unchanged and no other balance moves; three rows are appended (sender −amount, receiver +amount, sender +amount) with the accounts' new balances as snapshots; a refusal changes nothing |
| `Admin.SaveModel` | transactions/admin.py:12-22 | every admin save, new row or edit, credits the row's account with the row's amount with no sign or bound check; only that balance changes; the stored row's snapshot is the new balance |

## Left out

- Email notifications (`send_mail`, `send_transfer_mail`, the admin's loan-approval mail): outgoing I/O, left out. When a send succeeds it has no effect on balances or rows. A send that raises, however, aborts the request after the balance was saved and before the ledger row is written: deposit (transactions/views.py:83-91), withdrawal (transactions/views.py:113-118), transfer (transactions/views.py:226-238, between the two explicit rows and before the form's row) and admin save (transactions/admin.py:15-22). That leaves a changed balance with no row; the model, where every send succeeds, does not capture this (see the atomicity line below).
- Web-framework plumbing: redirects, flash messages, HTTP responses, login requirement, form keyword arguments and template context; `get_object_or_404` becomes the `NotFound` result of `Views.PayLoan`.
- Registration, login, logout, profile and password views (accounts/views.py): thin wrappers over the framework's authentication; `Store.Bank.Open` stands for the database insert with its constraints only.
- The address record and the birth date, gender and opening-date columns of the account: profile data that no balance rule reads.
- Parsing of the report's date strings: days are integers, and an absent or empty date string is `None`.
- Floating-point formatting of amounts in success messages: display only.
- Concurrency and atomicity: each operation is one atomic step, so the read-then-write races, the separate saves of Transfer and PayLoan, and the partial writes left by a failing email send in Deposit, Withdraw, Transfer and the admin save are not modelled.
- Views.TransferMoney: requires the receiver number to differ from the sender's own; the code does not refuse a self-transfer, and what it then does depends on two separate in-memory copies of one account row, which this model does not represent.
- Accounts.FitsColumn: the ten-digit, two-decimal width of the balance column is stated, but no operation checks it, as the code does not; what the database does with an overflowing balance is not modelled.
- Store.Bank.Open: requires the account number to fit the ten-character column; the code that generates numbers at registration is not part of this model.
- The numeric transaction-type codes: transactions/constants.py is not part of this model; the code 3 used by the loan queries is taken to be Loan.
- The transaction record's own column definitions (transactions/models.py is not part of this model): the approval flag is taken to default to false, the creation day to be set once when a row is created, and amounts to be unbounded integers of cents.
