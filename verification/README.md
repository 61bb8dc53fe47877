# A verified model of the branch ledger

The repository is a bank branch: customers, accounts, a control row that issues numbers, and an
append-only audit log (`proctran`), changed by eight transaction programs. This project models those
programs twice and proves what they promise.

- `Ledger` says what each program does to the store as **one atomic step** (`Apply`), with every
  refusal, abend code and column constraint. `Replay` is a serial run of such steps.
- `Database.Session` is a database session whose **every statement can fail**: a plan says what
  befalls each statement (nothing, a 40001, another error, a wrong row count), and statements also
  fail by themselves when they break a NUMERIC range, a text width, a primary key or the foreign key.
  `Programs` writes the eight programs statement by statement on such a session and proves that each
  refines its atomic step. `Retry` wraps them in the five-attempt loop; `Sessions` runs any list of calls.
- `Runs`, `Books`, `Accounts` and `GuardedRuns` prove what holds after **every run** from the empty
  database: row integrity, references, counters, number allocation, reconciliation of the balances
  with the log, constant spread between the two balances, when money can appear or be overdrawn,
  titles, description widths, and how a customer's deletion ends.
- `Effects` tells each atomic step again, field by field and without the functions it is built from: the
  rows written, the reply, the audit row read back by position, and in reachable stores which outcome when.
- `Services` models the checks in front of the programs, and proves that the commands they let
  through are the *guarded* ones the run theorems need.
- `Locking` and `Schedules` are a second, **step-level model** with any number of transfers, postings,
  account updates and account deletions in flight: lock a row, check, write one statement, commit, or
  roll back and retry. They prove serial equivalence, freedom from deadlock and termination.
- `Capacity` interleaves CREACC's check with its insert, which runs in a later transaction;
  `Overbooking` shows that its bound is reached, from the small branch in `Witnesses`.
- `Generator`, `Credit`, `Money`, `Calendar`, `Audit`, `Customers`, `Text` and `Arithmetic` are the pieces below: the
  random lookup's generator, the credit score, half-even rounding, the DDMMYYYY dates, the
  40-character audit descriptions, and titles.

Money is in whole cents throughout; `Money` proves that on values of at most two decimals, which the
services enforce, rounding loses nothing. Account rates and limits are in cents too.

## Results that go against a first expectation

- A transfer from an account to itself creates money in the repository layer (`Books.SelfTransferCreatesMoney`,
  and on a reachable store `Witnesses.SelfTransferIsReachable`); `Books.TransferConserves` says exactly when a
  transfer conserves. Only the service's guard excludes it.
- Counter withdrawals have no funds check: `Accounts.StepFunds` gives exactly the commands that overdraw
  an account that was not overdrawn, `Accounts.CounterDebitOverdraws` a family of inputs.
- A customer can own more than ten accounts: the bound is 9 + k for k overlapping creations, and it is
  reached from the empty branch (`Capacity.CapacityBound`, `Overbooking.BoundIsReached`).
- With more than twenty accounts a customer cannot be deleted (`GuardedRuns.DeletionEnds`), and twelve
  overlapping creations are enough (`Overbooking.OverbookedCannotBeDeleted`).
- The random lookup cannot give up when the highest number is a power of two up to 512, and can from
  1024 on (`Generator.NeverExhausted`, `Generator.LargerPowersExhaust`).
- UPDCUST's title check passes names CRECUST's rejects; no such name is ever stored
  (`Customers.UpdateCheckAgainstCreateCheck`, `GuardedRuns.GuardedIsSound`).
- Adding whole cents commutes with rounding except for a number half-way between two cents and an odd
  number of cents (`Money.RoundedSumBeyondCents`); validated amounts never get there.

## Assumptions

- One branch: rows are keyed by number, and the sortcode only appears in audit rows.
- The database is serializable. Other sessions' commits fall between transactions of this session in the
  serial order (`Session.Begin`), and nothing is said about transactions that read without writing.
- A commit that reports an error did not happen.
- In the lock model a row lock is exclusive and kept to commit or rollback, and a read of a missing row
  takes no lock.
- The time of day, dates and references of a command are parameters (`Stamp`), as are the seeds of the
  generators and the arrival times of the credit agencies.

## Model

| member | source | states |
|---|---|---|
| `Retry.Execute` | src/repository/xfrfun.rs:45-86 | A call begins one to five transactions, each but the first right after one that met a 40001, and answers XRTY exactly when the fifth met one too. Each reply, failure code and abend code of the last attempt is answered as such, and nothing else is; an undisturbed call answers exactly the atomic outcome. It answers success exactly when it put one commit of its command into the history, and that commit was the atomic step with that reply on the store left by the commits before it. Any other answer leaves the store the last transaction began on, and is the atomic reply on it, or the code of the statement that went wrong |
| `Retry.WithRetry` | src/db.rs:97-114 | The transactions begun are one to five; every one but the last met a 40001; a 40001 is returned only after the fifth; the last ends as its statements say; at most one commit over all of them |
| `Retry.RunAttempt` | src/repository/xfrfun.rs:49-60 | One transaction, begun on the committed store after other sessions' commits. Without a mishap it was undisturbed and gives the atomic reply; a mishap gives the code of its statement; a 40001 asks for a retry; only a failed begin or commit is passed on |
| `Retry.RunAndCommit` | src/repository/creacc.rs:61-72 | Exactly on success the committed store is the atomic step's result; failures, abends with their statement's code, 40001s and a failed commit leave it untouched |
| `Retry.CommitFor` | src/repository/xfrfun.rs:54-58 | A commit that fails is retried after a 40001 and a database error otherwise, and has no effect |
| `Sessions.ServeAll` | src/db.rs:97-114 | Over any list of calls, whatever fails and whoever interferes, the session's commits are the commands answered with success, once each and in order |
| `Sessions.ServeBranch` | src/db.rs:97-114 | From the empty database, after any such calls: well-formed and reconciled; with admitted commands only, titled names, full-width descriptions and books that balance outright; without unchecked debits, no negative available balance |
| `Sessions.SessionStates` | migrations/0001_baseline.sql:21-84 | Every committed store a session can be in satisfies the integrity and reconciliation theorems |
| `Sessions.GuardedSessionStates` | src/service/xfrfun.rs:129-141 | If this session and the others commit admitted commands only, the theorems about them hold in every committed store |
| `Sessions.FundedSessionStates` | src/repository/dbcrfun.rs:112-124 | Likewise for non-negative funds |
| `Programs.TransferOnce` | src/repository/xfrfun.rs:88-227 | XFRFUN refines its atomic step: success is the whole step, a 40001 is never swallowed or invented, each failed or miscounted statement gives its own code, HWPT comes from the audit insert alone. It issues its locks in ascending order, then the debit, the credit and the audit row, and stops only between statements |
| `Programs.AuditAndReply` | src/repository/xfrfun.rs:203-227 | The audit insert completes the atomic step or gives HWPT |
| `Programs.LockAccounts` | src/repository/xfrfun.rs:286-343 | Both accounts are locked and loaded in ascending order of their numbers; the first that is missing, unloadable or unreadable decides the reply, and no later one is asked for |
| `Programs.MoveLockedFunds` | src/repository/xfrfun.rs:102-182 | Funds and overdraft check on both balances, then the debit; the outcome is that of the atomic move |
| `Programs.CreditAndAudit` | src/repository/xfrfun.rs:183-227 | Credit and audit insert complete the atomic move or give their codes |
| `Programs.PostOnce` | src/repository/dbcrfun.rs:75-174 | DBCRFUN refines its atomic step, locking its row before it writes |
| `Programs.UpdateAccountOnce` | src/repository/updacc.rs:71-143 | UPDACC refines its atomic step, locking its row before it writes |
| `Programs.DeleteAccountOnce` | src/repository/delacc.rs:68-124 | DELACC refines its atomic step, locking its row before it deletes |
| `Programs.CreateAccountOnce` | src/repository/creacc.rs:91-163 | CREACC refines its atomic step: number, account and audit row together or not at all |
| `Programs.CreateCustomerOnce` | src/repository/crecust.rs:89-157 | CRECUST refines its atomic step |
| `Programs.UpdateCustomerOnce` | src/repository/updcust.rs:73-160 | UPDCUST refines its atomic step |
| `Programs.ResolveFields` | src/repository/updcust.rs:162-183 | The three reassignments amount to an independent choice per field: the new one unless it is blankish |
| `Programs.DeleteCustomerOnce` | src/repository/delcus.rs:70-191 | DELCUS refines its atomic step, the cascade included |
| `Programs.DeleteAccounts` | src/repository/delcus.rs:114-149 | The loop leaves the store of the complete cascade, or stops with a 40001, WPV7 or HWPT; a row it finds already gone stays owned by the customer |
| `Programs.FinishDeletion` | src/repository/delcus.rs:151-190 | The customer row goes only when no account refers to it, and then the deletion is the atomic one |
| `Programs.CascadeFreesCustomer` | src/repository/delcus.rs:281-302 | Deleting the listed accounts frees the customer row exactly when at most twenty were owned |
| `Database.Session.Begin` | src/repository/xfrfun.rs:49-53 | A transaction starts on the committed store, which stays the serial run of the history, and the session records whether the one before it met a 40001 |
| `Database.Session.Commit` | src/repository/xfrfun.rs:54-58 | A commit makes the working store the committed one and adds its command to the history, or fails and changes nothing |
| `Database.FaultsShow` | src/db.rs:75-79 | Every fault dealt to a statement shows in its reply |
| `Database.Session.LoadAccount` | src/repository/xfrfun.rs:388-406 | A read gives the row as stored with its type trimmed, or nothing, or an error, and writes nothing |
| `Database.Session.UpdateBalances` | src/repository/xfrfun.rs:408-432 | Both balances change together when one row counts, within NUMERIC(12,2); otherwise nothing changes |
| `Database.Session.UpdateTerms` | src/repository/updacc.rs:208-229 | Type, rate and limit change, and neither balance |
| `Database.Session.UpdateCustomerText` | src/repository/updcust.rs:237-259 | Name and address change within their widths, and nothing else |
| `Database.Session.ReserveAccountNumber` | src/repository/creacc.rs:165-178 | Count and last number rise by one together and the new last number is returned; a missing row reserves nothing |
| `Database.Session.ReserveCustomerNumber` | src/repository/crecust.rs:159-172 | Likewise for customers |
| `Database.Session.InsertAccount` | src/repository/creacc.rs:180-216 | An account needs an unused number, an existing customer and values its columns hold |
| `Database.Session.InsertCustomer` | src/repository/crecust.rs:174-194 | A customer needs an unused number and values its columns hold |
| `Database.Session.DeleteAccountRow` | src/repository/delacc.rs:189-205 | Exactly the one row goes |
| `Database.Session.DeleteCustomerRow` | src/repository/delcus.rs:322-338 | The row goes only when no account refers to it |
| `Database.Session.LoadAccountsFor` | src/repository/delcus.rs:281-302 | The accounts of a customer in ascending order, at most twenty |
| `Database.Session.InsertTran` | src/repository/xfrfun.rs:434-455 | One audit row is appended if its description and amount fit |
| `Ledger.ListedCoversOwned` | src/repository/inqacccu.rs:40-59 | The ordered list cut off at twenty contains every owned account exactly when there are at most twenty |
| `Ledger.ListedAreLowest` | src/repository/delcus.rs:286-295 | What the list misses comes after all it has |
| `Ledger.UnsuccessfulChangesNothing` | src/repository/delcus.rs:39-60 | A command that does not succeed leaves the store as it was |
| `Runs.StepKeepsWellFormed` | migrations/0001_baseline.sql:21-84 | Each of the eight programs keeps rows within their columns, references resolved, and counters, tables and log in agreement |
| `Runs.ReachableIsWellFormed` | src/repository/creacc.rs:91-178 | In every reachable state account_count = account_last = OCA rows, live accounts = OCA − ODA rows, likewise for customers, and every account's customer exists |
| `Runs.TransferSpelledOut` | src/repository/xfrfun.rs:88-227 | A transfer succeeds if and only if both accounts load, both checks and all ranges are met and the audit row fits, and then rewrites exactly two balances of the two rows; else nothing changes |
| `Effects.TransferEffect` | src/repository/xfrfun.rs:102-227 | A successful transfer moves the amount out of both balances of one row into those of the other and touches nothing else, replies with the two rows as stored, and logs one TFR row of that amount that reads back as the sortcode and the receiving account |
| `Effects.TransferEnds` | src/repository/xfrfun.rs:286-343 | Admitted transfers in reachable stores: 1 or 2 for the first account in ascending order that is missing, 3 without the funds or the overdraft, TO when the receiver's balance leaves its range, else success |
| `Effects.PostRows` | src/repository/dbcrfun.rs:112-174 | A successful posting adds its amount to both balances of one row, touches nothing else and replies with the row as stored |
| `Effects.PostAudit` | src/repository/dbcrfun.rs:283-310 | Its audit row is PCR or PDR exactly for facility 496 and DEB or PDR exactly for a negative amount, carries the amount, and is described by the origin or by the counter's two texts |
| `Effects.PostEnds` | src/repository/dbcrfun.rs:80-150 | Admitted postings in reachable stores: 1 without the account, 4 for payments on mortgages and loans, 3 for payments beyond the funds, HUAC out of range, else success |
| `Effects.UpdateAccountEffect` | src/repository/updacc.rs:96-143 | A successful account update stores type, rate and limit as given, touches nothing else and replies with the row |
| `Effects.UpdateAccountAudit` | src/repository/updacc.rs:254-280 | Its OUA row reads back as number, type, rate and whole pounds of the limit |
| `Effects.UpdateAccountEnds` | src/repository/updacc.rs:71-143 | An admitted account update in a reachable store succeeds if and only if the account is there, and fails with 1 otherwise |
| `Effects.DeleteAccountEffect` | src/repository/delacc.rs:68-124 | A successful account deletion takes the one row, replies with it, and logs an ODA row that reads back as its owner, type, statement dates and actual balance |
| `Effects.DeleteAccountEnds` | src/repository/delacc.rs:68-124 | In a reachable store it succeeds if and only if the account is there, and fails with 1 otherwise |
| `Effects.UpdateCustomerEffect` | src/repository/updcust.rs:96-183 | A successful customer update stores each of name and address as given, or keeps it without trailing white space if it is left out, touches nothing else and replies with the row |
| `Effects.UpdateCustomerAudit` | src/repository/updcust.rs:284-298 | Its OUC row reads back as the number, birth date and the first fourteen characters of the name as now stored |
| `Effects.UpdateCustomerEnds` | src/repository/updcust.rs:73-160 | An admitted customer update in a reachable store fails with 1 without the customer, with 4 if both fields are left out, and succeeds otherwise |
| `Effects.CreateCustomerEffect` | src/repository/crecust.rs:89-157 | A successful registration stores every field as given under the next number, score and review date included, counts it, and replies with the row |
| `Effects.CreateCustomerAudit` | src/repository/crecust.rs:219-230 | Its OCC row reads back as the new number, birth date and the first fourteen characters of the name |
| `Effects.CreateAccountEffect` | src/repository/creacc.rs:91-163 | A successful opening stores every field as given under the next number, all three dates included, counts it, and replies with the row |
| `Effects.CreateAccountAudit` | src/repository/creacc.rs:241-258 | Its OCA row reads back as owner, type and both statement dates, ending in six blanks |
| `Effects.CreationEnds` | src/repository/creacc.rs:91-178 | Admitted creations in reachable stores: 4 or HNCS when the numbers are used up, 7 without the customer, else success |
| `Effects.NoControlRow` | src/repository/creacc.rs:165-178 | Without the control row a registration fails with 4 and an opening abends with HNCS |
| `Effects.UnreadableAccount` | src/repository/delacc.rs:144-165 | An account row out of the records' ranges stops each program that reads it with HRAC, FROM or TO |
| `Effects.UnreadableCustomer` | src/repository/delcus.rs:207-240 | A customer row out of range stops UPDCUST with 2 and DELCUS with WPV6 |
| `Runs.DeletionSpelledOut` | src/repository/delcus.rs:114-191 | The rows a successful deletion takes and the audit rows it adds |
| `Books.TransferConserves` | src/repository/xfrfun.rs:102-226 | A successful transfer keeps the total of both balances if and only if it is between two accounts or moves nothing; to itself it adds its amount. The net of the audit log never moves |
| `Books.SelfTransferCreatesMoney` | src/repository/xfrfun.rs:102-226 | In any store every transfer from an account to itself that meets the checks succeeds and makes its amount out of nothing |
| `Witnesses.SelfTransferIsReachable` | src/service/xfrfun.rs:136-141 | Without the service's guard such a store is reached: one customer, one account, one transfer, and the books are out of balance by its amount |
| `Books.StepMoney` | src/repository/dbcrfun.rs:112-174 | No program opens a gap between the balances and the log except an opening balance or a self-transfer |
| `Books.Reconciliation` | src/repository/delacc.rs:93-124 | After any run: balances held = openings + CRE/DEB/PCR/PDR amounts − ODA amounts + what self-transfers minted |
| `Books.GuardedReconciliation` | src/service/xfrfun.rs:129-141 | With the service's guard the books balance outright |
| `Accounts.AccountStep` | src/repository/creacc.rs:165-178 | A step opens the next account number or none, and never changes a surviving account's owner, opening date or spread |
| `Accounts.AccountHistory` | src/repository/updacc.rs:96-108 | Over any run the numbers issued are 1, 2, … account_last in order, and every live account has the available-less-actual spread, owner and date it was opened with |
| `Accounts.CustomerHistory` | src/repository/crecust.rs:159-172 | Likewise the customer numbers, and a birth date never changes |
| `Accounts.DeletedStaysDeleted` | src/repository/delacc.rs:93-105 | A deleted account's number never comes back |
| `Accounts.StepFunds` | src/repository/dbcrfun.rs:112-124 | From non-negative available balances a step makes a negative one if and only if, by the command and the store before it, it opens an account overdrawn, withdraws more than is available at the counter, or transfers a negative amount beyond the receiver's funds, while the limits the program does check are met |
| `Accounts.OpeningSucceeds` | src/repository/creacc.rs:91-163 | When an account is opened, in terms of the store before |
| `Accounts.PostingSucceeds` | src/repository/dbcrfun.rs:75-174 | When a posting goes through, in terms of the store before |
| `Accounts.FundsStayNonNegative` | src/repository/xfrfun.rs:102-117 | Over any run without those commands every available balance stays at or above zero |
| `Accounts.CounterDebitOverdraws` | src/repository/dbcrfun.rs:112-124 | A counter withdrawal of one cent more than is available succeeds |
| `GuardedRuns.GuardedIsSound` | src/repository/updcust.rs:96-132 | In every state admitted commands reach, each stored name has a title by CRECUST's check, names and addresses fit 60 and 160 characters, and each description in the log has exactly 40 |
| `GuardedRuns.GuardedBooksBalance` | src/service/xfrfun.rs:129-141 | Admitted commands keep the books balanced |
| `GuardedRuns.GuardedFunds` | src/service/xfrfun.rs:129-141 | Of the commands services admit, only counter withdrawals and overdrawn openings can overdraw |
| `GuardedRuns.GuardedStepFunds` | src/repository/dbcrfun.rs:112-138 | In reachable stores an admitted command makes a balance negative if and only if it withdraws at the counter more than is available with both results in range, or opens an account overdrawn for an existing customer while numbers are left |
| `GuardedRuns.CompleteCascade` | src/repository/delcus.rs:114-191 | A successful deletion leaves no row of the customer or its accounts, touches nobody else's, and logs the deletion rows of its accounts in ascending order and then the customer's |
| `Effects.DeleteCustomerEffect` | src/repository/delcus.rs:70-191 | In a reachable store it replies with the customer as stored; each ODA row reads back as its account's owner, type, statement dates and actual balance, and the ODC row as the customer's number, birth date and the first fourteen characters of the name |
| `GuardedRuns.DeletionEnds` | migrations/0001_baseline.sql:46-47 | After any run of admitted commands a deletion succeeds exactly when the customer exists and owns at most twenty accounts; with more it abends with WPV7 and changes nothing |
| `Services.CentsAreExact` | src/service/xfrfun.rs:185-187 | A value of at most two decimals equals its rounded cents, and has their sign |
| `Services.TransferAdmission` | src/service/xfrfun.rs:120-194 | A transfer is admitted, as requested and to the cent, if and only if it is in range, positive and between two accounts; 4 if and only if it is not positive; SAME if and only if only the last fails |
| `Services.PaymentDescription` | src/service/dbcrfun.rs:37-46 | The origin text has exactly 14 characters |
| `Services.PostAdmission` | src/service/dbcrfun.rs:110-180 | A posting is admitted, as requested and to the cent, if and only if all fields are in range; its origin is eight places of the application and six of the user |
| `Services.CreateAccountAdmission` | src/service/creacc.rs:188-248 | A creation is admitted if and only if its fields are in range, its type is one of five, and the customer exists and was seen with fewer than ten accounts; A, 1 and 8 each tell the first that fails |
| `Services.AdmittedCreation` | src/service/creacc.rs:250-274 | An admitted creation is as requested, opens today with its next statement thirty days of the calendar on, and is guarded if and only if those dates print in eight digits, as they do before the year 9999 |
| `Calendar.PlusDaysCounts` | src/service/creacc.rs:250-254 | Adding days to a date gives the date that many days on, counted by 365 a year and one for every leap year |
| `Services.UpdateAccountAdmission` | src/service/updacc.rs:88-184 | An account update is admitted, as requested, if and only if its fields are in range and its type is neither blank nor starts so; 2 tells a bad type |
| `Services.CreateCustomerAdmission` | src/service/crecust.rs:139-265 | A registration is admitted, as requested, if and only if its name is titled and fits, its birth date is a date from 1601 on, at most 150 years back and not in the future, and there is a credit decision; T, O, Z, Y and G each tell the first that fails |
| `Services.UpdateCustomerAdmission` | src/service/updcust.rs:84-162 | A customer update is admitted, as requested, if and only if it fits and its name is left out or opens with a title; T tells a bad one |
| `Services.DeletionAdmission` | src/service/delcus.rs:74-119 | A deletion is admitted, as requested, if and only if its number is in range |
| `Customers.TrimmedNameKeepsTitle` | src/service/crecust.rs:267-280 | A titled name keeps its title when its trailing white space goes |
| `Customers.UpdateCheckAgainstCreateCheck` | src/service/updcust.rs:152-162 | UPDCUST accepts exactly the names it then treats as left out and those CRECUST accepts that do not open with white space |
| `Services.GateCounts` | src/service/creacc.rs:240-248 | The check on the truncated list is open exactly below ten accounts |
| `Capacity.CapacityBound` | src/service/creacc.rs:227-273 | If at most k creations for a customer are ever between check and insert, its accounts plus those pending never exceed 9 + k |
| `Overbooking.BoundIsReached` | src/service/creacc.rs:227-273 | The bound is exact: for every k within the account numbers a run of admitted commands from the empty branch, never with more than k creations between check and insert, ends with 9 + k accounts |
| `Overbooking.OverbookedCannotBeDeleted` | src/repository/delcus.rs:286-295 | From k = 12 on that run ends with a customer whose deletion abends with WPV7 and changes nothing |
| `GuardedRuns.CreationSucceeds` | src/repository/creacc.rs:91-163 | In reachable stores an admitted creation succeeds if and only if the customer exists and account numbers are left |
| `GuardedRuns.RegistrationSucceeds` | src/repository/crecust.rs:89-157 | An admitted registration with a score in range succeeds if and only if customer numbers are left |
| `Capacity.DeletionNeverBlocked` | src/repository/delcus.rs:286-295 | While at most eleven creations for a customer overlap, its deletion never meets the foreign key |
| `Locking.Local` | src/repository/xfrfun.rs:88-227 | The atomic step on the whole store is the step on the locked rows, installed |
| `Locking.PlanPerforms` | src/repository/xfrfun.rs:163-227 | The write statements, one by one, amount to the atomic step |
| `Locking.PlanFollowsStatements` | src/repository/xfrfun.rs:345-351 | The rows locked and the writes planned in this model are, in the same order, the statements that the statement-by-statement programs are proved to issue |
| `Locking.RefusalIsAtomic` | src/repository/xfrfun.rs:286-343 | The first locked read to stop a program gives the reply of its atomic step |
| `Locking.OutsideUntouched` | src/repository/dbcrfun.rs:217-258 | A program changes no row it does not lock |
| `Schedules.StepKeeps` | src/repository/xfrfun.rs:388-406 | Every statement of every transaction, with any luck, keeps the invariant: held rows are as committed, work in progress heads for the atomic step, replies are serial |
| `Schedules.SerialEquivalence` | src/repository/xfrfun.rs:88-227 | In any interleaving the committed store and log are the atomic steps in reply order, each reply is the atomic one at its place, and each transaction that replied took effect exactly once |
| `Schedules.InterleavedIsReachable` | src/repository/xfrfun.rs:88-227 | Started from a reachable store, every interleaved state is a state some serial run reaches, so the run theorems hold in it |
| `Schedules.HolderWaitsHigher` | src/repository/xfrfun.rs:345-351 | Whoever holds a row another waits for waits, if at all, for a higher one |
| `Schedules.NoDeadlock` | src/repository/xfrfun.rs:286-351 | While any transaction is unfinished, some transaction can take its next step |
| `Schedules.RunsEnd` | src/db.rs:97-114 | No run is longer than the statements its transactions have left, retries included |
| `Schedules.AllFinish` | src/db.rs:97-114 | From any reachable state, whatever faults are dealt, every transaction can be brought to its end |
| `Schedules.GivenUpForCause` | src/db.rs:97-114 | A transaction under way has failed once for each 40001 dealt to it, fewer than five, and is given up only after a fatal error or five of them |
| `Generator.JumpShape` | src/service/inqcust.rs:97-107 | 2^k draws multiply by 1 modulo 2^(k+2) and add an odd multiple of 2^k |
| `Generator.LowBitsCoverAll` | src/service/inqcust.rs:97-107 | In any 2^k consecutive draws the low k bits take every value, for every k up to 64 |
| `Generator.LowBitsVisitOnce` | src/service/inqcust.rs:97-107 | And each only once |
| `Generator.RandomCustomerNumbers.NextCustomerNumber` | src/service/inqcust.rs:97-107 | The state wraps at 64 bits and the candidate lies between 1 and the highest number |
| `Generator.FindRandomCustomer` | src/service/inqcust.rs:152-184 | The result is the first of a thousand candidates that is there when it is read, R if none is, 1 without customers, CVR1 for a row that does not load |
| `Generator.NeverExhausted` | src/service/inqcust.rs:170-184 | On a fixed store whose highest number is a power of two up to 512 the lookup never answers R |
| `Generator.LargerPowersExhaust` | src/service/inqcust.rs:170-184 | For each larger power of two there are a store and a state where it does |
| `Credit.CollectScores` | src/service/crecust.rs:282-317 | The loop sums and counts exactly the valid scores that arrive in time, whatever comes late or not at all |
| `Credit.EvaluateCredit` | src/service/crecust.rs:282-331 | The decision is the truncated mean of those scores with a review date one to twenty days ahead; the generator moves only if there is a score |
| `Credit.DecisionIgnoresOrder` | src/service/crecust.rs:306-317 | The decision depends on the multiset of counted scores alone |
| `Credit.DecisionExists` | src/service/crecust.rs:319-331 | A decision exists if and only if some valid reply came in time and the review date exists; its score is the mean of the valid scores rounded down, lies between the least and greatest and fits the columns |
| `Credit.ReviewDates.NextOffsetDays` | src/service/crecust.rs:384-392 | The offset is between 1 and 20 days |
| `Credit.SeededOutcome` | src/service/crdtagy.rs:158-191 | The system's own agencies always reply in time with a valid score |
| `Audit.AccountDescriptionRoundTrip` | src/repository/creacc.rs:241-264 | OCA and ODA descriptions have 40 characters and read back exactly, the type up to trailing blanks |
| `Audit.UpdateDescriptionRoundTrip` | src/repository/updacc.rs:254-280 | OUA descriptions read back number, rate and the whole pounds of the limit; they have 40 characters up to 99999999 pounds and more than the column holds beyond |
| `Audit.CustomerDescriptionRoundTrip` | src/repository/crecust.rs:219-236 | OCC, OUC and ODC descriptions have 40 characters; sortcode, number and birth date read back |
| `Audit.PaymentDescriptionRoundTrip` | src/repository/xfrfun.rs:457-468 | TFR and posting descriptions have 40 characters; the TFR row names the receiving account |
| `Calendar.EncodersAgree` | src/web/creacc.rs:304-309 | The arithmetic and the format-and-parse date encoders agree on years 0 to 9999 |
| `Calendar.ParseInvertsEncoding` | src/service/crecust.rs:230-240 | Parsing inverts both |
| `Calendar.ParseCharacterised` | src/service/crecust.rs:230-240 | Exactly the numbers up to 99999999 whose fields name a date parse, re-encoding gives them back, and the error kind depends on the year field alone |
| `Money.RoundMoneyIsHalfEven` | src/domain.rs:297-299 | The rounding is the nearest cent, ties to even, and nothing else is |
| `Money.RoundingIgnoresScale` | src/domain.rs:297-299 | It depends on the number, not on its digits |
| `Money.RoundingIsMonotone` | src/domain.rs:297-299 | It is monotone across scales |
| `Money.RoundingLaws` | src/domain.rs:297-299 | It is odd, within half a cent and idempotent |
| `Money.RoundedSumOfCents` | src/repository/xfrfun.rs:102-105 | On stored balances and validated amounts the rounding of a sum or difference moves no cent |
| `Money.RoundedSumBeyondCents` | src/repository/xfrfun.rs:151-152 | Beyond two decimals, adding cents commutes with rounding if and only if the number is not half-way or the cents are even |

## Left out

- HTTP routing, request and response shapes, problem details, configuration, migrations as a procedure: no property of the ledger depends on them.
- Error message texts: only fail and abend codes are kept.
- Primary keys and counters of `proctran` rows, and their sharding: the log is a sequence in commit order.
- Plain lookups (INQACC, INQCUST by number) and the read errors of the capacity check and of the random lookup: they change nothing.
- More than one branch: every row belongs to the configured sortcode.
- Database failures whose outcome is unknown at commit: a failed commit is assumed not to have happened.
- DELCUS, CRECUST, CREACC and UPDCUST in the lock-level model: DELCUS reads accounts without locking them, so it rests on serializability; all four are in the statement-level model and in the run theorems.
- Cancellation of waiting lock requests: in the lock-level model a wait ends by the holder's end or by an error dealt to the waiter.
- Schedules.RunsEnd: bounds runs in which every turn is a statement; a scheduler that only offers blocked transactions makes no progress.
- Schedules.SerialEquivalence: a transaction that gives up after a fault is recorded as given up, without the code of the statement; the statement-level model has the codes.
- Generator.FindRandomCustomer: the reads themselves never fail.
- Credit.CollectScores: a reply at the very instant the window closes counts as late, and the loop takes no time of its own.
- Audit.UpdateDescriptionRoundTrip: for rates and limits that are not negative, which the service demands; the sign of any other would stand among the digits.
