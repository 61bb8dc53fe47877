/**
 * The eight transaction programs, statement by statement on a faulty session. Each one is proved
 * to refine its atomic step in Ledger: see `Refines`.
 */
module Programs {
  import opened Audit
  import opened Database
  import opened Ledger
  import opened Numbers
  import opened Records

  /** One attempt: an outcome, a 40001 to retry, or another database error passed on. */
  datatype Attempt = Done(outcome: Outcome) | Retry | Broken

  /** The code a program answers with when the given statement fails or counts wrongly. */
  ghost predicate AnswersMishap(c: Command, m: Mishap, o: Outcome) {
    match m.site
    case Audit => o == Abend("HWPT")
    case Reserve => o == if c.CreateCustomer? then Failure("3") else Abend("HNCS")
    case ReadCustomer => o == if c.UpdateCustomer? then Failure("2") else Abend("WPV6")
    case ReadAccountList => o == Abend("WPV6")
    case ReadAccount(n) =>
      if c.Transfer? then (n == c.from && o == Abend("FROM")) || (n == c.to && o == Abend("TO  "))
      else o == Abend("HRAC")
    case WriteAccount(n) =>
      if c.Transfer? then (n == c.from && o == Abend("FROM")) || (n == c.to && o == Abend("TO  "))
      else if c.CreateAccount? then o == Failure("7")
      else if c.Post? && m.Miscounted? then o == Failure("2")
      else o == Abend("HUAC")
    case WriteCustomer => o == if c.CreateCustomer? then Failure("1") else Failure("3")
    case RemoveAccount => o == if c.DeleteAccount? then Failure("3") else Abend("WPV7")
    case RemoveCustomer => o == Abend("WPV7")
    case Opening => false
    case Closing => false
  }

  /**
   * What an attempt at `c` may do to the working store. Success means the atomic step happened,
   * with its reply. An undisturbed attempt gives the atomic reply, and one that replies without a
   * mishap was undisturbed. A 40001 is never swallowed and never invented. A failed or miscounted
   * statement gives that statement's code, and the audit abend comes from nothing but a failed
   * audit insert.
   */
  ghost predicate Refines(c: Command, before: Store, after: Store, disturbed: bool, sawRetry: bool, mishap: Option<Mishap>,
                          r: Attempt)
  {
    Realizes(c, Apply(c, before), after, disturbed, sawRetry, mishap, r)
  }

  ghost predicate Realizes(c: Command, atomic: Result, after: Store, disturbed: bool, sawRetry: bool, mishap: Option<Mishap>,
                           r: Attempt)
  {
    && !r.Broken?
    && (r.Retry? <==> sawRetry)
    && (r.Done? && r.outcome.Success? ==> atomic == Result(r.outcome, after))
    && (!disturbed ==> r == Done(atomic.outcome))
    && (mishap.Some? && !sawRetry ==> r.Done? && AnswersMishap(c, mishap.value, r.outcome))
    && (mishap == None && r.Done? ==> !disturbed)
    && (r == Done(Abend("HWPT")) ==> mishap == Some(Errored(Audit)))
    && r != Done(Abend("XRTY"))
  }

  /**
   * The statements issued so far are the first of the program's, all of them on success. So rows are
   * locked in ascending order, and nothing is written before the last lock.
   */
  ghost predicate InOrder(statements: seq<Access>, trace: seq<Access>, r: Attempt) {
    trace <= statements && (r.Done? && r.outcome.Success? ==> trace == statements)
  }

  /** Every program's last statement: the audit row, and then the reply. */
  method AuditAndReply(db: Session, c: Command, t: Tran, view: View, ghost atomic: Result) returns (r: Attempt)
    requires db.mishap == None && !db.sawRetry && !db.disturbed
    requires if StorableTran(t) then atomic == Result(Success(view), Append(db.working, t))
             else atomic.outcome == Abend(PROCTRAN_ABEND)
    modifies db`working, db`clock, db`disturbed, db`sawRetry, db`mishap, db`trace
    ensures Realizes(c, atomic, db.working, db.disturbed, db.sawRetry, db.mishap, r)
    ensures db.trace == old(db.trace) + [WriteAudit]
    ensures db.FaultFree() ==> !db.disturbed
  {
    var audited := db.InsertTran(t);
    if audited.Err40001? { return Retry; }
    if audited.ErrOther? { return Done(Abend(PROCTRAN_ABEND)); }
    return Done(Success(view));
  }

  method CreateCustomerOnce(db: Session, c: Command) returns (r: Attempt)
    requires c.CreateCustomer? && db.Fresh()
    modifies db`working, db`clock, db`disturbed, db`sawRetry, db`mishap, db`trace
    ensures Refines(c, old(db.working), db.working, db.disturbed, db.sawRetry, db.mishap, r)
    ensures db.FaultFree() ==> !db.disturbed
  {
    var reserved := db.ReserveCustomerNumber();
    if reserved.Err40001? { return Retry; }
    if reserved.ErrOther? { return Done(Failure("3")); }
    if reserved.value.None? { return Done(Failure("4")); }
    var n := reserved.value.value;
    if n > MAX_CUSTOMER_NUMBER { return Done(Failure("4")); }

    var customer := NewCustomer(n, c);
    if !ValidCustomer(customer) { return Done(Failure("1")); }
    var inserted := db.InsertCustomer(customer);
    if inserted.Err40001? { return Retry; }
    if inserted.ErrOther? { return Done(Failure("1")); }

    var t := Tran(c.stamp, OCC, CustomerDescription(c.stamp.sortcode, customer), 0);
    r := AuditAndReply(db, c, t, OneCustomer(customer), ApplyCreateCustomer(old(db.working), c));
  }

  method CreateAccountOnce(db: Session, c: Command) returns (r: Attempt)
    requires c.CreateAccount? && db.Fresh()
    modifies db`working, db`clock, db`disturbed, db`sawRetry, db`mishap, db`trace
    ensures Refines(c, old(db.working), db.working, db.disturbed, db.sawRetry, db.mishap, r)
    ensures db.FaultFree() ==> !db.disturbed
  {
    var reserved := db.ReserveAccountNumber();
    if reserved.Err40001? { return Retry; }
    if reserved.ErrOther? { return Done(Abend("HNCS")); }
    if reserved.value.None? { return Done(Abend("HNCS")); }
    var n := reserved.value.value;
    if n > MAX_ACCOUNT_NUMBER { return Done(Abend("HNCS")); }
    r := InsertOpened(db, c, n, old(db.working));
  }

  /** Inserts and audits the account, its number already reserved. */
  method InsertOpened(db: Session, c: Command, n: int, ghost s: Store) returns (r: Attempt)
    requires c.CreateAccount? && db.mishap == None && !db.sawRetry && !db.disturbed && n <= MAX_ACCOUNT_NUMBER
    requires s.control.Some? && n == s.control.value.accountLast + 1
    requires s.control.value.accountLast < MAX_BIGINT && s.control.value.accountCount < MAX_BIGINT
    requires db.working == s.(control := Some(AccountReserved(s.control.value)))
    modifies db`working, db`clock, db`disturbed, db`sawRetry, db`mishap, db`trace
    ensures Realizes(c, ApplyCreateAccount(s, c), db.working, db.disturbed, db.sawRetry, db.mishap, r)
    ensures db.FaultFree() ==> !db.disturbed
  {
    var account := NewAccount(n, c);
    if !ValidAccount(account) { return Done(Failure("7")); }
    var inserted := db.InsertAccount(account);
    if inserted.Err40001? { return Retry; }
    if inserted.ErrOther? { return Done(Failure("7")); }

    var t := Tran(c.stamp, OCA, AccountDescription(account, OPENED_TAIL), 0);
    r := AuditAndReply(db, c, t, OneAccount(account), ApplyCreateAccount(s, c));
  }

  /** The name and address an update stores: reassigned case by case, each field ends as the one given, if one is. */
  method ResolveFields(existing: Customer, name: string, address: string) returns (updatedName: string, updatedAddress: string)
    ensures updatedName == if IsBlankish(name) then existing.name else name
    ensures updatedAddress == if IsBlankish(address) then existing.address else address
  {
    updatedName, updatedAddress := existing.name, existing.address;
    if IsBlankish(name) && !IsBlankish(address) {
      updatedAddress := address;
    }
    if IsBlankish(address) && !IsBlankish(name) {
      updatedName := name;
    }
    if (name != [] && name[0] != ' ') && (address != [] && address[0] != ' ') {
      updatedName, updatedAddress := name, address;
    }
  }

  method UpdateCustomerOnce(db: Session, c: Command) returns (r: Attempt)
    requires c.UpdateCustomer? && db.Fresh()
    modifies db`working, db`clock, db`disturbed, db`sawRetry, db`mishap, db`trace
    ensures Refines(c, old(db.working), db.working, db.disturbed, db.sawRetry, db.mishap, r)
    ensures db.FaultFree() ==> !db.disturbed
  {
    var loaded := db.LoadCustomer(c.customer);
    if loaded.Err40001? { return Retry; }
    if loaded.ErrOther? { return Done(Failure("2")); }
    if loaded.value.None? { return Done(Failure("1")); }
    var existing := loaded.value.value;
    if !ValidCustomer(existing) { return Done(Failure("2")); }
    if IsBlankish(c.name) && IsBlankish(c.address) { return Done(Failure("4")); }

    var name, address := ResolveFields(existing, c.name, c.address);
    var updated := db.UpdateCustomerText(c.customer, name, address);
    if updated.Err40001? { return Retry; }
    if updated != Ok(1) { return Done(Failure("3")); }

    var view := existing.(name := name, address := address);
    var t := Tran(c.stamp, OUC, CustomerDescription(c.stamp.sortcode, view), 0);
    r := AuditAndReply(db, c, t, OneCustomer(view), ApplyUpdateCustomer(old(db.working), c));
  }

  method UpdateAccountOnce(db: Session, c: Command) returns (r: Attempt)
    requires c.UpdateAccount? && db.Fresh()
    modifies db`working, db`clock, db`disturbed, db`sawRetry, db`mishap, db`trace
    ensures Refines(c, old(db.working), db.working, db.disturbed, db.sawRetry, db.mishap, r)
    ensures InOrder(OneRow(c.account), db.trace, r)
    ensures db.FaultFree() ==> !db.disturbed
  {
    var loaded := db.LoadAccount(c.account);
    if loaded.Err40001? { return Retry; }
    if loaded.ErrOther? { return Done(Abend("HRAC")); }
    if loaded.value.None? { return Done(Failure("1")); }
    var existing := loaded.value.value;
    if !ValidAccount(existing) { return Done(Abend("HRAC")); }

    var view := existing.(kind := c.kind, rate := c.rate, overdraft := c.overdraft);
    if !ValidAccount(view) { return Done(Abend("HUAC")); }
    var updated := db.UpdateTerms(c.account, c.kind, c.rate, c.overdraft);
    if updated.Err40001? { return Retry; }
    if updated != Ok(1) { return Done(Abend("HUAC")); }

    var t := Tran(c.stamp, OUA, UpdateDescription(view), 0);
    r := AuditAndReply(db, c, t, OneAccount(view), ApplyUpdateAccount(old(db.working), c));
  }

  method DeleteAccountOnce(db: Session, c: Command) returns (r: Attempt)
    requires c.DeleteAccount? && db.Fresh()
    modifies db`working, db`clock, db`disturbed, db`sawRetry, db`mishap, db`trace
    ensures Refines(c, old(db.working), db.working, db.disturbed, db.sawRetry, db.mishap, r)
    ensures InOrder(OneRow(c.account), db.trace, r)
    ensures db.FaultFree() ==> !db.disturbed
  {
    var loaded := db.LoadAccount(c.account);
    if loaded.Err40001? { return Retry; }
    if loaded.ErrOther? { return Done(Abend("HRAC")); }
    if loaded.value.None? { return Done(Failure("1")); }
    var account := loaded.value.value;
    if !ValidAccount(account) { return Done(Abend("HRAC")); }

    var deleted := db.DeleteAccountRow(c.account);
    if deleted.Err40001? { return Retry; }
    if deleted != Ok(1) { return Done(Failure("3")); }

    r := AuditAndReply(db, c, DeletionTran(c.stamp, account), OneAccount(account), ApplyDeleteAccount(old(db.working), c));
  }

  method PostOnce(db: Session, c: Command) returns (r: Attempt)
    requires c.Post? && db.Fresh()
    modifies db`working, db`clock, db`disturbed, db`sawRetry, db`mishap, db`trace
    ensures Refines(c, old(db.working), db.working, db.disturbed, db.sawRetry, db.mishap, r)
    ensures InOrder(OneRow(c.account), db.trace, r)
    ensures db.FaultFree() ==> !db.disturbed
  {
    var loaded := db.LoadAccount(c.account);
    if loaded.Err40001? { return Retry; }
    if loaded.ErrOther? { return Done(Abend("HRAC")); }
    if loaded.value.None? { return Done(Failure("1")); }
    var account := loaded.value.value;
    if !ValidAccount(account) { return Done(Abend("HRAC")); }
    r := PostToLocked(db, c, account);
  }

  method PostToLocked(db: Session, c: Command, account: Account) returns (r: Attempt)
    requires c.Post? && db.mishap == None && !db.sawRetry && !db.disturbed && db.trace == [LockRow(c.account)]
    requires c.account in db.working.accounts && account == AccountAt(db.working, c.account) && ValidAccount(account)
    modifies db`working, db`clock, db`disturbed, db`sawRetry, db`mishap, db`trace
    ensures Realizes(c, ApplyPost(old(db.working), c), db.working, db.disturbed, db.sawRetry, db.mishap, r)
    ensures InOrder(OneRow(c.account), db.trace, r)
    ensures db.FaultFree() ==> !db.disturbed
  {
    if c.facility == PAYMENT_FACILITY && IsRestrictedType(account.kind) { return Done(Failure("4")); }
    var available := account.available + c.amount;
    if c.amount < 0 && c.facility == PAYMENT_FACILITY && available < 0 { return Done(Failure("3")); }
    var actual := account.actual + c.amount;
    var updated := db.UpdateBalances(c.account, available, actual);
    if updated.Err40001? { return Retry; }
    if updated.ErrOther? { return Done(Abend("HUAC")); }
    if updated.value != 1 { return Done(Failure("2")); }

    var t := Tran(c.stamp, PostKind(c.facility, c.amount), PostDescription(c.facility, c.amount, c.origin), c.amount);
    var view := account.(available := available, actual := actual);
    r := AuditAndReply(db, c, t, OneAccount(view), ApplyPost(old(db.working), c));
  }

  function Lockings(from: int, to: int): seq<Access> {
    var roles := OrderedRoles(from, to);
    [LockRow(NumberOf(roles[0], from, to)), LockRow(NumberOf(roles[1], from, to))]
  }

  datatype Locked = Both(from: Account, to: Account) | Refused(attempt: Attempt)

  /** Locks both accounts in ascending order of their numbers, stopping at the first that cannot be had. */
  method LockAccounts(db: Session, from: int, to: int) returns (r: Locked)
    requires db.Fresh()
    modifies db`clock, db`disturbed, db`sawRetry, db`mishap, db`trace
    ensures r.Both? ==>
              && db.mishap == None && !db.sawRetry && !db.disturbed && db.trace == Lockings(from, to)
              && TransferRefusal(db.working, from, to) == None
              && r == Both(AccountAt(db.working, from), AccountAt(db.working, to))
    ensures r.Refused? ==>
              && !r.attempt.Broken? && (r.attempt.Retry? <==> db.sawRetry)
              && (r.attempt.Done? ==> !r.attempt.outcome.Success?)
              && r.attempt !in {Done(Abend(PROCTRAN_ABEND)), Done(Abend(RETRY_EXHAUSTED_ABEND))}
              && db.trace <= Lockings(from, to) && (db.mishap == None && r.attempt.Done? ==> !db.disturbed)
              && (!db.disturbed ==> TransferRefusal(db.working, from, to).Some?
                                    && r.attempt == Done(TransferRefusal(db.working, from, to).value))
              && (db.mishap.Some? && !db.sawRetry ==>
                    exists role :: db.mishap == Some(Errored(ReadAccount(NumberOf(role, from, to))))
                                   && r.attempt == Done(Abend(AbendCode(role))))
    ensures db.FaultFree() ==> !db.disturbed
  {
    var fromAccount: Option<Account>, toAccount: Option<Account> := None, None;
    var roles, i := OrderedRoles(from, to), 0;
    while i < 2
      invariant 0 <= i <= 2 && db.working == old(db.working)
      invariant !db.sawRetry && db.mishap == None && !db.disturbed && db.trace == Lockings(from, to)[..i]
      invariant forall k :: 0 <= k < i ==> LoadRefusal(db.working, roles[k], NumberOf(roles[k], from, to)) == None
      invariant fromAccount == if From in roles[..i] then Some(AccountAt(db.working, from)) else None
      invariant toAccount == if To in roles[..i] then Some(AccountAt(db.working, to)) else None
    {
      var role := roles[i];
      var n := NumberOf(role, from, to);
      var loaded := db.LoadAccount(n);
      assert Lockings(from, to)[..i + 1] == Lockings(from, to)[..i] + [LockRow(n)];
      if loaded.Err40001? { return Refused(Retry); }
      if loaded.ErrOther? { return Refused(Done(Abend(AbendCode(role)))); }
      if loaded.value.None? { return Refused(Done(Failure(MissingCode(role)))); }
      var account := loaded.value.value;
      if !ValidAccount(account) { return Refused(Done(Abend(AbendCode(role)))); }
      if role.From? {
        fromAccount := Some(account);
      } else {
        toAccount := Some(account);
      }
      assert roles[..i + 1] == roles[..i] + [role];
      i := i + 1;
    }
    assert roles[..2] == roles;
    return Both(fromAccount.value, toAccount.value);
  }

  method TransferOnce(db: Session, c: Command) returns (r: Attempt)
    requires c.Transfer? && db.Fresh()
    modifies db`working, db`clock, db`disturbed, db`sawRetry, db`mishap, db`trace
    ensures Refines(c, old(db.working), db.working, db.disturbed, db.sawRetry, db.mishap, r)
    ensures InOrder(Statements(c), db.trace, r)
    ensures db.FaultFree() ==> !db.disturbed
  {
    var locked := LockAccounts(db, c.from, c.to);
    if locked.Refused? { return locked.attempt; }
    r := MoveLockedFunds(db, c, locked.from, locked.to);
  }

  method MoveLockedFunds(db: Session, c: Command, from: Account, to: Account) returns (r: Attempt)
    requires c.Transfer? && db.mishap == None && !db.sawRetry && TransferRefusal(db.working, c.from, c.to) == None
    requires !db.disturbed && db.trace == Lockings(c.from, c.to)
    requires from == AccountAt(db.working, c.from) && to == AccountAt(db.working, c.to)
    modifies db`working, db`clock, db`disturbed, db`sawRetry, db`mishap, db`trace
    ensures Realizes(c, MoveFunds(old(db.working), c), db.working, db.disturbed, db.sawRetry, db.mishap, r)
    ensures InOrder(Statements(c), db.trace, r)
    ensures db.FaultFree() ==> db.disturbed == old(db.disturbed)
  {
    var debit := from.(available := from.available - c.amount, actual := from.actual - c.amount);
    if debit.available < 0 || debit.actual < -from.overdraft { return Done(Failure("3")); }
    var credit := to.(available := to.available + c.amount, actual := to.actual + c.amount);

    var debited := db.UpdateBalances(c.from, debit.available, debit.actual);
    if debited.Err40001? { return Retry; }
    if debited != Ok(1) { return Done(Abend("FROM")); }
    r := CreditAndAudit(db, c, old(db.working), debit, credit);
  }

  method CreditAndAudit(db: Session, c: Command, ghost s: Store, debit: Account, credit: Account) returns (r: Attempt)
    requires c.Transfer? && db.mishap == None && !db.sawRetry && c.from in s.accounts && c.to in s.accounts
    requires !db.disturbed && db.trace == Lockings(c.from, c.to) + [WriteRow(c.from)]
    requires db.working == SetBalances(s, c.from, debit.available, debit.actual)
    requires MoveFunds(s, c) ==
             if !Numeric12(credit.available) || !Numeric12(credit.actual) then Result(Abend("TO  "), s)
             else if !StorableTran(TransferTran(c)) then Result(Abend(PROCTRAN_ABEND), s)
             else Result(Success(TwoAccounts(debit, credit)),
                         Append(SetBalances(db.working, c.to, credit.available, credit.actual), TransferTran(c)))
    modifies db`working, db`clock, db`disturbed, db`sawRetry, db`mishap, db`trace
    ensures Realizes(c, MoveFunds(s, c), db.working, db.disturbed, db.sawRetry, db.mishap, r)
    ensures InOrder(Statements(c), db.trace, r)
    ensures db.FaultFree() ==> db.disturbed == old(db.disturbed)
  {
    var credited := db.UpdateBalances(c.to, credit.available, credit.actual);
    if credited.Err40001? { return Retry; }
    if credited != Ok(1) { return Done(Abend("TO  ")); }

    r := AuditAndReply(db, c, TransferTran(c), TwoAccounts(debit, credit), MoveFunds(s, c));
  }

  /**
   * The working store after `k` listed accounts of `s` were handled: without a mishap the first
   * `k` are gone and audited; a skipped row stays behind, owned by the customer.
   */
  ghost predicate Cascading(s: Store, c: Command, k: nat, working: Store, disturbed: bool, mishap: Option<Mishap>)
    requires c.DeleteCustomer?
  {
    var numbers := Listed(s, c.customer);
    && k <= |numbers|
    && working.customers == s.customers
    && (forall j :: k <= j < |numbers| ==> numbers[j] in Owned(working, c.customer))
    && (mishap == None ==> !disturbed && working == Cascade(s, c.stamp, numbers, k) && AuditFits(s, c, k))
    && (mishap.Some? ==> disturbed && mishap == Some(Miscounted(RemoveAccount))
                         && exists j :: 0 <= j < k && numbers[j] in Owned(working, c.customer))
  }

  /** The audit rows of the first `k` listed accounts are storable. */
  ghost predicate AuditFits(s: Store, c: Command, k: nat)
    requires c.DeleteCustomer? && k <= |Listed(s, c.customer)|
  {
    forall j :: 0 <= j < k ==> StorableTran(DeletionTran(c.stamp, AccountAt(s, Listed(s, c.customer)[j])))
  }

  /** How the cascade may stop early. */
  ghost predicate Stops(s: Store, c: Command, disturbed: bool, sawRetry: bool, mishap: Option<Mishap>, r: Attempt)
    requires c.DeleteCustomer?
  {
    && !r.Broken? && (r.Retry? <==> sawRetry)
    && (r.Done? ==> r.outcome in {Abend("WPV7"), Abend(PROCTRAN_ABEND)})
    && (!sawRetry ==> mishap.Some? && AnswersMishap(c, mishap.value, r.outcome))
    && (r == Done(Abend(PROCTRAN_ABEND)) ==> mishap == Some(Errored(Audit)))
    && (!disturbed ==> r == Done(Abend(PROCTRAN_ABEND)) && !AuditFits(s, c, |Listed(s, c.customer)|))
  }

  lemma SkipKeepsCascading(s: Store, c: Command, k: nat, working: Store, disturbed: bool, mishap: Option<Mishap>)
    requires c.DeleteCustomer? && k < |Listed(s, c.customer)| && Cascading(s, c, k, working, disturbed, mishap)
    ensures Cascading(s, c, k + 1, working, true, Some(Miscounted(RemoveAccount)))
  {
    assert Listed(s, c.customer)[k] in Owned(working, c.customer);
  }

  lemma RestStaysOwned(working: Store, after: Store, numbers: seq<int>, k: nat, customer: int)
    requires k < |numbers| && (forall i, j :: 0 <= i < j < |numbers| ==> numbers[i] < numbers[j])
    requires after.accounts == working.accounts - {numbers[k]}
    ensures forall j :: k < j < |numbers| && numbers[j] in Owned(working, customer) ==> numbers[j] in Owned(after, customer)
    ensures forall j :: 0 <= j < k && numbers[j] in Owned(working, customer) ==> numbers[j] in Owned(after, customer)
  {
  }

  lemma DeleteKeepsCascading(s: Store, c: Command, k: nat, working: Store, disturbed: bool, mishap: Option<Mishap>)
    requires c.DeleteCustomer? && k < |Listed(s, c.customer)| && Cascading(s, c, k, working, disturbed, mishap)
    ensures var n := Listed(s, c.customer)[k];
            var t := DeletionTran(c.stamp, AccountAt(s, n));
            var after := Append(working.(accounts := working.accounts - {n}), t);
            StorableTran(t) ==> Cascading(s, c, k + 1, after, disturbed, mishap)
  {
    var numbers := Listed(s, c.customer);
    var t := DeletionTran(c.stamp, AccountAt(s, numbers[k]));
    var after := Append(working.(accounts := working.accounts - {numbers[k]}), t);
    RestStaysOwned(working, after, numbers, k, c.customer);
    CascadeStep(s, c.stamp, numbers, k);
  }

  /** One round of the cascade loop: delete a row, then audit it unless it was already gone. */
  method DeleteListedAccount(db: Session, c: Command, account: Account, ghost s: Store, ghost k: nat)
    returns (r: Option<Attempt>)
    requires c.DeleteCustomer? && k < |Listed(s, c.customer)| && account == AccountAt(s, Listed(s, c.customer)[k])
    requires Cascading(s, c, k, db.working, db.disturbed, db.mishap) && !db.sawRetry
    modifies db`working, db`clock, db`disturbed, db`sawRetry, db`mishap, db`trace
    ensures r == None ==> Cascading(s, c, k + 1, db.working, db.disturbed, db.mishap) && !db.sawRetry
    ensures r.Some? ==> Stops(s, c, db.disturbed, db.sawRetry, db.mishap, r.value)
    ensures db.FaultFree() ==> db.disturbed == old(db.disturbed)
  {
    SkipKeepsCascading(s, c, k, db.working, db.disturbed, db.mishap);
    DeleteKeepsCascading(s, c, k, db.working, db.disturbed, db.mishap);
    assert account.number in db.working.accounts by {
      assert Listed(s, c.customer)[k] in Owned(db.working, c.customer);
    }
    var deleted := db.DeleteAccountRow(account.number);
    if deleted.Err40001? { return Some(Retry); }
    if deleted.ErrOther? || deleted.value > 1 { return Some(Done(Abend("WPV7"))); }
    if deleted.value == 0 { return None; }
    var audited := db.InsertTran(DeletionTran(c.stamp, account));
    if audited.Err40001? { return Some(Retry); }
    if audited.ErrOther? { return Some(Done(Abend(PROCTRAN_ABEND))); }
    return None;
  }

  method DeleteAccounts(db: Session, c: Command, accounts: seq<Account>) returns (r: Option<Attempt>)
    requires c.DeleteCustomer? && db.mishap == None && !db.sawRetry && !db.disturbed
    requires accounts == AccountsAt(db.working, Listed(db.working, c.customer))
    modifies db`working, db`clock, db`disturbed, db`sawRetry, db`mishap, db`trace
    ensures r == None ==> Cascading(old(db.working), c, |accounts|, db.working, db.disturbed, db.mishap) && !db.sawRetry
    ensures r.Some? ==> Stops(old(db.working), c, db.disturbed, db.sawRetry, db.mishap, r.value)
    ensures db.FaultFree() ==> !db.disturbed
  {
    ghost var s := db.working;
    CascadeStarts(s, c);
    var i := 0;
    while i < |accounts|
      invariant 0 <= i <= |accounts| && !db.sawRetry
      invariant db.FaultFree() ==> !db.disturbed
      invariant Cascading(s, c, i, db.working, db.disturbed, db.mishap)
    {
      r := DeleteListedAccount(db, c, accounts[i], s, i);
      if r.Some? { return; }
      i := i + 1;
    }
    return None;
  }

  lemma CascadeStarts(s: Store, c: Command)
    requires c.DeleteCustomer?
    ensures Cascading(s, c, 0, s, false, None)
  {
    assert Cascade(s, c.stamp, Listed(s, c.customer), 0) == s;
  }

  /** Deleting the listed accounts frees the customer row exactly when at most twenty were owned. */
  lemma CascadeFreesCustomer(s: Store, c: Command)
    requires c.DeleteCustomer?
    ensures var numbers := Listed(s, c.customer);
            var after := Cascade(s, c.stamp, numbers, |numbers|);
            && after == s.(accounts := s.accounts - Elements(numbers),
                           log := s.log + DeletionTrans(c.stamp, AccountsAt(s, numbers)))
            && (Owned(after, c.customer) == {} <==> |Owned(s, c.customer)| <= 20)
  {
    var numbers := Listed(s, c.customer);
    CascadeEnds(s, c.stamp, numbers);
    ListedCoversOwned(s, c.customer);
    var after := Cascade(s, c.stamp, numbers, |numbers|);
    assert Owned(after, c.customer) == Owned(s, c.customer) - Elements(numbers);
  }

  lemma AuditFitsAll(s: Store, c: Command)
    requires c.DeleteCustomer?
    ensures AuditFits(s, c, |Listed(s, c.customer)|)
            <==> forall d :: d in DeletionTrans(c.stamp, AccountsAt(s, Listed(s, c.customer))) ==> StorableTran(d)
  {
    var trans := DeletionTrans(c.stamp, AccountsAt(s, Listed(s, c.customer)));
    forall j | 0 <= j < |trans|
      ensures trans[j] in trans && trans[j] == DeletionTran(c.stamp, AccountAt(s, Listed(s, c.customer)[j]))
    {
    }
  }

  method DeleteCustomerOnce(db: Session, c: Command) returns (r: Attempt)
    requires c.DeleteCustomer? && db.Fresh()
    modifies db`working, db`clock, db`disturbed, db`sawRetry, db`mishap, db`trace
    ensures Refines(c, old(db.working), db.working, db.disturbed, db.sawRetry, db.mishap, r)
    ensures db.FaultFree() ==> !db.disturbed
  {
    var loaded := db.LoadCustomer(c.customer);
    if loaded.Err40001? { return Retry; }
    if loaded.ErrOther? { return Done(Abend("WPV6")); }
    if loaded.value.None? { return Done(Failure("1")); }
    var customer := loaded.value.value;
    if !ValidCustomer(customer) { return Done(Abend("WPV6")); }

    var listed := db.LoadAccountsFor(c.customer);
    if listed.Err40001? { return Retry; }
    if listed.ErrOther? { return Done(Abend("WPV6")); }
    var accounts := listed.value;
    if exists a :: a in accounts && !ValidAccount(a) { return Done(Abend("WPV6")); }
    r := DeleteCascade(db, c, customer, accounts);
  }

  /** The atomic deletion, once the customer and the listed accounts have loaded. */
  lemma DeletionCases(s: Store, c: Command)
    requires c.DeleteCustomer? && c.customer in s.customers && ValidCustomer(CustomerAt(s, c.customer))
    requires forall a :: a in AccountsAt(s, Listed(s, c.customer)) ==> ValidAccount(a)
    ensures var numbers := Listed(s, c.customer);
            var after := Cascade(s, c.stamp, numbers, |numbers|);
            var t := Tran(c.stamp, ODC, CustomerDescription(c.stamp.sortcode, CustomerAt(s, c.customer)), 0);
            ApplyDeleteCustomer(s, c) ==
            if !AuditFits(s, c, |numbers|) then Result(Abend(PROCTRAN_ABEND), s)
            else if Owned(after, c.customer) != {} then Result(Abend("WPV7"), s)
            else if !StorableTran(t) then Result(Abend(PROCTRAN_ABEND), s)
            else Result(Success(OneCustomer(CustomerAt(s, c.customer))),
                        Append(after.(customers := after.customers - {c.customer}), t))
  {
    CascadeFreesCustomer(s, c);
    AuditFitsAll(s, c);
  }

  method DeleteCascade(db: Session, c: Command, customer: Customer, accounts: seq<Account>) returns (r: Attempt)
    requires c.DeleteCustomer? && db.mishap == None && !db.sawRetry && !db.disturbed
    requires c.customer in db.working.customers && customer == CustomerAt(db.working, c.customer) && ValidCustomer(customer)
    requires accounts == AccountsAt(db.working, Listed(db.working, c.customer))
    requires forall a :: a in accounts ==> ValidAccount(a)
    modifies db`working, db`clock, db`disturbed, db`sawRetry, db`mishap, db`trace
    ensures Refines(c, old(db.working), db.working, db.disturbed, db.sawRetry, db.mishap, r)
    ensures db.FaultFree() ==> db.disturbed == old(db.disturbed)
  {
    ghost var s := db.working;
    DeletionCases(s, c);
    var stopped := DeleteAccounts(db, c, accounts);
    if stopped.Some? { return stopped.value; }
    r := FinishDeletion(db, c, customer, s);
  }

  method FinishDeletion(db: Session, c: Command, customer: Customer, ghost s: Store) returns (r: Attempt)
    requires c.DeleteCustomer? && !db.sawRetry
    requires c.customer in s.customers && customer == CustomerAt(s, c.customer) && ValidCustomer(customer)
    requires forall a :: a in AccountsAt(s, Listed(s, c.customer)) ==> ValidAccount(a)
    requires Cascading(s, c, |Listed(s, c.customer)|, db.working, db.disturbed, db.mishap)
    modifies db`working, db`clock, db`disturbed, db`sawRetry, db`mishap, db`trace
    ensures Refines(c, s, db.working, db.disturbed, db.sawRetry, db.mishap, r)
    ensures db.FaultFree() ==> db.disturbed == old(db.disturbed)
  {
    DeletionCases(s, c);
    var deleted := db.DeleteCustomerRow(c.customer);
    if deleted.Err40001? { return Retry; }
    if deleted != Ok(1) { return Done(Abend("WPV7")); }

    var t := Tran(c.stamp, ODC, CustomerDescription(c.stamp.sortcode, customer), 0);
    r := AuditAndReply(db, c, t, OneCustomer(customer), ApplyDeleteCustomer(s, c));
  }
}
