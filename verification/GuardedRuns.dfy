/**
 * Runs of commands the services admit. Every stored name keeps a title, every audit description is
 * exactly 40 characters, the books balance, and a customer's deletion has only three possible ends.
 */
module GuardedRuns {
  import opened Accounts
  import opened Audit
  import opened Books
  import opened Calendar
  import opened Customers
  import opened Ledger
  import opened Numbers
  import opened Records
  import opened Runs
  import opened Services

  ghost predicate AllGuarded(commands: seq<Command>) {
    forall i :: 0 <= i < |commands| ==> Guarded(commands[i])
  }

  /** The dates of every row print in their fixed width. */
  ghost predicate DatesPrint(s: Store) {
    && (forall n :: n in s.accounts ==> PrintableDate(s.accounts[n].last) && PrintableDate(s.accounts[n].next))
    && (forall n :: n in s.customers ==> IsCobolDate(s.customers[n].dob))
  }

  ghost predicate NamesTitled(s: Store) {
    forall n :: n in s.customers ==> HasTitle(s.customers[n].name) && FitsProfile(s.customers[n].name, s.customers[n].address)
  }

  ghost predicate Wide(trans: seq<Tran>) {
    forall i :: 0 <= i < |trans| ==> |trans[i].description| == WIDTH
  }

  ghost predicate Sound(s: Store) {
    DatesPrint(s) && NamesTitled(s) && Wide(s.log)
  }

  // One step.

  lemma StoredNumbers(s: Store)
    requires WellFormed(s)
    ensures forall n :: n in s.customers ==> 1 <= n <= MAX_CUSTOMER_NUMBER
    ensures forall n :: n in s.accounts ==> 1 <= n <= MAX_ACCOUNT_NUMBER && 1 <= s.accounts[n].customer <= MAX_CUSTOMER_NUMBER
  {
  }

  /** An account read from a well-formed store is valid, and the row its deletion logs can be stored. */
  lemma StoredAccount(s: Store, n: int, stamp: Stamp)
    requires WellFormed(s) && DatesPrint(s) && n in s.accounts
    ensures ValidAccount(AccountAt(s, n))
    ensures var t := DeletionTran(stamp, AccountAt(s, n)); |t.description| == WIDTH && StorableTran(t)
  {
    StoredNumbers(s);
    AccountDescriptionRoundTrip(AccountAt(s, n), DELETED_TAIL);
  }

  lemma StoredCustomer(s: Store, n: int, stamp: Stamp)
    requires WellFormed(s) && DatesPrint(s) && n in s.customers && IsSortcode(stamp.sortcode)
    ensures ValidCustomer(CustomerAt(s, n))
    ensures |CustomerDescription(stamp.sortcode, CustomerAt(s, n))| == WIDTH
  {
    StoredNumbers(s);
    CustomerDescriptionRoundTrip(stamp.sortcode, CustomerAt(s, n));
  }

  /** One more audit row of full width, over rows that still print and are titled. */
  lemma LoggedSound(s: Store, after: Store, t: Tran)
    requires Wide(s.log) && after.log == s.log + [t] && |t.description| == WIDTH && DatesPrint(after) && NamesTitled(after)
    ensures Sound(after)
  {
  }

  lemma CreateCustomerSound(s: Store, c: Command)
    requires WellFormed(s) && Sound(s) && c.CreateCustomer? && Guarded(c)
    ensures Sound(ApplyCreateCustomer(s, c).store)
  {
    var r := ApplyCreateCustomer(s, c);
    if r.outcome.Success? {
      CustomerDescriptionRoundTrip(c.stamp.sortcode, r.outcome.view.customer);
      LoggedSound(s, r.store, r.store.log[|s.log|]);
    }
  }

  lemma OpeningWide(s: Store, c: Command)
    requires WellFormed(s) && c.CreateAccount? && Guarded(c) && ApplyCreateAccount(s, c).outcome.Success?
    ensures var t := Tran(c.stamp, OCA, AccountDescription(ApplyCreateAccount(s, c).outcome.view.account, OPENED_TAIL), 0);
            |t.description| == WIDTH && ApplyCreateAccount(s, c).store.log == s.log + [t]
  {
    AccountDescriptionRoundTrip(ApplyCreateAccount(s, c).outcome.view.account, OPENED_TAIL);
  }

  lemma CreateAccountSound(s: Store, c: Command)
    requires WellFormed(s) && Sound(s) && c.CreateAccount? && Guarded(c)
    ensures Sound(ApplyCreateAccount(s, c).store)
  {
    var r := ApplyCreateAccount(s, c);
    if r.outcome.Success? {
      OpeningWide(s, c);
      LoggedSound(s, r.store, Tran(c.stamp, OCA, AccountDescription(r.outcome.view.account, OPENED_TAIL), 0));
    }
  }

  /** What an update makes of a stored name: the stored one without trailing white space, or the new one. */
  lemma UpdatedName(s: Store, c: Command)
    requires NamesTitled(s) && c.UpdateCustomer? && Guarded(c) && c.customer in s.customers
    ensures var before := CustomerAt(s, c.customer);
            && HasTitle(if IsBlankish(c.name) then before.name else c.name)
            && FitsProfile(if IsBlankish(c.name) then before.name else c.name,
                           if IsBlankish(c.address) then before.address else c.address)
  {
    TrimmedNameKeepsTitle(s.customers[c.customer].name);
    UpdateCheckAgainstCreateCheck(c.name);
  }

  lemma CustomerUpdateWide(s: Store, c: Command)
    requires WellFormed(s) && DatesPrint(s) && c.UpdateCustomer? && Guarded(c) && ApplyUpdateCustomer(s, c).outcome.Success?
    ensures var view := ApplyUpdateCustomer(s, c).outcome.view.customer;
            var t := Tran(c.stamp, OUC, CustomerDescription(c.stamp.sortcode, view), 0);
            |t.description| == WIDTH && ApplyUpdateCustomer(s, c).store.log == s.log + [t]
  {
    StoredNumbers(s);
    CustomerDescriptionRoundTrip(c.stamp.sortcode, ApplyUpdateCustomer(s, c).outcome.view.customer);
  }

  lemma UpdateCustomerSound(s: Store, c: Command)
    requires WellFormed(s) && Sound(s) && c.UpdateCustomer? && Guarded(c)
    ensures Sound(ApplyUpdateCustomer(s, c).store)
  {
    var r := ApplyUpdateCustomer(s, c);
    if c.customer in s.customers && r.outcome.Success? {
      UpdatedName(s, c);
      CustomerUpdateWide(s, c);
      LoggedSound(s, r.store, Tran(c.stamp, OUC, CustomerDescription(c.stamp.sortcode, r.outcome.view.customer), 0));
    }
  }

  /** One account row rewritten with the same statement dates, and one audit row of full width. */
  lemma RewrittenSound(s: Store, n: int, row: Account, t: Tran)
    requires Sound(s) && n in s.accounts && |t.description| == WIDTH
    requires row.last == s.accounts[n].last && row.next == s.accounts[n].next
    ensures Sound(s.(accounts := s.accounts[n := row], log := s.log + [t]))
  {
  }

  lemma UpdateAccountSound(s: Store, c: Command)
    requires WellFormed(s) && Sound(s) && c.UpdateAccount? && Guarded(c)
    ensures Sound(ApplyUpdateAccount(s, c).store)
  {
    var r := ApplyUpdateAccount(s, c);
    if r.outcome.Success? {
      UpdateFits(r.outcome.view.account);
      RewrittenSound(s, c.account, r.store.accounts[c.account], r.store.log[|s.log|]);
    }
  }

  lemma DeleteAccountSound(s: Store, c: Command)
    requires WellFormed(s) && Sound(s) && c.DeleteAccount? && Guarded(c)
    ensures Sound(ApplyDeleteAccount(s, c).store)
  {
    if c.account in s.accounts {
      StoredAccount(s, c.account, c.stamp);
    }
  }

  lemma RemovalSound(s: Store, customers: map<int, Customer>, numbers: seq<int>, trans: seq<Tran>, t: Tran)
    requires Sound(s) && Wide(trans) && |t.description| == WIDTH
    requires forall n :: n in customers ==> n in s.customers && customers[n] == s.customers[n]
    ensures Sound(Store(s.control, customers, s.accounts - Elements(numbers), s.log + trans + [t]))
  {
  }

  lemma DeletionsWide(s: Store, c: Command)
    requires WellFormed(s) && DatesPrint(s) && c.DeleteCustomer?
    ensures var trans := DeletionTrans(c.stamp, AccountsAt(s, Listed(s, c.customer)));
            Wide(trans) && LogFits(trans)
  {
    var numbers := Listed(s, c.customer);
    var trans := DeletionTrans(c.stamp, AccountsAt(s, numbers));
    forall i | 0 <= i < |trans|
      ensures |trans[i].description| == WIDTH && StorableTran(trans[i])
    {
      assert numbers[i] in Owned(s, c.customer);
      StoredAccount(s, numbers[i], c.stamp);
    }
  }

  lemma DeleteCustomerSound(s: Store, c: Command)
    requires WellFormed(s) && Sound(s) && c.DeleteCustomer? && Guarded(c)
    ensures Sound(ApplyDeleteCustomer(s, c).store)
  {
    if ApplyDeleteCustomer(s, c).outcome.Success? {
      DeletionSpelledOut(s, c);
      DeletionsWide(s, c);
      StoredCustomer(s, c.customer, c.stamp);
      var numbers := Listed(s, c.customer);
      RemovalSound(s, s.customers - {c.customer}, numbers, DeletionTrans(c.stamp, AccountsAt(s, numbers)),
                   Tran(c.stamp, ODC, CustomerDescription(c.stamp.sortcode, CustomerAt(s, c.customer)), 0));
    }
  }

  lemma PostSound(s: Store, c: Command)
    requires WellFormed(s) && Sound(s) && c.Post? && Guarded(c)
    ensures Sound(ApplyPost(s, c).store)
  {
    assert |PostDescription(c.facility, c.amount, c.origin)| == WIDTH;
  }

  lemma MovedSound(s: Store, c: Command)
    requires Sound(s) && c.Transfer? && Movable(s, c) && Guarded(c)
    ensures Sound(Moved(s, c))
  {
    PaymentDescriptionRoundTrip(c.stamp.sortcode, c.to, 0, 0, "");
    LoggedSound(s, Moved(s, c), TransferTran(c));
  }

  lemma TransferSound(s: Store, c: Command)
    requires WellFormed(s) && Sound(s) && c.Transfer? && Guarded(c)
    ensures Sound(ApplyTransfer(s, c).store)
  {
    TransferSpelledOut(s, c);
    if ApplyTransfer(s, c).outcome.Success? {
      MovedSound(s, c);
    }
  }

  lemma StepSound(s: Store, c: Command)
    requires WellFormed(s) && Sound(s) && Guarded(c)
    ensures Sound(Apply(c, s).store)
  {
    match c {
      case CreateCustomer(_, _, _, _, _, _) => CreateCustomerSound(s, c);
      case CreateAccount(_, _, _, _, _, _, _, _, _, _) => CreateAccountSound(s, c);
      case UpdateCustomer(_, _, _, _) => UpdateCustomerSound(s, c);
      case UpdateAccount(_, _, _, _, _) => UpdateAccountSound(s, c);
      case DeleteAccount(_, _) => DeleteAccountSound(s, c);
      case DeleteCustomer(_, _) => DeleteCustomerSound(s, c);
      case Post(_, _, _, _, _) => PostSound(s, c);
      case Transfer(_, _, _, _) => TransferSound(s, c);
    }
  }

  // Whole runs.

  /**
   * In every state admitted commands can reach, each stored name has a title by CRECUST's check,
   * names and addresses fit, and every description in the audit log is exactly 40 characters.
   */
  lemma {:induction false} GuardedIsSound(commands: seq<Command>)
    requires AllGuarded(commands)
    ensures var s := Replay(EMPTY_STORE, commands); WellFormed(s) && Sound(s)
  {
    ReachableIsWellFormed(commands);
    if commands != [] {
      var before := commands[..|commands| - 1];
      GuardedIsSound(before);
      StepSound(Replay(EMPTY_STORE, before), commands[|commands| - 1]);
    }
  }

  lemma GuardedTransfer(c: Command)
    requires Guarded(c) && c.Transfer?
    ensures c.from != c.to
  {
  }

  lemma GuardedNeverToItself(commands: seq<Command>)
    requires AllGuarded(commands)
    ensures NoSelfTransfer(commands)
  {
    forall i | 0 <= i < |commands| && commands[i].Transfer?
      ensures commands[i].from != commands[i].to
    {
      GuardedTransfer(commands[i]);
    }
  }

  /** The services' guards make the books balance outright. */
  lemma GuardedBooksBalance(commands: seq<Command>)
    requires AllGuarded(commands)
    ensures var s := Replay(EMPTY_STORE, commands); MoneyHeld(s) == OpeningTotal(EMPTY_STORE, commands) + Net(s.log)
  {
    GuardedNeverToItself(commands);
    GuardedReconciliation(commands);
  }

  /** A guarded command overdraws an account only at the counter or when it opens one overdrawn. */
  lemma GuardedFunds(c: Command)
    requires Guarded(c)
    ensures !KeepsFunds(c) <==>
            (c.CreateAccount? && c.available < 0) || (c.Post? && c.facility != 496 && c.amount < 0)
  {
  }

  // Deleting a customer.

  /** The rows of one customer and its accounts are gone, and all others are as they were. */
  ghost predicate OnlyGone(s: Store, after: Store, customer: int) {
    && after.customers == s.customers - {customer}
    && Owned(after, customer) == {}
    && forall n :: n in s.accounts && s.accounts[n].customer != customer ==>
         n in after.accounts && after.accounts[n] == s.accounts[n]
  }

  /** The log grew by the deletion row of each of the numbered accounts, in that order, and then `t`. */
  ghost predicate LogsDeletions(s: Store, log: seq<Tran>, numbers: seq<int>, stamp: Stamp, t: Tran)
    requires forall i :: 0 <= i < |numbers| ==> numbers[i] in s.accounts
  {
    && |log| == |s.log| + |numbers| + 1 && log[..|s.log|] == s.log && log[|log| - 1] == t
    && forall i :: 0 <= i < |numbers| ==> log[|s.log| + i] == DeletionTran(stamp, AccountAt(s, numbers[i]))
  }

  lemma RemovalGone(s: Store, customer: int, numbers: seq<int>, log: seq<Tran>)
    requires Elements(numbers) == Owned(s, customer)
    ensures OnlyGone(s, Store(s.control, s.customers - {customer}, s.accounts - Elements(numbers), log), customer)
  {
  }

  lemma RemovalLogged(s: Store, numbers: seq<int>, stamp: Stamp, t: Tran)
    requires forall i :: 0 <= i < |numbers| ==> numbers[i] in s.accounts
    ensures LogsDeletions(s, s.log + DeletionTrans(stamp, AccountsAt(s, numbers)) + [t], numbers, stamp, t)
  {
    var trans := DeletionTrans(stamp, AccountsAt(s, numbers));
    var log := s.log + trans + [t];
    forall i | 0 <= i < |numbers|
      ensures log[|s.log| + i] == DeletionTran(stamp, AccountAt(s, numbers[i]))
    {
      assert log[|s.log| + i] == trans[i];
    }
  }

  /**
   * A successful deletion leaves no row of the customer or its accounts, touches nobody else's, and
   * logs one ODA row for each owned account, described as it was, in ascending order, and then the
   * customer's ODC row.
   */
  lemma CompleteCascade(s: Store, c: Command)
    requires c.DeleteCustomer? && ApplyDeleteCustomer(s, c).outcome.Success?
    ensures c.customer in s.customers && OnlyGone(s, ApplyDeleteCustomer(s, c).store, c.customer)
    ensures var numbers := Listed(s, c.customer);
            var t := Tran(c.stamp, ODC, CustomerDescription(c.stamp.sortcode, CustomerAt(s, c.customer)), 0);
            && LogsDeletions(s, ApplyDeleteCustomer(s, c).store.log, numbers, c.stamp, t)
            && Elements(numbers) == Owned(s, c.customer)
            && (forall i, j :: 0 <= i < j < |numbers| ==> numbers[i] < numbers[j])
  {
    DeletionSpelledOut(s, c);
    var numbers := Listed(s, c.customer);
    var t := Tran(c.stamp, ODC, CustomerDescription(c.stamp.sortcode, CustomerAt(s, c.customer)), 0);
    RemovalGone(s, c.customer, numbers, ApplyDeleteCustomer(s, c).store.log);
    RemovalLogged(s, numbers, c.stamp, t);
  }

  lemma DeletionOutcome(s: Store, c: Command)
    requires WellFormed(s) && DatesPrint(s) && c.DeleteCustomer? && IsSortcode(c.stamp.sortcode)
    ensures ApplyDeleteCustomer(s, c).outcome ==
            if c.customer !in s.customers then Failure("1")
            else if |Owned(s, c.customer)| > 20 then Abend("WPV7")
            else Success(OneCustomer(CustomerAt(s, c.customer)))
    ensures !ApplyDeleteCustomer(s, c).outcome.Success? ==> ApplyDeleteCustomer(s, c).store == s
  {
    if c.customer in s.customers {
      StoredCustomer(s, c.customer, c.stamp);
      DeletionsWide(s, c);
      ListedValid(s, c);
      var trans := DeletionTrans(c.stamp, AccountsAt(s, Listed(s, c.customer)));
      forall d | d in trans
        ensures StorableTran(d)
      {
        var i :| 0 <= i < |trans| && trans[i] == d;
      }
    }
  }

  lemma ListedValid(s: Store, c: Command)
    requires WellFormed(s) && DatesPrint(s) && c.DeleteCustomer?
    ensures forall a :: a in AccountsAt(s, Listed(s, c.customer)) ==> ValidAccount(a)
  {
    var numbers := Listed(s, c.customer);
    var accounts := AccountsAt(s, numbers);
    forall a | a in accounts
      ensures ValidAccount(a)
    {
      var i :| 0 <= i < |accounts| && accounts[i] == a;
      assert numbers[i] in Owned(s, c.customer);
      StoredAccount(s, numbers[i], c.stamp);
    }
  }

  /**
   * After any run of admitted commands a deletion succeeds exactly when the customer exists and owns
   * at most twenty accounts. With more, the foreign key forces the abend, and nothing has changed.
   */
  lemma DeletionEnds(commands: seq<Command>, c: Command)
    requires AllGuarded(commands) && c.DeleteCustomer? && Guarded(c)
    ensures var s := Replay(EMPTY_STORE, commands);
            ApplyDeleteCustomer(s, c).outcome ==
            if c.customer !in s.customers then Failure("1")
            else if |Owned(s, c.customer)| > 20 then Abend("WPV7")
            else Success(OneCustomer(CustomerAt(s, c.customer)))
    ensures var s := Replay(EMPTY_STORE, commands);
            !ApplyDeleteCustomer(s, c).outcome.Success? ==> ApplyDeleteCustomer(s, c).store == s
  {
    GuardedIsSound(commands);
    DeletionOutcome(Replay(EMPTY_STORE, commands), c);
  }

  // When admitted commands succeed, and what that says about funds.

  lemma NewAccountStorable(c: Command, a: Account)
    requires c.CreateAccount? && Guarded(c) && 1 <= a.number <= MAX_ACCOUNT_NUMBER && a == NewAccount(a.number, c)
    ensures ValidAccount(a) && StorableAccount(a)
    ensures StorableTran(Tran(c.stamp, OCA, AccountDescription(a, OPENED_TAIL), 0))
  {
    AccountDescriptionRoundTrip(a, OPENED_TAIL);
  }

  /** An admitted creation for an existing customer succeeds until the account numbers run out. */
  lemma CreationSucceeds(s: Store, c: Command)
    requires WellFormed(s) && c.CreateAccount? && Guarded(c)
    ensures Openable(s, c) <==> c.customer in s.customers && s.control.value.accountLast < 99999999
    ensures ApplyCreateAccount(s, c).outcome.Success? <==> Openable(s, c)
  {
    OpeningSucceeds(s, c);
    var n := s.control.value.accountLast + 1;
    if n <= MAX_ACCOUNT_NUMBER {
      NewAccountStorable(c, NewAccount(n, c));
    }
  }

  /** An admitted registration with a credit score in range succeeds until the customer numbers run out. */
  lemma RegistrationSucceeds(s: Store, c: Command)
    requires WellFormed(s) && c.CreateCustomer? && Guarded(c) && c.score <= 999
    ensures ApplyCreateCustomer(s, c).outcome.Success? <==> s.control.value.customerLast < 9999999999
  {
    var n := s.control.value.customerLast + 1;
    if n <= MAX_CUSTOMER_NUMBER {
      CustomerDescriptionRoundTrip(c.stamp.sortcode, NewCustomer(n, c));
    }
  }

  /** An admitted counter posting goes through exactly when the account is there and both balances stay in range. */
  lemma CounterPostingSucceeds(s: Store, c: Command)
    requires WellFormed(s) && c.Post? && Guarded(c) && c.facility != 496
    ensures Postable(s, c) <==>
            && c.account in s.accounts
            && Numeric12(s.accounts[c.account].available + c.amount) && Numeric12(s.accounts[c.account].actual + c.amount)
  {
    StoredNumbers(s);
  }

  /**
   * From a reachable store without negative balances, an admitted command makes one if and only if it
   * withdraws at the counter more than is available, within the columns' range, or opens an account
   * overdrawn while numbers are left. No admitted transfer ever does.
   */
  lemma GuardedStepFunds(s: Store, c: Command)
    requires WellFormed(s) && NonNegative(s) && Guarded(c)
    ensures NonNegative(Apply(c, s).store) <==>
            match c
            case CreateAccount(customer, _, _, _, available, _, _, _, _, _) =>
              available >= 0 || customer !in s.customers || s.control.value.accountLast >= 99999999
            case Post(n, amount, facility, _, _) =>
              || facility == 496 || n !in s.accounts || s.accounts[n].available + amount >= 0
              || !Numeric12(s.accounts[n].available + amount) || !Numeric12(s.accounts[n].actual + amount)
            case _ => true
  {
    StepFunds(s, c);
    if c.CreateAccount? {
      CreationSucceeds(s, c);
    } else if c.Post? && c.facility != 496 {
      CounterPostingSucceeds(s, c);
    }
  }
}
