/**
 * What every run keeps about single rows: numbers are issued in order and never again, an account
 * keeps its owner and the spread between its balances, and only a missing guard lets it overdraw.
 */
module Accounts {
  import Audit
  import opened Ledger
  import opened Records
  import opened Runs
  import Text

  /** Available less actual: the funds not yet cleared. */
  function Spread(a: Account): int {
    a.available - a.actual
  }

  ghost predicate Opens(s: Store, c: Command) {
    c.CreateAccount? && Apply(c, s).outcome.Success?
  }

  ghost predicate Registers(s: Store, c: Command) {
    c.CreateCustomer? && Apply(c, s).outcome.Success?
  }

  // One step.

  predicate SameAccount(a: Account, b: Account) {
    Spread(a) == Spread(b) && a.customer == b.customer && a.openedOn == b.openedOn
  }

  /** No account is new, and those that stay keep their owner, opening date and spread. */
  ghost predicate OpensNothing(before: Store, after: Store) {
    && (after.control.Some? <==> before.control.Some?)
    && (before.control.Some? ==> after.control.value.accountLast == before.control.value.accountLast)
    && forall n :: n in after.accounts ==> n in before.accounts && SameAccount(after.accounts[n], before.accounts[n])
  }

  ghost predicate RegistersNothing(before: Store, after: Store) {
    && (after.control.Some? <==> before.control.Some?)
    && (before.control.Some? ==> after.control.value.customerLast == before.control.value.customerLast)
    && forall n :: n in after.customers ==> n in before.customers && after.customers[n].dob == before.customers[n].dob
  }

  lemma OpenStep(s: Store, c: Command)
    requires c.CreateAccount?
    ensures var r := ApplyCreateAccount(s, c);
            if r.outcome.Success? then
              && s.control.Some? && r.store.control.Some?
              && var n, a := s.control.value.accountLast + 1, r.outcome.view;
                 && a.OneAccount? && a.account == NewAccount(n, c) && n !in s.accounts
                 && r.store.accounts == s.accounts[n := a.account] && r.store.control.value.accountLast == n
                 && a.account.available == c.available
            else r.store == s
    ensures RegistersNothing(s, ApplyCreateAccount(s, c).store)
  {
  }

  lemma RegisterStep(s: Store, c: Command)
    requires c.CreateCustomer?
    ensures var r := ApplyCreateCustomer(s, c);
            if r.outcome.Success? then
              && s.control.Some? && r.store.control.Some?
              && var n, v := s.control.value.customerLast + 1, r.outcome.view;
                 && v.OneCustomer? && v.customer.number == n && n !in s.customers
                 && r.store.customers == s.customers[n := v.customer] && r.store.control.value.customerLast == n
            else r.store == s
    ensures OpensNothing(s, ApplyCreateCustomer(s, c).store) && ApplyCreateCustomer(s, c).store.accounts == s.accounts
  {
  }

  /** Only names and addresses changed. */
  ghost predicate OnlyRenamed(s: Store, after: Store) {
    && after.control == s.control && after.accounts == s.accounts
    && forall n :: n in after.customers ==> n in s.customers && after.customers[n].dob == s.customers[n].dob
  }

  lemma UpdateCustomerStep(s: Store, c: Command)
    requires c.UpdateCustomer?
    ensures OnlyRenamed(s, ApplyUpdateCustomer(s, c).store)
  {
  }

  lemma RenamedOpensNothing(s: Store, after: Store)
    requires OnlyRenamed(s, after)
    ensures OpensNothing(s, after) && RegistersNothing(s, after)
  {
  }

  lemma UpdateAccountStep(s: Store, c: Command)
    requires c.UpdateAccount?
    ensures var after := ApplyUpdateAccount(s, c).store;
            && OpensNothing(s, after) && RegistersNothing(s, after)
            && forall n :: n in after.accounts ==> after.accounts[n].available == s.accounts[n].available
  {
  }

  lemma DeleteAccountStep(s: Store, c: Command)
    requires c.DeleteAccount?
    ensures var after := ApplyDeleteAccount(s, c).store;
            && OpensNothing(s, after) && RegistersNothing(s, after)
            && forall n :: n in after.accounts ==> after.accounts[n] == s.accounts[n]
  {
  }

  /** Rows taken away, and none changed. */
  ghost predicate OnlyFewer(s: Store, after: Store) {
    && after.control == s.control
    && (forall n :: n in after.accounts ==> n in s.accounts && after.accounts[n] == s.accounts[n])
    && (forall n :: n in after.customers ==> n in s.customers && after.customers[n] == s.customers[n])
  }

  lemma DeleteCustomerStep(s: Store, c: Command)
    requires c.DeleteCustomer?
    ensures OnlyFewer(s, ApplyDeleteCustomer(s, c).store)
  {
    if ApplyDeleteCustomer(s, c).outcome.Success? {
      DeletionSpelledOut(s, c);
    }
  }

  lemma FewerOpensNothing(s: Store, after: Store)
    requires OnlyFewer(s, after)
    ensures OpensNothing(s, after) && RegistersNothing(s, after)
  {
  }

  lemma PostStep(s: Store, c: Command)
    requires c.Post?
    ensures var r := ApplyPost(s, c);
            && OpensNothing(s, r.store) && RegistersNothing(s, r.store)
            && if r.outcome.Success? then
                 && c.account in s.accounts && r.store.accounts.Keys == s.accounts.Keys
                 && (c.facility == 496 && c.amount < 0 ==> s.accounts[c.account].available + c.amount >= 0)
                 && forall n :: n in s.accounts ==>
                      r.store.accounts[n].available == s.accounts[n].available + if n == c.account then c.amount else 0
               else r.store == s
  {
  }

  lemma TransferStep(s: Store, c: Command)
    requires c.Transfer?
    ensures var after := ApplyTransfer(s, c).store; OpensNothing(s, after) && RegistersNothing(s, after)
  {
    TransferSpelledOut(s, c);
  }

  /** A step opens the next account number, and nothing else, or no account at all. */
  lemma AccountStep(s: Store, c: Command)
    ensures var r := Apply(c, s);
            if Opens(s, c) then
              && s.control.Some? && r.store.control.Some?
              && var n, a := s.control.value.accountLast + 1, r.outcome.view;
                 && a.OneAccount? && a.account.number == n
                 && r.store.accounts == s.accounts[n := a.account] && r.store.control.value.accountLast == n
            else OpensNothing(s, r.store)
    ensures Registers(s, c) || RegistersNothing(s, Apply(c, s).store)
  {
    match c {
      case CreateCustomer(_, _, _, _, _, _) => RegisterStep(s, c);
      case CreateAccount(_, _, _, _, _, _, _, _, _, _) => OpenStep(s, c);
      case UpdateCustomer(_, _, _, _) =>
        UpdateCustomerStep(s, c);
        RenamedOpensNothing(s, ApplyUpdateCustomer(s, c).store);
      case UpdateAccount(_, _, _, _, _) => UpdateAccountStep(s, c);
      case DeleteAccount(_, _) => DeleteAccountStep(s, c);
      case DeleteCustomer(_, _) =>
        DeleteCustomerStep(s, c);
        FewerOpensNothing(s, ApplyDeleteCustomer(s, c).store);
      case Post(_, _, _, _, _) => PostStep(s, c);
      case Transfer(_, _, _, _) => TransferStep(s, c);
    }
  }

  // Whole runs.

  /** The accounts a run opened, as first stored, in the order of their creation. */
  ghost function Opened(s: Store, commands: seq<Command>): seq<Account> {
    if commands == [] then []
    else
      var before, c := commands[..|commands| - 1], commands[|commands| - 1];
      var at := Replay(s, before);
      if Opens(at, c) then
        OpenStep(at, c);
        Opened(s, before) + [Apply(c, at).outcome.view.account]
      else Opened(s, before)
  }

  ghost function Registered(s: Store, commands: seq<Command>): seq<Customer> {
    if commands == [] then []
    else
      var before, c := commands[..|commands| - 1], commands[|commands| - 1];
      var at := Replay(s, before);
      if Registers(at, c) then
        RegisterStep(at, c);
        Registered(s, before) + [Apply(c, at).outcome.view.customer]
      else Registered(s, before)
  }

  /** The accounts of `s` are among those first opened, numbered in order, and each is as it was opened. */
  ghost predicate AccountsMatch(s: Store, first: seq<Account>) {
    && s.control.Some? && |first| == s.control.value.accountLast
    && (forall i :: 0 <= i < |first| ==> first[i].number == i + 1)
    && forall n :: n in s.accounts ==> 1 <= n <= |first| && SameAccount(s.accounts[n], first[n - 1])
  }

  ghost predicate CustomersMatch(s: Store, first: seq<Customer>) {
    && s.control.Some? && |first| == s.control.value.customerLast
    && (forall i :: 0 <= i < |first| ==> first[i].number == i + 1)
    && forall n :: n in s.customers ==> 1 <= n <= |first| && s.customers[n].dob == first[n - 1].dob
  }

  lemma AccountsStillMatch(s: Store, after: Store, first: seq<Account>)
    requires AccountsMatch(s, first) && OpensNothing(s, after)
    ensures AccountsMatch(after, first)
  {
  }

  lemma OpenedMatches(s: Store, c: Command, first: seq<Account>)
    requires AccountsMatch(s, first) && c.CreateAccount? && ApplyCreateAccount(s, c).outcome.Success?
    ensures var r := ApplyCreateAccount(s, c);
            r.outcome.view.OneAccount? && AccountsMatch(r.store, first + [r.outcome.view.account])
  {
    OpenStep(s, c);
  }

  lemma CustomersStillMatch(s: Store, after: Store, first: seq<Customer>)
    requires CustomersMatch(s, first) && RegistersNothing(s, after)
    ensures CustomersMatch(after, first)
  {
  }

  lemma RegisteredMatches(s: Store, c: Command, first: seq<Customer>)
    requires CustomersMatch(s, first) && c.CreateCustomer? && ApplyCreateCustomer(s, c).outcome.Success?
    ensures var r := ApplyCreateCustomer(s, c);
            r.outcome.view.OneCustomer? && CustomersMatch(r.store, first + [r.outcome.view.customer])
  {
    RegisterStep(s, c);
  }

  /**
   * The account numbers ever committed are 1, 2, ... up to the control row's last number, each
   * issued once, and every account still open has the spread, owner and date it was opened with.
   */
  lemma {:induction false} AccountHistory(commands: seq<Command>)
    ensures AccountsMatch(Replay(EMPTY_STORE, commands), Opened(EMPTY_STORE, commands))
  {
    if commands != [] {
      var before, c := commands[..|commands| - 1], commands[|commands| - 1];
      var at, first := Replay(EMPTY_STORE, before), Opened(EMPTY_STORE, before);
      AccountHistory(before);
      if Opens(at, c) {
        OpenedMatches(at, c, first);
      } else {
        AccountStep(at, c);
        AccountsStillMatch(at, Apply(c, at).store, first);
      }
    }
  }

  /** Likewise for the customers: numbers 1, 2, ... in order, and a birth date never changes. */
  lemma {:induction false} CustomerHistory(commands: seq<Command>)
    ensures CustomersMatch(Replay(EMPTY_STORE, commands), Registered(EMPTY_STORE, commands))
  {
    if commands != [] {
      var before, c := commands[..|commands| - 1], commands[|commands| - 1];
      var at, first := Replay(EMPTY_STORE, before), Registered(EMPTY_STORE, before);
      CustomerHistory(before);
      if Registers(at, c) {
        RegisteredMatches(at, c, first);
      } else {
        AccountStep(at, c);
        CustomersStillMatch(at, Apply(c, at).store, first);
      }
    }
  }

  /** A deleted account's number never comes back, whatever runs afterwards. */
  lemma {:induction false} DeletedStaysDeleted(s: Store, commands: seq<Command>, n: int)
    requires s.control.Some? && n <= s.control.value.accountLast && n !in s.accounts
    ensures var after := Replay(s, commands);
            after.control.Some? && n <= after.control.value.accountLast && n !in after.accounts
  {
    if commands != [] {
      DeletedStaysDeleted(s, commands[..|commands| - 1], n);
      AccountStep(Replay(s, commands[..|commands| - 1]), commands[|commands| - 1]);
    }
  }

  // Funds.

  ghost predicate NonNegative(s: Store) {
    forall n :: n in s.accounts ==> s.accounts[n].available >= 0
  }

  /** When an account is opened, in terms of the store before. */
  ghost predicate Openable(s: Store, c: Command)
    requires c.CreateAccount?
  {
    && s.control.Some? && s.control.value.accountLast < MAX_ACCOUNT_NUMBER && s.control.value.accountCount < MAX_BIGINT
    && var n := s.control.value.accountLast + 1;
       var a := NewAccount(n, c);
       && ValidAccount(a) && StorableAccount(a) && n !in s.accounts && c.customer in s.customers
       && StorableTran(Tran(c.stamp, OCA, Audit.AccountDescription(a, Audit.OPENED_TAIL), 0))
  }

  /** When a posting goes through, in terms of the store before. */
  ghost predicate Postable(s: Store, c: Command)
    requires c.Post?
  {
    && Loadable(s, c.account)
    && var a := s.accounts[c.account];
       && (c.facility == 496 ==> !IsRestrictedType(a.kind) && (c.amount >= 0 || a.available + c.amount >= 0))
       && Numeric12(a.available + c.amount) && Numeric12(a.actual + c.amount) && Numeric12(c.amount)
       && |Audit.PostDescription(c.facility, c.amount, c.origin)| <= 40
  }

  lemma OpeningSucceeds(s: Store, c: Command)
    requires c.CreateAccount?
    ensures ApplyCreateAccount(s, c).outcome.Success? <==> Openable(s, c)
  {
  }

  lemma {:induction false} TrimEndTwice(text: string)
    ensures Text.TrimEnd(Text.TrimEnd(text)) == Text.TrimEnd(text)
  {
    if text != [] && Text.IsSpace(text[|text| - 1]) {
      TrimEndTwice(text[..|text| - 1]);
    }
  }

  lemma PostingSucceeds(s: Store, c: Command)
    requires c.Post?
    ensures ApplyPost(s, c).outcome.Success? <==> Postable(s, c)
  {
    if c.account in s.accounts {
      TrimEndTwice(s.accounts[c.account].kind);
    }
  }

  /**
   * The three ways past the funds checks, told from the command and the store before it: an account
   * opened overdrawn, a withdrawal at the counter of more than is available, and a negative transfer of
   * more than the receiver has. Each also has to meet the limits the program does check.
   */
  ghost predicate Overdraws(s: Store, c: Command) {
    match c
    case CreateAccount(_, _, _, _, available, _, _, _, _, _) => available < 0 && Openable(s, c)
    case Post(n, amount, facility, _, _) =>
      facility != 496 && Postable(s, c) && s.accounts[n].available + amount < 0
    case Transfer(_, to, amount, _) => Movable(s, c) && s.accounts[to].available + amount < 0
    case _ => false
  }

  lemma PostFunds(s: Store, c: Command)
    requires NonNegative(s) && c.Post?
    ensures NonNegative(ApplyPost(s, c).store) <==> !Overdraws(s, c)
  {
    PostStep(s, c);
    PostingSucceeds(s, c);
    if ApplyPost(s, c).outcome.Success? {
      assert c.account in ApplyPost(s, c).store.accounts;
    }
  }

  lemma MovedFunds(s: Store, c: Command)
    requires NonNegative(s) && c.Transfer? && Movable(s, c)
    ensures NonNegative(Moved(s, c)) <==> s.accounts[c.to].available + c.amount >= 0
  {
    assert Moved(s, c).accounts[c.to].available == s.accounts[c.to].available + c.amount;
  }

  lemma TransferFunds(s: Store, c: Command)
    requires NonNegative(s) && c.Transfer?
    ensures NonNegative(ApplyTransfer(s, c).store) <==> !Overdraws(s, c)
  {
    TransferSpelledOut(s, c);
    if ApplyTransfer(s, c).outcome.Success? {
      MovedFunds(s, c);
    }
  }

  lemma OpeningFunds(s: Store, c: Command)
    requires NonNegative(s) && c.CreateAccount?
    ensures NonNegative(ApplyCreateAccount(s, c).store) <==> !Overdraws(s, c)
  {
    OpenStep(s, c);
    OpeningSucceeds(s, c);
    var r := ApplyCreateAccount(s, c);
    if r.outcome.Success? {
      assert r.store.accounts[r.outcome.view.account.number].available == c.available;
    }
  }

  /** From a state without negative balances, exactly those three make one. */
  lemma StepFunds(s: Store, c: Command)
    requires NonNegative(s)
    ensures NonNegative(Apply(c, s).store) <==> !Overdraws(s, c)
  {
    match c {
      case CreateCustomer(_, _, _, _, _, _) => RegisterStep(s, c);
      case CreateAccount(_, _, _, _, _, _, _, _, _, _) => OpeningFunds(s, c);
      case UpdateCustomer(_, _, _, _) => UpdateCustomerStep(s, c);
      case UpdateAccount(_, _, _, _, _) => UpdateAccountStep(s, c);
      case DeleteAccount(_, _) => DeleteAccountStep(s, c);
      case DeleteCustomer(_, _) => DeleteCustomerStep(s, c);
      case Post(_, _, _, _, _) => PostFunds(s, c);
      case Transfer(_, _, _, _) => TransferFunds(s, c);
    }
  }

  /** No counter debit, no account opened overdrawn, and only positive transfers. */
  predicate KeepsFunds(c: Command) {
    match c
    case CreateAccount(_, _, _, _, available, _, _, _, _, _) => available >= 0
    case Post(_, amount, facility, _, _) => facility == 496 || amount >= 0
    case Transfer(_, _, amount, _) => amount > 0
    case _ => true
  }

  /** Over any run of such commands the payment check and the transfer check keep every balance at or above zero. */
  lemma {:induction false} FundsStayNonNegative(commands: seq<Command>)
    requires forall i :: 0 <= i < |commands| ==> KeepsFunds(commands[i])
    ensures NonNegative(Replay(EMPTY_STORE, commands))
  {
    if commands != [] {
      var before := Replay(EMPTY_STORE, commands[..|commands| - 1]);
      FundsStayNonNegative(commands[..|commands| - 1]);
      StepFunds(before, commands[|commands| - 1]);
    }
  }

  /** A counter withdrawal is not checked: any stored account can be overdrawn by one, storage limits aside. */
  lemma CounterDebitOverdraws(s: Store, n: int, facility: int, origin: string, stamp: Stamp)
    requires n in s.accounts && ValidAccount(AccountAt(s, n)) && facility != 496
    requires 0 <= s.accounts[n].available < 999999999999 && Numeric12(s.accounts[n].actual - s.accounts[n].available - 1)
    ensures var r := Apply(Post(n, -s.accounts[n].available - 1, facility, origin, stamp), s);
            r.outcome.Success? && r.store.accounts[n].available == -1
  {
    var t := Audit.PostDescription(facility, -s.accounts[n].available - 1, origin);
    assert |t| == 40;
  }
}
