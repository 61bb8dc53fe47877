/**
 * What holds in every state the programs can reach from the empty database, by any commands in
 * any order: the rows fit their columns, references resolve, and the counters agree with the log.
 */
module Runs {
  import Audit
  import opened Ledger
  import opened Numbers
  import opened Records
  import opened Totals

  // Counting and summing the audit log.

  ghost function Count(log: seq<Tran>, kind: TranType): nat {
    if log == [] then 0
    else Count(log[..|log| - 1], kind) + if log[|log| - 1].kind == kind then 1 else 0
  }

  /** What a row says about the money held: postings add their amount, deletions take the balance out. */
  function Effect(t: Tran): int {
    match t.kind
    case CRE => t.amount
    case DEB => t.amount
    case PCR => t.amount
    case PDR => t.amount
    case ODA => -t.amount
    case _ => 0
  }

  ghost function Net(log: seq<Tran>): int {
    if log == [] then 0 else Net(log[..|log| - 1]) + Effect(log[|log| - 1])
  }

  lemma NetAppend(log: seq<Tran>, t: Tran)
    ensures Net(log + [t]) == Net(log) + Effect(t)
  {
    assert (log + [t])[..|log|] == log;
  }

  lemma CountAppend(log: seq<Tran>, t: Tran)
    ensures forall k :: Count(log + [t], k) == Count(log, k) + if t.kind == k then 1 else 0
  {
    assert (log + [t])[..|log|] == log;
  }

  function Actual(a: Account): int { a.actual }

  ghost function MoneyHeld(s: Store): int {
    Total(s.accounts, Actual)
  }

  // Row integrity.

  ghost predicate AccountsFit(s: Store) {
    s.control.Some? && forall n :: n in s.accounts ==>
      && 1 <= n <= s.control.value.accountLast
      && s.accounts[n].customer in s.customers
      && StorableAccount(s.accounts[n])
  }

  ghost predicate CustomersFit(s: Store) {
    s.control.Some? && forall n :: n in s.customers ==>
      1 <= n <= s.control.value.customerLast && StorableCustomer(s.customers[n])
  }

  ghost predicate LogFits(log: seq<Tran>) {
    forall i :: 0 <= i < |log| ==> StorableTran(log[i])
  }

  /** The counters agree with the log, and the tables with the counters. */
  ghost predicate CountersAgree(s: Store) {
    && s.control.Some?
    && var c := s.control.value;
       && c.accountCount == c.accountLast == Count(s.log, OCA) <= MAX_ACCOUNT_NUMBER
       && c.customerCount == c.customerLast == Count(s.log, OCC) <= MAX_CUSTOMER_NUMBER
       && |s.accounts| == Count(s.log, OCA) - Count(s.log, ODA)
       && |s.customers| == Count(s.log, OCC) - Count(s.log, ODC)
  }

  ghost predicate WellFormed(s: Store) {
    AccountsFit(s) && CustomersFit(s) && LogFits(s.log) && CountersAgree(s)
  }

  lemma {:induction false} DeletionsInLog(log: seq<Tran>, stamp: Stamp, accounts: seq<Account>)
    ensures var after := log + DeletionTrans(stamp, accounts);
            && (forall k :: Count(after, k) == Count(log, k) + if k == ODA then |accounts| else 0)
            && Net(after) == Net(log) - Balances(accounts)
  {
    if accounts == [] {
      assert log + DeletionTrans(stamp, accounts) == log;
    } else {
      var rest, last := accounts[..|accounts| - 1], accounts[|accounts| - 1];
      DeletionsInLog(log, stamp, rest);
      DeletionSplits(log, stamp, rest, last);
      assert rest + [last] == accounts;
      NetAppend(log + DeletionTrans(stamp, rest), DeletionTran(stamp, last));
      CountAppend(log + DeletionTrans(stamp, rest), DeletionTran(stamp, last));
    }
  }

  lemma DeletionSplits(log: seq<Tran>, stamp: Stamp, rest: seq<Account>, last: Account)
    ensures log + DeletionTrans(stamp, rest + [last]) == log + DeletionTrans(stamp, rest) + [DeletionTran(stamp, last)]
  {
  }

  ghost function Balances(accounts: seq<Account>): int {
    if accounts == [] then 0 else Balances(accounts[..|accounts| - 1]) + accounts[|accounts| - 1].actual
  }

  lemma RemoveOneMore(m: map<int, Account>, front: seq<int>, n: int)
    requires n in m && n !in front
    ensures var left := m - Elements(front);
            && n in left && left - {n} == m - Elements(front + [n])
            && |m - Elements(front + [n])| == |left| - 1
            && Total(left, Actual) == m[n].actual + Total(m - Elements(front + [n]), Actual)
  {
    var left := m - Elements(front);
    TotalWithout(left, Actual, n);
    assert left - {n} == m - Elements(front + [n]);
    assert left.Keys == (left - {n}).Keys + {n};
  }

  /** Removing distinct rows takes their number out of the table and their balances out of the total. */
  lemma {:induction false} RemoveRows(s: Store, numbers: seq<int>)
    requires forall i :: 0 <= i < |numbers| ==> numbers[i] in s.accounts
    requires forall i, j :: 0 <= i < j < |numbers| ==> numbers[i] < numbers[j]
    ensures var rest := s.accounts - Elements(numbers);
            && |rest| == |s.accounts| - |numbers|
            && Total(rest, Actual) == MoneyHeld(s) - Balances(AccountsAt(s, numbers))
  {
    if numbers == [] {
      assert s.accounts - Elements(numbers) == s.accounts;
    } else {
      var front, n := numbers[..|numbers| - 1], numbers[|numbers| - 1];
      RemoveRows(s, front);
      RemoveOneMore(s.accounts, front, n);
      BalancesGrow(s, front, n);
      assert front + [n] == numbers;
    }
  }

  lemma BalancesGrow(s: Store, front: seq<int>, n: int)
    requires n in s.accounts && forall i :: 0 <= i < |front| ==> front[i] in s.accounts
    ensures Balances(AccountsAt(s, front + [n])) == Balances(AccountsAt(s, front)) + s.accounts[n].actual
  {
    assert AccountsAt(s, front + [n])[..|front|] == AccountsAt(s, front);
  }

  // Every program keeps the rows well-formed.

  lemma CreateCustomerKeeps(s: Store, c: Command)
    requires WellFormed(s) && c.CreateCustomer?
    ensures WellFormed(ApplyCreateCustomer(s, c).store)
  {
    var r := ApplyCreateCustomer(s, c);
    if r.outcome.Success? {
      CountAppend(s.log, r.store.log[|s.log|]);
    }
  }

  lemma OneMoreRow<V>(m: map<int, V>, n: int, v: V)
    requires n !in m
    ensures |m[n := v]| == |m| + 1
  {
    assert m[n := v].Keys == m.Keys + {n};
  }

  lemma OpenedKeepsRows(s: Store, n: int, a: Account, log: seq<Tran>)
    requires WellFormed(s) && n == s.control.value.accountLast + 1 && a.customer in s.customers && StorableAccount(a)
    ensures var after := Store(Some(AccountReserved(s.control.value)), s.customers, s.accounts[n := a], log);
            AccountsFit(after) && CustomersFit(after)
  {
  }

  /** The next account in the table, the counters and the log at once. */
  lemma OpenedKeeps(s: Store, n: int, a: Account, t: Tran)
    requires WellFormed(s) && n == s.control.value.accountLast + 1 <= MAX_ACCOUNT_NUMBER
    requires a.customer in s.customers && StorableAccount(a) && t.kind == OCA && StorableTran(t)
    ensures WellFormed(Store(Some(AccountReserved(s.control.value)), s.customers, s.accounts[n := a], s.log + [t]))
  {
    OpenedKeepsRows(s, n, a, s.log + [t]);
    OneMoreRow(s.accounts, n, a);
    CountAppend(s.log, t);
  }

  lemma CreateAccountKeeps(s: Store, c: Command)
    requires WellFormed(s) && c.CreateAccount?
    ensures WellFormed(ApplyCreateAccount(s, c).store)
  {
    if ApplyCreateAccount(s, c).outcome.Success? {
      var n := s.control.value.accountLast + 1;
      var a := NewAccount(n, c);
      OpenedKeeps(s, n, a, Tran(c.stamp, OCA, Audit.AccountDescription(a, Audit.OPENED_TAIL), 0));
    }
  }

  /** Rewriting account rows without moving them, plus one audit row of a kind nobody counts. */
  lemma RewriteKeeps(s: Store, accounts: map<int, Account>, t: Tran)
    requires WellFormed(s) && accounts.Keys == s.accounts.Keys
    requires forall n :: n in accounts ==> accounts[n].customer == s.accounts[n].customer && StorableAccount(accounts[n])
    requires StorableTran(t) && t.kind !in {OCA, ODA, OCC, ODC}
    ensures WellFormed(s.(accounts := accounts, log := s.log + [t]))
  {
    CountAppend(s.log, t);
    assert |accounts| == |accounts.Keys|;
  }

  lemma UpdateCustomerKeeps(s: Store, c: Command)
    requires WellFormed(s) && c.UpdateCustomer?
    ensures WellFormed(ApplyUpdateCustomer(s, c).store)
  {
    var r := ApplyUpdateCustomer(s, c);
    if r.outcome.Success? {
      CountAppend(s.log, r.store.log[|s.log|]);
      assert r.store.customers.Keys == s.customers.Keys;
    }
  }

  lemma UpdateAccountKeeps(s: Store, c: Command)
    requires WellFormed(s) && c.UpdateAccount?
    ensures WellFormed(ApplyUpdateAccount(s, c).store)
  {
    var r := ApplyUpdateAccount(s, c);
    if r.outcome.Success? {
      RewriteKeeps(s, r.store.accounts, r.store.log[|s.log|]);
    }
  }

  lemma PostKeeps(s: Store, c: Command)
    requires WellFormed(s) && c.Post?
    ensures WellFormed(ApplyPost(s, c).store)
  {
    var r := ApplyPost(s, c);
    if r.outcome.Success? {
      RewriteKeeps(s, r.store.accounts, r.store.log[|s.log|]);
    }
  }

  /** The two rows a transfer rewrites and the row it logs. */
  ghost function Moved(s: Store, c: Command): Store
    requires c.Transfer? && c.from in s.accounts && c.to in s.accounts
  {
    var f, g := s.accounts[c.from], s.accounts[c.to];
    var f2 := f.(available := f.available - c.amount, actual := f.actual - c.amount);
    var g2 := g.(available := g.available + c.amount, actual := g.actual + c.amount);
    s.(accounts := s.accounts[c.from := f2][c.to := g2], log := s.log + [TransferTran(c)])
  }

  /** Both accounts can be loaded. */
  ghost predicate Loadable(s: Store, n: int) {
    n in s.accounts && ValidAccount(AccountAt(s, n))
  }

  /** The checks on the funds and the ranges of a transfer's columns. */
  ghost predicate Fundable(s: Store, c: Command)
    requires c.Transfer? && c.from in s.accounts && c.to in s.accounts
  {
    var f, g := s.accounts[c.from], s.accounts[c.to];
    && f.available - c.amount >= 0 && f.actual - c.amount >= -f.overdraft
    && Numeric12(f.available - c.amount) && Numeric12(f.actual - c.amount)
    && Numeric12(g.available + c.amount) && Numeric12(g.actual + c.amount)
    && StorableTran(TransferTran(c))
  }

  /** When a transfer succeeds, in terms of the store before it. */
  ghost predicate Movable(s: Store, c: Command)
    requires c.Transfer?
  {
    Loadable(s, c.from) && Loadable(s, c.to) && Fundable(s, c)
  }

  lemma RefusalSpelledOut(s: Store, from: int, to: int)
    ensures var refusal := TransferRefusal(s, from, to);
            && (refusal.None? <==> Loadable(s, from) && Loadable(s, to))
            && (refusal.Some? ==> !refusal.value.Success?)
  {
  }

  lemma FundsSpelledOut(s: Store, c: Command)
    requires c.Transfer? && c.from in s.accounts && c.to in s.accounts
    ensures var r := MoveFunds(s, c);
            && (r.outcome.Success? <==> Fundable(s, c))
            && r.store == if r.outcome.Success? then Moved(s, c) else s
  {
  }

  /** A transfer succeeds exactly when it is movable, and then moves the funds; else nothing changes. */
  lemma TransferSpelledOut(s: Store, c: Command)
    requires c.Transfer?
    ensures var r := ApplyTransfer(s, c);
            && (r.outcome.Success? <==> Movable(s, c))
            && r.store == if r.outcome.Success? then Moved(s, c) else s
  {
    RefusalSpelledOut(s, c.from, c.to);
    if TransferRefusal(s, c.from, c.to).None? {
      FundsSpelledOut(s, c);
    }
  }

  lemma MovedKeeps(s: Store, c: Command)
    requires WellFormed(s) && c.Transfer? && Movable(s, c)
    ensures WellFormed(Moved(s, c))
  {
    RewriteKeeps(s, Moved(s, c).accounts, TransferTran(c));
  }

  lemma TransferKeeps(s: Store, c: Command)
    requires WellFormed(s) && c.Transfer?
    ensures WellFormed(ApplyTransfer(s, c).store)
  {
    TransferSpelledOut(s, c);
    if ApplyTransfer(s, c).outcome.Success? {
      MovedKeeps(s, c);
    }
  }

  lemma DeleteAccountKeeps(s: Store, c: Command)
    requires WellFormed(s) && c.DeleteAccount?
    ensures WellFormed(ApplyDeleteAccount(s, c).store)
  {
    var r := ApplyDeleteAccount(s, c);
    if r.outcome.Success? {
      CountAppend(s.log, r.store.log[|s.log|]);
      assert s.accounts.Keys == r.store.accounts.Keys + {c.account};
    }
  }

  /** A successful deletion, spelled out: the rows it takes and the rows it logs. */
  lemma DeletionSpelledOut(s: Store, c: Command)
    requires c.DeleteCustomer? && ApplyDeleteCustomer(s, c).outcome.Success?
    ensures var numbers := Listed(s, c.customer);
            var trans := DeletionTrans(c.stamp, AccountsAt(s, numbers));
            var t := Tran(c.stamp, ODC, Audit.CustomerDescription(c.stamp.sortcode, CustomerAt(s, c.customer)), 0);
            && c.customer in s.customers
            && ApplyDeleteCustomer(s, c).store
               == Store(s.control, s.customers - {c.customer}, s.accounts - Elements(numbers), s.log + trans + [t])
            && Elements(numbers) == Owned(s, c.customer)
            && StorableTran(t) && LogFits(trans)
  {
    ListedCoversOwned(s, c.customer);
    AllStorable(DeletionTrans(c.stamp, AccountsAt(s, Listed(s, c.customer))));
  }

  lemma AllStorable(trans: seq<Tran>)
    requires forall d :: d in trans ==> StorableTran(d)
    ensures LogFits(trans)
  {
    forall i | 0 <= i < |trans|
      ensures StorableTran(trans[i])
    {
      assert trans[i] in trans;
    }
  }

  lemma DeleteCustomerKeeps(s: Store, c: Command)
    requires WellFormed(s) && c.DeleteCustomer?
    ensures WellFormed(ApplyDeleteCustomer(s, c).store)
  {
    if ApplyDeleteCustomer(s, c).outcome.Success? {
      DeletionSpelledOut(s, c);
      var t := Tran(c.stamp, ODC, Audit.CustomerDescription(c.stamp.sortcode, CustomerAt(s, c.customer)), 0);
      CascadeKeeps(s, c.customer, Listed(s, c.customer), c.stamp, t);
    }
  }

  lemma CascadeKeeps(s: Store, customer: int, numbers: seq<int>, stamp: Stamp, t: Tran)
    requires WellFormed(s) && customer in s.customers && Elements(numbers) == Owned(s, customer)
    requires forall i :: 0 <= i < |numbers| ==> numbers[i] in s.accounts
    requires forall i, j :: 0 <= i < j < |numbers| ==> numbers[i] < numbers[j]
    requires t.kind == ODC && StorableTran(t) && LogFits(DeletionTrans(stamp, AccountsAt(s, numbers)))
    ensures WellFormed(Store(s.control, s.customers - {customer}, s.accounts - Elements(numbers),
                             s.log + DeletionTrans(stamp, AccountsAt(s, numbers)) + [t]))
  {
    var trans := DeletionTrans(stamp, AccountsAt(s, numbers));
    RemoveRows(s, numbers);
    DeletionsInLog(s.log, stamp, AccountsAt(s, numbers));
    CountAppend(s.log + trans, t);
    LogFitsExtended(s.log, trans, t);
    RemovalKeeps(s, customer, numbers, s.log + trans + [t]);
  }

  lemma LogFitsExtended(log: seq<Tran>, trans: seq<Tran>, t: Tran)
    requires LogFits(log) && LogFits(trans) && StorableTran(t)
    ensures LogFits(log + trans + [t])
  {
  }

  lemma RemovalKeeps(s: Store, customer: int, numbers: seq<int>, log: seq<Tran>)
    requires WellFormed(s) && customer in s.customers && Elements(numbers) == Owned(s, customer) && LogFits(log)
    requires |s.accounts - Elements(numbers)| == |s.accounts| - |numbers|
    requires forall k :: Count(log, k) == Count(s.log, k) + if k == ODA then |numbers| else if k == ODC then 1 else 0
    ensures WellFormed(Store(s.control, s.customers - {customer}, s.accounts - Elements(numbers), log))
  {
    RemovalKeepsRows(s, customer, numbers, log);
    RemovalKeepsCounters(s, customer, numbers, log);
  }

  lemma RemovalKeepsRows(s: Store, customer: int, numbers: seq<int>, log: seq<Tran>)
    requires AccountsFit(s) && CustomersFit(s) && Elements(numbers) == Owned(s, customer)
    ensures var left := Store(s.control, s.customers - {customer}, s.accounts - Elements(numbers), log);
            AccountsFit(left) && CustomersFit(left)
  {
  }

  lemma RemovalKeepsCounters(s: Store, customer: int, numbers: seq<int>, log: seq<Tran>)
    requires CountersAgree(s) && customer in s.customers
    requires |s.accounts - Elements(numbers)| == |s.accounts| - |numbers|
    requires forall k :: Count(log, k) == Count(s.log, k) + if k == ODA then |numbers| else if k == ODC then 1 else 0
    ensures CountersAgree(Store(s.control, s.customers - {customer}, s.accounts - Elements(numbers), log))
  {
    assert s.customers.Keys == (s.customers - {customer}).Keys + {customer};
  }

  lemma StepKeepsWellFormed(s: Store, c: Command)
    requires WellFormed(s)
    ensures WellFormed(Apply(c, s).store)
  {
    match c {
      case CreateCustomer(_, _, _, _, _, _) => CreateCustomerKeeps(s, c);
      case CreateAccount(_, _, _, _, _, _, _, _, _, _) => CreateAccountKeeps(s, c);
      case UpdateCustomer(_, _, _, _) => UpdateCustomerKeeps(s, c);
      case UpdateAccount(_, _, _, _, _) => UpdateAccountKeeps(s, c);
      case DeleteAccount(_, _) => DeleteAccountKeeps(s, c);
      case DeleteCustomer(_, _) => DeleteCustomerKeeps(s, c);
      case Post(_, _, _, _, _) => PostKeeps(s, c);
      case Transfer(_, _, _, _) => TransferKeeps(s, c);
    }
  }

  /**
   * In every reachable state the rows fit their columns, every account has its customer, and
   * the control row, the tables and the audit log count the same creations and deletions.
   */
  lemma {:induction false} ReachableIsWellFormed(commands: seq<Command>)
    ensures WellFormed(Replay(EMPTY_STORE, commands))
  {
    if commands != [] {
      ReachableIsWellFormed(commands[..|commands| - 1]);
      StepKeepsWellFormed(Replay(EMPTY_STORE, commands[..|commands| - 1]), commands[|commands| - 1]);
    }
  }
}
