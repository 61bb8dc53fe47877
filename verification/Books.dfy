/** The money in the branch: what a transfer conserves, and how whole runs reconcile with the audit log. */
module Books {
  import opened Ledger
  import opened Numbers
  import opened Records
  import opened Runs
  import opened Totals

  function Available(a: Account): int { a.available }

  // One step.

  /** The balance a successful account creation brings in. */
  ghost function Opening(s: Store, c: Command): int {
    if c.CreateAccount? && Apply(c, s).outcome.Success? then c.actual else 0
  }

  /** The money a successful transfer from an account to itself makes out of nothing. */
  ghost function Minted(s: Store, c: Command): int {
    if c.Transfer? && c.from == c.to && Apply(c, s).outcome.Success? then c.amount else 0
  }

  lemma MovedTotals(m: map<int, Account>, w: Account -> int, from: int, to: int, f2: Account, g2: Account, amount: int)
    requires from in m && to in m
    requires w(f2) == w(m[from]) - amount && w(g2) == w(m[to]) + amount
    ensures Total(m[from := f2][to := g2], w) == Total(m, w) + if from == to then amount else 0
  {
    TotalPut(m, w, from, f2);
    TotalPut(m[from := f2], w, to, g2);
  }

  lemma RewriteMoney(s: Store, n: int, row: Account, t: Tran)
    requires n in s.accounts
    ensures var after := s.(accounts := s.accounts[n := row], log := s.log + [t]);
            MoneyHeld(after) - Net(after.log) == MoneyHeld(s) - Net(s.log) + row.actual - s.accounts[n].actual - Effect(t)
  {
    TotalPut(s.accounts, Actual, n, row);
    NetAppend(s.log, t);
  }

  lemma OpeningMoney(s: Store, c: Command)
    requires c.CreateAccount?
    ensures var after := ApplyCreateAccount(s, c).store;
            MoneyHeld(after) - Net(after.log) == MoneyHeld(s) - Net(s.log) + Opening(s, c)
  {
    var r := ApplyCreateAccount(s, c);
    if r.outcome.Success? {
      var a := r.outcome.view.account;
      TotalPut(s.accounts, Actual, a.number, a);
      NetAppend(s.log, r.store.log[|s.log|]);
    }
  }

  lemma PostMoney(s: Store, c: Command)
    requires c.Post?
    ensures var after := ApplyPost(s, c).store; MoneyHeld(after) - Net(after.log) == MoneyHeld(s) - Net(s.log)
  {
    var r := ApplyPost(s, c);
    if r.outcome.Success? {
      RewriteMoney(s, c.account, r.store.accounts[c.account], r.store.log[|s.log|]);
    }
  }

  lemma UpdateMoney(s: Store, c: Command)
    requires c.UpdateAccount?
    ensures var after := ApplyUpdateAccount(s, c).store; MoneyHeld(after) - Net(after.log) == MoneyHeld(s) - Net(s.log)
  {
    var r := ApplyUpdateAccount(s, c);
    if r.outcome.Success? {
      RewriteMoney(s, c.account, r.store.accounts[c.account], r.store.log[|s.log|]);
    }
  }

  lemma DeleteAccountMoney(s: Store, c: Command)
    requires c.DeleteAccount?
    ensures var after := ApplyDeleteAccount(s, c).store; MoneyHeld(after) - Net(after.log) == MoneyHeld(s) - Net(s.log)
  {
    var r := ApplyDeleteAccount(s, c);
    if r.outcome.Success? {
      TotalWithout(s.accounts, Actual, c.account);
      NetAppend(s.log, r.store.log[|s.log|]);
    }
  }

  lemma RemovalMoney(s: Store, numbers: seq<int>, stamp: Stamp, t: Tran)
    requires forall i :: 0 <= i < |numbers| ==> numbers[i] in s.accounts
    requires forall i, j :: 0 <= i < j < |numbers| ==> numbers[i] < numbers[j]
    ensures Total(s.accounts - Elements(numbers), Actual) - Net(s.log + DeletionTrans(stamp, AccountsAt(s, numbers)) + [t])
            == MoneyHeld(s) - Net(s.log) - Effect(t)
  {
    RemoveRows(s, numbers);
    DeletionsInLog(s.log, stamp, AccountsAt(s, numbers));
    NetAppend(s.log + DeletionTrans(stamp, AccountsAt(s, numbers)), t);
  }

  lemma DeleteCustomerMoney(s: Store, c: Command)
    requires c.DeleteCustomer?
    ensures var after := ApplyDeleteCustomer(s, c).store; MoneyHeld(after) - Net(after.log) == MoneyHeld(s) - Net(s.log)
  {
    if ApplyDeleteCustomer(s, c).outcome.Success? {
      DeletionSpelledOut(s, c);
      var t := Tran(c.stamp, ODC, Audit.CustomerDescription(c.stamp.sortcode, CustomerAt(s, c.customer)), 0);
      RemovalMoney(s, Listed(s, c.customer), c.stamp, t);
    }
  }

  lemma LoggedMoney(s: Store, after: Store, t: Tran)
    requires after.accounts == s.accounts && after.log == s.log + [t]
    ensures MoneyHeld(after) - Net(after.log) == MoneyHeld(s) - Net(s.log) - Effect(t)
  {
    NetAppend(s.log, t);
  }

  lemma CreateCustomerMoney(s: Store, c: Command)
    requires c.CreateCustomer?
    ensures var after := ApplyCreateCustomer(s, c).store; MoneyHeld(after) - Net(after.log) == MoneyHeld(s) - Net(s.log)
  {
    var after := ApplyCreateCustomer(s, c).store;
    if after != s {
      LoggedMoney(s, after, after.log[|s.log|]);
    }
  }

  lemma UpdateCustomerMoney(s: Store, c: Command)
    requires c.UpdateCustomer?
    ensures var after := ApplyUpdateCustomer(s, c).store; MoneyHeld(after) - Net(after.log) == MoneyHeld(s) - Net(s.log)
  {
    var after := ApplyUpdateCustomer(s, c).store;
    if after != s {
      LoggedMoney(s, after, after.log[|s.log|]);
    }
  }

  lemma MovedTotal(s: Store, c: Command, w: Account -> int)
    requires c.Transfer? && Movable(s, c) && w in {Actual, Available}
    ensures Total(Moved(s, c).accounts, w) == Total(s.accounts, w) + if c.from == c.to then c.amount else 0
  {
    var f, g := s.accounts[c.from], s.accounts[c.to];
    var f2 := f.(available := f.available - c.amount, actual := f.actual - c.amount);
    var g2 := g.(available := g.available + c.amount, actual := g.actual + c.amount);
    MovedTotals(s.accounts, w, c.from, c.to, f2, g2, c.amount);
  }

  lemma MovedMoney(s: Store, c: Command)
    requires c.Transfer? && Movable(s, c)
    ensures var after := Moved(s, c);
            var minted := if c.from == c.to then c.amount else 0;
            && MoneyHeld(after) == MoneyHeld(s) + minted
            && Total(after.accounts, Available) == Total(s.accounts, Available) + minted
            && Net(after.log) == Net(s.log)
  {
    MovedTotal(s, c, Actual);
    MovedTotal(s, c, Available);
    NetAppend(s.log, TransferTran(c));
  }

  /**
   * A successful transfer leaves both totals as they were exactly when it is between two accounts
   * or moves nothing; a transfer to itself adds its amount to both. The audit total never moves.
   */
  lemma TransferConserves(s: Store, c: Command)
    requires c.Transfer? && ApplyTransfer(s, c).outcome.Success?
    ensures var after := ApplyTransfer(s, c).store;
            var minted := if c.from == c.to then c.amount else 0;
            && MoneyHeld(after) == MoneyHeld(s) + minted
            && Total(after.accounts, Available) == Total(s.accounts, Available) + minted
            && Net(after.log) == Net(s.log)
            && (MoneyHeld(after) == MoneyHeld(s) <==> c.from != c.to || c.amount == 0)
  {
    TransferSpelledOut(s, c);
    MovedMoney(s, c);
  }

  /** Without the service's guard money can be made: every movable transfer to itself succeeds and mints its amount. */
  lemma SelfTransferCreatesMoney(s: Store, c: Command)
    requires c.Transfer? && c.from == c.to && Movable(s, c)
    ensures var r := ApplyTransfer(s, c);
            && r.outcome.Success? && MoneyHeld(r.store) == MoneyHeld(s) + c.amount && Net(r.store.log) == Net(s.log)
  {
    TransferSpelledOut(s, c);
    TransferConserves(s, c);
  }

  lemma TransferMoney(s: Store, c: Command)
    requires c.Transfer?
    ensures var after := ApplyTransfer(s, c).store;
            MoneyHeld(after) - Net(after.log) == MoneyHeld(s) - Net(s.log) + Minted(s, c)
  {
    TransferSpelledOut(s, c);
    if ApplyTransfer(s, c).outcome.Success? {
      MovedMoney(s, c);
    }
  }

  /** No command opens a gap between the balances and the log, but openings and self-transfers. */
  lemma StepMoney(s: Store, c: Command)
    ensures var after := Apply(c, s).store;
            MoneyHeld(after) - Net(after.log) == MoneyHeld(s) - Net(s.log) + Opening(s, c) + Minted(s, c)
  {
    match c {
      case CreateCustomer(_, _, _, _, _, _) => CreateCustomerMoney(s, c);
      case CreateAccount(_, _, _, _, _, _, _, _, _, _) => OpeningMoney(s, c);
      case UpdateCustomer(_, _, _, _) => UpdateCustomerMoney(s, c);
      case UpdateAccount(_, _, _, _, _) => UpdateMoney(s, c);
      case DeleteAccount(_, _) => DeleteAccountMoney(s, c);
      case DeleteCustomer(_, _) => DeleteCustomerMoney(s, c);
      case Post(_, _, _, _, _) => PostMoney(s, c);
      case Transfer(_, _, _, _) => TransferMoney(s, c);
    }
  }

  // Whole runs.

  ghost function OpeningTotal(s: Store, commands: seq<Command>): int {
    if commands == [] then 0
    else
      var before, c := commands[..|commands| - 1], commands[|commands| - 1];
      OpeningTotal(s, before) + Opening(Replay(s, before), c)
  }

  ghost function MintedTotal(s: Store, commands: seq<Command>): int {
    if commands == [] then 0
    else
      var before, c := commands[..|commands| - 1], commands[|commands| - 1];
      MintedTotal(s, before) + Minted(Replay(s, before), c)
  }

  /**
   * After any run from the empty database the balances held are the opening balances, plus the
   * postings, minus the balances of deleted accounts, plus what self-transfers minted.
   */
  lemma {:induction false} Reconciliation(commands: seq<Command>)
    ensures var s := Replay(EMPTY_STORE, commands);
            MoneyHeld(s) == OpeningTotal(EMPTY_STORE, commands) + MintedTotal(EMPTY_STORE, commands) + Net(s.log)
  {
    if commands != [] {
      var before := commands[..|commands| - 1];
      Reconciliation(before);
      StepMoney(Replay(EMPTY_STORE, before), commands[|commands| - 1]);
    }
  }

  ghost predicate NoSelfTransfer(commands: seq<Command>) {
    forall i :: 0 <= i < |commands| && commands[i].Transfer? ==> commands[i].from != commands[i].to
  }

  lemma {:induction false} GuardedRunsMintNothing(s: Store, commands: seq<Command>)
    requires NoSelfTransfer(commands)
    ensures MintedTotal(s, commands) == 0
  {
    if commands != [] {
      GuardedRunsMintNothing(s, commands[..|commands| - 1]);
    }
  }

  /** With the service's guard against self-transfers the books balance outright. */
  lemma GuardedReconciliation(commands: seq<Command>)
    requires NoSelfTransfer(commands)
    ensures var s := Replay(EMPTY_STORE, commands); MoneyHeld(s) == OpeningTotal(EMPTY_STORE, commands) + Net(s.log)
  {
    Reconciliation(commands);
    GuardedRunsMintNothing(EMPTY_STORE, commands);
  }
}
