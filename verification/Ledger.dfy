/**
 * What each program does to the store when it runs alone and no statement fails by accident:
 * one atomic step per command. The statement-by-statement programs refine these steps.
 */
module Ledger {
  import opened Numbers
  import opened Records
  import opened Text
  import opened Audit

  /** A command's reply, and the store it leaves; the store changes only on Success. */
  datatype Result = Result(outcome: Outcome, store: Store)

  // Column constraints of the tables.

  predicate Numeric12(cents: int) {
    -999999999999 <= cents <= 999999999999
  }

  predicate StorableAccount(a: Account) {
    Numeric12(a.available) && Numeric12(a.actual) && StorableTerms(a.kind, a.rate, a.overdraft)
  }

  predicate StorableTerms(kind: string, rate: int, overdraft: int) {
    |kind| <= 8 && -999999 <= rate <= 999999 && Numeric12(overdraft)
  }

  predicate StorableCustomer(c: Customer) {
    |c.name| <= 60 && |c.address| <= 160 && 0 <= c.score <= 999
  }

  predicate StorableTran(t: Tran) {
    |t.description| <= 40 && Numeric12(t.amount)
  }

  const MAX_BIGINT := 9223372036854775807

  // Checks of the domain constructors.

  predicate ValidAccount(a: Account) {
    0 <= a.customer <= MAX_CUSTOMER_NUMBER && 0 <= a.number <= MAX_ACCOUNT_NUMBER && |a.kind| <= 8
  }

  predicate ValidCustomer(c: Customer) {
    0 <= c.number <= MAX_CUSTOMER_NUMBER && 0 <= c.score <= 999
  }

  /** The account read from its row: the key column is its number, the type loses trailing space. */
  function AccountAt(s: Store, n: int): Account
    requires n in s.accounts
  {
    s.accounts[n].(number := n, kind := TrimEnd(s.accounts[n].kind))
  }

  function CustomerAt(s: Store, n: int): Customer
    requires n in s.customers
  {
    var row := s.customers[n];
    row.(number := n, name := TrimEnd(row.name), address := TrimEnd(row.address))
  }

  function SetBalances(s: Store, n: int, available: int, actual: int): Store
    requires n in s.accounts
  {
    s.(accounts := s.accounts[n := s.accounts[n].(available := available, actual := actual)])
  }

  function Append(s: Store, t: Tran): Store {
    s.(log := s.log + [t])
  }

  // CRECUST

  function NewCustomer(n: int, c: Command): Customer
    requires c.CreateCustomer?
  {
    Customer(n, c.name, c.address, c.dob, c.score, Some(c.review))
  }

  function CustomerReserved(ctl: Control): Control {
    ctl.(customerCount := ctl.customerCount + 1, customerLast := ctl.customerLast + 1)
  }

  function ApplyCreateCustomer(s: Store, c: Command): Result
    requires c.CreateCustomer?
  {
    if s.control.None? then Result(Failure("4"), s)
    else
      var ctl := s.control.value;
      var n := ctl.customerLast + 1;
      var customer := NewCustomer(n, c);
      var t := Tran(c.stamp, OCC, CustomerDescription(c.stamp.sortcode, customer), 0);
      if ctl.customerLast >= MAX_BIGINT || ctl.customerCount >= MAX_BIGINT then Result(Failure("3"), s)
      else if n > MAX_CUSTOMER_NUMBER then Result(Failure("4"), s)
      else if !ValidCustomer(customer) || !StorableCustomer(customer) || n in s.customers then Result(Failure("1"), s)
      else if !StorableTran(t) then Result(Abend(PROCTRAN_ABEND), s)
      else
        Result(Success(OneCustomer(customer)),
               Store(Some(CustomerReserved(ctl)), s.customers[n := customer], s.accounts, s.log + [t]))
  }

  // CREACC

  function NewAccount(n: int, c: Command): Account
    requires c.CreateAccount?
  {
    Account(n, c.customer, c.kind, c.rate, c.openedOn, c.overdraft, Some(c.last), Some(c.next), c.available, c.actual)
  }

  function AccountReserved(ctl: Control): Control {
    ctl.(accountCount := ctl.accountCount + 1, accountLast := ctl.accountLast + 1)
  }

  function ApplyCreateAccount(s: Store, c: Command): Result
    requires c.CreateAccount?
  {
    if s.control.None? then Result(Abend("HNCS"), s)
    else
      var ctl := s.control.value;
      var n := ctl.accountLast + 1;
      var a := NewAccount(n, c);
      var t := Tran(c.stamp, OCA, AccountDescription(a, OPENED_TAIL), 0);
      if ctl.accountLast >= MAX_BIGINT || ctl.accountCount >= MAX_BIGINT || n > MAX_ACCOUNT_NUMBER then Result(Abend("HNCS"), s)
      else if !ValidAccount(a) || !StorableAccount(a) || n in s.accounts || c.customer !in s.customers then
        Result(Failure("7"), s)
      else if !StorableTran(t) then Result(Abend(PROCTRAN_ABEND), s)
      else
        Result(Success(OneAccount(a)),
               Store(Some(AccountReserved(ctl)), s.customers, s.accounts[n := a], s.log + [t]))
  }

  // UPDCUST

  /** A field the caller left out: empty, or starting with a blank. */
  predicate IsBlankish(text: string) {
    text == [] || (forall i :: 0 <= i < |text| ==> text[i] == ' ') || text[0] == ' '
  }

  function ApplyUpdateCustomer(s: Store, c: Command): Result
    requires c.UpdateCustomer?
  {
    if c.customer !in s.customers then Result(Failure("1"), s)
    else if !ValidCustomer(CustomerAt(s, c.customer)) then Result(Failure("2"), s)
    else if IsBlankish(c.name) && IsBlankish(c.address) then Result(Failure("4"), s)
    else
      var before := CustomerAt(s, c.customer);
      var name := if IsBlankish(c.name) then before.name else c.name;
      var address := if IsBlankish(c.address) then before.address else c.address;
      var view := before.(name := name, address := address);
      var t := Tran(c.stamp, OUC, CustomerDescription(c.stamp.sortcode, view), 0);
      if !StorableCustomer(view) then Result(Failure("3"), s)
      else if !StorableTran(t) then Result(Abend(PROCTRAN_ABEND), s)
      else
        var row := s.customers[c.customer].(name := name, address := address);
        Result(Success(OneCustomer(view)), Append(s.(customers := s.customers[c.customer := row]), t))
  }

  // UPDACC

  function ApplyUpdateAccount(s: Store, c: Command): Result
    requires c.UpdateAccount?
  {
    if c.account !in s.accounts then Result(Failure("1"), s)
    else if !ValidAccount(AccountAt(s, c.account)) then Result(Abend("HRAC"), s)
    else
      var view := AccountAt(s, c.account).(kind := c.kind, rate := c.rate, overdraft := c.overdraft);
      var row := s.accounts[c.account].(kind := c.kind, rate := c.rate, overdraft := c.overdraft);
      var t := Tran(c.stamp, OUA, UpdateDescription(view), 0);
      if !ValidAccount(view) || !StorableTerms(c.kind, c.rate, c.overdraft) then Result(Abend("HUAC"), s)
      else if !StorableTran(t) then Result(Abend(PROCTRAN_ABEND), s)
      else Result(Success(OneAccount(view)), Append(s.(accounts := s.accounts[c.account := row]), t))
  }

  // DELACC

  function DeletionTran(stamp: Stamp, a: Account): Tran {
    Tran(stamp, ODA, AccountDescription(a, DELETED_TAIL), a.actual)
  }

  function ApplyDeleteAccount(s: Store, c: Command): Result
    requires c.DeleteAccount?
  {
    if c.account !in s.accounts then Result(Failure("1"), s)
    else if !ValidAccount(AccountAt(s, c.account)) then Result(Abend("HRAC"), s)
    else
      var t := DeletionTran(c.stamp, AccountAt(s, c.account));
      if !StorableTran(t) then Result(Abend(PROCTRAN_ABEND), s)
      else Result(Success(OneAccount(AccountAt(s, c.account))), Append(s.(accounts := s.accounts - {c.account}), t))
  }

  // DBCRFUN

  predicate IsRestrictedType(kind: string) {
    TrimEnd(kind) in {"MORTGAGE", "LOAN"}
  }

  function PostKind(facility: int, amount: int): TranType {
    if amount < 0 then if facility == PAYMENT_FACILITY then PDR else DEB
    else if facility == PAYMENT_FACILITY then PCR else CRE
  }

  function ApplyPost(s: Store, c: Command): Result
    requires c.Post?
  {
    if c.account !in s.accounts then Result(Failure("1"), s)
    else if !ValidAccount(AccountAt(s, c.account)) then Result(Abend("HRAC"), s)
    else
      var before := AccountAt(s, c.account);
      var view := before.(available := before.available + c.amount, actual := before.actual + c.amount);
      var t := Tran(c.stamp, PostKind(c.facility, c.amount), PostDescription(c.facility, c.amount, c.origin), c.amount);
      if c.facility == PAYMENT_FACILITY && IsRestrictedType(before.kind) then Result(Failure("4"), s)
      else if c.amount < 0 && c.facility == PAYMENT_FACILITY && view.available < 0 then Result(Failure("3"), s)
      else if !Numeric12(view.available) || !Numeric12(view.actual) then Result(Abend("HUAC"), s)
      else if !StorableTran(t) then Result(Abend(PROCTRAN_ABEND), s)
      else Result(Success(OneAccount(view)), Append(SetBalances(s, c.account, view.available, view.actual), t))
  }

  // XFRFUN

  datatype Role = From | To

  /** The two roles in ascending order of their account numbers. */
  function OrderedRoles(from: int, to: int): seq<Role> {
    if from < to then [From, To] else [To, From]
  }

  function NumberOf(role: Role, from: int, to: int): int {
    if role.From? then from else to
  }

  function MissingCode(role: Role): string {
    if role.From? then "1" else "2"
  }

  function AbendCode(role: Role): string {
    if role.From? then "FROM" else "TO  "
  }

  /** Why loading the account for a role stops the transfer, if it does. */
  function LoadRefusal(s: Store, role: Role, n: int): Option<Outcome> {
    if n !in s.accounts then Some(Failure(MissingCode(role)))
    else if !ValidAccount(AccountAt(s, n)) then Some(Abend(AbendCode(role)))
    else None
  }

  function TransferRefusal(s: Store, from: int, to: int): Option<Outcome> {
    var roles := OrderedRoles(from, to);
    var first := LoadRefusal(s, roles[0], NumberOf(roles[0], from, to));
    if first.Some? then first else LoadRefusal(s, roles[1], NumberOf(roles[1], from, to))
  }

  function ApplyTransfer(s: Store, c: Command): Result
    requires c.Transfer?
  {
    var refusal := TransferRefusal(s, c.from, c.to);
    if refusal.Some? then Result(refusal.value, s) else MoveFunds(s, c)
  }

  function TransferTran(c: Command): Tran
    requires c.Transfer?
  {
    Tran(c.stamp, TFR, TransferDescription(c.stamp.sortcode, c.to), c.amount)
  }

  /** The transfer proper, once both accounts are at hand. */
  function MoveFunds(s: Store, c: Command): Result
    requires c.Transfer? && c.from in s.accounts && c.to in s.accounts
  {
    var f, g := AccountAt(s, c.from), AccountAt(s, c.to);
    var from := f.(available := f.available - c.amount, actual := f.actual - c.amount);
    var to := g.(available := g.available + c.amount, actual := g.actual + c.amount);
    var t := TransferTran(c);
    if from.available < 0 || from.actual < -f.overdraft then Result(Failure("3"), s)
    else if !Numeric12(from.available) || !Numeric12(from.actual) then Result(Abend("FROM"), s)
    else if !Numeric12(to.available) || !Numeric12(to.actual) then Result(Abend("TO  "), s)
    else if !StorableTran(t) then Result(Abend(PROCTRAN_ABEND), s)
    else
      var debited := SetBalances(s, c.from, from.available, from.actual);
      Result(Success(TwoAccounts(from, to)), Append(SetBalances(debited, c.to, to.available, to.actual), t))
  }

  // The programs that lock account rows

  predicate Locks(c: Command) {
    c.Transfer? || c.Post? || c.UpdateAccount? || c.DeleteAccount?
  }

  /** The rows a program locks, in the order in which it locks them. */
  function Rows(c: Command): (r: seq<int>)
    requires Locks(c)
    ensures 1 <= |r| <= 2 && (|r| == 2 ==> r[0] <= r[1])
  {
    match c
    case Transfer(from, to, _, _) =>
      var roles := OrderedRoles(from, to);
      [NumberOf(roles[0], from, to), NumberOf(roles[1], from, to)]
    case Post(n, _, _, _, _) => [n]
    case UpdateAccount(n, _, _, _, _) => [n]
    case DeleteAccount(n, _) => [n]
  }

  /** What a statement does with the account table and the audit log. */
  datatype Access = LockRow(n: int) | WriteRow(n: int) | WriteAudit

  function OneRow(n: int): seq<Access> {
    [LockRow(n), WriteRow(n), WriteAudit]
  }

  /** The accesses of a program that runs to its end: its locks, then its writes, then its audit row. */
  function Statements(c: Command): seq<Access>
    requires Locks(c)
  {
    if c.Transfer? then
      [LockRow(Rows(c)[0]), LockRow(Rows(c)[1]), WriteRow(c.from), WriteRow(c.to), WriteAudit]
    else OneRow(Rows(c)[0])
  }

  // DELCUS

  const ACCOUNT_LIST_LIMIT := 20

  function Owned(s: Store, customer: int): set<int> {
    set n | n in s.accounts && s.accounts[n].customer == customer
  }

  /** The customer's accounts in ascending order, cut off after the first twenty. */
  function Listed(s: Store, customer: int): (r: seq<int>)
    ensures |r| == if |Owned(s, customer)| <= ACCOUNT_LIST_LIMIT then |Owned(s, customer)| else ACCOUNT_LIST_LIMIT
    ensures forall i :: 0 <= i < |r| ==> r[i] in Owned(s, customer)
    ensures forall i, j :: 0 <= i < j < |r| ==> r[i] < r[j]
  {
    AscendingIsSorted(Owned(s, customer));
    var all := Ascending(Owned(s, customer));
    if |all| <= ACCOUNT_LIST_LIMIT then all else all[..ACCOUNT_LIST_LIMIT]
  }

  /** The list misses an owned account exactly when there are more than twenty. */
  lemma ListedCoversOwned(s: Store, customer: int)
    ensures Elements(Listed(s, customer)) <= Owned(s, customer)
    ensures Elements(Listed(s, customer)) == Owned(s, customer) <==> |Owned(s, customer)| <= 20
  {
    var owned, listed := Owned(s, customer), Listed(s, customer);
    if |owned| <= ACCOUNT_LIST_LIMIT {
      AscendingIsSorted(owned);
      assert listed == Ascending(owned);
      assert Elements(listed) == owned;
    } else {
      ElementsAtMostLength(listed);
      assert |Elements(listed)| < |owned|;
    }
  }

  /** Whatever the list misses comes after all it has. */
  lemma ListedAreLowest(s: Store, customer: int, n: int, i: nat)
    requires n in Owned(s, customer) && n !in Listed(s, customer) && i < |Listed(s, customer)|
    ensures Listed(s, customer)[i] < n
  {
    var owned := Owned(s, customer);
    AscendingIsSorted(owned);
    var all := Ascending(owned);
    var j :| 0 <= j < |all| && all[j] == n;
    var listed := Listed(s, customer);
    assert forall x :: 0 <= x < |listed| ==> listed[x] == all[x] && listed[x] in listed;
    assert |listed| <= j;
  }

  function AccountsAt(s: Store, ns: seq<int>): (r: seq<Account>)
    requires forall i :: 0 <= i < |ns| ==> ns[i] in s.accounts
    ensures |r| == |ns| && forall i :: 0 <= i < |r| ==> r[i] == AccountAt(s, ns[i])
  {
    seq(|ns|, i requires 0 <= i < |ns| => AccountAt(s, ns[i]))
  }

  function DeletionTrans(stamp: Stamp, accounts: seq<Account>): (r: seq<Tran>)
    ensures |r| == |accounts| && forall i :: 0 <= i < |r| ==> r[i] == DeletionTran(stamp, accounts[i])
  {
    seq(|accounts|, i requires 0 <= i < |accounts| => DeletionTran(stamp, accounts[i]))
  }

  /** The store after the first `k` of the listed accounts are deleted and audited. */
  function Cascade(s: Store, stamp: Stamp, numbers: seq<int>, k: nat): Store
    requires k <= |numbers| && forall i :: 0 <= i < |numbers| ==> numbers[i] in s.accounts
  {
    s.(accounts := s.accounts - Elements(numbers[..k]),
       log := s.log + DeletionTrans(stamp, AccountsAt(s, numbers))[..k])
  }

  lemma WithoutTwice<V>(m: map<int, V>, ns: set<int>, n: int)
    ensures m - (ns + {n}) == m - ns - {n}
  {
  }

  lemma OneLonger<T>(base: seq<T>, xs: seq<T>, k: nat)
    requires k < |xs|
    ensures base + xs[..k + 1] == base + xs[..k] + [xs[k]] && xs[..k + 1] == xs[..k] + [xs[k]]
  {
  }

  lemma CascadeStep(s: Store, stamp: Stamp, numbers: seq<int>, k: nat)
    requires k < |numbers| && forall i :: 0 <= i < |numbers| ==> numbers[i] in s.accounts
    ensures var done := Cascade(s, stamp, numbers, k);
            var t := DeletionTran(stamp, AccountAt(s, numbers[k]));
            Cascade(s, stamp, numbers, k + 1) == Append(done.(accounts := done.accounts - {numbers[k]}), t)
  {
    OneLonger(s.log, DeletionTrans(stamp, AccountsAt(s, numbers)), k);
    OneLonger([], numbers, k);
    ElementsAppend(numbers[..k], numbers[k]);
    WithoutTwice(s.accounts, Elements(numbers[..k]), numbers[k]);
  }

  lemma CascadeEnds(s: Store, stamp: Stamp, numbers: seq<int>)
    requires forall i :: 0 <= i < |numbers| ==> numbers[i] in s.accounts
    ensures Cascade(s, stamp, numbers, |numbers|)
            == s.(accounts := s.accounts - Elements(numbers), log := s.log + DeletionTrans(stamp, AccountsAt(s, numbers)))
  {
    var trans := DeletionTrans(stamp, AccountsAt(s, numbers));
    assert trans[..|numbers|] == trans && numbers[..|numbers|] == numbers;
  }

  function ApplyDeleteCustomer(s: Store, c: Command): Result
    requires c.DeleteCustomer?
  {
    if c.customer !in s.customers then Result(Failure("1"), s)
    else
      var customer := CustomerAt(s, c.customer);
      var numbers := Listed(s, c.customer);
      var accounts := AccountsAt(s, numbers);
      var trans := DeletionTrans(c.stamp, accounts);
      var t := Tran(c.stamp, ODC, CustomerDescription(c.stamp.sortcode, customer), 0);
      if !ValidCustomer(customer) || exists a :: a in accounts && !ValidAccount(a) then Result(Abend("WPV6"), s)
      else if exists d :: d in trans && !StorableTran(d) then Result(Abend(PROCTRAN_ABEND), s)
      else if |Owned(s, c.customer)| > ACCOUNT_LIST_LIMIT then Result(Abend("WPV7"), s)
      else if !StorableTran(t) then Result(Abend(PROCTRAN_ABEND), s)
      else
        Result(Success(OneCustomer(customer)),
               Store(s.control, s.customers - {c.customer}, s.accounts - Elements(numbers), s.log + trans + [t]))
  }

  function Apply(c: Command, s: Store): Result {
    match c
    case CreateCustomer(_, _, _, _, _, _) => ApplyCreateCustomer(s, c)
    case CreateAccount(_, _, _, _, _, _, _, _, _, _) => ApplyCreateAccount(s, c)
    case UpdateCustomer(_, _, _, _) => ApplyUpdateCustomer(s, c)
    case UpdateAccount(_, _, _, _, _) => ApplyUpdateAccount(s, c)
    case DeleteAccount(_, _) => ApplyDeleteAccount(s, c)
    case DeleteCustomer(_, _) => ApplyDeleteCustomer(s, c)
    case Post(_, _, _, _, _) => ApplyPost(s, c)
    case Transfer(_, _, _, _) => ApplyTransfer(s, c)
  }

  /** The store after a list of commands, each run atomically in turn. */
  function Replay(s: Store, commands: seq<Command>): Store {
    if commands == [] then s
    else Apply(commands[|commands| - 1], Replay(s, commands[..|commands| - 1])).store
  }

  lemma {:induction false} ReplayConcat(s: Store, before: seq<Command>, after: seq<Command>)
    ensures Replay(s, before + after) == Replay(Replay(s, before), after)
  {
    if after == [] {
      assert before + after == before;
    } else {
      var rest := after[..|after| - 1];
      ReplayConcat(s, before, rest);
      assert (before + after)[..|before + after| - 1] == before + rest;
    }
  }

  /** A command that does not succeed leaves the store as it was. */
  lemma UnsuccessfulChangesNothing(c: Command, s: Store)
    ensures !Apply(c, s).outcome.Success? ==> Apply(c, s).store == s
  {
  }
}
