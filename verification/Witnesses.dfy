/** One customer and one account in an otherwise empty branch: states that runs of admitted commands do reach. */
module Witnesses {
  import opened Accounts
  import opened Audit
  import opened Books
  import opened Calendar
  import opened Customers
  import opened GuardedRuns
  import opened Ledger
  import opened Records
  import opened Runs
  import opened Services
  import Text

  const STAMP := Stamp("987654", 0, Date(2026, 1, 1), 0)
  const REGISTER := CreateCustomer("Mr Smith", "1 High Street", Date(1980, 5, 17), 500, Date(2026, 1, 8), STAMP)
  const OPEN := CreateAccount(1, "ISA", 0, 0, 1000, 1000, Date(2026, 1, 1), Date(2026, 1, 1), Date(2026, 1, 31), STAMP)

  const TO_ITSELF := Transfer(1, 1, 1000, STAMP)

  predicate Registers1(c: Command) {
    c.CreateCustomer? && Guarded(c) && c.score <= 999
  }

  predicate Opens1(c: Command) {
    c.CreateAccount? && Guarded(c) && c.customer == 1
  }

  /** A transfer of the first account to itself that passes the checks on its funds. */
  predicate ToItself(open: Command, c: Command)
    requires open.CreateAccount?
  {
    && c.Transfer? && c.from == 1 && c.to == 1 && IsSortcode(c.stamp.sortcode)
    && open.available - c.amount >= 0 && open.actual - c.amount >= -open.overdraft
    && Numeric12(open.available - c.amount) && Numeric12(open.actual - c.amount) && Numeric12(c.amount)
    && Numeric12(open.available + c.amount) && Numeric12(open.actual + c.amount)
  }

  lemma WitnessesAreGuarded()
    ensures Registers1(REGISTER) && Opens1(OPEN) && ToItself(OPEN, TO_ITSELF)
  {
    assert "Mr Smith"[0..0 + |"Mr"|] == "Mr";
    StandingTitle("Mr Smith", 0, "Mr");
  }

  lemma OneStep(s: Store, c: Command)
    ensures Replay(s, [c]) == Apply(c, s).store
  {
    assert [c][..0] == [];
  }

  lemma TwoSteps(s: Store, c: Command, d: Command)
    ensures Replay(s, [c, d]) == Apply(d, Replay(s, [c])).store
  {
    assert [c, d][..1] == [c];
  }

  /** The branch with its first customer. */
  lemma FirstCustomer(register: Command)
    requires Registers1(register)
    ensures var s := Replay(EMPTY_STORE, [register]);
            && s == Apply(register, EMPTY_STORE).store && WellFormed(s)
            && 1 in s.customers && s.accounts == map[] && s.control.value.accountLast == 0
  {
    ReachableIsWellFormed([]);
    RegistrationSucceeds(EMPTY_STORE, register);
    RegisterStep(EMPTY_STORE, register);
    OneStep(EMPTY_STORE, register);
    ReachableIsWellFormed([register]);
  }

  /** The branch with its first account. */
  lemma FirstAccount(register: Command, open: Command)
    requires Registers1(register) && Opens1(open)
    ensures var s := Replay(EMPTY_STORE, [register, open]);
            WellFormed(s) && 1 in s.accounts && s.accounts[1] == NewAccount(1, open)
  {
    FirstCustomer(register);
    var s := Replay(EMPTY_STORE, [register]);
    CreationSucceeds(s, open);
    OpenStep(s, open);
    TwoSteps(EMPTY_STORE, register, open);
    ReachableIsWellFormed([register, open]);
  }

  lemma FirstLoads(s: Store, open: Command)
    requires Opens1(open) && 1 in s.accounts && s.accounts[1] == NewAccount(1, open)
    ensures Loadable(s, 1)
  {
    Text.TrimEndLaws(open.kind);
  }

  lemma MovableToItself(s: Store, open: Command, c: Command)
    requires Opens1(open) && ToItself(open, c) && 1 in s.accounts && s.accounts[1] == NewAccount(1, open)
    ensures Movable(s, c)
  {
    FirstLoads(s, open);
    PaymentDescriptionRoundTrip(c.stamp.sortcode, 1, 0, 0, "");
    assert StorableTran(TransferTran(c));
  }

  lemma NoTransferYet(register: Command, open: Command)
    requires Registers1(register) && Opens1(open)
    ensures NoSelfTransfer([register, open])
  {
  }

  /** After any run that leaves it possible, a transfer to itself adds its amount to the money held and minted. */
  lemma MintsAfter(before: seq<Command>, c: Command)
    requires c.Transfer? && c.from == c.to && Movable(Replay(EMPTY_STORE, before), c)
    ensures MoneyHeld(Replay(EMPTY_STORE, before + [c])) == MoneyHeld(Replay(EMPTY_STORE, before)) + c.amount
    ensures MintedTotal(EMPTY_STORE, before + [c]) == MintedTotal(EMPTY_STORE, before) + c.amount
  {
    var run := before + [c];
    assert run[..|run| - 1] == before;
    SelfTransferCreatesMoney(Replay(EMPTY_STORE, before), c);
  }

  /** And it leaves books that balanced before out of balance by that much. */
  lemma UnbalancedAfter(before: seq<Command>, c: Command)
    requires c.Transfer? && c.from == c.to && Movable(Replay(EMPTY_STORE, before), c) && NoSelfTransfer(before)
    ensures var run := before + [c];
            var s := Replay(EMPTY_STORE, run);
            WellFormed(s) && MoneyHeld(s) == OpeningTotal(EMPTY_STORE, run) + Net(s.log) + c.amount
  {
    MintsAfter(before, c);
    GuardedRunsMintNothing(EMPTY_STORE, before);
    ReachableIsWellFormed(before + [c]);
    Reconciliation(before + [c]);
  }

  /** Two admitted commands and one transfer past the service's guard reach such a store. */
  lemma SelfTransferIsReachable(register: Command, open: Command, c: Command)
    requires Registers1(register) && Opens1(open) && ToItself(open, c)
    ensures var run := [register, open] + [c];
            var s := Replay(EMPTY_STORE, run);
            WellFormed(s) && MoneyHeld(s) == OpeningTotal(EMPTY_STORE, run) + Net(s.log) + c.amount
  {
    FirstAccount(register, open);
    NoTransferYet(register, open);
    MovableToItself(Replay(EMPTY_STORE, [register, open]), open, c);
    UnbalancedAfter([register, open], c);
  }
}
