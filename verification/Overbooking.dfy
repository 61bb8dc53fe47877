/**
 * The capacity bound is reached: runs of admitted commands give a customer 9 + k accounts with no more
 * than k creations between check and insert, and with twelve such creations a customer nobody can delete.
 */
module Overbooking {
  import opened Capacity
  import opened GuardedRuns
  import opened Ledger
  import opened Records
  import opened Runs
  import opened Services
  import opened Witnesses

  /** The same creation pending under each number of a range. */
  function Same(c: Command, low: int, high: int): (r: map<int, Command>)
    ensures forall i :: i in r <==> low <= i < high
    ensures forall i :: i in r ==> r[i] == c
    decreases high - low
  {
    if low >= high then map[] else Same(c, low, high - 1)[high - 1 := c]
  }

  lemma {:induction false} ChecksPass(b: Branch, c: Command, k: nat)
    requires b.pending == map[] && c.CreateAccount? && GateOpen(b.store, c.customer)
    ensures Play(b, seq(k, i => Check(i, c))) == Branch(b.store, Same(c, 0, k))
  {
    var events := seq(k, i => Check(i, c));
    if k == 0 {
      assert Same(c, 0, 0) == map[];
    } else {
      ChecksPass(b, c, k - 1);
      assert events[..k - 1] == seq(k - 1, i => Check(i, c));
      assert Same(c, 0, k) == Same(c, 0, k - 1)[k - 1 := c];
    }
  }

  /** A store with `i` of the creations inserted. */
  ghost predicate Landed(s: Store, b: Branch, c: Command, k: nat, i: nat)
    requires c.CreateAccount? && s.control.Some?
  {
    && b.pending == Same(c, i, k) && WellFormed(b.store) && c.customer in b.store.customers
    && b.store.control.value.accountLast == s.control.value.accountLast + i
    && |Owned(b.store, c.customer)| == |Owned(s, c.customer)| + i
  }

  lemma CreationGrows(s: Store, c: Command)
    requires WellFormed(s) && c.CreateAccount? && Guarded(c) && c.customer in s.customers
    requires s.control.value.accountLast < 99999999
    ensures var after := ApplyCreateAccount(s, c).store;
            && after.customers == s.customers && after.control.Some?
            && after.control.value.accountLast == s.control.value.accountLast + 1
            && |Owned(after, c.customer)| == |Owned(s, c.customer)| + 1
  {
    CreationSucceeds(s, c);
    OpenedFor(s, c, c.customer);
  }

  lemma SameDrops(c: Command, low: int, high: int)
    requires low < high
    ensures Same(c, low, high) - {low} == Same(c, low + 1, high)
  {
  }

  lemma LandedAfter(s: Store, b: Branch, after: Store, c: Command, k: nat, i: nat)
    requires i < k && c.CreateAccount? && s.control.Some? && Landed(s, b, c, k, i)
    requires WellFormed(after) && after.customers == b.store.customers
    requires after.control.value.accountLast == b.store.control.value.accountLast + 1
    requires |Owned(after, c.customer)| == |Owned(b.store, c.customer)| + 1
    ensures Landed(s, Branch(after, b.pending - {i as int}), c, k, i + 1)
  {
    SameDrops(c, i, k);
  }

  lemma InsertLands(s: Store, b: Branch, c: Command, k: nat, i: nat)
    requires i < k && c.CreateAccount? && Guarded(c) && s.control.Some? && Landed(s, b, c, k, i)
    requires s.control.value.accountLast + k <= 99999999
    ensures Landed(s, Step(b, Insert(i)), c, k, i + 1)
  {
    var after := Apply(c, b.store).store;
    CreationGrows(b.store, c);
    CreateAccountKeeps(b.store, c);
    LandedAfter(s, b, after, c, k, i);
  }

  lemma {:induction false} InsertsLand(s: Store, c: Command, k: nat, i: nat)
    requires i <= k && c.CreateAccount? && Guarded(c) && WellFormed(s) && c.customer in s.customers
    requires s.control.value.accountLast + k <= 99999999
    ensures Landed(s, Play(Branch(s, Same(c, 0, k)), seq(i, j => Insert(j))), c, k, i)
  {
    var events := seq(i, j => Insert(j));
    if i > 0 {
      InsertsLand(s, c, k, i - 1);
      assert events[..i - 1] == seq(i - 1, j => Insert(j));
      InsertLands(s, Play(Branch(s, Same(c, 0, k)), events[..i - 1]), c, k, i - 1);
    }
  }

  lemma {:induction false} PlayConcat(b: Branch, first: seq<Event>, second: seq<Event>)
    ensures Play(b, first + second) == Play(Play(b, first), second)
  {
    if second == [] {
      assert first + second == first;
    } else {
      PlayConcat(b, first, second[..|second| - 1]);
      assert (first + second)[..|first + second| - 1] == first + second[..|second| - 1];
    }
  }

  // Waves of overlapping creations.

  function Checks(c: Command, m: nat): seq<Event> {
    seq(m, i => Check(i, c))
  }

  function Inserts(m: nat): seq<Event> {
    seq(m, i => Insert(i))
  }

  /** `m` creations that all check before the first of them inserts. */
  function Wave(c: Command, m: nat): seq<Event> {
    Checks(c, m) + Inserts(m)
  }

  lemma {:induction false} SamePending(store: Store, c: Command, low: int, high: int, customer: int)
    requires low <= high
    ensures |PendingFor(Branch(store, Same(c, low, high)), customer)| <= high - low
    decreases high - low
  {
    var pending := PendingFor(Branch(store, Same(c, low, high)), customer);
    if low == high {
      assert pending == {};
    } else {
      SamePending(store, c, low, high - 1, customer);
      var fewer := PendingFor(Branch(store, Same(c, low, high - 1)), customer);
      SubsetSize(pending, fewer + {high - 1});
    }
  }

  lemma ChecksStayFew(b: Branch, c: Command, m: nat, customer: int)
    requires b.pending == map[] && c.CreateAccount? && GateOpen(b.store, c.customer)
    ensures AtMostPending(b, Checks(c, m), customer, m)
  {
    forall i | 0 <= i <= m
      ensures |PendingFor(Play(b, Checks(c, m)[..i]), customer)| <= m
    {
      assert Checks(c, m)[..i] == Checks(c, i);
      ChecksPass(b, c, i);
      SamePending(b.store, c, 0, i, customer);
    }
  }

  lemma InsertsStayFew(s: Store, c: Command, m: nat, customer: int)
    requires c.CreateAccount? && Guarded(c) && WellFormed(s) && c.customer in s.customers
    requires s.control.value.accountLast + m <= 99999999
    ensures AtMostPending(Branch(s, Same(c, 0, m)), Inserts(m), customer, m)
  {
    var b := Branch(s, Same(c, 0, m));
    forall i | 0 <= i <= m
      ensures |PendingFor(Play(b, Inserts(m)[..i]), customer)| <= m
    {
      assert Inserts(m)[..i] == Inserts(i);
      InsertsLand(s, c, m, i);
      SamePending(Play(b, Inserts(i)).store, c, i, m, customer);
    }
  }

  lemma FewEarlier(b: Branch, first: seq<Event>, second: seq<Event>, i: nat, customer: int, k: nat)
    requires AtMostPending(b, first, customer, k) && i <= |first|
    ensures |PendingFor(Play(b, (first + second)[..i]), customer)| <= k
  {
    assert (first + second)[..i] == first[..i];
  }

  lemma FewLater(b: Branch, first: seq<Event>, second: seq<Event>, i: nat, customer: int, k: nat)
    requires AtMostPending(Play(b, first), second, customer, k) && |first| <= i <= |first + second|
    ensures |PendingFor(Play(b, (first + second)[..i]), customer)| <= k
  {
    var j := i - |first|;
    assert (first + second)[..i] == first + second[..j];
    PlayConcat(b, first, second[..j]);
  }

  lemma FewConcat(b: Branch, first: seq<Event>, second: seq<Event>, customer: int, k: nat)
    requires AtMostPending(b, first, customer, k) && AtMostPending(Play(b, first), second, customer, k)
    ensures AtMostPending(b, first + second, customer, k)
  {
    var events := first + second;
    forall i | 0 <= i <= |events|
      ensures |PendingFor(Play(b, events[..i]), customer)| <= k
    {
      if i <= |first| {
        FewEarlier(b, first, second, i, customer, k);
      } else {
        FewLater(b, first, second, i, customer, k);
      }
    }
  }

  /** A branch at rest, with the customer owning so many accounts and so many numbers used. */
  ghost predicate AtRest(b: Branch, customer: int, owned: int, used: int) {
    && b.pending == map[] && WellFormed(b.store) && customer in b.store.customers
    && |Owned(b.store, customer)| == owned && b.store.control.value.accountLast == used
  }

  /** From at most nine accounts a whole wave gets through. */
  lemma WaveLands(b: Branch, c: Command, m: nat, owned: int, used: int)
    requires c.CreateAccount? && Guarded(c) && AtRest(b, c.customer, owned, used)
    requires owned <= 9 && used + m <= 99999999
    ensures AtRest(Play(b, Wave(c, m)), c.customer, owned + m, used + m)
    ensures AtMostPending(b, Wave(c, m), c.customer, m)
  {
    GateCounts(b.store, c.customer);
    ChecksPass(b, c, m);
    InsertsLand(b.store, c, m, m);
    PlayConcat(b, Checks(c, m), Inserts(m));
    assert Same(c, m, m) == map[];
    ChecksStayFew(b, c, m, c.customer);
    InsertsStayFew(b.store, c, m, c.customer);
    FewConcat(b, Checks(c, m), Inserts(m), c.customer, m);
  }

  /** After other events, one creation after the other. */
  function Serially(events: seq<Event>, c: Command, n: nat): seq<Event> {
    if n == 0 then events else Serially(events, c, n - 1) + Wave(c, 1)
  }

  lemma FewerIsFew(b: Branch, events: seq<Event>, customer: int, few: nat, k: nat)
    requires few <= k && AtMostPending(b, events, customer, few)
    ensures AtMostPending(b, events, customer, k)
  {
  }

  /** A wave after other events. */
  lemma ThenWave(b: Branch, events: seq<Event>, c: Command, few: nat, m: nat, owned: int, used: int)
    requires c.CreateAccount? && Guarded(c) && AtRest(Play(b, events), c.customer, owned, used)
    requires AtMostPending(b, events, c.customer, few) && few <= m
    requires owned <= 9 && used + m <= 99999999
    ensures AtRest(Play(b, events + Wave(c, m)), c.customer, owned + m, used + m)
    ensures AtMostPending(b, events + Wave(c, m), c.customer, m)
  {
    WaveLands(Play(b, events), c, m, owned, used);
    PlayConcat(b, events, Wave(c, m));
    FewerIsFew(b, events, c.customer, few, m);
    FewConcat(b, events, Wave(c, m), c.customer, m);
  }

  lemma {:induction false} SeriallyLands(b: Branch, events: seq<Event>, c: Command, n: nat, used: int)
    requires c.CreateAccount? && Guarded(c) && AtRest(Play(b, events), c.customer, 0, used)
    requires AtMostPending(b, events, c.customer, 1)
    requires n <= 9 && used + n <= 99999999
    ensures AtRest(Play(b, Serially(events, c, n)), c.customer, n, used + n)
    ensures AtMostPending(b, Serially(events, c, n), c.customer, 1)
  {
    if n > 0 {
      SeriallyLands(b, events, c, n - 1, used);
      ThenWave(b, Serially(events, c, n - 1), c, 1, 1, n - 1, used + n - 1);
    }
  }

  lemma {:induction false} WavesGuarded(events: seq<Event>, c: Command, n: nat, m: nat)
    requires Guarded(c) && GuardedEvents(events)
    ensures GuardedEvents(Serially(events, c, n) + Wave(c, m))
  {
    if n > 0 {
      WavesGuarded(events, c, n - 1, 1);
    }
  }

  // From the empty branch.

  const ONLY_CUSTOMER := [Run(REGISTER)]

  lemma FirstBranch()
    ensures AtRest(Play(IDLE, ONLY_CUSTOMER), 1, 0, 0) && AtMostPending(IDLE, ONLY_CUSTOMER, 1, 1)
  {
    WitnessesAreGuarded();
    AfterRegistering(REGISTER);
  }

  lemma OnlyEvent(b: Branch, e: Event)
    ensures Play(b, [e]) == Step(b, e)
  {
    assert [e][..0] == [];
  }

  lemma AfterRegistering(register: Command)
    requires Registers1(register)
    ensures AtRest(Play(IDLE, [Run(register)]), 1, 0, 0) && AtMostPending(IDLE, [Run(register)], 1, 1)
  {
    FirstCustomer(register);
    OnlyEvent(IDLE, Run(register));
    assert Owned(Play(IDLE, [Run(register)]).store, 1) == {};
    FewAtFirst(register);
  }

  lemma FewAtFirst(register: Command)
    requires Registers1(register)
    ensures AtMostPending(IDLE, [Run(register)], 1, 1)
  {
    var events := [Run(register)];
    OnlyEvent(IDLE, Run(register));
    forall i | 0 <= i <= 1
      ensures |PendingFor(Play(IDLE, events[..i]), 1)| <= 1
    {
      assert events[..i] == if i == 0 then [] else events;
      assert PendingFor(Play(IDLE, events[..i]), 1) == {};
    }
  }

  /** One customer, nine accounts one after the other, and then `k` at once. */
  function Rush(k: nat): seq<Event> {
    Serially(ONLY_CUSTOMER, OPEN, 9) + Wave(OPEN, k)
  }

  lemma RushGuarded(k: nat)
    ensures GuardedEvents(Rush(k))
  {
    WitnessesAreGuarded();
    WavesGuarded(ONLY_CUSTOMER, OPEN, 9, k);
  }

  /**
   * The bound is exact: for every `k` within the account numbers a run of admitted commands from the
   * empty branch, never with more than `k` creations between check and insert, ends with 9 + k accounts.
   */
  lemma BoundIsReached(k: nat)
    requires 1 <= k <= 99999999 - 9
    ensures GuardedEvents(Rush(k)) && AtMostPending(IDLE, Rush(k), 1, k)
    ensures var b := Play(IDLE, Rush(k));
            1 in b.store.customers && |Owned(b.store, 1)| == 9 + k
  {
    FirstBranch();
    WitnessesAreGuarded();
    RushGuarded(k);
    SeriallyLands(IDLE, ONLY_CUSTOMER, OPEN, 9, 0);
    ThenWave(IDLE, Serially(ONLY_CUSTOMER, OPEN, 9), OPEN, 1, k,
             9, 9);
  }

  /** From twelve overlapping creations on, that customer owns more accounts than a deletion lists, and cannot go. */
  lemma OverbookedCannotBeDeleted(k: nat, c: Command)
    requires 12 <= k <= 99999999 - 9
    requires c.DeleteCustomer? && c.customer == 1 && Guarded(c)
    ensures var s := Play(IDLE, Rush(k)).store; ApplyDeleteCustomer(s, c) == Result(Abend("WPV7"), s)
  {
    BoundIsReached(k);
    PlayStaysSound(Rush(k));
    DeletionOutcome(Play(IDLE, Rush(k)).store, c);
  }
}
