/**
 * CREACC checks how many accounts a customer has in one transaction and inserts in another. With
 * any interleaving of such checks and inserts, how far can the number of accounts go?
 */
module Capacity {
  import opened Accounts
  import opened GuardedRuns
  import opened Ledger
  import opened Records
  import opened Runs
  import opened Services

  /** The committed store, and the creations that passed their check and have not finished. */
  datatype Branch = Branch(store: Store, pending: map<int, Command>)

  /** A creation passes or fails its check, a checked one commits or is given up, or another program runs. */
  datatype Event =
    | Check(id: int, command: Command)
    | Insert(id: int)
    | GiveUp(id: int)
    | Run(command: Command)

  function Step(b: Branch, e: Event): Branch {
    match e
    case Check(id, c) =>
      if c.CreateAccount? && id !in b.pending && GateOpen(b.store, c.customer) then b.(pending := b.pending[id := c]) else b
    case Insert(id) =>
      if id in b.pending then Branch(Apply(b.pending[id], b.store).store, b.pending - {id}) else b
    case GiveUp(id) => b.(pending := b.pending - {id})
    case Run(c) => if c.CreateAccount? then b else b.(store := Apply(c, b.store).store)
  }

  function Play(b: Branch, events: seq<Event>): Branch {
    if events == [] then b else Step(Play(b, events[..|events| - 1]), events[|events| - 1])
  }

  const IDLE := Branch(EMPTY_STORE, map[])

  /** The pending creations for one customer. */
  function PendingFor(b: Branch, customer: int): set<int> {
    set id | id in b.pending && b.pending[id].CreateAccount? && b.pending[id].customer == customer
  }

  /** No state on the way has more than `k` creations of the customer between check and insert. */
  ghost predicate AtMostPending(b: Branch, events: seq<Event>, customer: int, k: nat) {
    forall i :: 0 <= i <= |events| ==> |PendingFor(Play(b, events[..i]), customer)| <= k
  }

  lemma PendingPrefix(b: Branch, events: seq<Event>, customer: int, k: nat)
    requires events != [] && AtMostPending(b, events, customer, k)
    ensures AtMostPending(b, events[..|events| - 1], customer, k)
    ensures |PendingFor(Play(b, events), customer)| <= k
  {
    var front := events[..|events| - 1];
    forall i | 0 <= i <= |front|
      ensures |PendingFor(Play(b, front[..i]), customer)| <= k
    {
      assert front[..i] == events[..i];
    }
    assert events[..|events|] == events;
  }

  // What a step does to one customer's accounts.

  lemma SubsetSize(a: set<int>, b: set<int>)
    requires a <= b
    ensures |a| <= |b|
  {
    assert b == a + (b - a);
  }

  /** Only a successful creation for the customer adds to its accounts, and then one. */
  lemma OwnedGrowth(s: Store, c: Command, customer: int)
    ensures var own := c.CreateAccount? && c.customer == customer && Apply(c, s).outcome.Success?;
            |Owned(Apply(c, s).store, customer)| <= |Owned(s, customer)| + if own then 1 else 0
  {
    AccountStep(s, c);
    var after := Apply(c, s).store;
    if Opens(s, c) {
      OpenedFor(s, c, customer);
    } else {
      OwnedShrinks(s, after, customer);
    }
  }

  lemma OwnedShrinks(before: Store, after: Store, customer: int)
    requires OpensNothing(before, after)
    ensures |Owned(after, customer)| <= |Owned(before, customer)|
  {
    forall n | n in Owned(after, customer)
      ensures n in Owned(before, customer)
    {
      assert SameAccount(after.accounts[n], before.accounts[n]);
    }
    SubsetSize(Owned(after, customer), Owned(before, customer));
  }

  lemma OpenedFor(s: Store, c: Command, customer: int)
    requires c.CreateAccount? && ApplyCreateAccount(s, c).outcome.Success?
    ensures var after := ApplyCreateAccount(s, c).store;
            |Owned(after, customer)| <= |Owned(s, customer)| + if c.customer == customer then 1 else 0
    ensures s.control.Some? && s.control.value.accountLast + 1 !in s.accounts && c.customer == customer ==>
              |Owned(ApplyCreateAccount(s, c).store, customer)| == |Owned(s, customer)| + 1
  {
    var n := s.control.value.accountLast + 1;
    var after := ApplyCreateAccount(s, c).store;
    assert after.accounts[n].customer == c.customer;
    if c.customer == customer {
      assert Owned(after, customer) == Owned(s, customer) + {n};
    } else {
      SubsetSize(Owned(after, customer), Owned(s, customer));
    }
  }

  ghost function Load(b: Branch, customer: int): nat {
    |Owned(b.store, customer)| + |PendingFor(b, customer)|
  }

  lemma CheckLoad(b: Branch, id: int, c: Command, customer: int, k: nat)
    requires k >= 1 && Load(b, customer) <= 9 + k
    requires |PendingFor(Step(b, Check(id, c)), customer)| <= k
    ensures Load(Step(b, Check(id, c)), customer) <= 9 + k
  {
    var after := Step(b, Check(id, c));
    if c.CreateAccount? && c.customer == customer {
      GateCounts(b.store, customer);
    } else {
      assert PendingFor(after, customer) == PendingFor(b, customer);
    }
  }

  lemma PendingDrops(b: Branch, store: Store, id: int, customer: int)
    requires id in b.pending
    ensures var own := b.pending[id].CreateAccount? && b.pending[id].customer == customer;
            |PendingFor(Branch(store, b.pending - {id}), customer)| == |PendingFor(b, customer)| - if own then 1 else 0
  {
    var before, after := PendingFor(b, customer), PendingFor(Branch(store, b.pending - {id}), customer);
    if id in before {
      assert before == after + {id};
    } else {
      assert before == after;
    }
  }

  lemma InsertLoad(b: Branch, id: int, customer: int)
    ensures Load(Step(b, Insert(id)), customer) <= Load(b, customer)
  {
    if id in b.pending {
      OwnedGrowth(b.store, b.pending[id], customer);
      PendingDrops(b, Apply(b.pending[id], b.store).store, id, customer);
    }
  }

  lemma OtherLoad(b: Branch, e: Event, customer: int)
    requires e.GiveUp? || e.Run?
    ensures Load(Step(b, e), customer) <= Load(b, customer)
  {
    var after := Step(b, e);
    SubsetSize(PendingFor(after, customer), PendingFor(b, customer));
    if e.Run? && !e.command.CreateAccount? {
      OwnedGrowth(b.store, e.command, customer);
    }
  }

  /**
   * If at most `k` creations for a customer are ever between check and insert, the accounts it has
   * and those pending never exceed 9 + k. One at a time, that is ten.
   */
  lemma {:induction false} CapacityBound(events: seq<Event>, customer: int, k: nat)
    requires k >= 1 && AtMostPending(IDLE, events, customer, k)
    ensures Load(Play(IDLE, events), customer) <= 9 + k
  {
    if events == [] {
      assert Owned(EMPTY_STORE, customer) == {} && PendingFor(IDLE, customer) == {};
    } else {
      var before, e := Play(IDLE, events[..|events| - 1]), events[|events| - 1];
      PendingPrefix(IDLE, events, customer, k);
      CapacityBound(events[..|events| - 1], customer, k);
      match e {
        case Check(id, c) => CheckLoad(before, id, c, customer, k);
        case Insert(id) => InsertLoad(before, id, customer);
        case GiveUp(_) => OtherLoad(before, e, customer);
        case Run(_) => OtherLoad(before, e, customer);
      }
    }
  }

  // What the bound is good for.

  ghost predicate GuardedEvents(events: seq<Event>) {
    forall i :: 0 <= i < |events| && (events[i].Check? || events[i].Run?) ==> Guarded(events[i].command)
  }

  lemma StepStaysSound(b: Branch, e: Event)
    requires WellFormed(b.store) && Sound(b.store) && forall id :: id in b.pending ==> Guarded(b.pending[id])
    requires e.Check? || e.Run? ==> Guarded(e.command)
    ensures var after := Step(b, e);
            WellFormed(after.store) && Sound(after.store) && forall id :: id in after.pending ==> Guarded(after.pending[id])
  {
    match e {
      case Insert(id) =>
        if id in b.pending {
          StepKeepsWellFormed(b.store, b.pending[id]);
          StepSound(b.store, b.pending[id]);
        }
      case Run(c) =>
        StepKeepsWellFormed(b.store, c);
        StepSound(b.store, c);
      case _ =>
    }
  }

  lemma {:induction false} PlayStaysSound(events: seq<Event>)
    requires GuardedEvents(events)
    ensures var b := Play(IDLE, events);
            WellFormed(b.store) && Sound(b.store) && forall id :: id in b.pending ==> Guarded(b.pending[id])
  {
    if events == [] {
      GuardedIsSound([]);
    } else {
      PlayStaysSound(events[..|events| - 1]);
      StepStaysSound(Play(IDLE, events[..|events| - 1]), events[|events| - 1]);
    }
  }

  /** While at most eleven creations for a customer overlap, deleting it never meets the foreign key. */
  lemma DeletionNeverBlocked(events: seq<Event>, c: Command, k: nat)
    requires c.DeleteCustomer? && Guarded(c) && GuardedEvents(events)
    requires 1 <= k <= 11 && AtMostPending(IDLE, events, c.customer, k)
    ensures var s := Play(IDLE, events).store;
            ApplyDeleteCustomer(s, c).outcome ==
            if c.customer in s.customers then Success(OneCustomer(CustomerAt(s, c.customer))) else Failure("1")
  {
    PlayStaysSound(events);
    CapacityBound(events, c.customer, k);
    DeletionOutcome(Play(IDLE, events).store, c);
  }
}
