/** Safety and liveness of any interleaving of locking transactions: serial equivalence, no deadlock, an end. */
module Schedules {
  import opened Ledger
  import opened Locking
  import opened Numbers
  import opened Records
  import opened Runs
  import opened Totals

  /** The rows a transaction holds. */
  function Held(t: Txn): seq<int>
    requires Runnable(t)
  {
    match t.phase
    case Locking(got) => Rows(t.command)[..got]
    case Writing(_, _) => Rows(t.command)
    case Replied(_) => []
    case GivenUp => []
  }

  /** A transaction owns the rows it holds, has them as committed, and heads for its atomic step on them. */
  ghost predicate OnCourse(s: Store, owners: map<int, int>, i: int, t: Txn) {
    && Runnable(t)
    && var held := Elements(Held(t));
       && (forall n :: n in held ==> n in owners && owners[n] == i)
       && (t.phase.Locking? ==>
             && t.work == Restrict(s, held)
             && forall k :: 0 <= k < t.phase.got ==> LoadOutcome(t.command, s, k) == None)
       && (t.phase.Writing? ==>
             && t.phase.outcome.Success?
             && Apply(t.command, Restrict(s, held)) == Result(t.phase.outcome, PerformAll(t.phase.rest, t.work)))
  }

  ghost predicate AllOnCourse(sys: System) {
    forall i :: i in sys.txns ==> OnCourse(sys.committed, sys.owners, i, sys.txns[i])
  }

  /** Every lock is held by a transaction that got that far. */
  ghost predicate LocksHeld(sys: System) {
    forall n :: n in sys.owners ==>
      && sys.owners[n] in sys.txns && Runnable(sys.txns[sys.owners[n]])
      && n in Held(sys.txns[sys.owners[n]])
  }

  function CommandsOf(history: seq<Reply>): (r: seq<Command>)
    ensures |r| == |history| && forall j :: 0 <= j < |r| ==> r[j] == history[j].command
  {
    seq(|history|, j requires 0 <= j < |history| => history[j].command)
  }

  /** The `j`-th reply is what the atomic step gives after those before it. */
  ghost predicate RightReply(start: Store, history: seq<Reply>, j: nat)
    requires j < |history|
  {
    Apply(history[j].command, Replay(start, CommandsOf(history[..j]))).outcome == history[j].outcome
  }

  /** The store is the serial run of the replies in their order, and each reply is what that run gives. */
  ghost predicate Serial(start: Store, sys: System) {
    && sys.committed == Replay(start, CommandsOf(sys.history))
    && forall j :: 0 <= j < |sys.history| ==> RightReply(start, sys.history, j)
  }

  /** Exactly the transactions that replied are in the history, once, with their command and reply. */
  ghost predicate AnsweredOnce(sys: System) {
    && (forall j, k :: 0 <= j < k < |sys.history| ==> sys.history[j].id != sys.history[k].id)
    && (forall j :: 0 <= j < |sys.history| ==>
          && sys.history[j].id in sys.txns
          && sys.txns[sys.history[j].id].command == sys.history[j].command
          && sys.txns[sys.history[j].id].phase == Replied(sys.history[j].outcome))
    && (forall i :: i in sys.txns && sys.txns[i].phase.Replied? ==>
          exists j :: 0 <= j < |sys.history| && sys.history[j].id == i)
  }

  ghost predicate Inv(start: Store, sys: System) {
    AllOnCourse(sys) && LocksHeld(sys) && Serial(start, sys) && AnsweredOnce(sys)
  }

  // Frames.

  lemma LoadFrame(c: Command, s: Store, t: Store, k: nat, ns: set<int>)
    requires Locks(c) && k < |Rows(c)| && Rows(c)[k] in ns && Agree(s, t, ns)
    ensures LoadOutcome(c, s, k) == LoadOutcome(c, t, k)
  {
  }

  lemma StaysOnCourse(s: Store, s2: Store, owners: map<int, int>, owners2: map<int, int>, i: int, t: Txn)
    requires OnCourse(s, owners, i, t) && Agree(s, s2, Elements(Held(t)))
    requires forall n :: n in Held(t) ==> n in owners2 && owners2[n] == i
    ensures OnCourse(s2, owners2, i, t)
  {
    var held := Elements(Held(t));
    AgreeingRestrict(s, s2, held);
    if t.phase.Locking? {
      forall k | 0 <= k < t.phase.got
        ensures LoadOutcome(t.command, s2, k) == None
      {
        assert Held(t)[k] == Rows(t.command)[k];
        LoadFrame(t.command, s, s2, k, held);
      }
    }
  }

  /** Only transaction `i` moved, and only rows it held. */
  ghost predicate OnlyMoved(sys: System, after: System, i: int) {
    && after.txns.Keys == sys.txns.Keys
    && (forall j :: j in sys.txns && j != i ==> after.txns[j] == sys.txns[j])
    && (forall n :: n in sys.owners && sys.owners[n] != i ==>
          && n in after.owners && after.owners[n] == sys.owners[n]
          && (n in sys.committed.accounts <==> n in after.committed.accounts)
          && (n in sys.committed.accounts ==> sys.committed.accounts[n] == after.committed.accounts[n]))
    && (forall n :: n in after.owners && after.owners[n] != i ==> n in sys.owners && sys.owners[n] == after.owners[n])
  }

  lemma OthersStay(sys: System, after: System, i: int)
    requires AllOnCourse(sys) && LocksHeld(sys) && OnlyMoved(sys, after, i) && i in sys.txns
    requires OnCourse(after.committed, after.owners, i, after.txns[i])
    requires forall n :: n in after.owners && after.owners[n] == i ==> n in Held(after.txns[i])
    ensures AllOnCourse(after) && LocksHeld(after)
  {
    forall j | j in after.txns && j != i
      ensures OnCourse(after.committed, after.owners, j, after.txns[j])
    {
      assert OnCourse(sys.committed, sys.owners, j, sys.txns[j]);
      assert forall n :: n in Held(sys.txns[j]) ==> n in Elements(Held(sys.txns[j]));
      StaysOnCourse(sys.committed, after.committed, sys.owners, after.owners, j, sys.txns[j]);
    }
  }

  // Replies.

  lemma ReplyStays(start: Store, history: seq<Reply>, r: Reply, j: nat)
    requires j < |history| && RightReply(start, history, j)
    ensures RightReply(start, history + [r], j)
  {
    assert (history + [r])[..j] == history[..j];
  }

  lemma ReplyAdded(start: Store, history: seq<Reply>, r: Reply, store: Store)
    requires Apply(r.command, Replay(start, CommandsOf(history))) == Result(r.outcome, store)
    ensures RightReply(start, history + [r], |history|)
    ensures store == Replay(start, CommandsOf(history + [r]))
  {
    assert (history + [r])[..|history|] == history;
    assert CommandsOf(history + [r])[..|history|] == CommandsOf(history);
  }

  lemma HistoryGrows(start: Store, sys: System, r: Reply, store: Store)
    requires Serial(start, sys) && Apply(r.command, sys.committed) == Result(r.outcome, store)
    ensures Serial(start, sys.(committed := store, history := sys.history + [r]))
  {
    ReplyAdded(start, sys.history, r, store);
    forall j | 0 <= j < |sys.history|
      ensures RightReply(start, sys.history + [r], j)
    {
      ReplyStays(start, sys.history, r, j);
    }
  }

  lemma SettleAnswers(sys: System, i: int, o: Outcome, store: Store)
    requires AnsweredOnce(sys) && i in sys.txns && !sys.txns[i].phase.Replied?
    ensures AnsweredOnce(Settle(sys, i, o, store))
  {
    var after := Settle(sys, i, o, store);
    forall k | k in after.txns && after.txns[k].phase.Replied?
      ensures exists j :: 0 <= j < |after.history| && after.history[j].id == k
    {
      if k == i {
        assert after.history[|sys.history|].id == i;
      } else {
        var j :| 0 <= j < |sys.history| && sys.history[j].id == k;
        assert after.history[j].id == k;
      }
    }
  }

  /** Rows that `i` does not hold are as they were. */
  ghost predicate OthersUntouched(sys: System, i: int, store: Store) {
    forall n :: n in sys.owners && sys.owners[n] != i ==>
      && (n in sys.committed.accounts <==> n in store.accounts)
      && (n in sys.committed.accounts ==> sys.committed.accounts[n] == store.accounts[n])
  }

  lemma SettleMoves(sys: System, i: int, o: Outcome, store: Store)
    requires AllOnCourse(sys) && LocksHeld(sys) && i in sys.txns && OthersUntouched(sys, i, store)
    ensures AllOnCourse(Settle(sys, i, o, store)) && LocksHeld(Settle(sys, i, o, store))
  {
    var after := Settle(sys, i, o, store);
    assert OnCourse(sys.committed, sys.owners, i, sys.txns[i]);
    assert OnCourse(after.committed, after.owners, i, after.txns[i]);
    OthersStay(sys, after, i);
  }

  /** A reply keeps the invariant if it is the atomic one and the change is to rows the transaction holds. */
  lemma SettleKeeps(start: Store, sys: System, i: int, o: Outcome, store: Store)
    requires Inv(start, sys) && i in sys.txns && Active(sys.txns[i]) && OthersUntouched(sys, i, store)
    requires Apply(sys.txns[i].command, sys.committed) == Result(o, store)
    ensures Inv(start, Settle(sys, i, o, store))
  {
    HistoryGrows(start, sys, Reply(i, sys.txns[i].command, o), store);
    SettleAnswers(sys, i, o, store);
    SettleMoves(sys, i, o, store);
  }

  // The other steps leave the store and the history alone.

  lemma HistoryStays(start: Store, sys: System, after: System, i: int)
    requires Serial(start, sys) && AnsweredOnce(sys) && i in sys.txns && Active(sys.txns[i])
    requires after.committed == sys.committed && after.history == sys.history
    requires after.txns.Keys == sys.txns.Keys && !after.txns[i].phase.Replied?
    requires forall j :: j in sys.txns && j != i ==> after.txns[j] == sys.txns[j]
    ensures Serial(start, after) && AnsweredOnce(after)
  {
    assert forall j :: 0 <= j < |sys.history| ==> sys.history[j].id != i;
  }

  /** A step of `i` that neither replies nor touches the store keeps the invariant if `i` itself stays on course. */
  lemma QuietKeeps(start: Store, sys: System, after: System, i: int)
    requires Inv(start, sys) && i in sys.txns && Active(sys.txns[i]) && OnlyMoved(sys, after, i)
    requires after.committed == sys.committed && after.history == sys.history && !after.txns[i].phase.Replied?
    requires OnCourse(after.committed, after.owners, i, after.txns[i])
    requires forall n :: n in after.owners && after.owners[n] == i ==> n in Held(after.txns[i])
    ensures Inv(start, after)
  {
    OthersStay(sys, after, i);
    HistoryStays(start, sys, after, i);
  }

  lemma IdleOnCourse(s: Store, owners: map<int, int>, i: int, t: Txn)
    requires Runnable(t) && (t.phase == GivenUp || (t.phase == Locking(0) && t.work == NOTHING))
    ensures OnCourse(s, owners, i, t) && Held(t) == []
  {
    assert Restrict(s, {}).accounts == map[];
    assert Elements([]) == {};
  }

  lemma RollBackKeeps(start: Store, sys: System, i: int, retry: bool)
    requires Inv(start, sys) && i in sys.txns && Active(sys.txns[i]) && Runnable(sys.txns[i])
    ensures Inv(start, RollBack(sys, i, retry))
  {
    var after := RollBack(sys, i, retry);
    IdleOnCourse(sys.committed, after.owners, i, after.txns[i]);
    QuietKeeps(start, sys, after, i);
  }

  lemma RestrictGrows(s: Store, ns: set<int>, n: int)
    requires n in s.accounts
    ensures var w := Restrict(s, ns); w.(accounts := w.accounts[n := s.accounts[n]]) == Restrict(s, ns + {n})
  {
    var w := Restrict(s, ns);
    assert w.accounts[n := s.accounts[n]] == Restrict(s, ns + {n}).accounts;
  }

  lemma AcquireOnCourse(s: Store, owners: map<int, int>, i: int, t: Txn)
    requires OnCourse(s, owners, i, t) && t.phase.Locking? && t.phase.got < |Rows(t.command)|
    requires LoadOutcome(t.command, s, t.phase.got) == None
    ensures var n := Rows(t.command)[t.phase.got];
            && n in s.accounts
            && var work := t.work.(accounts := t.work.accounts[n := s.accounts[n]]);
               var next := t.(phase := Locking(t.phase.got + 1), work := work);
               OnCourse(s, owners[n := i], i, next) && Held(next) == Held(t) + [n]
  {
    var n := Rows(t.command)[t.phase.got];
    var next := t.(phase := Locking(t.phase.got + 1), work := t.work.(accounts := t.work.accounts[n := s.accounts[n]]));
    assert Rows(t.command)[..t.phase.got + 1] == Rows(t.command)[..t.phase.got] + [n];
    ElementsAppend(Held(t), n);
    RestrictGrows(s, Elements(Held(t)), n);
    RowsLoaded(s, t.command, t.phase.got + 1);
  }

  /** Rows whose reads did not stop the program are in the copy made of them. */
  lemma RowsLoaded(s: Store, c: Command, got: nat)
    requires Locks(c) && got <= |Rows(c)| && forall k :: 0 <= k < got ==> LoadOutcome(c, s, k) == None
    ensures forall k :: 0 <= k < got ==> Rows(c)[k] in Restrict(s, Elements(Rows(c)[..got])).accounts
  {
    forall k | 0 <= k < got
      ensures Rows(c)[k] in Restrict(s, Elements(Rows(c)[..got])).accounts
    {
      assert Rows(c)[..got][k] == Rows(c)[k];
      assert LoadOutcome(c, s, k) == None;
    }
  }

  /** A transaction that is not waiting takes the lock, reads the row as committed, and goes on. */
  lemma AcquireKeeps(start: Store, sys: System, i: int)
    requires Inv(start, sys) && i in sys.txns && sys.txns[i].phase.Locking? && Runnable(sys.txns[i]) && !Blocked(sys, i)
    requires var t := sys.txns[i]; t.phase.got < |Rows(t.command)| && LoadOutcome(t.command, sys.committed, t.phase.got) == None
    ensures Inv(start, Advance(sys, i))
  {
    var t := sys.txns[i];
    assert OnCourse(sys.committed, sys.owners, i, t);
    AcquireOnCourse(sys.committed, sys.owners, i, t);
    QuietKeeps(start, sys, Advance(sys, i), i);
  }

  lemma RefuseKeeps(start: Store, sys: System, i: int)
    requires Inv(start, sys) && i in sys.txns && sys.txns[i].phase.Locking? && Runnable(sys.txns[i])
    requires var t := sys.txns[i]; t.phase.got < |Rows(t.command)| && LoadOutcome(t.command, sys.committed, t.phase.got).Some?
    ensures Inv(start, Advance(sys, i))
  {
    var t := sys.txns[i];
    assert OnCourse(sys.committed, sys.owners, i, t);
    RefusalIsAtomic(sys.committed, t.command, t.phase.got);
    SettleKeeps(start, sys, i, LoadOutcome(t.command, sys.committed, t.phase.got).value, sys.committed);
  }

  lemma PlanOnCourse(s: Store, owners: map<int, int>, i: int, t: Txn)
    requires OnCourse(s, owners, i, t) && t.phase == Locking(|Rows(t.command)|) && Apply(t.command, t.work).outcome.Success?
    ensures var next := t.(phase := Writing(Plan(t.command, t.work), Apply(t.command, t.work).outcome));
            OnCourse(s, owners, i, next) && Held(next) == Held(t)
  {
    assert Rows(t.command)[..|Rows(t.command)|] == Rows(t.command);
    PlanPerforms(t.work, t.command);
  }

  /** With all rows at hand the checks decide: a refusal is the atomic reply, else the writes are planned. */
  lemma CheckKeeps(start: Store, sys: System, i: int)
    requires Inv(start, sys) && i in sys.txns && Runnable(sys.txns[i])
    requires sys.txns[i].phase == Locking(|Rows(sys.txns[i].command)|)
    ensures Inv(start, Advance(sys, i))
  {
    var t, s := sys.txns[i], sys.committed;
    assert OnCourse(s, sys.owners, i, t);
    var r := Apply(t.command, t.work);
    if r.outcome.Success? {
      PlanOnCourse(s, sys.owners, i, t);
      QuietKeeps(start, sys, Advance(sys, i), i);
    } else {
      RefusedCheck(s, sys.owners, i, t);
      SettleKeeps(start, sys, i, r.outcome, s);
    }
  }

  lemma RefusedCheck(s: Store, owners: map<int, int>, i: int, t: Txn)
    requires OnCourse(s, owners, i, t) && t.phase == Locking(|Rows(t.command)|)
    requires !Apply(t.command, t.work).outcome.Success?
    ensures Apply(t.command, s) == Result(Apply(t.command, t.work).outcome, s)
  {
    assert Rows(t.command)[..|Rows(t.command)|] == Rows(t.command);
    Local(s, t.command);
    UnsuccessfulChangesNothing(t.command, s);
  }

  lemma WriteOnCourse(s: Store, owners: map<int, int>, i: int, t: Txn)
    requires OnCourse(s, owners, i, t) && t.phase.Writing? && t.phase.rest != []
    ensures var next := t.(phase := Writing(t.phase.rest[1..], t.phase.outcome), work := Perform(t.phase.rest[0], t.work));
            OnCourse(s, owners, i, next) && Held(next) == Held(t)
  {
  }

  lemma WriteKeeps(start: Store, sys: System, i: int)
    requires Inv(start, sys) && i in sys.txns && Runnable(sys.txns[i])
    requires sys.txns[i].phase.Writing? && sys.txns[i].phase.rest != []
    ensures Inv(start, Advance(sys, i))
  {
    assert OnCourse(sys.committed, sys.owners, i, sys.txns[i]);
    WriteOnCourse(sys.committed, sys.owners, i, sys.txns[i]);
    QuietKeeps(start, sys, Advance(sys, i), i);
  }

  lemma CommitIsAtomic(s: Store, owners: map<int, int>, i: int, t: Txn)
    requires OnCourse(s, owners, i, t) && t.phase.Writing? && t.phase.rest == []
    ensures var store := Install(s, Elements(Rows(t.command)), t.work);
            && Apply(t.command, s) == Result(t.phase.outcome, store)
            && forall n :: n !in Rows(t.command) ==>
                 (n in s.accounts <==> n in store.accounts) && (n in s.accounts ==> s.accounts[n] == store.accounts[n])
  {
    Local(s, t.command);
    OutsideUntouched(s, t.command);
  }

  /** A commit installs exactly the atomic step, and only in rows that the transaction holds. */
  lemma CommitKeeps(start: Store, sys: System, i: int)
    requires Inv(start, sys) && i in sys.txns && Runnable(sys.txns[i])
    requires sys.txns[i].phase.Writing? && sys.txns[i].phase.rest == []
    ensures Inv(start, Advance(sys, i))
  {
    var t, s := sys.txns[i], sys.committed;
    assert OnCourse(s, sys.owners, i, t);
    CommitIsAtomic(s, sys.owners, i, t);
    forall n | n in Rows(t.command)
      ensures n in sys.owners && sys.owners[n] == i
    {
      assert n in Elements(Held(t));
    }
    SettleKeeps(start, sys, i, t.phase.outcome, Install(s, Elements(Rows(t.command)), t.work));
  }

  lemma AdvanceKeeps(start: Store, sys: System, i: int)
    requires Inv(start, sys) && i in sys.txns && Active(sys.txns[i]) && Runnable(sys.txns[i]) && !Blocked(sys, i)
    ensures Inv(start, Advance(sys, i))
  {
    var t := sys.txns[i];
    if t.phase.Locking? {
      if t.phase.got == |Rows(t.command)| {
        CheckKeeps(start, sys, i);
      } else if LoadOutcome(t.command, sys.committed, t.phase.got).Some? {
        RefuseKeeps(start, sys, i);
      } else {
        AcquireKeeps(start, sys, i);
      }
    } else if t.phase.rest == [] {
      CommitKeeps(start, sys, i);
    } else {
      WriteKeeps(start, sys, i);
    }
  }

  lemma StepKeeps(start: Store, sys: System, i: int, luck: Luck)
    requires Inv(start, sys)
    ensures Inv(start, Step(sys, i, luck))
  {
    if i in sys.txns && Active(sys.txns[i]) {
      assert OnCourse(sys.committed, sys.owners, i, sys.txns[i]);
      if luck != Fine {
        RollBackKeeps(start, sys, i, luck.Serialization?);
      } else if !Blocked(sys, i) {
        AdvanceKeeps(start, sys, i);
      }
    }
  }

  // Whole runs.

  function Begin(start: Store, commands: map<int, Command>): System {
    System(start, map[], map i | i in commands :: Txn(commands[i], 0, Locking(0), NOTHING), [])
  }

  /** One choice of the scheduler: who goes next, and with what luck. */
  datatype Turn = Turn(id: int, luck: Luck)

  function Play(sys: System, turns: seq<Turn>): System {
    if turns == [] then sys
    else
      var last := turns[|turns| - 1];
      Step(Play(sys, turns[..|turns| - 1]), last.id, last.luck)
  }

  lemma BeginKeeps(start: Store, commands: map<int, Command>)
    requires forall i :: i in commands ==> Locks(commands[i])
    ensures Inv(start, Begin(start, commands))
  {
    var sys := Begin(start, commands);
    assert Restrict(start, {}) == NOTHING by {
      assert Restrict(start, {}).accounts == map[];
    }
    forall i | i in sys.txns
      ensures OnCourse(start, map[], i, sys.txns[i])
    {
      assert Elements(Held(sys.txns[i])) == {};
    }
  }

  /**
   * Serial equivalence: however the transactions interleave and fail, the committed store is always
   * the atomic steps in the order of the replies, every reply is the one its atomic step gives there,
   * and each transaction that replied took effect exactly once.
   */
  lemma {:induction false} SerialEquivalence(start: Store, commands: map<int, Command>, turns: seq<Turn>)
    requires forall i :: i in commands ==> Locks(commands[i])
    ensures Inv(start, Play(Begin(start, commands), turns))
  {
    if turns == [] {
      BeginKeeps(start, commands);
    } else {
      var last := turns[|turns| - 1];
      SerialEquivalence(start, commands, turns[..|turns| - 1]);
      StepKeeps(start, Play(Begin(start, commands), turns[..|turns| - 1]), last.id, last.luck);
    }
  }

  /**
   * So from a store the programs have reached, every state of an interleaved run is again one they
   * can reach one after the other, and whatever holds of all those holds of it.
   */
  lemma InterleavedIsReachable(before: seq<Command>, commands: map<int, Command>, turns: seq<Turn>)
    requires forall i :: i in commands ==> Locks(commands[i])
    ensures var sys := Play(Begin(Replay(EMPTY_STORE, before), commands), turns);
            && sys.committed == Replay(EMPTY_STORE, before + CommandsOf(sys.history))
            && WellFormed(sys.committed)
  {
    SerialEquivalence(Replay(EMPTY_STORE, before), commands, turns);
    var sys := Play(Begin(Replay(EMPTY_STORE, before), commands), turns);
    ReplayConcat(EMPTY_STORE, before, CommandsOf(sys.history));
    ReachableIsWellFormed(before + CommandsOf(sys.history));
  }

  // Deadlock freedom.

  ghost predicate CanStep(sys: System, i: int) {
    i in sys.txns && Runnable(sys.txns[i]) && Active(sys.txns[i]) && !Blocked(sys, i)
  }

  function WaitsFor(t: Txn): int
    requires Runnable(t) && t.phase.Locking? && t.phase.got < |Rows(t.command)|
  {
    Rows(t.command)[t.phase.got]
  }

  function LockedFrom(sys: System, n: int): set<int> {
    set m | m in sys.owners && m >= n
  }

  /**
   * Rows are locked in ascending order, so whoever holds the row one transaction waits for waits,
   * if at all, for a higher one.
   */
  lemma HolderWaitsHigher(start: Store, sys: System, i: int)
    requires Inv(start, sys) && i in sys.txns && Runnable(sys.txns[i]) && Blocked(sys, i)
    ensures var n := WaitsFor(sys.txns[i]);
            && n in sys.owners && sys.owners[n] in sys.txns
            && var holder := sys.txns[sys.owners[n]];
               && Runnable(holder) && Active(holder)
               && (Blocked(sys, sys.owners[n]) ==>
                     && WaitsFor(holder) > n && WaitsFor(holder) in sys.owners)
  {
    var n := WaitsFor(sys.txns[i]);
    var j := sys.owners[n];
    assert n in Held(sys.txns[j]);
    assert OnCourse(sys.committed, sys.owners, j, sys.txns[j]);
  }

  /** While any transaction is unfinished, some transaction can take its next step. */
  lemma {:induction false} NoDeadlock(start: Store, sys: System, i: int) returns (j: int)
    requires Inv(start, sys) && i in sys.txns && Active(sys.txns[i])
    ensures CanStep(sys, j)
    decreases if Runnable(sys.txns[i]) && Blocked(sys, i) then |LockedFrom(sys, WaitsFor(sys.txns[i]))| else 0
  {
    assert OnCourse(sys.committed, sys.owners, i, sys.txns[i]);
    if !Blocked(sys, i) {
      j := i;
    } else {
      HolderWaitsHigher(start, sys, i);
      var n := WaitsFor(sys.txns[i]);
      var holder := sys.owners[n];
      assert n in LockedFrom(sys, n);
      if Blocked(sys, holder) {
        FewerAbove(sys, n, WaitsFor(sys.txns[holder]));
      } else {
        FewerAbove(sys, n, n + 1);
      }
      j := NoDeadlock(start, sys, holder);
    }
  }

  lemma FewerAbove(sys: System, n: int, m: int)
    requires n in sys.owners && n < m
    ensures |LockedFrom(sys, m)| < |LockedFrom(sys, n)|
  {
    var low, high := LockedFrom(sys, n), LockedFrom(sys, m);
    assert n in low && n !in high;
    assert low == high + (low - high);
    assert |low - high| > 0;
  }

  // Termination.

  /** The statements a transaction can still issue, retries included. */
  function Remaining(t: Txn): int {
    if !Runnable(t) then 0
    else
      var later := (RETRY_ATTEMPTS - 1 - t.tries) * 8;
      match t.phase
      case Locking(got) => later + |Rows(t.command)| - got + 5
      case Writing(rest, _) => later + |rest| + 1
      case Replied(_) => 0
      case GivenUp => 0
  }

  lemma RemainingIsNat(t: Txn)
    ensures Remaining(t) >= 0
  {
  }

  lemma StepFrame(sys: System, i: int, luck: Luck)
    requires i in sys.txns
    ensures Step(sys, i, luck).txns.Keys == sys.txns.Keys
    ensures forall j :: j in sys.txns && j != i ==> Step(sys, i, luck).txns[j] == sys.txns[j]
  {
  }

  lemma AdvanceShortens(sys: System, i: int)
    requires i in sys.txns && Active(sys.txns[i]) && Runnable(sys.txns[i])
    ensures i in Advance(sys, i).txns && Remaining(Advance(sys, i).txns[i]) < Remaining(sys.txns[i])
  {
  }

  /** Every statement a transaction issues, and every rollback, brings its end nearer. */
  lemma StepShortens(sys: System, i: int, luck: Luck)
    requires i in sys.txns && Active(sys.txns[i]) && Runnable(sys.txns[i]) && (luck != Fine || !Blocked(sys, i))
    ensures i in Step(sys, i, luck).txns && Remaining(Step(sys, i, luck).txns[i]) < Remaining(sys.txns[i])
  {
    if luck == Fine {
      AdvanceShortens(sys, i);
    }
  }

  lemma TotalShortens(sys: System, i: int, luck: Luck)
    requires i in sys.txns && Active(sys.txns[i]) && Runnable(sys.txns[i]) && (luck != Fine || !Blocked(sys, i))
    ensures 0 <= Total(Step(sys, i, luck).txns, Remaining) < Total(sys.txns, Remaining)
  {
    var after := Step(sys, i, luck);
    StepFrame(sys, i, luck);
    StepShortens(sys, i, luck);
    TotalStep(sys.txns, after.txns, i);
    TotalIsNat(after.txns);
  }

  lemma TotalStep(m: map<int, Txn>, m2: map<int, Txn>, i: int)
    requires i in m && m2.Keys == m.Keys && forall j :: j in m && j != i ==> m2[j] == m[j]
    ensures Total(m2, Remaining) == Total(m, Remaining) - Remaining(m[i]) + Remaining(m2[i])
  {
    var put := m[i := m2[i]];
    assert put.Keys == m2.Keys;
    forall j | j in m2
      ensures put[j] == m2[j]
    {
    }
    assert put == m2;
    TotalPut(m, Remaining, i, m2[i]);
  }

  lemma {:induction false} TotalIsNat(m: map<int, Txn>)
    ensures Total(m, Remaining) >= 0
    decreases |m|
  {
    if i :| i in m {
      TotalWithout(m, Remaining, i);
      RemainingIsNat(m[i]);
      TotalIsNat(m - {i});
    }
  }

  /** Every turn lets somebody step who can. */
  ghost predicate Productive(sys: System, turns: seq<Turn>) {
    forall k :: 0 <= k < |turns| ==>
      var before := Play(sys, turns[..k]);
      && turns[k].id in before.txns && Active(before.txns[turns[k].id]) && Runnable(before.txns[turns[k].id])
      && (turns[k].luck != Fine || !Blocked(before, turns[k].id))
  }

  lemma ProductivePrefix(sys: System, turns: seq<Turn>)
    requires turns != [] && Productive(sys, turns)
    ensures Productive(sys, turns[..|turns| - 1])
  {
    var front := turns[..|turns| - 1];
    forall k | 0 <= k < |front|
      ensures front[..k] == turns[..k] && front[k] == turns[k]
    {
    }
  }

  /** No run is longer than the statements its transactions had left. */
  lemma {:induction false} RunsEnd(start: Store, sys: System, turns: seq<Turn>)
    requires Inv(start, sys) && Productive(sys, turns)
    ensures Inv(start, Play(sys, turns))
    ensures |turns| + Total(Play(sys, turns).txns, Remaining) <= Total(sys.txns, Remaining)
  {
    if turns != [] {
      var front, last := turns[..|turns| - 1], turns[|turns| - 1];
      ProductivePrefix(sys, turns);
      RunsEnd(start, sys, front);
      var before := Play(sys, front);
      StepKeeps(start, before, last.id, last.luck);
      TotalShortens(before, last.id, last.luck);
    }
  }

  ghost predicate Done(sys: System) {
    forall i :: i in sys.txns ==> !Active(sys.txns[i])
  }

  /** One productive step, unless all is done. */
  lemma Onward(start: Store, sys: System, luck: Luck) returns (done: bool, j: int, after: System)
    requires Inv(start, sys)
    ensures done ==> Done(sys)
    ensures !done ==> after == Step(sys, j, luck) && Inv(start, after)
                      && 0 <= Total(after.txns, Remaining) < Total(sys.txns, Remaining)
  {
    done, j, after := Done(sys), 0, sys;
    if !done {
      var i :| i in sys.txns && Active(sys.txns[i]);
      j := NoDeadlock(start, sys, i);
      after := Step(sys, j, luck);
      StepKeeps(start, sys, j, luck);
      TotalShortens(sys, j, luck);
    }
  }

  /** The turns, taken with the luck dealt from `tick` on, bring every transaction to its end. */
  ghost predicate Finishes(start: Store, sys: System, turns: seq<Turn>, luck: nat -> Luck, tick: nat) {
    && Done(Play(sys, turns)) && Inv(start, Play(sys, turns))
    && forall k :: 0 <= k < |turns| ==> turns[k].luck == luck(tick + k)
  }

  lemma FinishesNow(start: Store, sys: System, luck: nat -> Luck, tick: nat)
    requires Inv(start, sys) && Done(sys)
    ensures Finishes(start, sys, [], luck, tick)
  {
  }

  lemma FinishesLater(start: Store, sys: System, j: int, rest: seq<Turn>, luck: nat -> Luck, tick: nat)
    requires Finishes(start, Step(sys, j, luck(tick)), rest, luck, tick + 1)
    ensures Finishes(start, sys, [Turn(j, luck(tick))] + rest, luck, tick)
  {
    var turns := [Turn(j, luck(tick))] + rest;
    PlayFirst(sys, turns[0], rest);
    forall k | 0 <= k < |turns|
      ensures turns[k].luck == luck(tick + k)
    {
      if k > 0 {
        assert rest[k - 1].luck == luck(tick + 1 + (k - 1));
      }
    }
  }

  /** From any reachable state, under any luck, there is a way for every transaction to finish. */
  lemma {:induction false} AllFinish(start: Store, sys: System, luck: nat -> Luck, tick: nat, left: nat)
    returns (turns: seq<Turn>)
    requires Inv(start, sys) && Total(sys.txns, Remaining) <= left
    ensures Finishes(start, sys, turns, luck, tick)
    decreases left
  {
    var done, j, after := Onward(start, sys, luck(tick));
    if done {
      FinishesNow(start, sys, luck, tick);
      turns := [];
    } else {
      var rest := AllFinish(start, after, luck, tick + 1, left - 1);
      FinishesLater(start, sys, j, rest, luck, tick);
      turns := [Turn(j, luck(tick))] + rest;
    }
  }

  lemma PlayLast(sys: System, front: seq<Turn>, last: Turn)
    ensures Play(sys, front + [last]) == Step(Play(sys, front), last.id, last.luck)
  {
    assert (front + [last])[..|front|] == front;
  }

  lemma {:induction false} PlayFirst(sys: System, first: Turn, rest: seq<Turn>)
    ensures Play(sys, [first] + rest) == Play(Step(sys, first.id, first.luck), rest)
  {
    if rest == [] {
      assert [first] + rest == [] + [first];
      PlayLast(sys, [], first);
    } else {
      var front, last := rest[..|rest| - 1], rest[|rest| - 1];
      PlayFirst(sys, first, front);
      PlayLast(sys, [first] + front, last);
      PlayLast(Step(sys, first.id, first.luck), front, last);
      assert rest == front + [last];
      assert [first] + rest == [first] + front + [last];
    }
  }

  // Retries.

  /** The 40001s dealt to one transaction. */
  ghost function Conflicts(turns: seq<Turn>, i: int): nat {
    if turns == [] then 0
    else
      var last := turns[|turns| - 1];
      Conflicts(turns[..|turns| - 1], i) + if last == Turn(i, Serialization) then 1 else 0
  }

  ghost predicate Struck(turns: seq<Turn>, i: int) {
    Turn(i, Fatal) in turns
  }

  /** A failed attempt for every conflict while under way; given up for a fatal error or after five conflicts alone. */
  ghost predicate Excused(t: Txn, conflicts: nat, struck: bool) {
    && (Active(t) ==> t.tries == conflicts < 5 && !struck)
    && (t.phase == GivenUp ==> struck || conflicts >= 5)
  }

  lemma StepExcuses(sys: System, i: int, luck: Luck, conflicts: nat, struck: bool)
    requires i in sys.txns && Runnable(sys.txns[i]) && Excused(sys.txns[i], conflicts, struck)
    ensures i in Step(sys, i, luck).txns
    ensures Excused(Step(sys, i, luck).txns[i], conflicts + if luck.Serialization? then 1 else 0, struck || luck.Fatal?)
  {
  }

  /**
   * A transaction under way has been begun once more than it met a 40001, and one that was given up
   * met a fatal error or five of them.
   */
  lemma {:induction false} GivenUpForCause(start: Store, commands: map<int, Command>, turns: seq<Turn>, i: int)
    requires (forall j :: j in commands ==> Locks(commands[j])) && i in commands
    ensures var sys := Play(Begin(start, commands), turns);
            i in sys.txns && Excused(sys.txns[i], Conflicts(turns, i), Struck(turns, i))
  {
    if turns != [] {
      var front, last := turns[..|turns| - 1], turns[|turns| - 1];
      GivenUpForCause(start, commands, front, i);
      SerialEquivalence(start, commands, front);
      var before := Play(Begin(start, commands), front);
      assert OnCourse(before.committed, before.owners, i, before.txns[i]);
      assert turns == front + [last];
      if last.id == i {
        StepExcuses(before, i, last.luck, Conflicts(front, i), Struck(front, i));
      } else if last.id in before.txns {
        StepFrame(before, last.id, last.luck);
      }
    }
  }
}
