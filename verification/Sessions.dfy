/**
 * A client that runs one program after another on a faulty database shared with others. What the
 * run theorems say of serial histories holds of its database after every call.
 */
module Sessions {
  import opened Accounts
  import opened Books
  import opened Database
  import opened GuardedRuns
  import opened Records
  import opened Retry
  import opened Runs
  import opened Services

  /** The commands this session committed, in order. */
  ghost function Mine(entries: seq<Entry>): seq<Command> {
    if entries == [] then []
    else
      var front, last := Mine(entries[..|entries| - 1]), entries[|entries| - 1];
      if last.mine then front + [last.command] else front
  }

  /** The commands that were answered with success, in order. */
  ghost function Successes(commands: seq<Command>, answers: seq<Answer>): seq<Command>
    requires |answers| == |commands|
  {
    if commands == [] then []
    else
      var n := |commands| - 1;
      var front := Successes(commands[..n], answers[..n]);
      if answers[n].Replied? then front + [commands[n]] else front
  }

  /** After `first`, the session committed the commands answered with success so far. */
  ghost predicate InStep(first: seq<Command>, mine: seq<Command>, commands: seq<Command>, answers: seq<Answer>) {
    |answers| <= |commands| && mine == first + Successes(commands[..|answers|], answers)
  }

  lemma StepsBegin(first: seq<Command>, commands: seq<Command>)
    ensures InStep(first, first, commands, [])
  {
  }

  /** One more call keeps step. */
  lemma StepsGoOn(first: seq<Command>, mine: seq<Command>, commands: seq<Command>, answers: seq<Answer>, answer: Answer)
    requires |answers| < |commands| && InStep(first, mine, commands, answers)
    ensures InStep(first, if answer.Replied? then mine + [commands[|answers|]] else mine, commands, answers + [answer])
  {
    var i := |answers|;
    assert commands[..i + 1][..i] == commands[..i] && (answers + [answer])[..i] == answers;
  }

  lemma StepsEnd(first: seq<Command>, mine: seq<Command>, commands: seq<Command>, answers: seq<Answer>)
    requires InStep(first, mine, commands, answers) && |answers| == |commands|
    ensures mine == first + Successes(commands, answers)
  {
    assert commands[..|answers|] == commands;
  }

  lemma {:induction false} MineOfForeign(before: seq<Entry>, added: seq<Entry>)
    requires NoneMine(added)
    ensures Mine(before + added) == Mine(before)
  {
    if added == [] {
      assert before + added == before;
    } else {
      MineOfForeign(before, added[..|added| - 1]);
      assert (before + added)[..|before + added| - 1] == before + added[..|added| - 1];
    }
  }

  /** One call adds its command to the session's commits exactly when it succeeded. */
  lemma MineOfCall(before: seq<Entry>, after: seq<Entry>, c: Command, own: bool)
    requires AddsOnly(before, after, c, own)
    ensures Mine(after) == if own then Mine(before) + [c] else Mine(before)
  {
    var added := after[|before|..];
    assert after == before + added;
    if own {
      var late := added[..|added| - 1];
      MineOfForeign(before, late);
      assert after[..|after| - 1] == before + late;
    } else {
      MineOfForeign(before, added);
    }
  }

  lemma {:induction false} MineOfEntry(entries: seq<Entry>, i: nat)
    requires i < |entries| && entries[i].mine
    ensures entries[i].command in Mine(entries)
  {
    var n := |entries| - 1;
    if i < n {
      MineOfEntry(entries[..n], i);
    }
  }

  lemma {:induction false} SuccessesAreCommands(commands: seq<Command>, answers: seq<Answer>)
    requires |answers| == |commands|
    ensures forall c :: c in Successes(commands, answers) ==> c in commands
  {
    if commands != [] {
      SuccessesAreCommands(commands[..|commands| - 1], answers[..|commands| - 1]);
    }
  }

  /** Every command that this session or another one commits satisfies `p`. */
  ghost predicate OnlyCommits(db: Session, p: Command -> bool)
    reads db
  {
    && (forall t: nat, c :: c in db.others(t) ==> p(c))
    && (forall c :: c in Mine(db.history) ==> p(c))
  }

  lemma CommitsSatisfy(db: Session, p: Command -> bool)
    requires db.Valid() && OnlyCommits(db, p)
    ensures forall i :: 0 <= i < |db.history| ==> p(Commands(db.history)[i])
  {
    forall i | 0 <= i < |db.history|
      ensures p(Commands(db.history)[i])
    {
      if db.history[i].mine {
        MineOfEntry(db.history, i);
      } else {
        assert db.FromOthers(db.history[i].command);
      }
    }
  }

  /** Every state a session's database can be in satisfies the run theorems. */
  lemma SessionStates(db: Session)
    requires db.Valid() && db.start == EMPTY_STORE
    ensures WellFormed(db.committed)
    ensures var run := Commands(db.history);
            MoneyHeld(db.committed) == OpeningTotal(EMPTY_STORE, run) + MintedTotal(EMPTY_STORE, run) + Net(db.committed.log)
  {
    ReachableIsWellFormed(Commands(db.history));
    Reconciliation(Commands(db.history));
  }

  /** If only admitted commands are committed, the theorems about them hold too. */
  lemma GuardedSessionStates(db: Session)
    requires db.Valid() && db.start == EMPTY_STORE && OnlyCommits(db, Guarded)
    ensures Sound(db.committed)
    ensures MoneyHeld(db.committed) == OpeningTotal(EMPTY_STORE, Commands(db.history)) + Net(db.committed.log)
  {
    CommitsSatisfy(db, Guarded);
    GuardedIsSound(Commands(db.history));
    GuardedBooksBalance(Commands(db.history));
  }

  /** If no command that skips a funds check is committed, no balance ever falls below zero. */
  lemma FundedSessionStates(db: Session)
    requires db.Valid() && db.start == EMPTY_STORE && OnlyCommits(db, KeepsFunds)
    ensures NonNegative(db.committed)
  {
    CommitsSatisfy(db, KeepsFunds);
    FundsStayNonNegative(Commands(db.history));
  }

  method ServeOne(db: Session, c: Command) returns (answer: Answer)
    requires db.Valid()
    modifies db
    ensures db.Valid() && Mine(db.history) == if answer.Replied? then Mine(old(db.history)) + [c] else Mine(old(db.history))
  {
    var last, attempts;
    answer, last, attempts := Execute(db, c);
    MineOfCall(old(db.history), db.history, c, Succeeded(last));
  }

  /**
   * Runs the commands one after the other. Whatever fails and whoever else commits in between, the
   * commands this session committed are those answered with success, once each and in order.
   */
  method ServeAll(db: Session, commands: seq<Command>) returns (answers: seq<Answer>)
    requires db.Valid()
    modifies db
    ensures db.Valid() && |answers| == |commands|
    ensures Mine(db.history) == Mine(old(db.history)) + Successes(commands, answers)
  {
    ghost var first := Mine(db.history);
    answers := [];
    StepsBegin(first, commands);
    while |answers| < |commands|
      invariant db.Valid() && InStep(first, Mine(db.history), commands, answers)
      decreases |commands| - |answers|
    {
      ghost var mine := Mine(db.history);
      var answer := ServeOne(db, commands[|answers|]);
      StepsGoOn(first, mine, commands, answers, answer);
      answers := answers + [answer];
    }
    StepsEnd(first, Mine(db.history), commands, answers);
  }

  /**
   * A branch from its empty database: after any calls, whatever failed and whoever else committed,
   * it is well-formed and reconciled; with admitted commands only, names are titled, descriptions
   * full-width and the books balanced outright; without unchecked debits, nothing is overdrawn.
   */
  method ServeBranch(db: Session, commands: seq<Command>) returns (answers: seq<Answer>)
    requires db.Valid() && db.start == EMPTY_STORE && db.history == []
    modifies db
    ensures db.Valid() && |answers| == |commands| && Mine(db.history) == Successes(commands, answers)
    ensures WellFormed(db.committed)
    ensures var run := Commands(db.history);
            MoneyHeld(db.committed) == OpeningTotal(EMPTY_STORE, run) + MintedTotal(EMPTY_STORE, run) + Net(db.committed.log)
    ensures (forall c :: c in commands ==> Guarded(c)) && (forall t: nat, c :: c in db.others(t) ==> Guarded(c)) ==>
              && Sound(db.committed)
              && MoneyHeld(db.committed) == OpeningTotal(EMPTY_STORE, Commands(db.history)) + Net(db.committed.log)
    ensures (forall c :: c in commands ==> KeepsFunds(c)) && (forall t: nat, c :: c in db.others(t) ==> KeepsFunds(c)) ==>
              NonNegative(db.committed)
  {
    answers := ServeAll(db, commands);
    SuccessesAreCommands(commands, answers);
    SessionStates(db);
    if OnlyCommits(db, Guarded) {
      GuardedSessionStates(db);
    }
    if OnlyCommits(db, KeepsFunds) {
      FundedSessionStates(db);
    }
  }
}
