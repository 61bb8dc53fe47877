/** The retry loop around every program: at most five attempts, at most one commit, exactly one effect. */
module Retry {
  import opened Database
  import opened Ledger
  import opened Programs
  import opened Records

  /** What the caller of a program sees. */
  datatype Answer = Replied(view: View) | Failed(code: string) | Abended(code: string) | DatabaseError

  /** The entries a call added to the history: other sessions' commits, then its own if it succeeded. */
  ghost predicate AddsOnly(before: seq<Entry>, after: seq<Entry>, c: Command, own: bool) {
    && before <= after
    && var added := after[|before|..];
       if own then added != [] && added[|added| - 1] == Entry(c, true) && NoneMine(added[..|added| - 1])
       else NoneMine(added)
  }

  predicate Succeeded(r: Attempt) {
    r.Done? && r.outcome.Success?
  }

  method RunOnce(db: Session, c: Command) returns (r: Attempt)
    requires db.Fresh()
    modifies db`working, db`clock, db`disturbed, db`sawRetry, db`mishap, db`trace
    ensures Refines(c, old(db.working), db.working, db.disturbed, db.sawRetry, db.mishap, r)
    ensures Locks(c) ==> InOrder(Statements(c), db.trace, r)
    ensures db.FaultFree() ==> !db.disturbed
  {
    match c {
      case CreateCustomer(_, _, _, _, _, _) => r := CreateCustomerOnce(db, c);
      case CreateAccount(_, _, _, _, _, _, _, _, _, _) => r := CreateAccountOnce(db, c);
      case UpdateCustomer(_, _, _, _) => r := UpdateCustomerOnce(db, c);
      case UpdateAccount(_, _, _, _, _) => r := UpdateAccountOnce(db, c);
      case DeleteAccount(_, _) => r := DeleteAccountOnce(db, c);
      case DeleteCustomer(_, _) => r := DeleteCustomerOnce(db, c);
      case Post(_, _, _, _, _) => r := PostOnce(db, c);
      case Transfer(_, _, _, _) => r := TransferOnce(db, c);
    }
  }

  lemma AddsForeign(h: seq<Entry>, commands: seq<Command>, c: Command)
    ensures AddsOnly(h, h + Foreign(commands), c, false)
  {
    assert (h + Foreign(commands))[|h|..] == Foreign(commands);
  }

  lemma AddsOwn(h0: seq<Entry>, h1: seq<Entry>, h2: seq<Entry>, c: Command, own: bool)
    requires AddsOnly(h0, h1, c, false) && h2 == if own then h1 + [Entry(c, true)] else h1
    ensures AddsOnly(h0, h2, c, own)
  {
    if own {
      assert h2[|h0|..] == h1[|h0|..] + [Entry(c, true)];
    }
  }

  lemma AddsOnlyChains(h0: seq<Entry>, h1: seq<Entry>, h2: seq<Entry>, c: Command, own: bool)
    requires AddsOnly(h0, h1, c, false) && AddsOnly(h1, h2, c, own)
    ensures AddsOnly(h0, h2, c, own)
  {
    assert h2[|h0|..] == h1[|h0|..] + h2[|h1|..];
    var added, late := h2[|h0|..], h2[|h1|..];
    if own {
      assert added[..|added| - 1] == h1[|h0|..] + late[..|late| - 1];
    }
  }

  /**
   * How an attempt at `c` on the store `base` ends. Without a mishap it was undisturbed and gives the
   * atomic reply; a mishap gives the code of its statement; a 40001 asks for a retry; and only a
   * failed begin or commit is passed on as a database error.
   */
  ghost predicate Ends(c: Command, base: Store, disturbed: bool, sawRetry: bool, mishap: Option<Mishap>, r: Attempt) {
    && (r.Retry? <==> sawRetry)
    && (r.Broken? <==> !sawRetry && mishap in {Some(Errored(Opening)), Some(Errored(Closing))})
    && (r.Done? && mishap == None ==> !disturbed)
    && (!disturbed ==> r == Done(Apply(c, base).outcome))
    && (r.Done? && mishap.Some? ==> AnswersMishap(c, mishap.value, r.outcome))
    && (r == Done(Abend("HWPT")) ==> mishap == Some(Errored(Audit)))
    && r != Done(Abend("XRTY"))
  }

  /**
   * The session after an attempt at `c`. On success the last commit of the history is the atomic step
   * on the store the commits before it left, with that reply; else the store is the one it began on.
   */
  ghost predicate Settled(db: Session, c: Command, r: Attempt)
    reads db
  {
    && Ends(c, db.base, db.disturbed, db.sawRetry, db.mishap, r)
    && if Succeeded(r) then
         && db.history != [] && db.base == Replay(db.start, Commands(db.history[..|db.history| - 1]))
         && Apply(c, db.base) == Result(r.outcome, db.committed)
       else db.committed == db.base
  }

  /** A program's own statements end it as its refinement says. */
  lemma RefinedEnds(c: Command, base: Store, after: Store, disturbed: bool, sawRetry: bool, mishap: Option<Mishap>, r: Attempt)
    requires Refines(c, base, after, disturbed, sawRetry, mishap, r)
    ensures Ends(c, base, disturbed, sawRetry, mishap, r)
    ensures Succeeded(r) ==> Apply(c, base) == Result(r.outcome, after)
  {
  }

  /** A begin or commit that failed is retried after a 40001 and passed on otherwise. */
  lemma Interrupted(c: Command, base: Store, sawRetry: bool, mishap: Option<Mishap>)
    requires sawRetry || mishap in {Some(Errored(Opening)), Some(Errored(Closing))}
    ensures Ends(c, base, true, sawRetry, mishap, if sawRetry then Retry else Broken)
  {
  }

  /** The body of the transaction: a commit exactly on success, and then of the atomic step. */
  method RunAndCommit(db: Session, c: Command) returns (r: Attempt)
    requires db.Valid() && db.Fresh() && db.working == db.base == db.committed
    modifies db`working, db`committed, db`clock, db`disturbed, db`sawRetry, db`mishap, db`trace, db`history
    ensures db.Valid() && Settled(db, c, r)
    ensures db.history == if Succeeded(r) then old(db.history) + [Entry(c, true)] else old(db.history)
    ensures db.FaultFree() ==> !db.disturbed
  {
    r := RunOnce(db, c);
    RefinedEnds(c, db.base, db.working, db.disturbed, db.sawRetry, db.mishap, r);
    if Succeeded(r) {
      r := CommitFor(db, c, r);
    }
  }

  lemma FrontOf<T>(front: seq<T>, last: T)
    ensures var all := front + [last]; all[..|all| - 1] == front && all != []
  {
  }

  /** Commits the atomic step of `c`, or ends the attempt without it. */
  method CommitFor(db: Session, c: Command, done: Attempt) returns (r: Attempt)
    requires db.Valid() && db.base == db.committed && Succeeded(done)
    requires Apply(c, db.base) == Result(done.outcome, db.working)
    requires Ends(c, db.base, db.disturbed, db.sawRetry, db.mishap, done)
    modifies db`committed, db`clock, db`disturbed, db`sawRetry, db`mishap, db`history
    ensures db.Valid() && Settled(db, c, r)
    ensures db.history == if Succeeded(r) then old(db.history) + [Entry(c, true)] else old(db.history)
    ensures db.FaultFree() ==> db.disturbed == old(db.disturbed)
  {
    ghost var before := db.history;
    var committed := db.Commit(c);
    if committed.Ok? {
      FrontOf(before, Entry(c, true));
      return done;
    }
    Interrupted(c, db.base, db.sawRetry, db.mishap);
    return if committed.Err40001? then Retry else Broken;
  }

  /** Begins a transaction for `c`, or ends the attempt. */
  method BeginFor(db: Session, c: Command) returns (ended: Option<Attempt>)
    requires db.Valid()
    modifies db
    ensures db.Valid() && db.base == db.committed == Replay(old(db.committed), db.others(old(db.clock)))
    ensures db.begins == old(db.begins) + [old(db.sawRetry)]
    ensures AddsOnly(old(db.history), db.history, c, false)
    ensures ended == None ==> db.Fresh() && db.working == db.base
    ensures ended.Some? ==> ended.value in {Retry, Broken} && Settled(db, c, ended.value) && !db.FaultFree()
  {
    var begun := db.Begin();
    AddsForeign(old(db.history), db.others(old(db.clock)), c);
    if begun.Ok? { return None; }
    Interrupted(c, db.base, db.sawRetry, db.mishap);
    return Some(if begun.Err40001? then Retry else Broken);
  }

  /**
   * One pass of the retried closure: begin, run, and commit on success only. Dropping the
   * transaction without a commit rolls it back, so the committed store then moves only by what
   * other sessions committed.
   */
  method RunAttempt(db: Session, c: Command) returns (r: Attempt)
    requires db.Valid()
    modifies db
    ensures db.Valid() && Settled(db, c, r)
    ensures db.begins == old(db.begins) + [old(db.sawRetry)]
    ensures db.base == Replay(old(db.committed), db.others(old(db.clock)))
    ensures AddsOnly(old(db.history), db.history, c, Succeeded(r))
    ensures db.FaultFree() ==> !db.disturbed
  {
    var ended := BeginFor(db, c);
    if ended.Some? { return ended.value; }
    ghost var begun := db.history;
    r := RunAndCommit(db, c);
    AddsOwn(old(db.history), begun, db.history, c, Succeeded(r));
  }

  /** The session began `attempts` transactions, each but the first right after one that met a 40001. */
  ghost predicate Retried(before: seq<bool>, after: seq<bool>, attempts: nat) {
    before <= after && |after| == |before| + attempts && forall k :: |before| < k < |after| ==> after[k]
  }

  method WithRetry(db: Session, c: Command) returns (r: Attempt, attempts: nat)
    requires db.Valid()
    modifies db
    ensures db.Valid() && Settled(db, c, r)
    ensures 1 <= attempts <= 5 && Retried(old(db.begins), db.begins, attempts)
    ensures (r.Retry? <==> db.sawRetry) && (r.Retry? ==> attempts == 5) && r != Done(Abend("XRTY"))
    ensures AddsOnly(old(db.history), db.history, c, Succeeded(r))
    ensures db.Alone() ==> db.base == old(db.committed)
    ensures db.FaultFree() ==>
              attempts == 1 && !db.disturbed && db.base == Replay(old(db.committed), db.others(old(db.clock)))
  {
    attempts := 0;
    while true
      invariant db.Valid() && 0 <= attempts < RETRY_ATTEMPTS
      invariant Retried(old(db.begins), db.begins, attempts) && (attempts > 0 ==> db.sawRetry)
      invariant AddsOnly(old(db.history), db.history, c, false)
      invariant attempts == 0 ==> db.committed == old(db.committed) && db.clock == old(db.clock)
      invariant db.FaultFree() ==> attempts == 0
      invariant db.Alone() ==> db.committed == old(db.committed)
      decreases RETRY_ATTEMPTS - attempts
    {
      ghost var before := db.history;
      attempts := attempts + 1;
      r := RunAttempt(db, c);
      AddsOnlyChains(old(db.history), before, db.history, c, Succeeded(r));
      if r.Done? { return; }
      if r.Retry? && attempts < RETRY_ATTEMPTS { continue; }
      return;
    }
  }

  /** An answer for each way an attempt can end, and none for two, but that a last 40001 is told as XRTY. */
  ghost predicate Tells(answer: Answer, last: Attempt) {
    && (forall view :: answer == Replied(view) <==> last == Done(Success(view)))
    && (forall code :: answer == Failed(code) <==> last == Done(Failure(code)))
    && (forall code :: answer == Abended(code) <==> last == Done(Abend(code)) || (last.Retry? && code == "XRTY"))
    && (answer == DatabaseError <==> last.Broken?)
  }

  /** An answer that says no more and no less than an outcome. */
  ghost predicate TellsOutcome(answer: Answer, o: Outcome) {
    && (forall view :: answer == Replied(view) <==> o == Success(view))
    && (forall code :: answer == Failed(code) <==> o == Failure(code))
    && (forall code :: answer == Abended(code) <==> o == Abend(code))
    && answer != DatabaseError
  }

  /**
   * A program as its caller sees it, and exactly-once in full. The call begins one to five
   * transactions, each but the first right after a 40001, and XRTY is answered when the fifth met
   * one too. It replies with success exactly when it put one commit of its command into the history,
   * and that commit was the atomic step with that reply on the store the commits before it left. Any
   * other answer added no commit of this session's: it is the atomic reply on the store as it now
   * is, or the code of the statement that went wrong, and with nobody else about the store is untouched.
   */
  method Execute(db: Session, c: Command) returns (answer: Answer, last: Attempt, attempts: nat)
    requires db.Valid()
    modifies db
    ensures db.Valid() && Settled(db, c, last)
    ensures Tells(answer, last) && (!db.disturbed ==> TellsOutcome(answer, Apply(c, db.base).outcome))
    ensures 1 <= attempts <= 5 && Retried(old(db.begins), db.begins, attempts)
    ensures answer == Abended("XRTY") <==> attempts == 5 && db.sawRetry
    ensures db.sawRetry ==> attempts == 5
    ensures AddsOnly(old(db.history), db.history, c, Succeeded(last)) && (answer.Replied? <==> Succeeded(last))
    ensures db.Alone() ==> db.base == old(db.committed)
    ensures db.FaultFree() ==>
              attempts == 1 && !db.disturbed && db.base == Replay(old(db.committed), db.others(old(db.clock)))
  {
    last, attempts := WithRetry(db, c);
    answer := AnswerTo(last);
    AnswerTells(last);
    if !db.disturbed {
      AnswerTellsOutcome(Apply(c, db.base).outcome);
    }
  }

  function AnswerTo(last: Attempt): Answer {
    match last
    case Done(Success(view)) => Replied(view)
    case Done(Failure(code)) => Failed(code)
    case Done(Abend(code)) => Abended(code)
    case Retry => Abended(RETRY_EXHAUSTED_ABEND)
    case Broken => DatabaseError
  }

  /** No program replies XRTY by itself, so the answer tells the attempts apart. */
  lemma AnswerTells(last: Attempt)
    requires last != Done(Abend("XRTY"))
    ensures Tells(AnswerTo(last), last)
    ensures AnswerTo(last) == Abended("XRTY") <==> last.Retry?
    ensures AnswerTo(last).Replied? <==> Succeeded(last)
  {
    if last.Done? && last.outcome.Abend? {
      assert last.outcome == Abend(last.outcome.code);
    }
  }

  lemma AnswerTellsOutcome(o: Outcome)
    ensures TellsOutcome(AnswerTo(Done(o)), o)
  {
  }
}
