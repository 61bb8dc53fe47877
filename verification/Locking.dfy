/**
 * Many transfers, postings, account updates and account deletions in flight at once, statement by
 * statement. Each locks its rows before reading them, keeps the locks to its end, and installs its
 * writes when it commits. Any interleaving, with any faults and retries, is a serial run in the
 * order of the replies, somebody can always step, and every run ends.
 */
module Locking {
  import Audit
  import opened Ledger
  import opened Numbers
  import opened Records
  import opened Runs

  /** Why the `k`-th locked read stops the program, if it does. */
  function LoadOutcome(c: Command, s: Store, k: nat): Option<Outcome>
    requires Locks(c) && k < |Rows(c)|
  {
    if c.Transfer? then LoadRefusal(s, OrderedRoles(c.from, c.to)[k], Rows(c)[k])
    else if Rows(c)[k] !in s.accounts then Some(Failure("1"))
    else if !ValidAccount(AccountAt(s, Rows(c)[k])) then Some(Abend("HRAC"))
    else None
  }

  // What a transaction sees and writes.

  /** The given account rows and nothing else. */
  function Restrict(s: Store, ns: set<int>): Store {
    Store(None, map[], map n | n in s.accounts && n in ns :: s.accounts[n], [])
  }

  /** The store with the given rows replaced by those of `w`, and the new audit rows appended. */
  function Install(s: Store, ns: set<int>, w: Store): Store {
    s.(accounts := (s.accounts - ns) + w.accounts, log := s.log + w.log)
  }

  datatype Write = Put(n: int, row: Account) | Drop(n: int) | Log(t: Tran)

  function Perform(w: Write, s: Store): Store {
    match w
    case Put(n, row) => s.(accounts := s.accounts[n := row])
    case Drop(n) => s.(accounts := s.accounts - {n})
    case Log(t) => Append(s, t)
  }

  function PerformAll(ws: seq<Write>, s: Store): Store {
    if ws == [] then s else PerformAll(ws[1..], Perform(ws[0], s))
  }

  /** The statements that follow the checks, computed from the locked rows. */
  function Plan(c: Command, s: Store): (r: seq<Write>)
    requires Locks(c) && forall k :: 0 <= k < |Rows(c)| ==> Rows(c)[k] in s.accounts
    ensures |r| <= 3
  {
    match c
    case Transfer(from, to, amount, _) =>
      assert Rows(c)[0] in s.accounts && Rows(c)[1] in s.accounts;
      var f, g := s.accounts[from], s.accounts[to];
      [Put(from, f.(available := f.available - amount, actual := f.actual - amount)),
       Put(to, g.(available := g.available + amount, actual := g.actual + amount)),
       Log(TransferTran(c))]
    case Post(n, amount, facility, origin, stamp) =>
      assert Rows(c)[0] in s.accounts;
      var a := s.accounts[n];
      [Put(n, a.(available := a.available + amount, actual := a.actual + amount)),
       Log(Tran(stamp, PostKind(facility, amount), Audit.PostDescription(facility, amount, origin), amount))]
    case UpdateAccount(n, kind, rate, overdraft, stamp) =>
      assert Rows(c)[0] in s.accounts;
      [Put(n, s.accounts[n].(kind := kind, rate := rate, overdraft := overdraft)),
       Log(Tran(stamp, OUA, Audit.UpdateDescription(AccountAt(s, n).(kind := kind, rate := rate, overdraft := overdraft)), 0))]
    case DeleteAccount(n, stamp) =>
      assert Rows(c)[0] in s.accounts;
      [Drop(n), Log(DeletionTran(stamp, AccountAt(s, n)))]
  }

  function AccessOf(w: Write): Access {
    match w
    case Put(n, _) => WriteRow(n)
    case Drop(n) => WriteRow(n)
    case Log(_) => WriteAudit
  }

  // The system.

  datatype Phase =
    | Locking(got: nat)
    | Writing(rest: seq<Write>, outcome: Outcome)
    | Replied(outcome: Outcome)
    | GivenUp

  /** A transaction: its command, failed attempts so far, where it is, and its own copy of its locked rows. */
  datatype Txn = Txn(command: Command, tries: nat, phase: Phase, work: Store)

  datatype Reply = Reply(id: int, command: Command, outcome: Outcome)

  datatype System = System(committed: Store, owners: map<int, int>, txns: map<int, Txn>, history: seq<Reply>)

  /** What befalls a transaction's next statement. */
  datatype Luck = Fine | Serialization | Fatal

  const NOTHING := Store(None, map[], map[], [])

  predicate Active(t: Txn) {
    t.phase.Locking? || t.phase.Writing?
  }

  /** Waiting for a row that another transaction holds. */
  predicate Blocked(sys: System, i: int)
    requires i in sys.txns && Locks(sys.txns[i].command)
  {
    var t := sys.txns[i];
    && t.phase.Locking? && t.phase.got < |Rows(t.command)|
    && var n := Rows(t.command)[t.phase.got]; n in sys.owners && sys.owners[n] != i
  }

  function Release(owners: map<int, int>, i: int): map<int, int> {
    map n | n in owners && owners[n] != i :: owners[n]
  }

  /** The transaction ends with a reply, and its locks go. */
  function Settle(sys: System, i: int, o: Outcome, store: Store): System
    requires i in sys.txns
  {
    var t := sys.txns[i];
    System(store, Release(sys.owners, i), sys.txns[i := t.(phase := Replied(o))], sys.history + [Reply(i, t.command, o)])
  }

  /** The transaction rolls back: tried again after a 40001 while attempts are left, else given up. */
  function RollBack(sys: System, i: int, retry: bool): System
    requires i in sys.txns
  {
    var t := sys.txns[i];
    var next := if retry && t.tries + 1 < RETRY_ATTEMPTS then Txn(t.command, t.tries + 1, Locking(0), NOTHING)
                else t.(phase := GivenUp);
    sys.(owners := Release(sys.owners, i), txns := sys.txns[i := next])
  }

  /** What every transaction keeps about itself. */
  predicate Runnable(t: Txn) {
    && Locks(t.command) && t.tries < RETRY_ATTEMPTS
    && (t.phase.Locking? ==> t.phase.got <= |Rows(t.command)|)
    && (t.phase.Writing? ==> |t.phase.rest| <= 3)
    && (t.phase == Locking(|Rows(t.command)|) ==>
          forall k :: 0 <= k < |Rows(t.command)| ==> Rows(t.command)[k] in t.work.accounts)
  }

  /** The next statement of a transaction that is not waiting. */
  function Advance(sys: System, i: int): System
    requires i in sys.txns && Runnable(sys.txns[i])
  {
    var t := sys.txns[i];
    match t.phase
    case Locking(got) =>
      if got == |Rows(t.command)| then
        var r := Apply(t.command, t.work);
        if r.outcome.Success? then sys.(txns := sys.txns[i := t.(phase := Writing(Plan(t.command, t.work), r.outcome))])
        else Settle(sys, i, r.outcome, sys.committed)
      else
        var n := Rows(t.command)[got];
        var refusal := LoadOutcome(t.command, sys.committed, got);
        if refusal.Some? then Settle(sys, i, refusal.value, sys.committed)
        else
          assert n in sys.committed.accounts;
          var work := t.work.(accounts := t.work.accounts[n := sys.committed.accounts[n]]);
          sys.(owners := sys.owners[n := i], txns := sys.txns[i := t.(phase := Locking(got + 1), work := work)])
    case Writing(rest, o) =>
      if rest == [] then Settle(sys, i, o, Install(sys.committed, Elements(Rows(t.command)), t.work))
      else sys.(txns := sys.txns[i := t.(phase := Writing(rest[1..], o), work := Perform(rest[0], t.work))])
    case Replied(_) => sys
    case GivenUp => sys
  }

  function Step(sys: System, i: int, luck: Luck): System {
    if i !in sys.txns || !Runnable(sys.txns[i]) || !Active(sys.txns[i]) then sys
    else if luck != Fine then RollBack(sys, i, luck.Serialization?)
    else if Blocked(sys, i) then sys
    else Advance(sys, i)
  }

  // Locality: a program's atomic step on the whole store is its step on the locked rows, installed.

  /** Two stores agree on the rows of a program. */
  ghost predicate Agree(s: Store, t: Store, ns: set<int>) {
    forall n :: n in ns ==> (n in s.accounts <==> n in t.accounts) && (n in s.accounts ==> s.accounts[n] == t.accounts[n])
  }

  lemma AgreeingRestrict(s: Store, t: Store, ns: set<int>)
    requires Agree(s, t, ns)
    ensures Restrict(s, ns) == Restrict(t, ns)
  {
    var a, b := Restrict(s, ns).accounts, Restrict(t, ns).accounts;
    forall n
      ensures n in a <==> n in b
      ensures n in a ==> a[n] == b[n]
    {
      assert n in ns ==> (n in s.accounts <==> n in t.accounts);
    }
    assert a == b;
  }

  lemma RowsCovered(c: Command)
    requires Locks(c)
    ensures Elements(Rows(c)) == if c.Transfer? then {c.from, c.to} else {Rows(c)[0]}
  {
    if c.Transfer? {
      assert c.from in Rows(c) && c.to in Rows(c);
    } else {
      assert Rows(c)[0] in Rows(c);
    }
  }

  lemma InstallNothing(s: Store, ns: set<int>)
    ensures Install(s, ns, Restrict(s, ns)) == s
  {
    assert (s.accounts - ns) + Restrict(s, ns).accounts == s.accounts;
  }

  lemma InstallPut(s: Store, ns: set<int>, n: int, row: Account, t: Tran)
    requires n in ns
    ensures var w := Restrict(s, ns);
            Install(s, ns, w.(accounts := w.accounts[n := row], log := w.log + [t]))
            == s.(accounts := s.accounts[n := row], log := s.log + [t])
  {
    var w := Restrict(s, ns);
    assert (s.accounts - ns) + w.accounts[n := row] == s.accounts[n := row];
    assert s.log + (w.log + [t]) == s.log + [t];
  }

  lemma PostLocal(s: Store, c: Command, ns: set<int>)
    requires c.Post? && ns == {c.account}
    ensures var r := ApplyPost(Restrict(s, ns), c); ApplyPost(s, c) == Result(r.outcome, Install(s, ns, r.store))
  {
    InstallNothing(s, ns);
    var r := ApplyPost(Restrict(s, ns), c);
    if r.outcome.Success? {
      InstallPut(s, ns, c.account, r.store.accounts[c.account], r.store.log[0]);
    }
  }

  lemma UpdateLocal(s: Store, c: Command, ns: set<int>)
    requires c.UpdateAccount? && ns == {c.account}
    ensures var r := ApplyUpdateAccount(Restrict(s, ns), c);
            ApplyUpdateAccount(s, c) == Result(r.outcome, Install(s, ns, r.store))
  {
    InstallNothing(s, ns);
    var r := ApplyUpdateAccount(Restrict(s, ns), c);
    if r.outcome.Success? {
      InstallPut(s, ns, c.account, r.store.accounts[c.account], r.store.log[0]);
    }
  }

  lemma DeleteLocal(s: Store, c: Command, ns: set<int>)
    requires c.DeleteAccount? && ns == {c.account}
    ensures var r := ApplyDeleteAccount(Restrict(s, ns), c);
            ApplyDeleteAccount(s, c) == Result(r.outcome, Install(s, ns, r.store))
  {
    InstallNothing(s, ns);
    var r := ApplyDeleteAccount(Restrict(s, ns), c);
    if r.outcome.Success? {
      assert (s.accounts - ns) + r.store.accounts == s.accounts - {c.account};
    }
  }

  lemma InstallTwo(s: Store, ns: set<int>, n: int, m: int, row: Account, other: Account, t: Tran)
    requires n in ns && m in ns
    ensures var w := Restrict(s, ns);
            Install(s, ns, w.(accounts := w.accounts[n := row][m := other], log := w.log + [t]))
            == s.(accounts := s.accounts[n := row][m := other], log := s.log + [t])
  {
    var w := Restrict(s, ns);
    assert (s.accounts - ns) + w.accounts[n := row][m := other] == s.accounts[n := row][m := other];
    assert s.log + (w.log + [t]) == s.log + [t];
  }

  lemma RefusalLocal(s: Store, from: int, to: int, ns: set<int>)
    requires ns == {from, to}
    ensures TransferRefusal(s, from, to) == TransferRefusal(Restrict(s, ns), from, to)
  {
  }

  lemma MovedLocal(s: Store, c: Command, ns: set<int>)
    requires c.Transfer? && ns == {c.from, c.to} && c.from in s.accounts && c.to in s.accounts
    ensures Moved(s, c) == Install(s, ns, Moved(Restrict(s, ns), c))
  {
    var w := Restrict(s, ns);
    var f, g := s.accounts[c.from], s.accounts[c.to];
    var f2 := f.(available := f.available - c.amount, actual := f.actual - c.amount);
    var g2 := g.(available := g.available + c.amount, actual := g.actual + c.amount);
    InstallTwo(s, ns, c.from, c.to, f2, g2, TransferTran(c));
  }

  lemma FundsOutcomeLocal(s: Store, w: Store, c: Command)
    requires c.Transfer? && c.from in s.accounts && c.to in s.accounts && Agree(s, w, {c.from, c.to})
    ensures MoveFunds(s, c).outcome == MoveFunds(w, c).outcome
  {
  }

  lemma FundsLocal(s: Store, c: Command, ns: set<int>)
    requires c.Transfer? && ns == {c.from, c.to} && c.from in s.accounts && c.to in s.accounts
    ensures var r := MoveFunds(Restrict(s, ns), c); MoveFunds(s, c) == Result(r.outcome, Install(s, ns, r.store))
  {
    var w := Restrict(s, ns);
    FundsOutcomeLocal(s, w, c);
    FundsSpelledOut(s, c);
    FundsSpelledOut(w, c);
    if MoveFunds(s, c).outcome.Success? {
      MovedLocal(s, c, ns);
    } else {
      InstallNothing(s, ns);
    }
  }

  lemma TransferLocal(s: Store, c: Command, ns: set<int>)
    requires c.Transfer? && ns == {c.from, c.to}
    ensures var r := ApplyTransfer(Restrict(s, ns), c); ApplyTransfer(s, c) == Result(r.outcome, Install(s, ns, r.store))
  {
    RefusalLocal(s, c.from, c.to, ns);
    if TransferRefusal(s, c.from, c.to).Some? {
      InstallNothing(s, ns);
    } else {
      FundsLocal(s, c, ns);
    }
  }

  lemma Local(s: Store, c: Command)
    requires Locks(c)
    ensures var ns := Elements(Rows(c));
            var r := Apply(c, Restrict(s, ns));
            Apply(c, s) == Result(r.outcome, Install(s, ns, r.store))
  {
    RowsCovered(c);
    match c {
      case Post(_, _, _, _, _) => PostLocal(s, c, Elements(Rows(c)));
      case UpdateAccount(_, _, _, _, _) => UpdateLocal(s, c, Elements(Rows(c)));
      case DeleteAccount(_, _) => DeleteLocal(s, c, Elements(Rows(c)));
      case Transfer(_, _, _, _) => TransferLocal(s, c, Elements(Rows(c)));
    }
  }

  lemma PerformTwo(a: Write, b: Write, s: Store)
    ensures PerformAll([a, b], s) == Perform(b, Perform(a, s))
  {
    var t := Perform(a, s);
    assert [a, b][1..] == [b] && [b][1..] == [];
    assert PerformAll([b], t) == PerformAll([b][1..], Perform(b, t));
  }

  lemma PerformThree(a: Write, b: Write, c: Write, s: Store)
    ensures PerformAll([a, b, c], s) == Perform(c, Perform(b, Perform(a, s)))
  {
    assert [a, b, c][1..] == [b, c];
    PerformTwo(b, c, Perform(a, s));
  }

  lemma MovedPlan(s: Store, c: Command)
    requires c.Transfer? && c.from in s.accounts && c.to in s.accounts
    requires forall k :: 0 <= k < |Rows(c)| ==> Rows(c)[k] in s.accounts
    ensures PerformAll(Plan(c, s), s) == Moved(s, c)
  {
    var ws := Plan(c, s);
    assert ws == [ws[0], ws[1], ws[2]];
    PerformThree(ws[0], ws[1], ws[2], s);
  }

  lemma PostPlan(s: Store, c: Command)
    requires c.Post? && ApplyPost(s, c).outcome.Success? && Rows(c)[0] in s.accounts
    ensures PerformAll(Plan(c, s), s) == ApplyPost(s, c).store
  {
    var ws := Plan(c, s);
    assert ws == [ws[0], ws[1]];
    PerformTwo(ws[0], ws[1], s);
  }

  lemma UpdatePlan(s: Store, c: Command)
    requires c.UpdateAccount? && ApplyUpdateAccount(s, c).outcome.Success? && Rows(c)[0] in s.accounts
    ensures PerformAll(Plan(c, s), s) == ApplyUpdateAccount(s, c).store
  {
    var ws := Plan(c, s);
    assert ws == [ws[0], ws[1]];
    PerformTwo(ws[0], ws[1], s);
  }

  lemma DeletePlan(s: Store, c: Command)
    requires c.DeleteAccount? && ApplyDeleteAccount(s, c).outcome.Success? && Rows(c)[0] in s.accounts
    ensures PerformAll(Plan(c, s), s) == ApplyDeleteAccount(s, c).store
  {
    var ws := Plan(c, s);
    assert ws == [ws[0], ws[1]];
    PerformTwo(ws[0], ws[1], s);
  }

  /** The planned writes amount to the atomic step. */
  lemma PlanPerforms(s: Store, c: Command)
    requires Locks(c) && Apply(c, s).outcome.Success? && forall k :: 0 <= k < |Rows(c)| ==> Rows(c)[k] in s.accounts
    ensures PerformAll(Plan(c, s), s) == Apply(c, s).store
  {
    match c {
      case Post(_, _, _, _, _) => PostPlan(s, c);
      case UpdateAccount(_, _, _, _, _) => UpdatePlan(s, c);
      case DeleteAccount(_, _) => DeletePlan(s, c);
      case Transfer(_, _, _, _) =>
        TransferSpelledOut(s, c);
        MovedPlan(s, c);
    }
  }

  /** The locks in order and then the planned writes are the statements the program issues. */
  lemma PlanFollowsStatements(s: Store, c: Command)
    requires Locks(c) && forall k :: 0 <= k < |Rows(c)| ==> Rows(c)[k] in s.accounts
    ensures |Statements(c)| == |Rows(c)| + |Plan(c, s)|
    ensures forall i :: 0 <= i < |Rows(c)| ==> Statements(c)[i] == LockRow(Rows(c)[i])
    ensures forall i :: 0 <= i < |Plan(c, s)| ==> Statements(c)[|Rows(c)| + i] == AccessOf(Plan(c, s)[i])
  {
  }

  /** The first read to stop the program gives the reply of the atomic step. */
  lemma RefusalIsAtomic(s: Store, c: Command, k: nat)
    requires Locks(c) && k < |Rows(c)| && LoadOutcome(c, s, k).Some?
    requires forall j :: 0 <= j < k ==> LoadOutcome(c, s, j) == None
    ensures Apply(c, s) == Result(LoadOutcome(c, s, k).value, s)
  {
    if c.Transfer? && k == 1 {
      assert LoadOutcome(c, s, 0) == None;
    }
  }

  /** A program changes no row it does not lock. */
  lemma OutsideUntouched(s: Store, c: Command)
    requires Locks(c)
    ensures var after := Apply(c, s).store.accounts;
            forall n :: n !in Elements(Rows(c)) ==>
              (n in s.accounts <==> n in after) && (n in s.accounts ==> s.accounts[n] == after[n])
  {
    RowsCovered(c);
    if c.Transfer? {
      TransferSpelledOut(s, c);
    }
  }
}
