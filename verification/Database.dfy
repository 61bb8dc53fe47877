/**
 * A database session whose every statement may fail. `plan` says what befalls the statement
 * issued at each tick: nothing, a serialization failure (SQLSTATE 40001), some other error, or
 * a wrong row count. Statements also fail by themselves when they break a table constraint.
 */
module Database {
  import opened Ledger
  import opened Records

  datatype Fault = Clean | Serialization | Fatal | Rows(count: nat)

  datatype Sql<+T> = Ok(value: T) | Err40001 | ErrOther

  /** The statements that can go wrong, and how the last mishap came about. */
  datatype Site =
    | ReadAccount(account: int) | ReadCustomer | ReadAccountList | Reserve
    | WriteAccount(account: int) | WriteCustomer | RemoveAccount | RemoveCustomer | Audit
    | Opening | Closing
  datatype Mishap = Errored(site: Site) | Miscounted(site: Site)

  /** One committed command, and whether this session committed it. */
  datatype Entry = Entry(command: Command, mine: bool)

  function Commands(entries: seq<Entry>): (r: seq<Command>)
    ensures |r| == |entries| && forall i :: 0 <= i < |r| ==> r[i] == entries[i].command
  {
    seq(|entries|, i requires 0 <= i < |entries| => entries[i].command)
  }

  function Foreign(commands: seq<Command>): (r: seq<Entry>)
    ensures Commands(r) == commands && NoneMine(r)
  {
    seq(|commands|, i requires 0 <= i < |commands| => Entry(commands[i], false))
  }

  predicate NoneMine(entries: seq<Entry>) {
    forall i :: 0 <= i < |entries| ==> !entries[i].mine
  }

  /** Only statements that report a row count can report a wrong one, and every count but one is wrong. */
  function Effective(f: Fault, counts: bool): Fault {
    if f.Rows? && (!counts || f.count == 1) then Clean else f
  }

  function Reply<T>(f: Fault, natural: Sql<T>): Sql<T> {
    if f.Serialization? then Err40001 else if f.Fatal? then ErrOther else natural
  }

  function CountReply(f: Fault, natural: Sql<nat>): Sql<nat> {
    if f.Rows? then Ok(f.count) else Reply(f, natural)
  }

  function UpdateCount(present: bool, storable: bool): Sql<nat> {
    if !present then Ok(0) else if storable then Ok(1) else ErrOther
  }

  /** Every fault dealt shows in the reply, but a count of one where one is asked for and any where none is. */
  lemma FaultsShow<T>(f: Fault, natural: Sql<T>, count: Sql<nat>)
    ensures f == Serialization ==>
              Reply(Effective(f, false), natural) == Err40001 && CountReply(Effective(f, true), count) == Err40001
    ensures f == Fatal ==> Reply(Effective(f, false), natural) == ErrOther && CountReply(Effective(f, true), count) == ErrOther
    ensures f.Rows? && f.count != 1 ==> CountReply(Effective(f, true), count) == Ok(f.count)
    ensures f.Clean? || f.Rows? ==> Reply(Effective(f, false), natural) == natural
    ensures f.Clean? || f == Rows(1) ==> CountReply(Effective(f, true), count) == count
  {
  }

  /** Other sessions' commits extend the serial run. */
  lemma ArrivalsExtendRun(start: Store, history: seq<Entry>, arrivals: seq<Command>)
    ensures Replay(start, Commands(history + Foreign(arrivals))) == Replay(Replay(start, Commands(history)), arrivals)
  {
    ReplayConcat(start, Commands(history), arrivals);
    assert Commands(history + Foreign(arrivals)) == Commands(history) + arrivals;
  }

  /** So does this session's commit. */
  lemma CommitExtendsRun(start: Store, history: seq<Entry>, c: Command)
    ensures Replay(start, Commands(history + [Entry(c, true)])) == Apply(c, Replay(start, Commands(history))).store
  {
    var grown := Commands(history + [Entry(c, true)]);
    assert grown[..|history|] == Commands(history);
  }

  class Session {
    const plan: nat -> Fault
    /** What other sessions commit just before a transaction that begins at each tick. */
    const others: nat -> seq<Command>
    var committed: Store
    var working: Store
    var clock: nat
    ghost const start: Store
    ghost var history: seq<Entry>
    /** For every transaction begun, whether the one begun before it had met a 40001. */
    ghost var begins: seq<bool>
    /** The store the current transaction began on. */
    ghost var base: Store
    /** Whether the current transaction met a fault of the plan, a 40001, and its last mishap. */
    ghost var disturbed: bool
    ghost var sawRetry: bool
    ghost var mishap: Option<Mishap>
    /** The account rows the current transaction asked to lock and to write, and its audit rows, in order. */
    ghost var trace: seq<Access>

    /** The committed store is the serial replay of the history of commits, this session's and other sessions'. */
    ghost predicate Valid()
      reads `committed, `history
    {
      && committed == Replay(start, Commands(history))
      && forall i :: 0 <= i < |history| && !history[i].mine ==> FromOthers(history[i].command)
    }

    ghost predicate FromOthers(c: Command) {
      exists t: nat :: c in others(t)
    }

    ghost predicate Fresh()
      reads this
    {
      !disturbed && !sawRetry && mishap == None && trace == []
    }

    ghost predicate FaultFree()
    {
      forall t: nat :: plan(t).Clean?
    }

    /** No other session commits anything. */
    ghost predicate Alone()
    {
      forall t: nat :: others(t) == []
    }

    constructor (store: Store, plan: nat -> Fault, others: nat -> seq<Command>)
      ensures Valid() && committed == store && history == [] && begins == []
      ensures this.plan == plan && this.others == others && this.start == store
    {
      this.plan, this.others, this.start := plan, others, store;
      committed, working, clock := store, store, 0;
      history, disturbed, sawRetry, mishap := [], false, false, None;
      begins, base, trace := [], store, [];
    }

    /** One statement was issued, with the given reply class. */
    twostate predicate Issued(counts: bool, retry: bool)
      reads this
    {
      && clock == old(clock) + 1
      && disturbed == (old(disturbed) || Effective(plan(old(clock)), counts) != Clean)
      && sawRetry == (old(sawRetry) || retry)
    }

    method Tick(counts: bool) returns (f: Fault)
      modifies `clock, `disturbed, `sawRetry
      ensures f == Effective(plan(old(clock)), counts)
      ensures Issued(counts, f.Serialization?)
    {
      f := Effective(plan(clock), counts);
      clock := clock + 1;
      disturbed := disturbed || f != Clean;
      sawRetry := sawRetry || f.Serialization?;
    }

    method LoadAccount(n: int) returns (r: Sql<Option<Account>>)
      modifies `clock, `disturbed, `sawRetry, `mishap, `trace
      ensures Issued(false, r.Err40001?)
      ensures r == Reply(Effective(plan(old(clock)), false),
                         Ok(if n in working.accounts then Some(AccountAt(working, n)) else None))
      ensures mishap == if r.ErrOther? then Some(Errored(ReadAccount(n))) else old(mishap)
      ensures trace == old(trace) + [LockRow(n)]
    {
      var f := Tick(false);
      r := Reply(f, Ok(if n in working.accounts then Some(AccountAt(working, n)) else None));
      mishap := if r.ErrOther? then Some(Errored(ReadAccount(n))) else mishap;
      trace := trace + [LockRow(n)];
    }

    method LoadCustomer(n: int) returns (r: Sql<Option<Customer>>)
      modifies `clock, `disturbed, `sawRetry, `mishap
      ensures Issued(false, r.Err40001?)
      ensures r == Reply(Effective(plan(old(clock)), false),
                         Ok(if n in working.customers then Some(CustomerAt(working, n)) else None))
      ensures mishap == if r.ErrOther? then Some(Errored(ReadCustomer)) else old(mishap)
    {
      var f := Tick(false);
      r := Reply(f, Ok(if n in working.customers then Some(CustomerAt(working, n)) else None));
      mishap := if r.ErrOther? then Some(Errored(ReadCustomer)) else mishap;
    }

    method LoadAccountsFor(customer: int) returns (r: Sql<seq<Account>>)
      modifies `clock, `disturbed, `sawRetry, `mishap
      ensures Issued(false, r.Err40001?)
      ensures r == Reply(Effective(plan(old(clock)), false), Ok(AccountsAt(working, Listed(working, customer))))
      ensures mishap == if r.ErrOther? then Some(Errored(ReadAccountList)) else old(mishap)
    {
      var f := Tick(false);
      r := Reply(f, Ok(AccountsAt(working, Listed(working, customer))));
      mishap := if r.ErrOther? then Some(Errored(ReadAccountList)) else mishap;
    }

    method ReserveAccountNumber() returns (r: Sql<Option<int>>)
      modifies `working, `clock, `disturbed, `sawRetry, `mishap
      ensures Issued(false, r.Err40001?)
      ensures var s := old(working);
              && r == Reply(Effective(plan(old(clock)), false),
                            if s.control.None? then Ok(None)
                            else if s.control.value.accountLast >= MAX_BIGINT || s.control.value.accountCount >= MAX_BIGINT
                            then ErrOther
                            else Ok(Some(s.control.value.accountLast + 1)))
              && working == if r.Ok? && r.value.Some?
                            then s.(control := Some(AccountReserved(s.control.value))) else s
      ensures mishap == if r.ErrOther? then Some(Errored(Reserve)) else old(mishap)
    {
      var f := Tick(false);
      if f != Clean || working.control.None? {
        r := Reply(f, Ok(None));
      } else {
        var ctl := working.control.value;
        if ctl.accountLast >= MAX_BIGINT || ctl.accountCount >= MAX_BIGINT {
          r := ErrOther;
        } else {
          working := working.(control := Some(AccountReserved(ctl)));
          r := Ok(Some(ctl.accountLast + 1));
        }
      }
      mishap := if r.ErrOther? then Some(Errored(Reserve)) else mishap;
    }

    method ReserveCustomerNumber() returns (r: Sql<Option<int>>)
      modifies `working, `clock, `disturbed, `sawRetry, `mishap
      ensures Issued(false, r.Err40001?)
      ensures var s := old(working);
              && r == Reply(Effective(plan(old(clock)), false),
                            if s.control.None? then Ok(None)
                            else if s.control.value.customerLast >= MAX_BIGINT || s.control.value.customerCount >= MAX_BIGINT
                            then ErrOther
                            else Ok(Some(s.control.value.customerLast + 1)))
              && working == if r.Ok? && r.value.Some?
                            then s.(control := Some(CustomerReserved(s.control.value))) else s
      ensures mishap == if r.ErrOther? then Some(Errored(Reserve)) else old(mishap)
    {
      var f := Tick(false);
      if f != Clean || working.control.None? {
        r := Reply(f, Ok(None));
      } else {
        var ctl := working.control.value;
        if ctl.customerLast >= MAX_BIGINT || ctl.customerCount >= MAX_BIGINT {
          r := ErrOther;
        } else {
          working := working.(control := Some(CustomerReserved(ctl)));
          r := Ok(Some(ctl.customerLast + 1));
        }
      }
      mishap := if r.ErrOther? then Some(Errored(Reserve)) else mishap;
    }

    method InsertAccount(a: Account) returns (r: Sql<()>)
      modifies `working, `clock, `disturbed, `sawRetry, `mishap, `trace
      ensures Issued(false, r.Err40001?)
      ensures var s := old(working);
              && r == Reply(Effective(plan(old(clock)), false),
                            if StorableAccount(a) && a.number !in s.accounts && a.customer in s.customers
                            then Ok(()) else ErrOther)
              && working == if r.Ok? then s.(accounts := s.accounts[a.number := a]) else s
      ensures mishap == if r.ErrOther? then Some(Errored(WriteAccount(a.number))) else old(mishap)
      ensures trace == old(trace) + [WriteRow(a.number)]
    {
      var f := Tick(false);
      r := Reply(f, if StorableAccount(a) && a.number !in working.accounts && a.customer in working.customers
                    then Ok(()) else ErrOther);
      if r.Ok? {
        working := working.(accounts := working.accounts[a.number := a]);
      }
      mishap := if r.ErrOther? then Some(Errored(WriteAccount(a.number))) else mishap;
      trace := trace + [WriteRow(a.number)];
    }

    method InsertCustomer(c: Customer) returns (r: Sql<()>)
      modifies `working, `clock, `disturbed, `sawRetry, `mishap
      ensures Issued(false, r.Err40001?)
      ensures var s := old(working);
              && r == Reply(Effective(plan(old(clock)), false),
                            if StorableCustomer(c) && c.number !in s.customers then Ok(()) else ErrOther)
              && working == if r.Ok? then s.(customers := s.customers[c.number := c]) else s
      ensures mishap == if r.ErrOther? then Some(Errored(WriteCustomer)) else old(mishap)
    {
      var f := Tick(false);
      r := Reply(f, if StorableCustomer(c) && c.number !in working.customers then Ok(()) else ErrOther);
      if r.Ok? {
        working := working.(customers := working.customers[c.number := c]);
      }
      mishap := if r.ErrOther? then Some(Errored(WriteCustomer)) else mishap;
    }

    /** What a mishap, if any, a counting write leaves behind. */
    ghost function CountMishap(r: Sql<nat>, site: Site, before: Option<Mishap>): Option<Mishap> {
      if r.ErrOther? then Some(Errored(site))
      else if r.Ok? && r.value != 1 then Some(Miscounted(site))
      else before
    }

    method UpdateBalances(n: int, available: int, actual: int) returns (r: Sql<nat>)
      modifies `working, `clock, `disturbed, `sawRetry, `mishap, `trace
      ensures Issued(true, r.Err40001?)
      ensures var s := old(working);
              && r == CountReply(Effective(plan(old(clock)), true),
                                 UpdateCount(n in s.accounts, Numeric12(available) && Numeric12(actual)))
              && working == if r == Ok(1) then SetBalances(s, n, available, actual) else s
      ensures mishap == CountMishap(r, WriteAccount(n), old(mishap))
      ensures trace == old(trace) + [WriteRow(n)]
    {
      var f := Tick(true);
      r := CountReply(f, UpdateCount(n in working.accounts, Numeric12(available) && Numeric12(actual)));
      if r == Ok(1) {
        working := SetBalances(working, n, available, actual);
      }
      mishap := CountMishap(r, WriteAccount(n), mishap);
      trace := trace + [WriteRow(n)];
    }

    method UpdateTerms(n: int, kind: string, rate: int, overdraft: int) returns (r: Sql<nat>)
      modifies `working, `clock, `disturbed, `sawRetry, `mishap, `trace
      ensures Issued(true, r.Err40001?)
      ensures var s := old(working);
              && r == CountReply(Effective(plan(old(clock)), true),
                                 UpdateCount(n in s.accounts, StorableTerms(kind, rate, overdraft)))
              && working == if r == Ok(1)
                            then var row := s.accounts[n].(kind := kind, rate := rate, overdraft := overdraft);
                                 s.(accounts := s.accounts[n := row])
                            else s
      ensures mishap == CountMishap(r, WriteAccount(n), old(mishap))
      ensures trace == old(trace) + [WriteRow(n)]
    {
      var f := Tick(true);
      r := CountReply(f, UpdateCount(n in working.accounts, StorableTerms(kind, rate, overdraft)));
      if r == Ok(1) {
        var row := working.accounts[n].(kind := kind, rate := rate, overdraft := overdraft);
        working := working.(accounts := working.accounts[n := row]);
      }
      mishap := CountMishap(r, WriteAccount(n), mishap);
      trace := trace + [WriteRow(n)];
    }

    method UpdateCustomerText(n: int, name: string, address: string) returns (r: Sql<nat>)
      modifies `working, `clock, `disturbed, `sawRetry, `mishap
      ensures Issued(true, r.Err40001?)
      ensures var s := old(working);
              && r == CountReply(Effective(plan(old(clock)), true),
                                 UpdateCount(n in s.customers, |name| <= 60 && |address| <= 160))
              && working == if r == Ok(1)
                            then s.(customers := s.customers[n := s.customers[n].(name := name, address := address)])
                            else s
      ensures mishap == CountMishap(r, WriteCustomer, old(mishap))
    {
      var f := Tick(true);
      r := CountReply(f, UpdateCount(n in working.customers, |name| <= 60 && |address| <= 160));
      if r == Ok(1) {
        var row := working.customers[n].(name := name, address := address);
        working := working.(customers := working.customers[n := row]);
      }
      mishap := CountMishap(r, WriteCustomer, mishap);
    }

    method DeleteAccountRow(n: int) returns (r: Sql<nat>)
      modifies `working, `clock, `disturbed, `sawRetry, `mishap, `trace
      ensures Issued(true, r.Err40001?)
      ensures var s := old(working);
              && r == CountReply(Effective(plan(old(clock)), true), UpdateCount(n in s.accounts, true))
              && working == if r == Ok(1) then s.(accounts := s.accounts - {n}) else s
      ensures mishap == CountMishap(r, RemoveAccount, old(mishap))
      ensures trace == old(trace) + [WriteRow(n)]
    {
      var f := Tick(true);
      r := CountReply(f, UpdateCount(n in working.accounts, true));
      if r == Ok(1) {
        working := working.(accounts := working.accounts - {n});
      }
      mishap := CountMishap(r, RemoveAccount, mishap);
      trace := trace + [WriteRow(n)];
    }

    /** The foreign key forbids deleting a customer who still owns an account. */
    method DeleteCustomerRow(n: int) returns (r: Sql<nat>)
      modifies `working, `clock, `disturbed, `sawRetry, `mishap
      ensures Issued(true, r.Err40001?)
      ensures var s := old(working);
              && r == CountReply(Effective(plan(old(clock)), true), UpdateCount(n in s.customers, Owned(s, n) == {}))
              && working == if r == Ok(1) then s.(customers := s.customers - {n}) else s
      ensures mishap == CountMishap(r, RemoveCustomer, old(mishap))
    {
      var f := Tick(true);
      r := CountReply(f, UpdateCount(n in working.customers, Owned(working, n) == {}));
      if r == Ok(1) {
        working := working.(customers := working.customers - {n});
      }
      mishap := CountMishap(r, RemoveCustomer, mishap);
    }

    method InsertTran(t: Tran) returns (r: Sql<()>)
      modifies `working, `clock, `disturbed, `sawRetry, `mishap, `trace
      ensures Issued(false, r.Err40001?)
      ensures r == Reply(Effective(plan(old(clock)), false), if StorableTran(t) then Ok(()) else ErrOther)
      ensures working == if r.Ok? then Append(old(working), t) else old(working)
      ensures mishap == if r.ErrOther? then Some(Errored(Audit)) else old(mishap)
      ensures trace == old(trace) + [WriteAudit]
    {
      var f := Tick(false);
      r := Reply(f, if StorableTran(t) then Ok(()) else ErrOther);
      if r.Ok? {
        working := Append(working, t);
      }
      mishap := if r.ErrOther? then Some(Errored(Audit)) else mishap;
      trace := trace + [WriteAudit];
    }

    /** What other sessions commit before the next transaction of this one. */
    method Arrive()
      requires Valid()
      modifies `committed, `history
      ensures Valid() && history == old(history) + Foreign(others(clock))
      ensures committed == Replay(old(committed), others(clock))
    {
      var arrivals := others(clock);
      ArrivalsExtendRun(start, history, arrivals);
      committed := Replay(committed, arrivals);
      history := history + Foreign(arrivals);
    }

    /** Issues the statement that starts a transaction on the committed store. */
    method Open() returns (r: Sql<()>)
      modifies `working, `clock, `begins, `base, `disturbed, `sawRetry, `mishap, `trace
      ensures clock == old(clock) + 1 && begins == old(begins) + [old(sawRetry)]
      ensures working == base == committed && trace == [] && sawRetry == r.Err40001? && disturbed == !r.Ok?
      ensures mishap == if r.ErrOther? then Some(Errored(Opening)) else None
      ensures r == Reply(Effective(plan(old(clock)), false), Ok(()))
    {
      begins := begins + [sawRetry];
      working, base, disturbed, sawRetry, mishap, trace := committed, committed, false, false, None, [];
      var f := Tick(false);
      r := Reply(f, Ok(()));
      mishap := if r.ErrOther? then Some(Errored(Opening)) else None;
    }

    /**
     * Starts a transaction on the committed store, after the other sessions' commits that precede
     * it in the serial order.
     */
    method Begin() returns (r: Sql<()>)
      requires Valid()
      modifies this
      ensures Valid() && clock == old(clock) + 1
      ensures history == old(history) + Foreign(others(old(clock)))
      ensures committed == Replay(old(committed), others(old(clock)))
      ensures begins == old(begins) + [old(sawRetry)]
      ensures working == base == committed && trace == [] && sawRetry == r.Err40001? && disturbed == !r.Ok?
      ensures mishap == if r.ErrOther? then Some(Errored(Opening)) else None
      ensures r == Reply(Effective(plan(old(clock)), false), Ok(()))
    {
      Arrive();
      r := Open();
    }

    /** Commits the working store as the effect of `c`; a commit that reports an error did not happen. */
    method Commit(ghost c: Command) returns (r: Sql<()>)
      requires Valid() && working == Apply(c, committed).store
      modifies `committed, `clock, `disturbed, `sawRetry, `mishap, `history
      ensures Valid() && Issued(false, r.Err40001?)
      ensures r == Reply(Effective(plan(old(clock)), false), Ok(()))
      ensures history == if r.Ok? then old(history) + [Entry(c, true)] else old(history)
      ensures committed == if r.Ok? then working else old(committed)
      ensures mishap == if r.ErrOther? then Some(Errored(Closing)) else old(mishap)
    {
      var f := Tick(false);
      r := Reply(f, Ok(()));
      mishap := if r.ErrOther? then Some(Errored(Closing)) else mishap;
      if r.Ok? {
        CommitExtendsRun(start, history, c);
        committed := working;
        history := history + [Entry(c, true)];
      }
    }
  }
}
