/**
 * What each program's atomic step does, field by field, told without the functions it is built from:
 * the rows it writes, the reply it gives and the audit row it leaves, read back by position.
 */
module Effects {
  import Accounts
  import opened Audit
  import opened Calendar
  import opened GuardedRuns
  import opened Ledger
  import opened Numbers
  import opened Records
  import opened Runs
  import opened Services
  import opened Text

  /** A row as a program reads it: under its key, the type without trailing white space. */
  ghost predicate ReadsAs(view: Account, n: int, row: Account) {
    view == row.(number := n, kind := TrimEnd(row.kind))
  }

  ghost predicate CustomerReadsAs(view: Customer, n: int, row: Customer) {
    view == row.(number := n, name := TrimEnd(row.name), address := TrimEnd(row.address))
  }

  /** One audit row more, of this kind, stamp and amount. */
  ghost predicate LogsOne(before: seq<Tran>, after: seq<Tran>, kind: TranType, stamp: Stamp, amount: int) {
    && |after| == |before| + 1 && after[..|before|] == before
    && var row := after[|before|]; row.kind == kind && row.stamp == stamp && row.amount == amount
  }

  /** The first fourteen characters of a text, filled up with blanks. */
  ghost predicate IsCut(field: string, text: string) {
    |field| == 14 && forall i :: 0 <= i < 14 ==> field[i] == if i < |text| then text[i] else ' '
  }

  lemma CutByPadding(text: string)
    ensures IsCut(PadOrTruncate(text, 14), text)
  {
  }

  /** Account rows other than the given ones, and everything but accounts and log, are as they were. */
  ghost predicate OnlyAccounts(s: Store, after: Store, ns: set<int>) {
    && after.control == s.control && after.customers == s.customers && after.accounts.Keys == s.accounts.Keys
    && forall n :: n in s.accounts && n !in ns ==> after.accounts[n] == s.accounts[n]
  }

  // XFRFUN

  lemma TransferRows(s: Store, c: Command)
    requires c.Transfer? && ApplyTransfer(s, c).outcome.Success?
    ensures c.from in s.accounts && c.to in s.accounts
    ensures var after := ApplyTransfer(s, c).store;
            var f, g := s.accounts[c.from], s.accounts[c.to];
            && OnlyAccounts(s, after, {c.from, c.to})
            && after.accounts[c.to] == g.(available := g.available + c.amount, actual := g.actual + c.amount)
            && (c.from != c.to ==>
                  after.accounts[c.from] == f.(available := f.available - c.amount, actual := f.actual - c.amount))
            && LogsOne(s.log, after.log, TFR, c.stamp, c.amount)
  {
    TransferSpelledOut(s, c);
  }

  lemma TransferReply(s: Store, c: Command)
    requires c.Transfer? && ApplyTransfer(s, c).outcome.Success?
    ensures c.from in s.accounts
    ensures var v, f := ApplyTransfer(s, c).outcome.view, s.accounts[c.from];
            && v.TwoAccounts?
            && ReadsAs(v.from, c.from, f.(available := f.available - c.amount, actual := f.actual - c.amount))
            && c.to in s.accounts
            && var g := s.accounts[c.to];
               ReadsAs(v.to, c.to, g.(available := g.available + c.amount, actual := g.actual + c.amount))
  {
  }

  /** The audit row of a transfer names the receiving account. */
  lemma TransferAudit(s: Store, c: Command)
    requires c.Transfer? && ApplyTransfer(s, c).outcome.Success? && |c.stamp.sortcode| == 6
    ensures |ApplyTransfer(s, c).store.log| == |s.log| + 1
    ensures var text := ApplyTransfer(s, c).store.log[|s.log|].description;
            |text| == 40 && StripBlanks(text[..26]) == "TRANSFER" && DecodeTransfer(text) == (c.stamp.sortcode, c.to)
  {
    TransferSpelledOut(s, c);
    PaymentDescriptionRoundTrip(c.stamp.sortcode, c.to, 0, 0, "");
    TransferHeading(c.stamp.sortcode, c.to);
  }

  lemma TransferHeading(sortcode: string, to: int)
    ensures var text := TransferDescription(sortcode, to); |text| >= 26 && StripBlanks(text[..26]) == "TRANSFER"
  {
    assert TransferDescription(sortcode, to)[..26] == PadOrTruncate("TRANSFER", 26);
    PaddingKeepsText("TRANSFER", 26);
  }

  /**
   * A successful transfer moves the amount from one account's two balances to the other's and touches
   * nothing else, replies with the two rows as now stored, and logs one TFR row that names the receiver.
   */
  lemma TransferEffect(s: Store, c: Command)
    requires c.Transfer? && ApplyTransfer(s, c).outcome.Success? && c.from != c.to && |c.stamp.sortcode| == 6
    ensures c.from in s.accounts && c.to in s.accounts
    ensures var r := ApplyTransfer(s, c);
            var f, g := s.accounts[c.from], s.accounts[c.to];
            && OnlyAccounts(s, r.store, {c.from, c.to})
            && r.store.accounts[c.from] == f.(available := f.available - c.amount, actual := f.actual - c.amount)
            && r.store.accounts[c.to] == g.(available := g.available + c.amount, actual := g.actual + c.amount)
            && r.outcome.view.TwoAccounts?
            && ReadsAs(r.outcome.view.from, c.from, r.store.accounts[c.from])
            && ReadsAs(r.outcome.view.to, c.to, r.store.accounts[c.to])
            && LogsOne(s.log, r.store.log, TFR, c.stamp, c.amount)
            && |r.store.log[|s.log|].description| == 40
            && DecodeTransfer(r.store.log[|s.log|].description) == (c.stamp.sortcode, c.to)
  {
    TransferRows(s, c);
    TransferReply(s, c);
    TransferAudit(s, c);
  }

  lemma FundsEnd(s: Store, c: Command)
    requires WellFormed(s) && c.Transfer? && Guarded(c) && c.from in s.accounts && c.to in s.accounts
    ensures var o := MoveFunds(s, c).outcome;
            var f, g := s.accounts[c.from], s.accounts[c.to];
            if f.available < c.amount || f.actual + f.overdraft < c.amount then o == Failure("3")
            else if g.available + c.amount > 999999999999 || g.actual + c.amount > 999999999999 then o == Abend("TO  ")
            else o.Success?
  {
    PaymentDescriptionRoundTrip(c.stamp.sortcode, c.to, 0, 0, "");
  }

  lemma LoadsEnd(s: Store, from: int, to: int)
    requires WellFormed(s) && from != to
    ensures TransferRefusal(s, from, to) ==
            if from !in s.accounts && (from < to || to in s.accounts) then Some(Failure("1"))
            else if to !in s.accounts then Some(Failure("2"))
            else None
  {
    StoredNumbers(s);
  }

  /** How a transfer the service admits can end in a reachable store. */
  lemma TransferEnds(s: Store, c: Command)
    requires WellFormed(s) && c.Transfer? && Guarded(c)
    ensures var o := ApplyTransfer(s, c).outcome;
            if c.from !in s.accounts && (c.from < c.to || c.to in s.accounts) then o == Failure("1")
            else if c.to !in s.accounts then o == Failure("2")
            else
              var f, g := s.accounts[c.from], s.accounts[c.to];
              if f.available < c.amount || f.actual + f.overdraft < c.amount then o == Failure("3")
              else if g.available + c.amount > 999999999999 || g.actual + c.amount > 999999999999 then o == Abend("TO  ")
              else o.Success?
  {
    LoadsEnd(s, c.from, c.to);
    if c.from in s.accounts && c.to in s.accounts {
      FundsEnd(s, c);
    }
  }

  // DBCRFUN

  lemma PostRows(s: Store, c: Command)
    requires c.Post? && ApplyPost(s, c).outcome.Success?
    ensures c.account in s.accounts
    ensures var r, a := ApplyPost(s, c), s.accounts[c.account];
            && OnlyAccounts(s, r.store, {c.account})
            && r.store.accounts[c.account] == a.(available := a.available + c.amount, actual := a.actual + c.amount)
            && r.outcome.view.OneAccount? && ReadsAs(r.outcome.view.account, c.account, r.store.accounts[c.account])
  {
  }

  /** The row of a posting tells payments from the counter, and money in from money out. */
  lemma PostAudit(s: Store, c: Command)
    requires c.Post? && ApplyPost(s, c).outcome.Success?
    ensures |ApplyPost(s, c).store.log| == |s.log| + 1 && ApplyPost(s, c).store.log[..|s.log|] == s.log
    ensures var row := ApplyPost(s, c).store.log[|s.log|];
            && row.kind in {CRE, DEB, PCR, PDR}
            && (row.kind in {DEB, PDR} <==> c.amount < 0)
            && (row.kind in {PCR, PDR} <==> c.facility == 496)
            && row.amount == c.amount && row.stamp == c.stamp
            && |row.description| == 40 && StripBlanks(row.description[14..]) == []
            && (c.facility == 496 ==> IsCut(row.description[..14], c.origin))
            && (c.facility != 496 ==> row.description[..14] == if c.amount < 0 then "COUNTER WTHDRW" else "COUNTER RECVED")
  {
    PostTexts(c.facility, c.amount, c.origin);
  }

  lemma PostTexts(facility: int, amount: int, origin: string)
    ensures var text := PostDescription(facility, amount, origin);
            && |text| == 40 && StripBlanks(text[14..]) == []
            && (facility == 496 ==> IsCut(text[..14], origin))
            && (facility != 496 ==> text[..14] == if amount < 0 then "COUNTER WTHDRW" else "COUNTER RECVED")
  {
    var text := PostDescription(facility, amount, origin);
    assert text[14..] == Blanks(26);
    StripIsUnique(Blanks(26), []);
    CutByPadding(origin);
    assert facility == 496 ==> text[..14] == PadOrTruncate(origin, 14);
  }

  /** How an admitted posting can end in a reachable store. */
  lemma PostEnds(s: Store, c: Command)
    requires WellFormed(s) && c.Post? && Guarded(c)
    ensures var o := ApplyPost(s, c).outcome;
            if c.account !in s.accounts then o == Failure("1")
            else
              var a := s.accounts[c.account];
              if c.facility == 496 && TrimEnd(a.kind) in {"MORTGAGE", "LOAN"} then o == Failure("4")
              else if c.facility == 496 && c.amount < 0 && a.available + c.amount < 0 then o == Failure("3")
              else if !(&& -999999999999 <= a.available + c.amount <= 999999999999
                        && -999999999999 <= a.actual + c.amount <= 999999999999)
              then o == Abend("HUAC")
              else o.Success?
  {
    StoredNumbers(s);
    if c.account in s.accounts {
      Accounts.TrimEndTwice(s.accounts[c.account].kind);
    }
  }

  // UPDACC

  lemma UpdateAccountEffect(s: Store, c: Command)
    requires c.UpdateAccount? && ApplyUpdateAccount(s, c).outcome.Success?
    ensures c.account in s.accounts
    ensures var r := ApplyUpdateAccount(s, c);
            && OnlyAccounts(s, r.store, {c.account})
            && r.store.accounts[c.account] == s.accounts[c.account].(kind := c.kind, rate := c.rate, overdraft := c.overdraft)
            && r.outcome.view.OneAccount? && r.outcome.view.account == r.store.accounts[c.account].(number := c.account)
            && LogsOne(s.log, r.store.log, OUA, c.stamp, 0)
  {
  }

  lemma UpdateAccountAudit(s: Store, c: Command)
    requires c.UpdateAccount? && ApplyUpdateAccount(s, c).outcome.Success? && Guarded(c)
    ensures |ApplyUpdateAccount(s, c).store.log| == |s.log| + 1
    ensures var text := ApplyUpdateAccount(s, c).store.log[|s.log|].description;
            |text| == 40 && DecodeUpdate(text) == UpdateFields(c.account, StripBlanks(c.kind), c.rate, c.overdraft / 100)
  {
    UpdateFits(AccountAt(s, c.account).(kind := c.kind, rate := c.rate, overdraft := c.overdraft));
  }

  lemma UpdateAccountEnds(s: Store, c: Command)
    requires WellFormed(s) && c.UpdateAccount? && Guarded(c)
    ensures var o := ApplyUpdateAccount(s, c).outcome; if c.account !in s.accounts then o == Failure("1") else o.Success?
  {
    if c.account in s.accounts {
      UpdatedLoads(s, c.account);
      UpdateFits(AccountAt(s, c.account).(kind := c.kind, rate := c.rate, overdraft := c.overdraft));
    }
  }

  lemma UpdatedLoads(s: Store, n: int)
    requires WellFormed(s) && n in s.accounts
    ensures ValidAccount(AccountAt(s, n))
  {
    StoredNumbers(s);
  }

  // DELACC

  /** An ODA row that tells of one account: its owner, type, statement dates and the balance it took along. */
  ghost predicate TellsOf(row: Tran, stamp: Stamp, a: Account) {
    && row.kind == ODA && row.stamp == stamp && row.amount == a.actual && |row.description| == 40
    && a.customer >= 0
    && DecodeAccount(row.description) == AccountFields(a.customer, StripBlanks(TrimEnd(a.kind)), a.last, a.next, "DELETE")
  }

  lemma DeletionTells(s: Store, n: int, stamp: Stamp)
    requires n in s.accounts && 0 <= s.accounts[n].customer <= 9999999999 && |TrimEnd(s.accounts[n].kind)| <= 8
    requires PrintableDate(s.accounts[n].last) && PrintableDate(s.accounts[n].next)
    ensures TellsOf(DeletionTran(stamp, AccountAt(s, n)), stamp, s.accounts[n])
  {
    AccountDescriptionRoundTrip(AccountAt(s, n), DELETED_TAIL);
  }

  lemma DeleteAccountEffect(s: Store, c: Command)
    requires c.DeleteAccount? && ApplyDeleteAccount(s, c).outcome.Success?
    ensures c.account in s.accounts
    ensures var r := ApplyDeleteAccount(s, c);
            && r.store.control == s.control && r.store.customers == s.customers && r.store.accounts == s.accounts - {c.account}
            && r.outcome.view.OneAccount? && ReadsAs(r.outcome.view.account, c.account, s.accounts[c.account])
            && |r.store.log| == |s.log| + 1 && r.store.log[..|s.log|] == s.log
            && (PrintableDate(s.accounts[c.account].last) && PrintableDate(s.accounts[c.account].next) ==>
                  TellsOf(r.store.log[|s.log|], c.stamp, s.accounts[c.account]))
  {
    if PrintableDate(s.accounts[c.account].last) && PrintableDate(s.accounts[c.account].next) {
      DeletionTells(s, c.account, c.stamp);
    }
  }

  lemma DeleteAccountEnds(s: Store, c: Command)
    requires WellFormed(s) && DatesPrint(s) && c.DeleteAccount?
    ensures var o := ApplyDeleteAccount(s, c).outcome; if c.account !in s.accounts then o == Failure("1") else o.Success?
  {
    if c.account in s.accounts {
      StoredAccount(s, c.account, c.stamp);
    }
  }

  // DELCUS

  /** A customer's audit row: sortcode, number, the first fourteen characters of the name, birth date. */
  ghost predicate Describes(row: Tran, kind: TranType, stamp: Stamp, n: int, name: string, dob: Date) {
    && row.kind == kind && row.stamp == stamp && row.amount == 0 && |row.description| == 40
    && var fields := DecodeCustomer(row.description);
       fields.sortcode == stamp.sortcode && fields.number == n && IsCut(fields.name, name) && fields.dob == dob
  }

  lemma DescriptionDescribes(c: Customer, kind: TranType, stamp: Stamp)
    requires |stamp.sortcode| == 6 && 0 <= c.number <= 9999999999 && IsCobolDate(c.dob)
    ensures Describes(Tran(stamp, kind, CustomerDescription(stamp.sortcode, c), 0), kind, stamp, c.number, c.name, c.dob)
  {
    CustomerDescriptionRoundTrip(stamp.sortcode, c);
    CutByPadding(c.name);
  }

  /**
   * A successful deletion in a store whose dates print: the customer's own rows are gone and nobody
   * else's, and the log tells of each of its accounts in ascending order and then of the customer.
   */
  lemma DeleteCustomerEffect(s: Store, c: Command)
    requires WellFormed(s) && DatesPrint(s) && c.DeleteCustomer? && IsSortcode(c.stamp.sortcode)
    requires ApplyDeleteCustomer(s, c).outcome.Success?
    ensures c.customer in s.customers && OnlyGone(s, ApplyDeleteCustomer(s, c).store, c.customer)
    ensures var v := ApplyDeleteCustomer(s, c).outcome.view;
            v.OneCustomer? && CustomerReadsAs(v.customer, c.customer, s.customers[c.customer])
    ensures var numbers, log := Listed(s, c.customer), ApplyDeleteCustomer(s, c).store.log;
            && Elements(numbers) == Owned(s, c.customer)
            && (forall i, j :: 0 <= i < j < |numbers| ==> numbers[i] < numbers[j])
            && |log| == |s.log| + |numbers| + 1 && log[..|s.log|] == s.log
            && (forall i :: 0 <= i < |numbers| ==> TellsOf(log[|s.log| + i], c.stamp, s.accounts[numbers[i]]))
            && Describes(log[|log| - 1], ODC, c.stamp, c.customer, TrimEnd(s.customers[c.customer].name),
                         s.customers[c.customer].dob)
  {
    CompleteCascade(s, c);
    DeletionOutcome(s, c);
    StoredNumbers(s);
    DescriptionDescribes(CustomerAt(s, c.customer), ODC, c.stamp);
    RowsTell(s, c.customer, ApplyDeleteCustomer(s, c).store.log, Listed(s, c.customer), c.stamp);
  }

  lemma RowsTell(s: Store, customer: int, log: seq<Tran>, numbers: seq<int>, stamp: Stamp)
    requires WellFormed(s) && DatesPrint(s) && |log| > |s.log| + |numbers|
    requires forall i :: 0 <= i < |numbers| ==> numbers[i] in s.accounts
    requires forall i :: 0 <= i < |numbers| ==> log[|s.log| + i] == DeletionTran(stamp, AccountAt(s, numbers[i]))
    ensures forall i :: 0 <= i < |numbers| ==> TellsOf(log[|s.log| + i], stamp, s.accounts[numbers[i]])
  {
    StoredNumbers(s);
    forall i | 0 <= i < |numbers|
      ensures TellsOf(log[|s.log| + i], stamp, s.accounts[numbers[i]])
    {
      DeletionTells(s, numbers[i], stamp);
    }
  }

  // UPDCUST

  /** A text field left out by the caller. */
  predicate IsOmitted(text: string) {
    text == [] || text[0] == ' '
  }

  /** The row an update leaves: each field as given, or as it was without its trailing white space. */
  ghost function Renamed(row: Customer, name: string, address: string): Customer {
    row.(name := if IsOmitted(name) then TrimEnd(row.name) else name,
         address := if IsOmitted(address) then TrimEnd(row.address) else address)
  }

  /**
   * A successful update stores each field given and keeps each one left out, changes no other row,
   * and replies with the row as stored.
   */
  lemma UpdateCustomerEffect(s: Store, c: Command)
    requires c.UpdateCustomer? && ApplyUpdateCustomer(s, c).outcome.Success?
    ensures c.customer in s.customers
    ensures var r := ApplyUpdateCustomer(s, c);
            && r.store.control == s.control && r.store.accounts == s.accounts
            && r.store.customers == s.customers[c.customer := Renamed(s.customers[c.customer], c.name, c.address)]
            && r.outcome.view.OneCustomer?
            && r.outcome.view.customer == r.store.customers[c.customer].(number := c.customer)
            && LogsOne(s.log, r.store.log, OUC, c.stamp, 0)
  {
  }

  lemma UpdateCustomerAudit(s: Store, c: Command)
    requires WellFormed(s) && DatesPrint(s) && c.UpdateCustomer? && ApplyUpdateCustomer(s, c).outcome.Success?
    requires IsSortcode(c.stamp.sortcode)
    ensures c.customer in s.customers && |ApplyUpdateCustomer(s, c).store.log| == |s.log| + 1
    ensures var row := Renamed(s.customers[c.customer], c.name, c.address);
            Describes(ApplyUpdateCustomer(s, c).store.log[|s.log|], OUC, c.stamp, c.customer, row.name, row.dob)
  {
    StoredNumbers(s);
    DescriptionDescribes(Renamed(s.customers[c.customer], c.name, c.address).(number := c.customer), OUC, c.stamp);
  }

  /** How an admitted update can end in a reachable store. */
  lemma UpdateCustomerEnds(s: Store, c: Command)
    requires WellFormed(s) && DatesPrint(s) && c.UpdateCustomer? && Guarded(c)
    ensures var o := ApplyUpdateCustomer(s, c).outcome;
            if c.customer !in s.customers then o == Failure("1")
            else if IsOmitted(c.name) && IsOmitted(c.address) then o == Failure("4")
            else o.Success?
  {
    StoredNumbers(s);
    if c.customer in s.customers {
      DescriptionDescribes(Renamed(s.customers[c.customer], c.name, c.address).(number := c.customer), OUC, c.stamp);
    }
  }

  // CRECUST

  /** A successful registration stores every field as given under the next number, and counts it. */
  lemma CreateCustomerEffect(s: Store, c: Command)
    requires c.CreateCustomer? && ApplyCreateCustomer(s, c).outcome.Success?
    ensures s.control.Some?
    ensures var r, ctl := ApplyCreateCustomer(s, c), s.control.value;
            var n := ctl.customerLast + 1;
            var row := Customer(n, c.name, c.address, c.dob, c.score, Some(c.review));
            && r.store.customers == s.customers[n := row] && n !in s.customers && r.store.accounts == s.accounts
            && r.store.control == Some(Control(ctl.customerCount + 1, n, ctl.accountCount, ctl.accountLast))
            && r.outcome == Success(OneCustomer(row))
            && LogsOne(s.log, r.store.log, OCC, c.stamp, 0)
  {
  }

  lemma CreateCustomerAudit(s: Store, c: Command)
    requires c.CreateCustomer? && ApplyCreateCustomer(s, c).outcome.Success?
    requires |c.stamp.sortcode| == 6 && IsCobolDate(c.dob)
    ensures s.control.Some? && |ApplyCreateCustomer(s, c).store.log| == |s.log| + 1
    ensures Describes(ApplyCreateCustomer(s, c).store.log[|s.log|], OCC, c.stamp, s.control.value.customerLast + 1, c.name, c.dob)
  {
    DescriptionDescribes(NewCustomer(s.control.value.customerLast + 1, c), OCC, c.stamp);
  }

  // CREACC

  /** A successful opening stores every field as given under the next number, and counts it. */
  lemma CreateAccountEffect(s: Store, c: Command)
    requires c.CreateAccount? && ApplyCreateAccount(s, c).outcome.Success?
    ensures s.control.Some?
    ensures var r, ctl := ApplyCreateAccount(s, c), s.control.value;
            var n := ctl.accountLast + 1;
            var row := Account(n, c.customer, c.kind, c.rate, c.openedOn, c.overdraft, Some(c.last), Some(c.next),
                               c.available, c.actual);
            && r.store.accounts == s.accounts[n := row] && n !in s.accounts && r.store.customers == s.customers
            && c.customer in s.customers
            && r.store.control == Some(Control(ctl.customerCount, ctl.customerLast, ctl.accountCount + 1, n))
            && r.outcome == Success(OneAccount(row))
            && LogsOne(s.log, r.store.log, OCA, c.stamp, 0)
  {
  }

  lemma CreateAccountAudit(s: Store, c: Command)
    requires c.CreateAccount? && ApplyCreateAccount(s, c).outcome.Success? && IsCobolDate(c.last) && IsCobolDate(c.next)
    ensures |ApplyCreateAccount(s, c).store.log| == |s.log| + 1
    ensures var text := ApplyCreateAccount(s, c).store.log[|s.log|].description;
            && |text| == 40
            && DecodeAccount(text) == AccountFields(c.customer, StripBlanks(c.kind), Some(c.last), Some(c.next), "      ")
  {
    AccountDescriptionRoundTrip(NewAccount(s.control.value.accountLast + 1, c), OPENED_TAIL);
  }

  /** How admitted creations can end in a reachable store. */
  lemma CreationEnds(s: Store, c: Command)
    requires WellFormed(s) && Guarded(c) && (c.CreateAccount? || (c.CreateCustomer? && c.score <= 999))
    ensures var o := Apply(c, s).outcome;
            if c.CreateCustomer? then
              if s.control.value.customerLast >= 9999999999 then o == Failure("4") else o.Success?
            else if s.control.value.accountLast >= 99999999 then o == Abend("HNCS")
            else if c.customer !in s.customers then o == Failure("7")
            else o.Success?
  {
    if c.CreateCustomer? {
      RegistrationSucceeds(s, c);
    } else {
      CreationSucceeds(s, c);
      if s.control.value.accountLast < 99999999 {
        NewAccountStorable(c, NewAccount(s.control.value.accountLast + 1, c));
      }
    }
  }

  // Stores out of shape.

  /** Without its control row, the branch issues no numbers. */
  lemma NoControlRow(s: Store, c: Command)
    requires s.control.None? && (c.CreateCustomer? || c.CreateAccount?)
    ensures Apply(c, s) == Result(if c.CreateCustomer? then Failure("4") else Abend("HNCS"), s)
  {
  }

  /** A row outside the records' ranges stops every program that reads it. */
  lemma UnreadableAccount(s: Store, c: Command, n: int)
    requires n in s.accounts
    requires !(0 <= n <= 99999999 && 0 <= s.accounts[n].customer <= 9999999999 && |TrimEnd(s.accounts[n].kind)| <= 8)
    ensures c.UpdateAccount? && c.account == n ==> Apply(c, s) == Result(Abend("HRAC"), s)
    ensures c.DeleteAccount? && c.account == n ==> Apply(c, s) == Result(Abend("HRAC"), s)
    ensures c.Post? && c.account == n ==> Apply(c, s) == Result(Abend("HRAC"), s)
    ensures c.Transfer? && c.from == n && c.from < c.to ==> Apply(c, s) == Result(Abend("FROM"), s)
    ensures c.Transfer? && c.to == n && c.to < c.from ==> Apply(c, s) == Result(Abend("TO  "), s)
  {
  }

  lemma UnreadableCustomer(s: Store, c: Command)
    requires c.UpdateCustomer? || c.DeleteCustomer?
    requires c.customer in s.customers
    requires !(0 <= c.customer <= 9999999999 && 0 <= s.customers[c.customer].score <= 999)
    ensures Apply(c, s) == Result(if c.UpdateCustomer? then Failure("2") else Abend("WPV6"), s)
  {
  }
}
