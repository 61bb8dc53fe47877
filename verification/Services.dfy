/**
 * The checks each service makes before it runs its program: which requests become commands, and
 * with what amounts. `Guarded` is all a command can then be.
 */
module Services {
  import opened Arithmetic
  import opened Calendar
  import opened Customers
  import opened Ledger
  import opened Money
  import opened Records
  import opened Text

  /** A request becomes a command, a failure, an abend or a validation error. */
  datatype Admission = Admitted(command: Command) | Rejected(code: string) | Aborted(code: string) | Malformed

  const MAX_CENTS := 999999999999
  const MAX_RATE := 999999
  const MAX_OVERDRAFT := 9999999900
  const ACCOUNT_KINDS := {"ISA", "MORTGAGE", "SAVING", "CURRENT", "LOAN"}
  const MAX_ACCOUNTS_PER_CUSTOMER := 9

  predicate IsSortcode(s: string) {
    |s| == 6 && AllDigits(s)
  }

  predicate IsAccountNumber(n: int) {
    0 <= n <= MAX_ACCOUNT_NUMBER
  }

  /** At most two decimals and within bounds given in cents. */
  predicate InRange(x: Decimal, low: int, high: int) {
    x.scale <= 2 && low <= RoundMoney(x) <= high
  }

  // XFRFUN

  function AdmitTransfer(from: int, to: int, amount: Decimal, stamp: Stamp): Admission {
    if !IsSortcode(stamp.sortcode) || !IsAccountNumber(from) || !IsAccountNumber(to)
       || !InRange(amount, -MAX_CENTS, MAX_CENTS) then Malformed
    else if amount.mantissa <= 0 then Rejected("4")
    else if from == to then Aborted("SAME")
    else Admitted(Transfer(from, to, RoundMoney(amount), stamp))
  }

  // DBCRFUN

  datatype Origin = Origin(applid: string, userid: string, facilityName: string, network: string, facility: int, filler: string)

  function PaymentDescription(o: Origin): (r: string)
    ensures |r| == 14
  {
    (PadOrTruncate(o.applid, 8) + PadOrTruncate(o.userid, 8))[..14]
  }

  predicate ValidOrigin(o: Origin) {
    && |o.applid| <= 8 && |o.userid| <= 8 && |o.facilityName| <= 8 && |o.network| <= 8 && |o.filler| <= 4
    && -99999999 <= o.facility <= 99999999
  }

  function AdmitPost(account: int, amount: Decimal, origin: Origin, stamp: Stamp): Admission {
    if !IsSortcode(stamp.sortcode) || !IsAccountNumber(account) || !InRange(amount, -MAX_CENTS, MAX_CENTS)
       || !ValidOrigin(origin) then Malformed
    else Admitted(Post(account, RoundMoney(amount), origin.facility, PaymentDescription(origin), stamp))
  }

  // UPDACC

  predicate IsWholePounds(x: Decimal) {
    RoundMoney(x) % 100 == 0
  }

  function AdmitUpdateAccount(account: int, kind: string, rate: Decimal, overdraft: Decimal, stamp: Stamp): Admission {
    if !IsSortcode(stamp.sortcode) || !IsAccountNumber(account) || |kind| > 8 || !InRange(rate, 0, MAX_RATE)
       || !InRange(overdraft, 0, MAX_OVERDRAFT) || !IsWholePounds(overdraft) then Malformed
    else if TrimEnd(kind) == [] || kind[0] == ' ' then Rejected("2")
    else Admitted(UpdateAccount(account, kind, RoundMoney(rate), RoundMoney(overdraft), stamp))
  }

  // CREACC

  /** The check against the accounts a customer has, made on what an earlier transaction saw. */
  predicate GateOpen(seen: Store, customer: int) {
    customer in seen.customers && |Listed(seen, customer)| <= MAX_ACCOUNTS_PER_CUSTOMER
  }

  function AdmitCreateAccount(seen: Store, customer: int, kind: string, rate: Decimal, overdraft: Decimal,
                              available: Decimal, actual: Decimal, stamp: Stamp): Admission
  {
    var trimmed := TrimEnd(TrimStart(kind));
    if !(0 <= customer <= MAX_CUSTOMER_NUMBER) || |kind| > 8 || trimmed == []
       || !InRange(rate, 0, MAX_RATE) || !InRange(overdraft, 0, MAX_OVERDRAFT) || !IsWholePounds(overdraft)
       || !InRange(available, -MAX_CENTS, MAX_CENTS) || !InRange(actual, -MAX_CENTS, MAX_CENTS)
       || !IsSortcode(stamp.sortcode) then Malformed
    else if trimmed !in ACCOUNT_KINDS then Rejected("A")
    else if customer in {0, MAX_CUSTOMER_NUMBER} || customer !in seen.customers then Rejected("1")
    else if !GateOpen(seen, customer) then Rejected("8")
    else
      Admitted(CreateAccount(customer, trimmed, RoundMoney(rate), RoundMoney(overdraft), RoundMoney(available),
                             RoundMoney(actual), stamp.date, stamp.date, PlusDays(stamp.date, 30), stamp))
  }

  // CRECUST

  /** No earlier than 1601, no more than 150 years ago, not in the future. */
  function BirthDateRefusal(today: Date, dob: Date): Option<string> {
    if dob.year < 1601 || today.year - dob.year > 150 then Some("O")
    else if IsAfter(dob, today) then Some("Y")
    else None
  }

  predicate IsAfter(a: Date, b: Date) {
    a.year > b.year || (a.year == b.year && (a.month > b.month || (a.month == b.month && a.day > b.day)))
  }

  datatype CreditDecision = CreditDecision(score: nat, review: Date)

  function AdmitCreateCustomer(name: string, address: string, rawDob: nat, credit: Option<CreditDecision>, stamp: Stamp)
    : Admission
  {
    if !IsSortcode(stamp.sortcode) || TrimEnd(name) == [] || !FitsProfile(name, address) then Malformed
    else if !HasTitle(name) then Rejected("T")
    else
      match ParseDateOfBirth(rawDob)
      case TooOld => Rejected("O")
      case Invalid => Rejected("Z")
      case Parsed(dob) =>
        if BirthDateRefusal(stamp.date, dob).Some? then Rejected(BirthDateRefusal(stamp.date, dob).value)
        else if credit.None? then Rejected("G")
        else Admitted(CreateCustomer(name, address, dob, credit.value.score, credit.value.review, stamp))
  }

  // UPDCUST

  function AdmitUpdateCustomer(customer: int, name: string, address: string, stamp: Stamp): Admission {
    if !IsSortcode(stamp.sortcode) || !(0 <= customer <= MAX_CUSTOMER_NUMBER) || !FitsProfile(name, address) then Malformed
    else if !HasTitleOrNone(name) then Rejected("T")
    else Admitted(UpdateCustomer(customer, name, address, stamp))
  }

  // DELACC and DELCUS

  function AdmitDeleteAccount(account: int, stamp: Stamp): Admission {
    if IsSortcode(stamp.sortcode) && IsAccountNumber(account) then Admitted(DeleteAccount(account, stamp)) else Malformed
  }

  function AdmitDeleteCustomer(customer: int, stamp: Stamp): Admission {
    if IsSortcode(stamp.sortcode) && 1 <= customer <= MAX_CUSTOMER_NUMBER then Admitted(DeleteCustomer(customer, stamp))
    else Malformed
  }

  /** What the checks leave a command to be, on any day whose year prints in four digits. */
  predicate Guarded(c: Command) {
    && IsSortcode(c.stamp.sortcode)
    && match c
       case CreateCustomer(name, address, dob, _, _, _) => HasTitle(name) && FitsProfile(name, address) && IsCobolDate(dob)
       case CreateAccount(customer, kind, rate, overdraft, available, actual, _, last, next, _) =>
         && kind in ACCOUNT_KINDS && 0 <= rate <= MAX_RATE && 0 <= overdraft <= MAX_OVERDRAFT && overdraft % 100 == 0
         && Numeric12(available) && Numeric12(actual) && 1 <= customer < MAX_CUSTOMER_NUMBER
         && IsCobolDate(last) && IsCobolDate(next)
       case UpdateCustomer(_, name, address, _) => HasTitleOrNone(name) && FitsProfile(name, address)
       case UpdateAccount(account, kind, rate, overdraft, _) =>
         && IsAccountNumber(account) && |kind| <= 8 && 0 <= rate <= MAX_RATE && 0 <= overdraft <= MAX_OVERDRAFT
         && overdraft % 100 == 0
       case DeleteAccount(account, _) => IsAccountNumber(account)
       case DeleteCustomer(_, _) => true
       case Post(account, amount, _, origin, _) => IsAccountNumber(account) && Numeric12(amount) && |origin| == 14
       case Transfer(from, to, amount, _) =>
         IsAccountNumber(from) && IsAccountNumber(to) && 1 <= amount <= MAX_CENTS && from != to
  }

  /** An amount of at most two decimals is exactly its number of cents, so none is lost or gained. */
  lemma CentsAreExact(x: Decimal)
    requires x.scale <= 2
    ensures AtMost(x, Decimal(RoundMoney(x), 2)) && AtMost(Decimal(RoundMoney(x), 2), x)
    ensures x.mantissa <= 0 <==> RoundMoney(x) <= 0
  {
    var k := 2 - x.scale;
    PowerSum(10, k, x.scale);
    MulAssociates(x.mantissa, Pow10(k), Pow10(x.scale));
    MulSigns(x.mantissa, Pow10(k));
    MulSigns(-x.mantissa, Pow10(k));
    MulNegates(x.mantissa, Pow10(k));
  }

  /** The request's own limits: a number of cents, to the cent, within bounds. */
  ghost predicate IsAmount(x: Decimal, low: int, high: int) {
    && x.scale <= 2 && low <= RoundMoney(x) <= high
    && AtMost(x, Decimal(RoundMoney(x), 2)) && AtMost(Decimal(RoundMoney(x), 2), x)
  }

  lemma AmountsAreExact(x: Decimal, low: int, high: int)
    ensures IsAmount(x, low, high) <==> InRange(x, low, high)
  {
    if x.scale <= 2 {
      CentsAreExact(x);
    }
  }

  /**
   * A transfer is admitted exactly when it is positive, within range, to the cent and between two
   * accounts, and then as requested; one that is not positive fails with 4, and a positive one from an
   * account to itself abends, whatever the account.
   */
  lemma TransferAdmission(from: int, to: int, amount: Decimal, stamp: Stamp)
    ensures var r := AdmitTransfer(from, to, amount, stamp);
            var inRange := && |stamp.sortcode| == 6 && AllDigits(stamp.sortcode) && 0 <= from <= 99999999 && 0 <= to <= 99999999
                           && IsAmount(amount, -999999999999, 999999999999);
            && (r == Malformed <==> !inRange)
            && (r == Rejected("4") <==> inRange && RoundMoney(amount) <= 0)
            && (r == Aborted("SAME") <==> inRange && RoundMoney(amount) >= 1 && from == to)
            && (r.Admitted? <==> inRange && RoundMoney(amount) >= 1 && from != to)
            && (r.Admitted? ==> Guarded(r.command) && r.command == Transfer(from, to, RoundMoney(amount), stamp))
  {
    AmountsAreExact(amount, -999999999999, 999999999999);
    if amount.scale <= 2 {
      CentsAreExact(amount);
    }
  }

  /** The origin of a payment: eight places for the application, and six of the user's eight. */
  ghost predicate IsOrigin(text: string, applid: string, userid: string) {
    && |text| == 14
    && (forall i :: 0 <= i < 8 ==> text[i] == if i < |applid| then applid[i] else ' ')
    && (forall i :: 8 <= i < 14 ==> text[i] == if i - 8 < |userid| then userid[i - 8] else ' ')
  }

  /** A posting is admitted exactly when all its fields are in range, and then as requested. */
  lemma PostAdmission(account: int, amount: Decimal, origin: Origin, stamp: Stamp)
    ensures var r := AdmitPost(account, amount, origin, stamp);
            && (r.Admitted? <==>
                  && |stamp.sortcode| == 6 && AllDigits(stamp.sortcode) && 0 <= account <= 99999999
                  && IsAmount(amount, -999999999999, 999999999999)
                  && |origin.applid| <= 8 && |origin.userid| <= 8 && |origin.facilityName| <= 8 && |origin.network| <= 8
                  && |origin.filler| <= 4 && -99999999 <= origin.facility <= 99999999)
            && (!r.Admitted? ==> r == Malformed)
            && (r.Admitted? ==>
                  && Guarded(r.command) && r.command.Post? && r.command.account == account && r.command.stamp == stamp
                  && r.command.amount == RoundMoney(amount) && r.command.facility == origin.facility
                  && IsOrigin(r.command.origin, origin.applid, origin.userid))
  {
    AmountsAreExact(amount, -999999999999, 999999999999);
  }

  /** An account update is admitted exactly when its fields are in range and its type neither blank nor starts so. */
  lemma UpdateAccountAdmission(account: int, kind: string, rate: Decimal, overdraft: Decimal, stamp: Stamp)
    ensures var r := AdmitUpdateAccount(account, kind, rate, overdraft, stamp);
            var inRange := && |stamp.sortcode| == 6 && AllDigits(stamp.sortcode) && 0 <= account <= 99999999 && |kind| <= 8
                           && IsAmount(rate, 0, 999999) && IsAmount(overdraft, 0, 9999999900) && RoundMoney(overdraft) % 100 == 0;
            var blank := (forall i :: 0 <= i < |kind| ==> IsSpace(kind[i])) || kind[0] == ' ';
            && (r == Malformed <==> !inRange)
            && (r == Rejected("2") <==> inRange && blank)
            && (r.Admitted? <==> inRange && !blank)
            && (r.Admitted? ==>
                  Guarded(r.command) && r.command == UpdateAccount(account, kind, RoundMoney(rate), RoundMoney(overdraft), stamp))
  {
    AmountsAreExact(rate, 0, 999999);
    AmountsAreExact(overdraft, 0, 9999999900);
    TrimEndLaws(kind);
  }

  /** What CREACC asks of the fields of a request before it looks at the branch. */
  ghost predicate CreationFits(customer: int, kind: string, rate: Decimal, overdraft: Decimal, available: Decimal, actual: Decimal,
                               stamp: Stamp)
  {
    && |stamp.sortcode| == 6 && AllDigits(stamp.sortcode) && 0 <= customer <= 9999999999
    && |kind| <= 8 && TrimEnd(TrimStart(kind)) != ""
    && IsAmount(rate, 0, 999999) && IsAmount(overdraft, 0, 9999999900) && RoundMoney(overdraft) % 100 == 0
    && IsAmount(available, -999999999999, 999999999999) && IsAmount(actual, -999999999999, 999999999999)
  }

  lemma FitsUnlessMalformed(seen: Store, customer: int, kind: string, rate: Decimal, overdraft: Decimal, available: Decimal,
                            actual: Decimal, stamp: Stamp)
    ensures AdmitCreateAccount(seen, customer, kind, rate, overdraft, available, actual, stamp) == Malformed
            <==> !CreationFits(customer, kind, rate, overdraft, available, actual, stamp)
  {
    AmountsAreExact(rate, 0, 999999);
    AmountsAreExact(overdraft, 0, 9999999900);
    AmountsAreExact(available, -999999999999, 999999999999);
    AmountsAreExact(actual, -999999999999, 999999999999);
  }

  /** The gate counts a list cut off at twenty, and that is enough: it opens exactly below ten accounts. */
  lemma GateCounts(seen: Store, customer: int)
    ensures GateOpen(seen, customer) <==> customer in seen.customers && |Owned(seen, customer)| < 10
  {
  }

  /**
   * A creation is admitted exactly when its fields are in range, its type is one of the five, and the
   * customer exists and was seen with fewer than ten accounts; each refusal tells the first of these
   * that fails.
   */
  lemma CreateAccountAdmission(seen: Store, customer: int, kind: string, rate: Decimal, overdraft: Decimal, available: Decimal,
                               actual: Decimal, stamp: Stamp)
    ensures var r := AdmitCreateAccount(seen, customer, kind, rate, overdraft, available, actual, stamp);
            var fits := CreationFits(customer, kind, rate, overdraft, available, actual, stamp);
            var known := TrimEnd(TrimStart(kind)) in {"ISA", "MORTGAGE", "SAVING", "CURRENT", "LOAN"};
            var found := 0 < customer < 9999999999 && customer in seen.customers;
            && (r == Malformed <==> !fits)
            && (r == Rejected("A") <==> fits && !known)
            && (r == Rejected("1") <==> fits && known && !found)
            && (r == Rejected("8") <==> fits && known && found && |Owned(seen, customer)| >= 10)
            && (r.Admitted? <==> fits && known && found && |Owned(seen, customer)| < 10)
  {
    FitsUnlessMalformed(seen, customer, kind, rate, overdraft, available, actual, stamp);
    GateCounts(seen, customer);
  }

  /**
   * An admitted creation is as requested, opened today with its next statement thirty days on. It is
   * guarded exactly when those dates print in eight digits, as they do on any day before the year 9999.
   */
  lemma AdmittedCreation(seen: Store, customer: int, kind: string, rate: Decimal, overdraft: Decimal, available: Decimal,
                         actual: Decimal, stamp: Stamp)
    requires IsDate(stamp.date)
    requires AdmitCreateAccount(seen, customer, kind, rate, overdraft, available, actual, stamp).Admitted?
    ensures var c := AdmitCreateAccount(seen, customer, kind, rate, overdraft, available, actual, stamp).command;
            && c.CreateAccount?
            && c == CreateAccount(customer, TrimEnd(TrimStart(kind)), RoundMoney(rate), RoundMoney(overdraft),
                                  RoundMoney(available), RoundMoney(actual), stamp.date, stamp.date, c.next, stamp)
            && IsDate(c.next) && DayNumber(c.next) == DayNumber(stamp.date) + 30
            && (Guarded(c) <==> 0 <= stamp.date.year && c.next.year <= 9999)
            && (stamp.date.year < 9999 ==> c.next.year <= 9999)
  {
    PlusDaysIsDate(stamp.date, 30);
    PlusDaysCounts(stamp.date, 30);
  }

  /** Year, month and day as one number, greater for the later of two dates. */
  function DateKey(d: Date): int {
    d.year * 10000 + d.month * 100 + d.day
  }

  /**
   * A registration is admitted exactly when its name has a title and fits, its birth date is a date from
   * 1601 on, at most 150 years ago and not in the future, and there is a credit decision; each of the
   * refusals tells the first of these that fails.
   */
  lemma CreateCustomerAdmission(name: string, address: string, rawDob: nat, credit: Option<CreditDecision>, stamp: Stamp)
    requires IsDate(stamp.date)
    ensures var r := AdmitCreateCustomer(name, address, rawDob, credit, stamp);
            var dob := Date(rawDob % 10000, rawDob / 10000 % 100, rawDob / 1000000);
            var fits := && |stamp.sortcode| == 6 && AllDigits(stamp.sortcode) && |name| <= 60 && |address| <= 160
                        && exists i :: 0 <= i < |name| && !IsSpace(name[i]);
            var dated := rawDob <= 99999999 && IsDate(dob);
            var tooOld := rawDob % 10000 < 1601 || (dated && stamp.date.year - dob.year > 150);
            var future := DateKey(dob) > DateKey(stamp.date);
            && (r == Malformed <==> !fits)
            && (r == Rejected("T") <==> fits && !HasTitle(name))
            && (r == Rejected("O") <==> fits && HasTitle(name) && tooOld)
            && (r == Rejected("Z") <==> fits && HasTitle(name) && !tooOld && !dated)
            && (r == Rejected("Y") <==> fits && HasTitle(name) && !tooOld && dated && future)
            && (r == Rejected("G") <==> fits && HasTitle(name) && !tooOld && dated && !future && credit.None?)
            && (r.Admitted? <==> fits && HasTitle(name) && !tooOld && dated && !future && credit.Some?)
            && (r.Admitted? ==>
                  && Guarded(r.command)
                  && r.command == CreateCustomer(name, address, dob, credit.value.score, credit.value.review, stamp))
  {
    ParseCharacterised(rawDob);
    TrimEndLaws(name);
    var dob := Date(rawDob % 10000, rawDob / 10000 % 100, rawDob / 1000000);
    if IsDate(dob) {
      LaterByKey(dob, stamp.date);
    }
  }

  lemma LaterByKey(a: Date, b: Date)
    requires IsDate(a) && IsDate(b)
    ensures IsAfter(a, b) <==> DateKey(a) > DateKey(b)
  {
  }

  /** A customer update is admitted exactly when it fits and its name starts with a title or is left out. */
  lemma UpdateCustomerAdmission(customer: int, name: string, address: string, stamp: Stamp)
    ensures var r := AdmitUpdateCustomer(customer, name, address, stamp);
            var fits := && |stamp.sortcode| == 6 && AllDigits(stamp.sortcode) && 0 <= customer <= 9999999999
                        && |name| <= 60 && |address| <= 160;
            var titled := name == "" || name[0] == ' ' || (HasTitle(name) && !IsSpace(name[0]));
            && (r == Malformed <==> !fits)
            && (r == Rejected("T") <==> fits && !titled)
            && (r.Admitted? <==> fits && titled)
            && (r.Admitted? ==> Guarded(r.command) && r.command == UpdateCustomer(customer, name, address, stamp))
  {
    UpdateCheckAgainstCreateCheck(name);
  }

  /** A deletion is admitted exactly when the number is in range; customer 0 is not a customer. */
  lemma DeletionAdmission(number: int, stamp: Stamp)
    ensures var r := AdmitDeleteAccount(number, stamp);
            && (r.Admitted? <==> |stamp.sortcode| == 6 && AllDigits(stamp.sortcode) && 0 <= number <= 99999999)
            && (if r.Admitted? then r.command == DeleteAccount(number, stamp) && Guarded(r.command) else r == Malformed)
    ensures var r := AdmitDeleteCustomer(number, stamp);
            && (r.Admitted? <==> |stamp.sortcode| == 6 && AllDigits(stamp.sortcode) && 1 <= number <= 9999999999)
            && (if r.Admitted? then r.command == DeleteCustomer(number, stamp) && Guarded(r.command) else r == Malformed)
  {
  }
}
