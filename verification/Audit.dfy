/** The 40-character audit descriptions and the positional decoders that read them back. */
module Audit {
  import opened Text
  import opened Calendar
  import opened Records

  const WIDTH := 40

  function OptionalCobolDate(d: Option<Date>): string {
    match d
    case Some(date) => FormatDdmmyyyy(date)
    case None => "00000000"
  }

  /** Account openings end in blanks, deletions in the word DELETE. */
  function AccountDescription(a: Account, tail: string): string {
    FormatInt(a.customer, 10) + PadOrTruncate(a.kind, 8) + OptionalCobolDate(a.last) + OptionalCobolDate(a.next) + tail
  }

  const OPENED_TAIL := "      "
  const DELETED_TAIL := "DELETE"

  /** `trunc` of an amount in cents: whole pounds, towards zero. */
  function WholePounds(cents: int): int {
    if cents >= 0 then cents / 100 else -((-cents) / 100)
  }

  function UpdateDescription(a: Account): string {
    FormatInt(a.number, 8) + PadOrTruncate(a.kind, 8) + FormatInt(a.rate, 6) + FormatInt(WholePounds(a.overdraft), 8)
    + Blanks(10)
  }

  function CustomerDescription(sortcode: string, c: Customer): string {
    sortcode + FormatInt(c.number, 10) + PadOrTruncate(c.name, 14) + FormatSlashed(c.dob)
  }

  function PostDescription(facility: int, amount: int, origin: string): string {
    (if facility == PAYMENT_FACILITY then PadOrTruncate(origin, 14)
     else if amount < 0 then "COUNTER WTHDRW"
     else "COUNTER RECVED") + Blanks(26)
  }

  function TransferDescription(sortcode: string, to: int): string {
    PadOrTruncate("TRANSFER", 26) + sortcode + FormatInt(to, 8)
  }

  datatype AccountFields = AccountFields(customer: nat, kind: string, last: Option<Date>, next: Option<Date>, tail: string)
  datatype UpdateFields = UpdateFields(number: nat, kind: string, rate: nat, pounds: nat)
  datatype CustomerFields = CustomerFields(sortcode: string, number: nat, name: string, dob: Date)

  function ReadNat(s: string): nat {
    if AllDigits(s) then ParseNat(s) else 0
  }

  function DecodeDate(s: string): Option<Date>
    requires |s| == 8
  {
    if s == "00000000" then None else Some(Date(ReadNat(s[4..8]), ReadNat(s[2..4]), ReadNat(s[..2])))
  }

  function DecodeAccount(s: string): AccountFields
    requires |s| == WIDTH
  {
    AccountFields(ReadNat(s[..10]), StripBlanks(s[10..18]), DecodeDate(s[18..26]), DecodeDate(s[26..34]), s[34..])
  }

  function DecodeUpdate(s: string): UpdateFields
    requires |s| == WIDTH
  {
    UpdateFields(ReadNat(s[..8]), StripBlanks(s[8..16]), ReadNat(s[16..22]), ReadNat(s[22..30]))
  }

  function DecodeCustomer(s: string): CustomerFields
    requires |s| == WIDTH
  {
    CustomerFields(s[..6], ReadNat(s[6..16]), s[16..30], Date(ReadNat(s[36..40]), ReadNat(s[33..35]), ReadNat(s[30..32])))
  }

  /** The sortcode and account number a transfer row names as the receiving side. */
  function DecodeTransfer(s: string): (string, nat)
    requires |s| == WIDTH
  {
    (s[26..32], ReadNat(s[32..40]))
  }

  ghost predicate PrintableDate(d: Option<Date>) {
    d.Some? ==> IsCobolDate(d.value)
  }

  lemma NumberField(n: int, width: nat)
    requires 1 <= width && 0 <= n < Pow10(width)
    ensures |FormatInt(n, width)| == width && ReadNat(FormatInt(n, width)) == n
  {
    ZeroPadWidth(n, width);
    ParseOfZeroPad(n, width);
  }

  /** No calendar date prints as the eight zeros that stand for a missing one. */
  lemma DateField(d: Option<Date>)
    requires PrintableDate(d)
    ensures |OptionalCobolDate(d)| == 8 && DecodeDate(OptionalCobolDate(d)) == d
  {
    if d.Some? {
      var s := FormatDdmmyyyy(d.value);
      FieldsOfFormat(d.value);
      assert AllDigits(s[..2]) && AllDigits(s[2..4]) && AllDigits(s[4..8]);
      ParseOfZeroPad(0, 2);
      assert ZeroPad(0, 2) == "00";
      assert s[..2] != "00";
    }
  }

  /** Account openings and deletions: 40 characters, every field recovered, the type up to trailing blanks. */
  lemma AccountDescriptionRoundTrip(a: Account, tail: string)
    requires 0 <= a.customer <= MAX_CUSTOMER_NUMBER && |a.kind| <= 8 && |tail| == 6
    requires PrintableDate(a.last) && PrintableDate(a.next)
    ensures var s := AccountDescription(a, tail);
            |s| == WIDTH && DecodeAccount(s) == AccountFields(a.customer, StripBlanks(a.kind), a.last, a.next, tail)
  {
    PowersOfTen();
    NumberField(a.customer, 10);
    DateField(a.last);
    DateField(a.next);
    PaddingKeepsText(a.kind, 8);
    var s := AccountDescription(a, tail);
    assert s[..10] == FormatInt(a.customer, 10) && s[10..18] == PadOrTruncate(a.kind, 8);
    assert s[18..26] == OptionalCobolDate(a.last) && s[26..34] == OptionalCobolDate(a.next) && s[34..] == tail;
  }

  lemma {:induction false} DigitsGrow(n: nat, width: nat)
    requires n >= Pow10(width) && width >= 1
    ensures |ZeroPad(n, width)| > width
  {
    if width > 1 {
      assert Pow10(width) == 10 * Pow10(width - 1);
      DigitsGrow(n / 10, width - 1);
    } else {
      assert Pow10(1) == 10 * Pow10(0);
    }
  }

  lemma UpdateFits(a: Account)
    requires 0 <= a.number <= MAX_ACCOUNT_NUMBER && |a.kind| <= 8 && 0 <= a.rate <= 999999 && 0 <= a.overdraft < 10000000000
    ensures var s := UpdateDescription(a);
            |s| == WIDTH && DecodeUpdate(s) == UpdateFields(a.number, StripBlanks(a.kind), a.rate, a.overdraft / 100)
  {
    PowersOfTen();
    NumberField(a.number, 8);
    NumberField(a.rate, 6);
    NumberField(WholePounds(a.overdraft), 8);
    PaddingKeepsText(a.kind, 8);
    var s := UpdateDescription(a);
    assert s[..8] == FormatInt(a.number, 8) && s[8..16] == PadOrTruncate(a.kind, 8);
    assert s[16..22] == FormatInt(a.rate, 6) && s[22..30] == FormatInt(WholePounds(a.overdraft), 8);
  }

  lemma UpdateTooLong(a: Account)
    requires a.number >= 0 && a.rate >= 0 && a.overdraft >= 10000000000
    ensures |UpdateDescription(a)| > WIDTH
  {
    PowersOfTen();
    DigitsGrow(WholePounds(a.overdraft), 8);
  }

  /**
   * Account updates: number, rate and the whole pounds of the limit are recovered exactly, any pence
   * are dropped. The text has 40 characters up to 99999999 pounds and is too long for its column beyond.
   */
  lemma UpdateDescriptionRoundTrip(a: Account)
    requires 0 <= a.number <= MAX_ACCOUNT_NUMBER && |a.kind| <= 8 && 0 <= a.rate <= 999999 && a.overdraft >= 0
    ensures var s := UpdateDescription(a);
            if a.overdraft < 10000000000 then
              |s| == WIDTH && DecodeUpdate(s) == UpdateFields(a.number, StripBlanks(a.kind), a.rate, a.overdraft / 100)
            else |s| > WIDTH
  {
    if a.overdraft < 10000000000 {
      UpdateFits(a);
    } else {
      UpdateTooLong(a);
    }
  }

  /** Customer rows: 40 characters; sortcode, number and birth date exact, the name cut or padded to 14. */
  lemma CustomerDescriptionRoundTrip(sortcode: string, c: Customer)
    requires |sortcode| == 6 && 0 <= c.number <= MAX_CUSTOMER_NUMBER && IsCobolDate(c.dob)
    ensures var s := CustomerDescription(sortcode, c);
            |s| == WIDTH && DecodeCustomer(s) == CustomerFields(sortcode, c.number, PadOrTruncate(c.name, 14), c.dob)
  {
    PowersOfTen();
    NumberField(c.number, 10);
    DigitsOfDate(c.dob);
    ParseOfZeroPad(c.dob.day, 2);
    ParseOfZeroPad(c.dob.month, 2);
    ParseOfZeroPad(c.dob.year, 4);
    var s := CustomerDescription(sortcode, c);
    assert s[..6] == sortcode && s[6..16] == FormatInt(c.number, 10) && s[16..30] == PadOrTruncate(c.name, 14);
    assert s[30..32] == ZeroPad(c.dob.day, 2) && s[33..35] == ZeroPad(c.dob.month, 2) && s[36..40] == ZeroPad(c.dob.year, 4);
  }

  /** Transfer and posting rows are 40 characters; the transfer row names its receiving account. */
  lemma PaymentDescriptionRoundTrip(sortcode: string, to: int, facility: int, amount: int, origin: string)
    requires |sortcode| == 6 && 0 <= to <= MAX_ACCOUNT_NUMBER
    ensures |PostDescription(facility, amount, origin)| == WIDTH
    ensures var s := TransferDescription(sortcode, to); |s| == WIDTH && DecodeTransfer(s) == (sortcode, to)
  {
    PowersOfTen();
    NumberField(to, 8);
    var s := TransferDescription(sortcode, to);
    assert s[26..32] == sortcode && s[32..40] == FormatInt(to, 8);
  }
}
