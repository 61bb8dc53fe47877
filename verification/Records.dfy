/** The rows of the branch's four tables and the commands its programs run. */
module Records {
  import opened Calendar

  datatype Option<+T> = None | Some(value: T)

  /** An `account` row; rates, limits and balances in cents. */
  datatype Account = Account(
    number: int, customer: int, kind: string, rate: int, openedOn: Date, overdraft: int,
    last: Option<Date>, next: Option<Date>, available: int, actual: int)

  /** A `customer` row. */
  datatype Customer = Customer(number: int, name: string, address: string, dob: Date, score: int, review: Option<Date>)

  /** The single `control` row. */
  datatype Control = Control(customerCount: int, customerLast: int, accountCount: int, accountLast: int)

  datatype TranType = OCC | OCA | OUC | OUA | ODC | ODA | CRE | DEB | PCR | PDR | TFR

  /** When and under which sortcode and reference a command runs. */
  datatype Stamp = Stamp(sortcode: string, reference: int, date: Date, time: nat)

  /** A `proctran` row. */
  datatype Tran = Tran(stamp: Stamp, kind: TranType, description: string, amount: int)

  /** Everything committed for one branch. The log is in commit order. */
  datatype Store = Store(control: Option<Control>, customers: map<int, Customer>, accounts: map<int, Account>, log: seq<Tran>)

  /** The migrated, empty database. */
  const EMPTY_STORE := Store(Some(Control(0, 0, 0, 0)), map[], map[], [])

  datatype Command =
    | CreateCustomer(name: string, address: string, dob: Date, score: nat, review: Date, stamp: Stamp)
    | CreateAccount(customer: int, kind: string, rate: int, overdraft: int, available: int, actual: int,
                    openedOn: Date, last: Date, next: Date, stamp: Stamp)
    | UpdateCustomer(customer: int, name: string, address: string, stamp: Stamp)
    | UpdateAccount(account: int, kind: string, rate: int, overdraft: int, stamp: Stamp)
    | DeleteAccount(account: int, stamp: Stamp)
    | DeleteCustomer(customer: int, stamp: Stamp)
    | Post(account: int, amount: int, facility: int, origin: string, stamp: Stamp)
    | Transfer(from: int, to: int, amount: int, stamp: Stamp)

  datatype View = OneAccount(account: Account) | OneCustomer(customer: Customer) | TwoAccounts(from: Account, to: Account)

  datatype Outcome = Success(view: View) | Failure(code: string) | Abend(code: string)

  const MAX_CUSTOMER_NUMBER := 9999999999
  const MAX_ACCOUNT_NUMBER := 99999999
  const PAYMENT_FACILITY := 496
  const RETRY_ATTEMPTS := 5
  const PROCTRAN_ABEND := "HWPT"
  const RETRY_EXHAUSTED_ABEND := "XRTY"
}
