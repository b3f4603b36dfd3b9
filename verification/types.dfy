/** The records of src/types.ts, plus the fault values that stand for the
    exceptions the source lets propagate. */
module Types {
  import opened Wrappers

  /** The four conversation phases (`STATES`). A session is in exactly one. */
  datatype Phase = Greeting | AskEmail | AskPass | AnswerQueries

  /** A row of the delivery table as the page shows it: the date cell is blank
      (or unreadable) on repeated same-day rows. */
  datatype RawDelivery = RawDelivery(id: string, date: Option<string>)

  /** `OrderWithDate`: a delivery row once its date has been inferred. */
  datatype Delivery = Delivery(id: string, date: string)

  /** A row of the commission table as the page shows it: the amount is still
      the cell's text, the payment date may be unreadable (null). */
  datatype RawCommission = RawCommission(id: string, amountText: string, paymentDate: Option<string>)

  /** `OrderWithCommission`: only commission rows carry an amount. */
  datatype Commission = Commission(id: string, amount: nat, paymentDate: Option<string>)

  /** `Order`: one ledger entry, keyed by the delivery id. */
  datatype Order = Order(id: string, date: string, amount: nat)

  /** `Dict<T>`: a string-keyed dictionary, so a key occurs at most once. */
  type Dict<T> = map<string, T>

  /** A browser cookie as returned by the login step; its contents are opaque here. */
  datatype Cookie = Cookie(name: string, value: string)

  /** The open part of the session metadata: `email` holds text, `cookies` a cookie jar. */
  datatype Extra = Text(text: string) | Jar(cookies: seq<Cookie>)

  /** `UserState.metadata`. `lastUpdatedAt` is in minutes; `None` stands for a
      missing or unparsable timestamp (an invalid `Date`). */
  datatype Metadata = Metadata(
    lastUpdatedAt: Option<int>,
    ordersWithCommission: seq<Commission>,
    ordersWithDate: seq<Delivery>,
    extra: Dict<Extra>)

  /** `UserState`: the phase plus the metadata carried between turns. */
  datatype UserState = UserState(phase: Phase, metadata: Metadata)

  /** What can make a turn throw: a page that cannot be fetched, a rejected
      login, the fill loop reading past the end of the table, and the fill loop
      never finishing (the turn never completes). */
  datatype Fault = PageUnavailable | LoginRejected | MissingRowDate | FillNeverEnds

  /** The end of a step that mutates its argument in place: either it completes,
      or it throws after having already mutated `partial`. */
  datatype Turn<T> = Completed(value: T) | Aborted(fault: Fault, partial: T)

  const EmailKey: string := "email"
  const CookiesKey: string := "cookies"
}
