/**
 * What the data provider sends back, and how the app turns it into a value
 * or a sentinel.
 *
 * Every pairwise-overlap and fund-details call is wrapped in a bare
 * `try`/`except`: a network error, a timeout, a body that is not a JSON
 * object, a `status` other than "success", a missing or non-object `data`
 * member and a missing field all end in the same fallback.
 */
module Upstream {
  import opened Wrappers
  import opened OrderedDict

  type SchemeId = int

  /** The scheme directory: scheme id to display name, in the provider's order. */
  type Directory = Dict<SchemeId, string>

  /**
   * A JSON value as the provider may send it for a field.  The app passes it
   * on without looking inside, so arrays and objects are one opaque case.
   */
  datatype JsonValue = Number(n: real) | Text(s: string) | Bool(b: bool) | Null | Structured

  /** The `data` member of a reply envelope. */
  datatype Data<T> =
    | Missing                   // no `data` key: `data["data"]` raises KeyError
    | NotAnObject               // `data` is null, a list, ...: `.get` raises AttributeError
    | Object(field: Option<T>)  // the field the caller looks for, if present

  /** The outcome of one provider call. */
  datatype Reply<T> =
    | Failed                                       // `requests.get`/`.json()` raised, or the body is not an object
    | Envelope(status: Option<string>, data: Data<T>)

  const SuccessStatus := "success"

  /**
   * The field a reply delivers, or None when the call is unusable for any of
   * the reasons above: the single funnel shared by both lookups.
   */
  function Field<T>(r: Reply<T>): (v: Option<T>)
    ensures v.Some? <==> r.Envelope? && r.status == Some(SuccessStatus) && r.data.Object? && r.data.field.Some?
    ensures v.Some? ==> r == Envelope(Some(SuccessStatus), Object(v))
  {
    match r
    case Failed => None
    case Envelope(status, data) =>
      if status == Some(SuccessStatus) then
        match data
        case Object(field) => field
        case _ => None
      else None
  }

  /** A cell of the overlap matrix; `Unavailable` stands for NaN. */
  datatype Overlap = Percent(value: real) | Unavailable

  /** `get_portfolio_overlap`: the `PortfolioOverlapPercent` field, or NaN. */
  function OverlapOf(r: Reply<real>): (o: Overlap)
    ensures o == Unavailable <==>
      r.Failed? || r.status != Some(SuccessStatus) || !r.data.Object? || r.data.field.None?
    ensures o.Percent? ==> r == Envelope(Some(SuccessStatus), Object(Some(o.value)))
  {
    match Field(r)
    case Some(p) => Percent(p)
    case None => Unavailable
  }

  /** The sentinel that stands for a missing expense ratio. */
  const NotAvailable := Text("N/A")

  /** `get_expense_ratio`: the `expenseRatio` field, or "N/A". */
  function ExpenseOf(r: Reply<JsonValue>): (e: JsonValue)
    ensures (r.Failed? || r.status != Some(SuccessStatus) || !r.data.Object? || r.data.field.None?)
            ==> e == NotAvailable
    ensures Field(r).Some? ==> e == Field(r).value
    ensures e != NotAvailable ==> r == Envelope(Some(SuccessStatus), Object(Some(e)))
  {
    Field(r).GetOr(NotAvailable)
  }

  /** A success reply whose `expenseRatio` is JSON null yields null, not "N/A". */
  lemma ExpenseNullIsKept()
    ensures ExpenseOf(Envelope(Some(SuccessStatus), Object(Some(Null)))) == Null
  {
  }

  /** One element of the scheme list: the `SchemeId` and `SchemeName` members. */
  datatype SchemeRecord = SchemeRecord(schemeId: SchemeId, schemeName: string)

  /** The reply to the list-all-schemes call; `data` is absent when the key is missing. */
  datatype SchemeList = SchemeList(data: Option<seq<SchemeRecord>>)
}
