/** The part of the typed query plan that decides which rows a query reads. */
module QueryDsl {
  import opened Wrappers
  import opened Text

  datatype FilterOp = Eq | Ne | In | NotIn | Between | Like | IsNull | NotNull

  /** A filter value: text, or a number together with the text `str` prints for it. */
  datatype Literal = TextValue(text: string) | NumberValue(text: string, number: real)

  datatype Filter = Filter(column: string, op: FilterOp, values: seq<Literal>)

  /** `end` is exclusive; both are dates as the plan wrote them. */
  datatype TimeRange = TimeRange(start: Option<string>, end: Option<string>)

  datatype Plan = Plan(filters: seq<Filter>, time: Option<TimeRange>)

  /** Given functions: `str.upper` of Python, and the text operations of the database.
      `AtMost` is the database's order on text, `ToNumber` its implicit conversion. */
  datatype Host = Host(
    Upper: string -> string,
    AtMost: (string, string) -> bool,
    ToNumber: string -> Option<real>,
    LikeMatch: (string, string) -> bool,
    ContainsMatch: (string, string) -> bool)

  /** One stored row: nullable text dimensions by upper-case column name, the instant of
      PERIOD_DATE in seconds since day 0, and the department the row belongs to. */
  datatype Row = Row(dimensions: map<string, string>, period: Option<int>, department: Option<string>)

  const SECONDS_PER_DAY := 86400

  /** The cell that an unquoted column name reads; names are not case sensitive. */
  function CellOf(host: Host, row: Row, column: string): Option<string> {
    var name := host.Upper(column);
    if name in row.dimensions then Some(row.dimensions[name]) else None
  }

  const TIME_COLUMNS := {"PERIOD_DATE", "PERIOD_MONTH", "PERIOD_WEEK", "PERIOD_QUARTER", "PERIOD_YEAR"}

  /** Both back ends leave these columns to the plan's time range. */
  predicate IsTimeColumn(host: Host, column: string) { host.Upper(column) in TIME_COLUMNS }

  /** `if t.start and t.end`: both given and not empty. */
  predicate Bounded(t: TimeRange) {
    t.start.Some? && t.start.value != "" && t.end.Some? && t.end.value != ""
  }
}
