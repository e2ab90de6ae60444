/** The order table of the dashboard: raw CSV rows, the cleaned records, and
    the row-level sums every report is built from. */
module Orders {

  datatype Option<+T> = None | Some(value: T)

  /** A calendar date as year, month and day. */
  datatype Ymd = Ymd(year: int, month: int, day: int)

  predicate IsLeapYear(y: int) {
    y % 4 == 0 && (y % 100 != 0 || y % 400 == 0)
  }

  function DaysInMonth(y: int, m: int): int {
    if m == 2 then (if IsLeapYear(y) then 29 else 28)
    else if m == 4 || m == 6 || m == 9 || m == 11 then 30
    else 31
  }

  /** What a successful date parse yields: a real Gregorian date. */
  type Date = d: Ymd | 1 <= d.month <= 12 && 1 <= d.day <= DaysInMonth(d.year, d.month)
    witness Ymd(1970, 1, 1)

  /** The outcome of parsing one OrderDate cell. */
  datatype Parsed = Parsed(date: Date) | Unparseable

  /** One CSV row without its leading index column. The order date is still text. */
  datatype Line = Line(
    customerName: string,
    customerId: int,
    orderDate: string,
    orderId: int,
    orderTotal: int,
    phone: string)

  /** One CSV row as read: the unnamed index column followed by the order columns. */
  datatype RawRow = RawRow(index: int, line: Line)

  /** One row of the cleaned table: the order date is parsed, or missing. */
  datatype Record = Record(
    customerName: string,
    customerId: int,
    orderDate: Option<Date>,
    orderId: int,
    orderTotal: int,
    phone: string)

  /** Sum of OrderTotal over the rows. */
  function Revenue(rows: seq<Record>): int {
    if rows == [] then 0 else Revenue(rows[..|rows| - 1]) + rows[|rows| - 1].orderTotal
  }

  /** The rows whose order date is present, in table order. */
  function Dated(rows: seq<Record>): seq<Record> {
    if rows == [] then []
    else Dated(rows[..|rows| - 1]) + (if rows[|rows| - 1].orderDate.Some? then [rows[|rows| - 1]] else [])
  }
}
