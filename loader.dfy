/** `load_data`: read rows, drop duplicates, drop the index column, and parse
    OrderDate with errors coerced to a missing date. Reading the CSV file and
    the date-parsing rules themselves are outside the model: the rows arrive
    as a sequence and the parser as a function. */
module Loader {
  import opened Orders
  import opened Duplicates

  /** Positional column selection from the second column on: the rows without their index column. */
  function DropIndex(rows: seq<RawRow>): seq<Line> {
    seq(|rows|, i requires 0 <= i < |rows| => rows[i].line)
  }

  /** Date parsing in coercing mode, on one cell: a failed parse becomes a missing date. */
  function CoerceDate(p: Parsed): Option<Date> {
    match p
    case Parsed(d) => Some(d)
    case Unparseable => None
  }

  function ToRecord(l: Line, parse: string -> Parsed): Record {
    Record(l.customerName, l.customerId, CoerceDate(parse(l.orderDate)), l.orderId, l.orderTotal, l.phone)
  }

  /** Replacing the OrderDate column by its coerced parse, row by row. */
  function CoerceDates(lines: seq<Line>, parse: string -> Parsed): seq<Record> {
    seq(|lines|, i requires 0 <= i < |lines| => ToRecord(lines[i], parse))
  }

  /** The cleaned table `load_data` returns, in the order its steps run:
      duplicates are removed while the index column is still present. */
  function LoadAsWritten(raw: seq<RawRow>, parse: string -> Parsed): seq<Record> {
    CoerceDates(DropIndex(Dedup(raw)), parse)
  }

  /** The cleaned table with the index column dropped before duplicates are
      removed, so that rows differing only in their index count once. */
  function Load(raw: seq<RawRow>, parse: string -> Parsed): seq<Record> {
    CoerceDates(Dedup(DropIndex(raw)), parse)
  }

  /** `load_data` step by step: deduplicate the raw rows, then build
      the cleaned table one row at a time. Coercion keeps every surviving row:
      a row whose date does not parse stays, with its date missing. */
  method LoadData(raw: seq<RawRow>, parse: string -> Parsed) returns (table: seq<Record>)
    ensures table == LoadAsWritten(raw, parse)
    ensures |table| == |Dedup(raw)|
    ensures forall i :: 0 <= i < |table| ==>
      var l := Dedup(raw)[i].line;
      && table[i].customerName == l.customerName
      && table[i].customerId == l.customerId
      && table[i].orderId == l.orderId
      && table[i].orderTotal == l.orderTotal
      && table[i].phone == l.phone
      && (table[i].orderDate.None? <==> parse(l.orderDate).Unparseable?)
      && (parse(l.orderDate).Parsed? ==> table[i].orderDate == Some(parse(l.orderDate).date))
  {
    var kept := DropDuplicates(raw);
    table := [];
    var i := 0;
    while i < |kept|
      invariant 0 <= i <= |kept|
      invariant |table| == i
      invariant forall j :: 0 <= j < i ==> table[j] == ToRecord(kept[j].line, parse)
    {
      table := table + [ToRecord(kept[i].line, parse)];
      i := i + 1;
    }
  }

  /** With the index dropped first, the cleaned table holds each distinct
      order line exactly once: no line is kept twice, no line is lost, and
      one record is built per kept line, so cleaning never fails on a date. */
  lemma CorrectedLoadDeduplicates(raw: seq<RawRow>, parse: string -> Parsed)
    ensures NoDuplicates(Dedup(DropIndex(raw)))
    ensures forall i :: 0 <= i < |raw| ==> raw[i].line in Dedup(DropIndex(raw))
    ensures |Load(raw, parse)| == |Dedup(DropIndex(raw))| <= |raw|
    ensures forall i :: 0 <= i < |Load(raw, parse)| ==>
      Load(raw, parse)[i] == ToRecord(Dedup(DropIndex(raw))[i], parse)
  {
    DedupKeepsFirstOccurrences(DropIndex(raw));
    DedupShrinks(DropIndex(raw));
    forall i | 0 <= i < |raw| ensures raw[i].line in Dedup(DropIndex(raw)) {
      assert DropIndex(raw)[i] == raw[i].line;
    }
  }

  /** As written, two CSV rows that differ only in the index column both
      survive deduplication, so the cleaned table repeats the order line and
      its total is counted twice; the corrected order keeps it once. */
  lemma IndexDefeatsDeduplication(l: Line, parse: string -> Parsed)
    ensures var raw := [RawRow(0, l), RawRow(1, l)];
      && LoadAsWritten(raw, parse) == [ToRecord(l, parse), ToRecord(l, parse)]
      && Revenue(LoadAsWritten(raw, parse)) == 2 * l.orderTotal
      && Load(raw, parse) == [ToRecord(l, parse)]
      && Revenue(Load(raw, parse)) == l.orderTotal
  {
    var raw := [RawRow(0, l), RawRow(1, l)];
    assert raw[..1] == [RawRow(0, l)];
    assert [RawRow(0, l)][..0] == [];
    assert Dedup(raw[..1]) == [RawRow(0, l)];
    assert raw[1] !in raw[..1];
    assert Dedup(raw) == raw;
    var lines := DropIndex(raw);
    assert lines == [l, l];
    assert lines[..1] == [l];
    assert [l][..0] == [];
    assert Dedup(lines[..1]) == [l];
    assert lines[1] in lines[..1];
    assert Dedup(lines) == [l];
    var rec := ToRecord(l, parse);
    var w := LoadAsWritten(raw, parse);
    assert w == [rec, rec];
    assert w[..1] == [rec];
    assert [rec][..0] == [];
    assert Revenue([rec]) == l.orderTotal;
    assert Revenue(w) == Revenue(w[..1]) + l.orderTotal;
  }
}
