/** Scraped records (Python dicts), the CSV tables they are uploaded as,
    and the records `pandas.read_csv` gives back for such a table. */
module Records {
  import opened Calendar

  /** One value of a record or one cell of a table. */
  datatype Value =
    | Null                  // Python None, or a NaN that pandas reads back
    | Str(s: string)
    | Int(i: int)
    | Num(literal: string)  // a float, kept as the text it was parsed from
    | Instant(t: DateTime)

  /** A dict from column name to value. */
  type Record = map<string, Value>

  /** Python's `r.get(k)`. */
  function Get(r: Record, k: string): Value {
    if k in r then r[k] else Null
  }

  /** Python truthiness of a value (a float is false exactly when it is zero). */
  predicate Truthy(v: Value) {
    match v
    case Null => false
    case Str(s) => s != []
    case Int(i) => i != 0
    case Num(t) => exists j :: 0 <= j < |t| && '1' <= t[j] <= '9'
    case Instant(_) => true
  }

  /** The columns of the uploaded review tables. */
  const HEADER: seq<string> :=
    ["id_review", "caption", "relative_date", "review_date", "retrieval_date",
     "rating", "username", "n_review_user", "place_id"]

  /** The columns used when reviews are tagged with their source URL. */
  const HEADER_W_SOURCE: seq<string> :=
    ["id_review", "caption", "relative_date", "retrieval_date", "rating",
     "username", "n_review_user", "n_photo_user", "url_user", "url_source"]

  predicate Distinct(s: seq<string>) {
    forall i, j :: 0 <= i < j < |s| ==> s[i] != s[j]
  }

  lemma HeadersDistinct()
    ensures Distinct(HEADER) && Distinct(HEADER_W_SOURCE)
  {
  }

  /** A CSV object: the header line and the data lines. */
  datatype Table = Table(header: seq<string>, rows: seq<seq<Value>>)

  /** `r.get(k, "")`: a key the record lacks becomes an empty cell. */
  function Cell(r: Record, k: string): Value {
    if k in r then r[k] else Str("")
  }

  /** One data line: one cell per column, in column order. */
  function Row(r: Record, headers: seq<string>): (row: seq<Value>)
    ensures |row| == |headers|
  {
    seq(|headers|, j requires 0 <= j < |headers| => Cell(r, headers[j]))
  }

  /** What `upload_csv_to_s3` writes: the header line, then one line per
      record in the order given. */
  function ToTable(records: seq<Record>, headers: seq<string>): (t: Table)
    ensures t.header == headers && |t.rows| == |records|
  {
    Table(headers, seq(|records|, i requires 0 <= i < |records| => Row(records[i], headers)))
  }

  /** Every line has exactly one cell per column; a present key gives its
      value and a missing key gives an empty cell. */
  lemma ToTableCells(records: seq<Record>, headers: seq<string>, i: int, j: int)
    requires 0 <= i < |records| && 0 <= j < |headers|
    ensures |ToTable(records, headers).rows[i]| == |headers|
    ensures headers[j] in records[i] ==> ToTable(records, headers).rows[i][j] == records[i][headers[j]]
    ensures headers[j] !in records[i] ==> ToTable(records, headers).rows[i][j] == Str("")
  {
  }

  /** What a written cell reads back as: an empty field becomes NaN. */
  function ReadCell(v: Value): (r: Value)
    ensures r == Null <==> v == Null || v == Str("")
    ensures r != Null ==> r == v
  {
    if v == Str("") then Null else v
  }

  /** The record `pandas.read_csv` makes of one data line: column names to
      cells, a short line padded with NaN. */
  function Zip(header: seq<string>, row: seq<Value>): (r: Record)
    ensures r.Keys == set k | k in header
  {
    if header == [] then map[]
    else
      var rest := Zip(header[1..], if row == [] then [] else row[1..]);
      assert forall k :: k in header <==> k == header[0] || k in header[1..];
      rest[header[0] := if row == [] then Null else ReadCell(row[0])]
  }

  /** Reading a table back: one record per data line. */
  function FromTable(t: Table): (rs: seq<Record>)
    ensures |rs| == |t.rows|
  {
    seq(|t.rows|, i requires 0 <= i < |t.rows| => Zip(t.header, t.rows[i]))
  }

  lemma {:induction false} ZipAt(header: seq<string>, row: seq<Value>, j: int)
    requires Distinct(header) && 0 <= j < |header|
    ensures Zip(header, row)[header[j]] == if j < |row| then ReadCell(row[j]) else Null
    decreases |header|
  {
    if j > 0 {
      ZipAt(header[1..], if row == [] then [] else row[1..], j - 1);
    }
  }

  /** Writing records and reading them back gives, for every column, the
      value the record had; a missing or empty value comes back as NaN. */
  lemma {:induction false} ReadBack(records: seq<Record>, headers: seq<string>, i: int, j: int)
    requires Distinct(headers) && 0 <= i < |records| && 0 <= j < |headers|
    ensures FromTable(ToTable(records, headers))[i].Keys == set k | k in headers
    ensures FromTable(ToTable(records, headers))[i][headers[j]] == ReadCell(Cell(records[i], headers[j]))
  {
    ZipAt(headers, ToTable(records, headers).rows[i], j);
  }
}
