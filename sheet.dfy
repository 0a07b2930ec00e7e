/**
 * The rows handed over by the spreadsheet codec, and the required-column
 * check that `handleFileUpload` runs on them (src/App.js:248-257).
 */
module Sheet {
  import opened Wrappers

  /** A coordinate in decimal degrees. The source holds a JavaScript number;
      the model only copies and compares coordinates, never computes with them. */
  type Coord = real

  /** A `{ lat, lng }` object: a marker position. */
  datatype Position = Position(lat: Coord, lng: Coord)

  /** A cell value as `sheet_to_json` produces it: text or a number (its
      boolean and date cells are not modelled). */
  datatype Cell = Text(text: string) | Number(value: Coord)

  /** A parsed row: column name to cell value. A column missing from the map
      reads as `undefined`. */
  type Row = map<string, Cell>

  const StoreNameColumn: string := "StoreName"
  const ProvinceColumn: string := "Province"
  const LatitudeColumn: string := "Latitude"
  const LongitudeColumn: string := "Longitude"

  /** The four column names the upload insists on, in the order it reports them. */
  const RequiredColumns: seq<string> := [StoreNameColumn, ProvinceColumn, LatitudeColumn, LongitudeColumn]

  /** `row.key`: `None` stands for `undefined`. */
  function Field(row: Row, key: string): Option<Cell>
  {
    if key in row then Some(row[key]) else None
  }

  /** `a` is `b` with some elements dropped, the rest kept in order. */
  ghost predicate IsSubsequence<T>(a: seq<T>, b: seq<T>)
  {
    if a == [] then true
    else if b == [] then false
    else (a[0] == b[0] && IsSubsequence(a[1..], b[1..])) || IsSubsequence(a, b[1..])
  }

  /** The filter of `cols` by "the first row is missing or lacks this key"
      (`!json[0] || !(col in json[0])`). */
  function MissingFrom(cols: seq<string>, first: Option<Row>): (r: seq<string>)
    ensures forall c :: c in r <==> c in cols && (first.None? || c !in first.value)
    ensures IsSubsequence(r, cols)
    ensures |r| <= |cols|
  {
    if cols == [] then []
    else
      var rest := MissingFrom(cols[1..], first);
      if first.None? || cols[0] !in first.value then [cols[0]] + rest else rest
  }

  /** `missingColumns`: the required names absent from the keys of the first
      parsed row, in the order of `RequiredColumns`; with no rows, all of them. */
  function MissingColumns(json: seq<Row>): (r: seq<string>)
    ensures forall c :: c in r <==> c in RequiredColumns && (|json| == 0 || c !in json[0])
    ensures IsSubsequence(r, RequiredColumns)
    ensures |r| <= |RequiredColumns|
  {
    MissingFrom(RequiredColumns, if |json| == 0 then None else Some(json[0]))
  }

  /** An empty sheet misses all four columns, reported in their fixed order. */
  lemma EmptySheetMissesAll()
    ensures MissingColumns([]) == RequiredColumns
  {
    var first: Option<Row> := None;
    assert MissingFrom(RequiredColumns[3..], first) == [LongitudeColumn];
    assert MissingFrom(RequiredColumns[2..], first) == [LatitudeColumn, LongitudeColumn];
    assert MissingFrom(RequiredColumns[1..], first) == RequiredColumns[1..];
  }

  /** A first row carrying all four columns passes the check, whatever other
      columns it has and whatever the later rows hold. */
  lemma CompleteHeaderPasses(json: seq<Row>)
    requires |json| > 0
    requires forall c :: c in RequiredColumns ==> c in json[0]
    ensures MissingColumns(json) == []
  {
    var r := MissingColumns(json);
    assert forall i :: 0 <= i < |r| ==> r[i] in r;
  }
}
