/**
 * The download path of `handleDownloadExcel` (src/App.js:333-364): its
 * guards and the merge of the ledger onto the imported rows. Writing the
 * workbook is left to the codec.
 */
module Export {
  import opened Wrappers
  import opened Sheet
  import opened Ledger

  /** One element of `excelData.map(...)`: a row whose store has a ledger entry
      gets that entry's new coordinates, every other row is returned as is. */
  function MergeRow(row: Row, l: seq<EditEntry>): Row
  {
    match Find(l, Field(row, StoreNameColumn))
    case None => row
    case Some(e) => row[LatitudeColumn := Number(e.newPos.lat)][LongitudeColumn := Number(e.newPos.lng)]
  }

  /** `dataToExport`: the imported rows with the ledger merged on, one output
      row per input row, in the same order. Unmatched rows come back unchanged;
      a matched row differs only in `Latitude` and `Longitude`, which hold the
      entry's new position. */
  function Merge(rows: seq<Row>, l: seq<EditEntry>): (r: seq<Row>)
    ensures |r| == |rows|
    ensures forall i :: 0 <= i < |rows| && !Named(l, Field(rows[i], StoreNameColumn)) ==> r[i] == rows[i]
    ensures forall i :: 0 <= i < |rows| && Named(l, Field(rows[i], StoreNameColumn)) ==>
              var e := Find(l, Field(rows[i], StoreNameColumn)).value;
              && r[i].Keys == rows[i].Keys + {LatitudeColumn, LongitudeColumn}
              && r[i][LatitudeColumn] == Number(e.newPos.lat)
              && r[i][LongitudeColumn] == Number(e.newPos.lng)
              && forall k :: k in rows[i] && k != LatitudeColumn && k != LongitudeColumn ==> r[i][k] == rows[i][k]
  {
    seq(|rows|, i requires 0 <= i < |rows| => MergeRow(rows[i], l))
  }

  /** The merge never touches the `StoreName` column. */
  lemma MergeRowKeepsName(row: Row, l: seq<EditEntry>)
    ensures Field(MergeRow(row, l), StoreNameColumn) == Field(row, StoreNameColumn)
  {
    assert StoreNameColumn[0] != LatitudeColumn[0] && StoreNameColumn[0] != LongitudeColumn[0];
  }

  lemma MergeRowIdempotent(row: Row, l: seq<EditEntry>)
    ensures MergeRow(MergeRow(row, l), l) == MergeRow(row, l)
  {
    MergeRowKeepsName(row, l);
    var once := MergeRow(row, l);
    match Find(l, Field(row, StoreNameColumn))
    case None =>
    case Some(e) =>
      assert LatitudeColumn[1] != LongitudeColumn[1];
      assert once[LatitudeColumn := Number(e.newPos.lat)][LongitudeColumn := Number(e.newPos.lng)] == once;
  }

  /** Merging twice with the same ledger is merging once. */
  lemma MergeIdempotent(rows: seq<Row>, l: seq<EditEntry>)
    ensures Merge(Merge(rows, l), l) == Merge(rows, l)
  {
    var once := Merge(rows, l);
    forall i | 0 <= i < |rows| ensures Merge(once, l)[i] == once[i] {
      MergeRowIdempotent(rows[i], l);
    }
  }

  /** Every exported row still carries its store's name. */
  lemma MergeKeepsNames(rows: seq<Row>, l: seq<EditEntry>)
    ensures forall i :: 0 <= i < |rows| ==> Field(Merge(rows, l)[i], StoreNameColumn) == Field(rows[i], StoreNameColumn)
  {
    forall i | 0 <= i < |rows| ensures Field(Merge(rows, l)[i], StoreNameColumn) == Field(rows[i], StoreNameColumn) {
      MergeRowKeepsName(rows[i], l);
    }
  }

  /** Why a download is refused. */
  datatype ExportError = NoImportedData | NoEdits | CodecNotLoaded

  /** The guards of `handleDownloadExcel`, in the order the source checks them,
      then the rows handed to `json_to_sheet`. */
  function ExportRows(rows: seq<Row>, l: seq<EditEntry>, codecLoaded: bool): (r: Result<seq<Row>, ExportError>)
    ensures |rows| == 0 ==> r == Err(NoImportedData)
    ensures |rows| > 0 && |l| == 0 ==> r == Err(NoEdits)
    ensures |rows| > 0 && |l| > 0 && !codecLoaded ==> r == Err(CodecNotLoaded)
    ensures r.Ok? <==> |rows| > 0 && |l| > 0 && codecLoaded
    ensures r.Ok? ==> r.value == Merge(rows, l)
  {
    if |rows| == 0 then Err(NoImportedData)
    else if |l| == 0 then Err(NoEdits)
    else if !codecLoaded then Err(CodecNotLoaded)
    else Ok(Merge(rows, l))
  }
}
