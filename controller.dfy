/**
 * The component's state as an object whose event handlers update its fields
 * in place, each proved to perform the matching step of `Review`.
 */
module Controller {
  import opened Wrappers
  import opened Sheet
  import opened Ledger
  import opened Export
  import Review

  class Workflow {
    /** `parseFloat` on cell values. */
    const parse: Review.Parser

    var rows: seq<Row>               // excelData
    var cursor: nat                  // currentStoreIndex
    var ledger: seq<EditEntry>       // updatedStores
    var red: Option<Position>        // redMarkerPosition
    var green: Option<Position>      // greenMarkerPosition
    var moved: bool                  // isGreenMarkerMoved
    var mapReady: bool               // map, geocoder and markers exist
    var status: Review.Status        // message

    function Snapshot(): Review.State
      reads this
    {
      Review.State(rows, cursor, ledger, red, green, moved, mapReady, status)
    }

    ghost predicate Valid()
      reads this
    {
      Review.Valid(Snapshot())
    }

    /** The initial `useState` values. */
    constructor (parse: Review.Parser)
      ensures this.parse == parse
      ensures Snapshot() == Review.Initial && Valid()
    {
      this.parse := parse;
      rows, cursor, ledger := [], 0, [];
      red, green, moved := None, None, false;
      mapReady, status := false, Review.Blank;
    }

    /** The mount effect that reads `updatedStores` from local storage. */
    method RestoreLedger(stored: Review.Stored)
      requires Valid()
      modifies this
      ensures Valid()
      ensures Snapshot() == Review.RestoreLedger(old(Snapshot()), stored)
    {
      match stored
      case NothingStored =>
      case StoredUnreadable =>
        status := Review.StorageUnreadable;
      case StoredEntries(l) =>
        ledger := l;
        status := Review.StoredEditsLoaded;
    }

    /** The marker-position effect. */
    method SyncMarkers()
      requires Review.MarkersPaired(Snapshot()) && cursor <= |rows|
      modifies this
      ensures Valid()
      ensures Snapshot() == Review.SyncMarkers(old(Snapshot()), parse)
    {
      if !mapReady {
        return;
      }
      if |rows| > 0 && cursor < |rows| {
        var current := rows[cursor];
        var name := Field(current, StoreNameColumn);
        var lat := Review.ParseField(parse, current, LatitudeColumn);
        var lng := Review.ParseField(parse, current, LongitudeColumn);
        if lat.Some? && lng.Some? {
          var position := Position(lat.value, lng.value);
          red := Some(position);
          green := Some(position);
          moved := false;
          status := Review.Viewing(name);
        } else {
          status := Review.InvalidCoordinates(name);
        }
      } else {
        red := None;
        green := None;
        if |rows| > 0 {
          status := Review.AllProcessed;
        }
      }
    }

    /** `initMap` succeeding: the map, geocoder and markers now exist. */
    method LoadMap()
      requires Valid()
      modifies this
      ensures Valid()
      ensures Snapshot() == Review.LoadMap(old(Snapshot()), parse)
    {
      if !mapReady {
        mapReady := true;
        status := Review.MapLoaded;
        SyncMarkers();
      }
    }

    /** `handleFileUpload`, from the reader's `onload`. */
    method Upload(f: Review.FileRead)
      requires Valid()
      modifies this
      ensures Valid()
      ensures Snapshot() == Review.Upload(old(Snapshot()), f, parse)
    {
      match f
      case CodecMissing =>
        status := Review.ReaderMissing;
      case ReadFailed =>
        status := Review.FileUnreadable;
      case Parsed(json) =>
        var missing := MissingColumns(json);
        if |missing| > 0 {
          status := Review.ColumnsMissing(missing);
          rows := [];
          cursor := 0;
        } else {
          rows := json;
          cursor := 0;
          status := Review.FileLoaded(|json|);
        }
        SyncMarkers();
    }

    /** `handleSaveAndNext`: the replace-or-append is done on a copy of the
        ledger, as the updater passed to `setUpdatedStores` does. */
    method SaveAndNext()
      requires Valid()
      modifies this
      ensures Valid()
      ensures Snapshot() == Review.SaveAndNext(old(Snapshot()), parse)
    {
      if red.None? || green.None? || |rows| == 0 {
        status := Review.NothingToSave;
        return;
      }
      var current := rows[cursor];
      var entry := EditEntry(Field(current, StoreNameColumn), Field(current, ProvinceColumn), red.value, green.value);
      var existing := FindIndex(ledger, entry.storeName);
      if existing > -1 {
        ledger := ledger[existing := entry];
      } else {
        ledger := ledger + [entry];
      }
      status := Review.Saved(entry.storeName);
      moved := false;
      cursor := cursor + 1;
      SyncMarkers();
    }

    /** A click on Save & Next; `fired` says whether the button was shown, so
        that the handler ran. */
    method ClickSave() returns (fired: bool)
      requires Valid()
      modifies this
      ensures Valid()
      ensures fired == Review.SaveShown(old(Snapshot()))
      ensures Snapshot() == Review.SaveClick(old(Snapshot()), parse)
    {
      fired := moved;
      if fired {
        SaveAndNext();
      }
    }

    /** A click on Skip & Next; `fired` says whether the button was shown and
        enabled, so that the click did anything. */
    method Skip() returns (fired: bool)
      requires Valid()
      modifies this
      ensures Valid()
      ensures fired == (Review.SkipShown(old(Snapshot())) && Review.SkipEnabled(old(Snapshot())))
      ensures Snapshot() == Review.Skip(old(Snapshot()), parse)
    {
      var shown := |rows| > 0 && cursor < |rows| && !moved;
      var disabled := cursor >= |rows| - 1;
      fired := shown && !disabled;
      if fired {
        cursor := cursor + 1;
        SyncMarkers();
      }
    }

    /** The green marker's `dragend` listener. */
    method DragEnd(p: Position)
      requires Valid()
      modifies this
      ensures Valid()
      ensures Snapshot() == Review.DragEnd(old(Snapshot()), p)
    {
      green := Some(p);
      moved := true;
      status := Review.MarkerMoved;
    }

    /** `handleSearchAddress`; `sent` says whether a geocode request went out. */
    method Search(address: string) returns (sent: bool)
      requires Valid()
      modifies this
      ensures Valid()
      ensures sent == Review.SearchSent(old(Snapshot()), address)
      ensures Snapshot() == Review.Search(old(Snapshot()), address)
    {
      sent := mapReady && address != "";
      if !sent {
        status := Review.EnterAddress;
      }
    }

    /** The geocoder's callback. */
    method GeocodeDone(found: Option<Position>)
      requires Valid()
      modifies this
      ensures Valid()
      ensures Snapshot() == Review.GeocodeDone(old(Snapshot()), found)
    {
      if found.Some? {
        green := found;
        moved := true;
        status := Review.LocationFound;
      } else {
        status := Review.AddressNotFound;
      }
    }

    /** `handleDownloadExcel`: `out` is what goes to `json_to_sheet`, or why
        nothing is written. */
    method Download(codecLoaded: bool) returns (out: Result<seq<Row>, ExportError>)
      requires Valid()
      modifies this
      ensures Valid()
      ensures out == ExportRows(old(rows), old(ledger), codecLoaded)
      ensures Snapshot() == Review.Download(old(Snapshot()), codecLoaded)
    {
      if |rows| == 0 {
        out := Err(NoImportedData);
      } else if |ledger| == 0 {
        out := Err(NoEdits);
      } else if !codecLoaded {
        out := Err(CodecNotLoaded);
      } else {
        out := Ok(Merge(rows, ledger));
      }
      status := if out.Ok? then Review.Downloaded else Review.DownloadRefused(out.error);
    }
  }
}
