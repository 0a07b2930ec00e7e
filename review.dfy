/**
 * The review workflow of the store location updater as a state machine on
 * values: what each event handler of src/App.js does to the rows, the
 * cursor, the edit ledger, the red (anchor) and green (candidate) marker
 * positions and the `isGreenMarkerMoved` flag.
 *
 * Each handler that changes the cursor, the rows or the map is followed by
 * the marker-position effect (src/App.js:181-226), which React runs after
 * every render in which one of those changed; `SyncMarkers` is that effect.
 */
module Review {
  import opened Wrappers
  import opened Sheet
  import opened Ledger
  import opened Export

  /** `parseFloat` applied to a cell: `None` where it yields NaN. */
  type Parser = Cell -> Option<Coord>

  /** The kind of the status line the user sees (its wording is not modelled). */
  datatype Status =
    | Blank
    | StoredEditsLoaded | StorageUnreadable
    | MapLoaded
    | Viewing(store: Option<Cell>) | InvalidCoordinates(store: Option<Cell>) | AllProcessed
    | ReaderMissing | FileUnreadable | ColumnsMissing(missing: seq<string>) | FileLoaded(count: nat)
    | NothingToSave | Saved(store: Option<Cell>)
    | MarkerMoved
    | EnterAddress | LocationFound | AddressNotFound
    | DownloadRefused(why: ExportError) | Downloaded

  /** The component's state. `red`/`green` are `redMarkerPosition` and
      `greenMarkerPosition` (`None` for `null`), `moved` is
      `isGreenMarkerMoved`, `mapReady` says that the map and its markers exist. */
  datatype State = State(
    rows: seq<Row>,
    cursor: nat,
    ledger: seq<EditEntry>,
    red: Option<Position>,
    green: Option<Position>,
    moved: bool,
    mapReady: bool,
    status: Status)

  /** The state on mount, before local storage is read. */
  const Initial: State := State([], 0, [], None, None, false, false, Blank)

  /** `parseFloat(row.key)`; a missing column parses to NaN. */
  function ParseField(parse: Parser, row: Row, key: string): Option<Coord>
  {
    match Field(row, key)
    case None => None
    case Some(c) => parse(c)
  }

  /** The position of a row when both of its coordinates parse. */
  function RecordPosition(parse: Parser, row: Row): (p: Option<Position>)
    ensures p.Some? <==> ParseField(parse, row, LatitudeColumn).Some? && ParseField(parse, row, LongitudeColumn).Some?
    ensures p.Some? ==> (p.value.lat == ParseField(parse, row, LatitudeColumn).value
                         && p.value.lng == ParseField(parse, row, LongitudeColumn).value)
  {
    match (ParseField(parse, row, LatitudeColumn), ParseField(parse, row, LongitudeColumn))
    case (Some(lat), Some(lng)) => Some(Position(lat, lng))
    case _ => None
  }

  /** There is a record under review. */
  predicate HasCurrent(s: State)
  {
    |s.rows| > 0 && s.cursor < |s.rows|
  }

  /** The markers are set together and only once the map exists. */
  predicate MarkersPaired(s: State)
  {
    && (s.red.Some? ==> s.green.Some?)
    && (!s.mapReady ==> s.red.None?)
  }

  /** The invariant of every reachable state: the cursor never runs past the
      end, and an anchor is shown only while a record is under review. */
  predicate Valid(s: State)
  {
    && MarkersPaired(s)
    && s.cursor <= |s.rows|
    && (s.red.Some? ==> s.cursor < |s.rows|)
  }

  lemma InitialIsValid()
    ensures Valid(Initial)
  {
  }

  /** The marker-position effect, run whenever the cursor, the rows or the map
      change. With a record under review whose coordinates parse, both markers
      go to its position and the moved flag is cleared; when they do not parse
      only the status changes; with no record under review both markers are
      hidden. Before the map exists the effect does nothing. */
  function SyncMarkers(s: State, parse: Parser): (r: State)
    ensures r.rows == s.rows && r.cursor == s.cursor && r.ledger == s.ledger && r.mapReady == s.mapReady
    ensures !s.mapReady ==> r == s
    ensures s.mapReady && HasCurrent(s) && RecordPosition(parse, s.rows[s.cursor]).Some? ==>
              r.red == r.green == RecordPosition(parse, s.rows[s.cursor]) && !r.moved
    ensures s.mapReady && HasCurrent(s) && RecordPosition(parse, s.rows[s.cursor]).None? ==>
              r == s.(status := InvalidCoordinates(Field(s.rows[s.cursor], StoreNameColumn)))
    ensures s.mapReady && !HasCurrent(s) ==>
              r.red.None? && r.green.None? && r.moved == s.moved
              && r.status == (if |s.rows| > 0 then AllProcessed else s.status)
    ensures MarkersPaired(s) && s.cursor <= |s.rows| ==> Valid(r)
  {
    if !s.mapReady then s
    else if HasCurrent(s) then
      var current := s.rows[s.cursor];
      var name := Field(current, StoreNameColumn);
      match RecordPosition(parse, current)
      case Some(p) => s.(red := Some(p), green := Some(p), moved := false, status := Viewing(name))
      case None => s.(status := InvalidCoordinates(name))
    else
      s.(red := None, green := None, status := if |s.rows| > 0 then AllProcessed else s.status)
  }

  /** How reading local storage on mount turned out. */
  datatype Stored = NothingStored | StoredUnreadable | StoredEntries(entries: seq<EditEntry>)

  /** Loading the ledger from local storage: a stored list replaces the
      ledger, a read or parse failure leaves it as it was (empty on mount). */
  function RestoreLedger(s: State, stored: Stored): (r: State)
    ensures r.(ledger := s.ledger, status := s.status) == s
    ensures r.ledger == if stored.StoredEntries? then stored.entries else s.ledger
    ensures Valid(s) ==> Valid(r)
  {
    match stored
    case NothingStored => s
    case StoredUnreadable => s.(status := StorageUnreadable)
    case StoredEntries(l) => s.(ledger := l, status := StoredEditsLoaded)
  }

  /** The map and its markers come into existence (once); the effect then runs. */
  function LoadMap(s: State, parse: Parser): (r: State)
    ensures r.mapReady
    ensures s.mapReady ==> r == s
    ensures r.rows == s.rows && r.cursor == s.cursor && r.ledger == s.ledger
    ensures Valid(s) ==> Valid(r)
  {
    if s.mapReady then s else SyncMarkers(s.(mapReady := true, status := MapLoaded), parse)
  }

  /** What reading the uploaded file produced. */
  datatype FileRead = CodecMissing | ReadFailed | Parsed(json: seq<Row>)

  /** `handleFileUpload` after the file is read: a sheet missing a required
      column empties the rows, one carrying all four replaces them; in both
      cases the cursor goes back to 0 and the effect runs. */
  function Upload(s: State, f: FileRead, parse: Parser): (r: State)
    ensures !f.Parsed? ==> r.(status := s.status) == s
    ensures f.Parsed? ==> r.cursor == 0 && r.ledger == s.ledger && r.mapReady == s.mapReady
    ensures f.Parsed? && |MissingColumns(f.json)| > 0 ==>
              r.rows == [] && r.status == ColumnsMissing(MissingColumns(f.json))
              && (s.mapReady ==> r.red.None? && r.green.None?)
    ensures f.Parsed? && |MissingColumns(f.json)| == 0 ==> r.rows == f.json
    ensures Valid(s) ==> Valid(r)
  {
    match f
    case CodecMissing => s.(status := ReaderMissing)
    case ReadFailed => s.(status := FileUnreadable)
    case Parsed(json) =>
      var missing := MissingColumns(json);
      if |missing| > 0 then
        SyncMarkers(s.(rows := [], cursor := 0, status := ColumnsMissing(missing)), parse)
      else
        SyncMarkers(s.(rows := json, cursor := 0, status := FileLoaded(|json|)), parse)
  }

  /** The entry Save & Next builds: the current row's name and province, the
      anchor as the old position, the candidate as the new one. */
  function EntryFor(current: Row, anchor: Position, candidate: Position): (e: EditEntry)
    ensures e.oldPos == anchor && e.newPos == candidate
    ensures e.storeName == Field(current, StoreNameColumn) && e.province == Field(current, ProvinceColumn)
  {
    EditEntry(Field(current, StoreNameColumn), Field(current, ProvinceColumn), anchor, candidate)
  }

  /** The guard of `handleSaveAndNext`. */
  predicate SaveGuard(s: State)
  {
    s.red.Some? && s.green.Some? && |s.rows| > 0
  }

  /** `handleSaveAndNext`. Past the guard it upserts the entry for the current
      row, clears the moved flag and advances the cursor; the effect then runs.
      (Were the cursor past the end, reading the current row would throw before
      any update; no valid state gets there.) */
  function SaveAndNext(s: State, parse: Parser): (r: State)
    ensures !SaveGuard(s) ==> r == s.(status := NothingToSave)
    ensures Valid(s) && SaveGuard(s) ==>
              && r.rows == s.rows
              && r.cursor == s.cursor + 1
              && !r.moved
              && r.ledger == Upsert(s.ledger, EntryFor(s.rows[s.cursor], s.red.value, s.green.value))
    ensures Valid(s) ==> Valid(r)
  {
    if !SaveGuard(s) then s.(status := NothingToSave)
    else if s.cursor >= |s.rows| then s
    else
      var e := EntryFor(s.rows[s.cursor], s.red.value, s.green.value);
      SyncMarkers(s.(ledger := Upsert(s.ledger, e), moved := false, cursor := s.cursor + 1, status := Saved(e.storeName)), parse)
  }

  /** Save & Next is shown only while the candidate has been moved. */
  predicate SaveShown(s: State)
  {
    s.moved
  }

  /** A click on Save & Next: the button exists only while the candidate has
      been moved, so a move that was never made cannot be confirmed; a shown
      button runs the handler. */
  function SaveClick(s: State, parse: Parser): (r: State)
    ensures !SaveShown(s) ==> r == s
    ensures SaveShown(s) ==> r == SaveAndNext(s, parse)
    ensures !SaveShown(s) ==> r.ledger == s.ledger && r.cursor == s.cursor
    ensures Valid(s) ==> Valid(r)
  {
    if SaveShown(s) then SaveAndNext(s, parse) else s
  }

  /** Skip & Next is shown while a record is under review and nothing is moved. */
  predicate SkipShown(s: State)
  {
    |s.rows| > 0 && s.cursor < |s.rows| && !s.moved
  }

  /** Skip & Next is enabled only before the last record. */
  predicate SkipEnabled(s: State)
  {
    !(s.cursor >= |s.rows| - 1)
  }

  /** A click on Skip & Next: only a shown and enabled button fires, and then the
      cursor advances by one and the effect runs. It never reaches the end of
      the rows, and it leaves rows and ledger alone. */
  function Skip(s: State, parse: Parser): (r: State)
    ensures !(SkipShown(s) && SkipEnabled(s)) ==> r == s
    ensures SkipShown(s) && SkipEnabled(s) ==> r.cursor == s.cursor + 1 && r.cursor < |r.rows|
    ensures r.rows == s.rows && r.ledger == s.ledger
    ensures Valid(s) ==> Valid(r)
  {
    if SkipShown(s) && SkipEnabled(s) then SyncMarkers(s.(cursor := s.cursor + 1), parse) else s
  }

  /** The green marker's `dragend` listener: the candidate moves to the drop
      position and is marked moved; the anchor and all else stay. */
  function DragEnd(s: State, p: Position): (r: State)
    ensures r.green == Some(p) && r.moved && SaveShown(r)
    ensures r.(green := s.green, moved := s.moved, status := s.status) == s
    ensures Valid(s) ==> Valid(r)
  {
    s.(green := Some(p), moved := true, status := MarkerMoved)
  }

  /** `handleSearchAddress` sends a geocode request only once the geocoder
      exists and the address is not empty. */
  predicate SearchSent(s: State, address: string)
  {
    s.mapReady && address != ""
  }

  /** `handleSearchAddress` itself: a refused search only sets the status. */
  function Search(s: State, address: string): (r: State)
    ensures SearchSent(s, address) ==> r == s
    ensures !SearchSent(s, address) ==> r == s.(status := EnterAddress)
  {
    if SearchSent(s, address) then s else s.(status := EnterAddress)
  }

  /** The geocoder's callback: a found location becomes the candidate and is
      marked moved, exactly like a drag; a failed lookup only sets the status. */
  function GeocodeDone(s: State, found: Option<Position>): (r: State)
    ensures found.Some? ==> r.green == found && r.moved && r.(green := s.green, moved := s.moved, status := s.status) == s
    ensures found.None? ==> r == s.(status := AddressNotFound)
    ensures Valid(s) ==> Valid(r)
  {
    match found
    case Some(p) => s.(green := Some(p), moved := true, status := LocationFound)
    case None => s.(status := AddressNotFound)
  }

  /** The Download button is shown only while the ledger is not empty. */
  predicate DownloadShown(s: State)
  {
    |s.ledger| > 0
  }

  /** `handleDownloadExcel`'s effect on the state: only the status changes. */
  function Download(s: State, codecLoaded: bool): (r: State)
    ensures r.(status := s.status) == s
    ensures r.status == (if ExportRows(s.rows, s.ledger, codecLoaded).Ok? then Downloaded
                         else DownloadRefused(ExportRows(s.rows, s.ledger, codecLoaded).error))
  {
    match ExportRows(s.rows, s.ledger, codecLoaded)
    case Ok(_) => s.(status := Downloaded)
    case Err(why) => s.(status := DownloadRefused(why))
  }

  /** Save & Next records the move: the ledger then answers the current store
      with an entry whose old position is the anchor and whose new position is
      the candidate; other stores' entries are untouched, and a ledger without
      duplicate names stays so. */
  lemma SaveRecordsMove(s: State, parse: Parser)
    requires Valid(s) && SaveGuard(s)
    ensures var r := SaveAndNext(s, parse);
            var name := Field(s.rows[s.cursor], StoreNameColumn);
            && Find(r.ledger, name) == Some(EditEntry(name, Field(s.rows[s.cursor], ProvinceColumn), s.red.value, s.green.value))
            && (forall n :: n != name ==> Find(r.ledger, n) == Find(s.ledger, n))
            && (UniqueNames(s.ledger) ==> UniqueNames(r.ledger))
            && |r.ledger| == if Named(s.ledger, name) then |s.ledger| else |s.ledger| + 1
  {
    var e := EntryFor(s.rows[s.cursor], s.red.value, s.green.value);
    UpsertLastWriteWins(s.ledger, e);
    forall n | n != e.storeName ensures Find(Upsert(s.ledger, e), n) == Find(s.ledger, n) {
      UpsertLeavesOtherNames(s.ledger, e, n);
    }
    if UniqueNames(s.ledger) {
      UpsertKeepsNamesUnique(s.ledger, e);
    }
  }

  /** Once every store has been processed, Save & Next and Skip & Next do
      nothing but set the status: the workflow is finished, though the ledger
      and the download stay available. */
  lemma FinishedIsTerminal(s: State, parse: Parser)
    requires Valid(s) && |s.rows| > 0 && s.cursor == |s.rows|
    ensures SaveAndNext(s, parse) == s.(status := NothingToSave)
    ensures Skip(s, parse) == s
    ensures !SkipShown(s)
  {
  }
}
