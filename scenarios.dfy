/**
 * Concrete runs of the review workflow.
 */
module Scenarios {
  import opened Wrappers
  import opened Sheet
  import opened Ledger
  import opened Review
  import Controller

  /** `parseFloat` as it behaves on these sheets: numeric cells parse, text does not. */
  function NumericCells(c: Cell): Option<Coord>
  {
    if c.Number? then Some(c.value) else None
  }

  function Store(name: string, province: string, lat: Cell, lng: Cell): Row
  {
    map[StoreNameColumn := Text(name), ProvinceColumn := Text(province), LatitudeColumn := lat, LongitudeColumn := lng]
  }

  /** Three stores are imported, the first is dragged to a new place and saved:
      the ledger holds exactly that move and the cursor is on the second. */
  lemma SaveFirstStore()
    ensures var rows := [Store("A", "P1", Number(-26.1), Number(28.0)),
                         Store("B", "P2", Number(-25.7), Number(28.2)),
                         Store("C", "P3", Number(-29.8), Number(31.0))];
            var loaded := Upload(LoadMap(Initial, NumericCells), Parsed(rows), NumericCells);
            var saved := SaveAndNext(DragEnd(loaded, Position(-26.2, 28.1)), NumericCells);
            && loaded.cursor == 0
            && loaded.red == loaded.green == Some(Position(-26.1, 28.0))
            && saved.ledger == [EditEntry(Some(Text("A")), Some(Text("P1")), Position(-26.1, 28.0), Position(-26.2, 28.1))]
            && saved.cursor == 1
            && saved.red == saved.green == Some(Position(-25.7, 28.2))
  {
    var rows := [Store("A", "P1", Number(-26.1), Number(28.0)),
                 Store("B", "P2", Number(-25.7), Number(28.2)),
                 Store("C", "P3", Number(-29.8), Number(31.0))];
    CompleteHeaderPasses(rows);
  }

  /** Editing store A again on a later pass replaces its entry: the ledger
      keeps its length and holds only the newer move. */
  lemma ReEditReplaces()
    ensures var a := Store("A", "P1", Number(-26.1), Number(28.0));
            var first := EditEntry(Some(Text("A")), Some(Text("P1")), Position(-26.1, 28.0), Position(-26.2, 28.1));
            var s := State([a], 0, [first], Some(Position(-26.1, 28.0)), Some(Position(-26.3, 28.2)), true, true, MarkerMoved);
            var r := SaveAndNext(s, NumericCells);
            r.ledger == [EditEntry(Some(Text("A")), Some(Text("P1")), Position(-26.1, 28.0), Position(-26.3, 28.2))]
  {
  }

  /** A record whose latitude reads "N/A" is left on screen as it is (the
      markers keep their previous places and only the status changes), and
      Skip & Next moves past it. */
  lemma SkipUnresolvable()
    ensures var rows := [Store("A", "P1", Number(-26.1), Number(28.0)),
                         Store("B", "P2", Text("N/A"), Number(28.2)),
                         Store("C", "P3", Number(-29.8), Number(31.0))];
            var atA := State(rows, 0, [], Some(Position(-26.1, 28.0)), Some(Position(-26.1, 28.0)), false, true, Viewing(Some(Text("A"))));
            var atB := Skip(atA, NumericCells);
            var atC := Skip(atB, NumericCells);
            && atB == atA.(cursor := 1, status := InvalidCoordinates(Some(Text("B"))))
            && atC.cursor == 2
            && atC.red == Some(Position(-29.8, 31.0))
  {
  }

  /** When the last record cannot be resolved, the markers still show the
      previous record's places; moving the green marker and saving then records
      the previous record's anchor as the old position of this store. */
  lemma StaleAnchorOnUnresolvable()
    ensures var rows := [Store("A", "P1", Number(-26.1), Number(28.0)),
                         Store("B", "P2", Text("N/A"), Text("N/A"))];
            var atA := State(rows, 0, [], Some(Position(-26.1, 28.0)), Some(Position(-26.1, 28.0)), false, true, Viewing(Some(Text("A"))));
            var atB := SaveAndNext(DragEnd(atA, Position(-26.2, 28.1)), NumericCells);
            var done := SaveAndNext(DragEnd(atB, Position(-25.0, 27.0)), NumericCells);
            && atB.cursor == 1 && !SkipEnabled(atB)
            && Find(done.ledger, Some(Text("B"))) == Some(EditEntry(Some(Text("B")), Some(Text("P2")), Position(-26.1, 28.0), Position(-25.0, 27.0)))
  {
    var rows := [Store("A", "P1", Number(-26.1), Number(28.0)),
                 Store("B", "P2", Text("N/A"), Text("N/A"))];
    var atA := State(rows, 0, [], Some(Position(-26.1, 28.0)), Some(Position(-26.1, 28.0)), false, true, Viewing(Some(Text("A"))));
    var atB := SaveAndNext(DragEnd(atA, Position(-26.2, 28.1)), NumericCells);
    var savedA := EditEntry(Some(Text("A")), Some(Text("P1")), Position(-26.1, 28.0), Position(-26.2, 28.1));
    assert atB.ledger == [savedA];
    assert atB.red == Some(Position(-26.1, 28.0)) && atB.cursor == 1;
    var savedB := EditEntry(Some(Text("B")), Some(Text("P2")), Position(-26.1, 28.0), Position(-25.0, 27.0));
    var done := SaveAndNext(DragEnd(atB, Position(-25.0, 27.0)), NumericCells);
    assert done.ledger == [savedA, savedB];
    assert savedA.storeName != savedB.storeName;
    FirstIndexFound(done.ledger, savedB.storeName, 1);
    assert !SkipEnabled(atB);
  }

  /** A store reviewed through the object's handlers, using only their
      contracts: imported, moved, saved and downloaded. */
  method ReviewOneStore()
  {
    var rows := [Store("A", "P1", Number(-26.1), Number(28.0))];
    CompleteHeaderPasses(rows);
    var w := new Controller.Workflow(NumericCells);
    w.LoadMap();
    w.Upload(Parsed(rows));
    assert w.rows == rows && w.cursor == 0;
    assert w.red == Some(Position(-26.1, 28.0)) && w.ledger == [];
    var early := w.ClickSave();
    assert !early && w.ledger == [] && w.cursor == 0;
    w.DragEnd(Position(-26.2, 28.1));
    var fired := w.ClickSave();
    assert fired;
    assert w.cursor == 1 && w.red.None? && w.green.None?;
    assert w.ledger == [EditEntry(Some(Text("A")), Some(Text("P1")), Position(-26.1, 28.0), Position(-26.2, 28.1))];
    var out := w.Download(true);
    assert out.Ok? && |out.value| == 1;
  }
}
