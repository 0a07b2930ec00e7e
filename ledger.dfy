/**
 * The edit ledger `updatedStores`: a list of confirmed corrections keyed by
 * `StoreName`, and the replace-or-append update that `handleSaveAndNext`
 * passes to `setUpdatedStores` (src/App.js:310-323).
 */
module Ledger {
  import opened Wrappers
  import opened Sheet

  /** One confirmed correction. `storeName` and `province` are copied from the
      current row and are `None` where that row lacks the column. */
  datatype EditEntry = EditEntry(storeName: Option<Cell>, province: Option<Cell>, oldPos: Position, newPos: Position)

  /** Some entry carries this store name (`===` on cell values, and
      `undefined === undefined`). */
  predicate Named(l: seq<EditEntry>, name: Option<Cell>)
  {
    exists j :: 0 <= j < |l| && l[j].storeName == name
  }

  /** At most one entry per store name. */
  predicate UniqueNames(l: seq<EditEntry>)
  {
    forall i, j :: 0 <= i < j < |l| ==> l[i].storeName != l[j].storeName
  }

  /** `findIndex` by store name: the first matching index, or -1. */
  function FindIndex(l: seq<EditEntry>, name: Option<Cell>): (k: int)
    ensures -1 <= k < |l|
    ensures k == -1 <==> !Named(l, name)
    ensures 0 <= k ==> l[k].storeName == name && forall j :: 0 <= j < k ==> l[j].storeName != name
  {
    if |l| == 0 then -1
    else if l[0].storeName == name then 0
    else
      var k := FindIndex(l[1..], name);
      if k == -1 then -1 else k + 1
  }

  /** The first index that carries a name is the one `FindIndex` reports. */
  lemma FirstIndexFound(l: seq<EditEntry>, name: Option<Cell>, i: nat)
    requires i < |l| && l[i].storeName == name
    requires forall j :: 0 <= j < i ==> l[j].storeName != name
    ensures FindIndex(l, name) == i
  {
    var k := FindIndex(l, name);
    assert Named(l, name);
    assert k >= i;
  }

  /** `find` by store name: the first matching entry, if any. */
  function Find(l: seq<EditEntry>, name: Option<Cell>): (r: Option<EditEntry>)
    ensures r.None? <==> !Named(l, name)
    ensures r.Some? ==> r.value in l && r.value.storeName == name
    ensures r.Some? ==> exists k :: 0 <= k < |l| && l[k] == r.value && forall j :: 0 <= j < k ==> l[j].storeName != name
    ensures r.Some? && UniqueNames(l) ==> forall j :: 0 <= j < |l| && l[j].storeName == name ==> l[j] == r.value
  {
    var k := FindIndex(l, name);
    if k >= 0 then Some(l[k]) else None
  }

  /** The updater passed to `setUpdatedStores`: an entry with the same store
      name is overwritten in place, otherwise the new entry is appended. */
  function Upsert(l: seq<EditEntry>, e: EditEntry): (r: seq<EditEntry>)
    ensures Named(l, e.storeName) ==> |r| == |l|
    ensures forall k :: 0 <= k < |l| && l[k].storeName == e.storeName && (forall j :: 0 <= j < k ==> l[j].storeName != e.storeName) ==> r == l[k := e]
    ensures !Named(l, e.storeName) ==> r == l + [e]
  {
    var k := FindIndex(l, e.storeName);
    if k >= 0 then l[k := e] else l + [e]
  }

  /** Upsert keeps the ledger free of duplicate store names. */
  lemma UpsertKeepsNamesUnique(l: seq<EditEntry>, e: EditEntry)
    requires UniqueNames(l)
    ensures UniqueNames(Upsert(l, e))
  {
    var k := FindIndex(l, e.storeName);
    var r := Upsert(l, e);
    if k >= 0 {
      assert r == l[k := e];
    } else {
      assert r == l + [e];
      forall i, j | 0 <= i < j < |r| ensures r[i].storeName != r[j].storeName {
        if j == |l| {
          assert r[i] == l[i];
        }
      }
    }
  }

  /** Last write wins: after an upsert the ledger answers the saved name with
      exactly the entry just saved. */
  lemma UpsertLastWriteWins(l: seq<EditEntry>, e: EditEntry)
    ensures Find(Upsert(l, e), e.storeName) == Some(e)
  {
    var k := FindIndex(l, e.storeName);
    var r := Upsert(l, e);
    if k >= 0 {
      assert r == l[k := e];
      assert forall j :: 0 <= j < k ==> r[j] == l[j];
      FirstIndexFound(r, e.storeName, k);
    } else {
      assert r == l + [e];
      assert forall j :: 0 <= j < |l| ==> r[j] == l[j];
      FirstIndexFound(r, e.storeName, |l|);
    }
  }

  /** Lookups of every other name are unaffected by an upsert. */
  lemma UpsertLeavesOtherNames(l: seq<EditEntry>, e: EditEntry, name: Option<Cell>)
    requires name != e.storeName
    ensures Find(Upsert(l, e), name) == Find(l, name)
  {
    var k := FindIndex(l, e.storeName);
    var r := Upsert(l, e);
    var i := FindIndex(l, name);
    if k >= 0 {
      assert r == l[k := e];
      assert forall j :: 0 <= j < |l| && j != k ==> r[j] == l[j];
      if i >= 0 {
        assert FindIndex(r, name) == i;
      } else {
        assert !Named(r, name);
      }
    } else {
      assert r == l + [e];
      assert forall j :: 0 <= j < |l| ==> r[j] == l[j];
      if i >= 0 {
        assert FindIndex(r, name) == i;
      } else {
        assert !Named(r, name);
      }
    }
  }

  /** A run of saves, oldest first. */
  function UpsertAll(l: seq<EditEntry>, es: seq<EditEntry>): seq<EditEntry>
  {
    if |es| == 0 then l else Upsert(UpsertAll(l, es[..|es| - 1]), es[|es| - 1])
  }

  /** The last entry of `es` saved under `name`. */
  function LastNamed(es: seq<EditEntry>, name: Option<Cell>): (r: Option<EditEntry>)
    ensures r.None? <==> forall j :: 0 <= j < |es| ==> es[j].storeName != name
    ensures r.Some? ==> exists k :: 0 <= k < |es| && es[k] == r.value && r.value.storeName == name
                                    && forall j :: k < j < |es| ==> es[j].storeName != name
  {
    if |es| == 0 then None
    else if es[|es| - 1].storeName == name then Some(es[|es| - 1])
    else LastNamed(es[..|es| - 1], name)
  }

  /** However many saves happen, starting from a ledger without duplicates,
      the ledger never holds two entries for one store. */
  lemma {:induction false} UpsertAllKeepsNamesUnique(l: seq<EditEntry>, es: seq<EditEntry>)
    requires UniqueNames(l)
    ensures UniqueNames(UpsertAll(l, es))
    decreases |es|
  {
    if |es| > 0 {
      UpsertAllKeepsNamesUnique(l, es[..|es| - 1]);
      UpsertKeepsNamesUnique(UpsertAll(l, es[..|es| - 1]), es[|es| - 1]);
    }
  }

  /** After a run of saves, each store saved in the run is answered with the
      last entry saved for it; every other store keeps its earlier answer. */
  lemma {:induction false} UpsertAllLastWriteWins(l: seq<EditEntry>, es: seq<EditEntry>, name: Option<Cell>)
    ensures Find(UpsertAll(l, es), name) == if LastNamed(es, name).Some? then LastNamed(es, name) else Find(l, name)
    decreases |es|
  {
    if |es| > 0 {
      var last := es[|es| - 1];
      var before := UpsertAll(l, es[..|es| - 1]);
      if last.storeName == name {
        UpsertLastWriteWins(before, last);
      } else {
        UpsertLeavesOtherNames(before, last, name);
        UpsertAllLastWriteWins(l, es[..|es| - 1], name);
      }
    }
  }
}
