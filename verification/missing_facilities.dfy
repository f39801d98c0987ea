/**
 `updateMissingFacilities`: after an import, the user maps the external
 facility ids the directory did not know to facilities of their choice. Each
 parsed row whose external id is mapped is rewritten in place: it takes the
 chosen facility and that facility's default location, and its external id
 is blanked.

 The mapping object is given as its entries in `Object.keys` order;
 `locations` is what the location fetch returned for the mapped facilities.
 */
module MissingFacilities {
  import opened Wrappers
  import opened Records
  import opened Seqs
  import StockImport

  /** An entry of the mapping object: external facility id, chosen facility id. */
  datatype Entry = Entry(externalId: string, facilityId: string)

  /** `Object.keys(facilityMapping)` */
  function Keys(mapping: seq<Entry>): (keys: seq<string>)
    ensures |keys| == |mapping|
    ensures forall k :: 0 <= k < |mapping| ==> keys[k] == mapping[k].externalId
  {
    seq(|mapping|, k requires 0 <= k < |mapping| => mapping[k].externalId)
  }

  /**
   The state's parsed rows once the action has stopped, and the key being
   processed when it threw, if it did: reading the length of a location list
   the fetch did not return raises a TypeError, after the rows of earlier
   keys have already been rewritten.
   */
  datatype PatchOutcome = PatchOutcome(parsed: seq<Row>, failedAt: Option<string>)

  /** The first location's id, or `''` when the facility has none. */
  function DefaultLocation(list: seq<Location>): string
  {
    if |list| > 0 then list[0].locationSeqId else ""
  }

  /** The row as the patch for external id `key` leaves it. */
  function PatchRow(row: Row, key: string, facilityId: string, locationSeqId: string): Row
  {
    if row.externalFacilityId == key then
      row.(externalFacilityId := "", facilityId := Some(facilityId), locationSeqId := Some(locationSeqId))
    else row
  }

  /** `state.items.parsed.map(...)` for one key: every row offered the patch. */
  function PatchAll(rows: seq<Row>, key: string, facilityId: string, locationSeqId: string): (r: seq<Row>)
    ensures |r| == |rows|
    ensures forall i :: 0 <= i < |rows| ==> r[i] == PatchRow(rows[i], key, facilityId, locationSeqId)
  {
    seq(|rows|, i requires 0 <= i < |rows| => PatchRow(rows[i], key, facilityId, locationSeqId))
  }

  /** A row as the patch for `entry` rewrites it. */
  function Relocated(row: Row, entry: Entry, locations: map<string, seq<Location>>): Row
    requires entry.facilityId in locations
  {
    row.(externalFacilityId := "", facilityId := Some(entry.facilityId),
         locationSeqId := Some(DefaultLocation(locations[entry.facilityId])))
  }

  /**
   One row's fate on its own: offered the patch of every key in turn, up to
   the first key whose facility has no location list.
   */
  function PatchedRow(row: Row, mapping: seq<Entry>, locations: map<string, seq<Location>>): (r: Row)
    ensures SameExceptPlacement(r, row)
    decreases |mapping|
  {
    if |mapping| == 0 || mapping[0].facilityId !in locations then row
    else
      PatchedRow(PatchRow(row, mapping[0].externalId, mapping[0].facilityId,
                          DefaultLocation(locations[mapping[0].facilityId])),
                 mapping[1..], locations)
  }

  /** Two rows agree on everything but facility, location and external id. */
  predicate SameExceptPlacement(a: Row, b: Row)
  {
    && a.identification == b.identification
    && a.identificationTypeId == b.identificationTypeId
    && a.product == b.product
    && a.columns == b.columns
    && a.productId == b.productId
    && SameProductFields(a, b)
  }

  /** The first `k` entries all have locations, and entry `k` does not. */
  predicate FirstWithoutLocations(mapping: seq<Entry>, locations: map<string, seq<Location>>, k: int)
  {
    && 0 <= k < |mapping|
    && mapping[k].facilityId !in locations
    && forall j :: 0 <= j < k ==> mapping[j].facilityId in locations
  }

  /**
   The keys processed in order, each rewriting the rows that (now) carry it
   as their external id.
   */
  function UpdateMissingFacilities(rows: seq<Row>, mapping: seq<Entry>, locations: map<string, seq<Location>>)
    : (r: PatchOutcome)
    ensures |r.parsed| == |rows|
    ensures forall i :: 0 <= i < |rows| ==> SameExceptPlacement(r.parsed[i], rows[i])
    ensures forall i :: 0 <= i < |rows| && rows[i].externalFacilityId !in Keys(mapping) ==> r.parsed[i] == rows[i]
    ensures r.failedAt.None? <==> forall k :: 0 <= k < |mapping| ==> mapping[k].facilityId in locations
    ensures r.failedAt.Some? ==>
              exists k :: FirstWithoutLocations(mapping, locations, k) && r.failedAt.value == mapping[k].externalId
    ensures forall i :: 0 <= i < |rows| ==> r.parsed[i] == PatchedRow(rows[i], mapping, locations)
    decreases |mapping|
  {
    if |mapping| == 0 then PatchOutcome(rows, None)
    else
      var entry := mapping[0];
      if entry.facilityId !in locations then
        assert FirstWithoutLocations(mapping, locations, 0);
        PatchOutcome(rows, Some(entry.externalId))
      else
        var patched := PatchAll(rows, entry.externalId, entry.facilityId, DefaultLocation(locations[entry.facilityId]));
        var r := UpdateMissingFacilities(patched, mapping[1..], locations);
        assert forall k :: 1 <= k < |mapping| ==> mapping[1..][k - 1] == mapping[k];
        assert r.failedAt.Some? ==> exists k :: FirstWithoutLocations(mapping, locations, k) && r.failedAt.value == mapping[k].externalId by {
          if r.failedAt.Some? {
            var k :| FirstWithoutLocations(mapping[1..], locations, k) && r.failedAt.value == mapping[1..][k].externalId;
            assert FirstWithoutLocations(mapping, locations, k + 1);
          }
        }
        assert forall i :: 0 <= i < |rows| && rows[i].externalFacilityId !in Keys(mapping) ==>
                 rows[i].externalFacilityId !in Keys(mapping[1..]) && patched[i] == rows[i];
        r
  }

  /**
   When the action throws at key `k`, the rows carry the patches of all
   keys before `k`: exactly what running the action on those keys alone
   leaves.
   */
  lemma {:induction false} FailureKeepsEarlierPatches(
    rows: seq<Row>, mapping: seq<Entry>, locations: map<string, seq<Location>>, k: int)
    requires FirstWithoutLocations(mapping, locations, k)
    ensures var r := UpdateMissingFacilities(rows, mapping, locations);
            && r.failedAt == Some(mapping[k].externalId)
            && r.parsed == UpdateMissingFacilities(rows, mapping[..k], locations).parsed
    decreases |mapping|
  {
    if k == 0 {
      assert mapping[..0] == [];
    } else {
      var entry := mapping[0];
      var patched := PatchAll(rows, entry.externalId, entry.facilityId, DefaultLocation(locations[entry.facilityId]));
      assert forall j :: 1 <= j < |mapping| ==> mapping[1..][j - 1] == mapping[j];
      assert FirstWithoutLocations(mapping[1..], locations, k - 1);
      FailureKeepsEarlierPatches(patched, mapping[1..], locations, k - 1);
      assert mapping[..k][0] == entry && mapping[..k][1..] == mapping[1..][..k - 1];
    }
  }

  /**
   With distinct keys, none of them empty, and a location list for every
   chosen facility, each row whose external id is a key takes that key's
   facility and default location and has its external id blanked.
   */
  lemma {:induction false} PatchedRows(rows: seq<Row>, mapping: seq<Entry>, locations: map<string, seq<Location>>)
    requires NoDuplicates(Keys(mapping))
    requires "" !in Keys(mapping)
    requires forall k :: 0 <= k < |mapping| ==> mapping[k].facilityId in locations
    ensures var r := UpdateMissingFacilities(rows, mapping, locations);
            && r.failedAt == None
            && forall i, k :: 0 <= i < |rows| && 0 <= k < |mapping| && rows[i].externalFacilityId == mapping[k].externalId ==>
                 r.parsed[i] == rows[i].(externalFacilityId := "",
                                         facilityId := Some(mapping[k].facilityId),
                                         locationSeqId := Some(DefaultLocation(locations[mapping[k].facilityId])))
    decreases |mapping|
  {
    if |mapping| > 0 {
      var entry := mapping[0];
      var patched := PatchAll(rows, entry.externalId, entry.facilityId, DefaultLocation(locations[entry.facilityId]));
      var tail := mapping[1..];
      assert Keys(tail) == Keys(mapping)[1..];
      PatchedRows(patched, tail, locations);
      var r := UpdateMissingFacilities(rows, mapping, locations);
      assert r == UpdateMissingFacilities(patched, tail, locations);
      forall i, k | 0 <= i < |rows| && 0 <= k < |mapping| && rows[i].externalFacilityId == mapping[k].externalId
        ensures r.parsed[i] == rows[i].(externalFacilityId := "",
                                        facilityId := Some(mapping[k].facilityId),
                                        locationSeqId := Some(DefaultLocation(locations[mapping[k].facilityId])))
      {
        if k == 0 {
          assert patched[i].externalFacilityId == "";
          assert "" !in Keys(tail);
        } else {
          assert Keys(mapping)[0] != Keys(mapping)[k];
          assert patched[i] == rows[i];
          assert tail[k - 1] == mapping[k];
        }
      }
    }
  }

  /**
   Keys are processed one after the other over the same rows, so a later
   key `""` also matches the rows an earlier key has just blanked: the row
   of `EXT1` ends up with the facility chosen for `""`.
   */
  lemma EmptyKeyRepatches(row: Row)
    requires row.externalFacilityId == "EXT1"
    ensures var mapping := [Entry("EXT1", "FAC1"), Entry("", "FAC2")];
            var locations := map["FAC1" := [Location("LOC1")], "FAC2" := []];
            var r := UpdateMissingFacilities([row], mapping, locations);
            && r.failedAt == None
            && r.parsed == [row.(externalFacilityId := "", facilityId := Some("FAC2"), locationSeqId := Some(""))]
  {
    var mapping := [Entry("EXT1", "FAC1"), Entry("", "FAC2")];
    var locations := map["FAC1" := [Location("LOC1")], "FAC2" := []];
    var once := PatchAll([row], "EXT1", "FAC1", "LOC1");
    assert once == [row.(externalFacilityId := "", facilityId := Some("FAC1"), locationSeqId := Some("LOC1"))];
    var twice := PatchAll(once, "", "FAC2", "");
    assert mapping[1..] == [Entry("", "FAC2")] && mapping[1..][1..] == [];
    assert UpdateMissingFacilities(twice, [], locations).parsed == twice;
  }

  /**
   `state.items` once the action has stopped. The rows of `initial` are the
   very objects `parsed` holds (the stock import pushes the matched rows of
   `parsed` into `initial`), so the in-place rewrite reaches them as well;
   `original` is a JSON copy and keeps the rows as imported.
   */
  datatype BatchOutcome = BatchOutcome(items: StockImport.StockBatch, failedAt: Option<string>)

  function UpdateMissingFacilitiesInBatch(
    items: StockImport.StockBatch, mapping: seq<Entry>, locations: map<string, seq<Location>>)
    : (r: BatchOutcome)
    ensures var outcome := UpdateMissingFacilities(items.parsed, mapping, locations);
            r.items.parsed == outcome.parsed && r.failedAt == outcome.failedAt
    ensures r.items.original == items.original
    ensures |r.items.initial| == |items.initial|
    ensures forall j :: 0 <= j < |items.initial| ==>
              r.items.initial[j] == PatchedRow(items.initial[j], mapping, locations)
  {
    var outcome := UpdateMissingFacilities(items.parsed, mapping, locations);
    var initial := UpdateMissingFacilities(items.initial, mapping, locations).parsed;
    BatchOutcome(StockImport.StockBatch(outcome.parsed, items.original, initial), outcome.failedAt)
  }

  /**
   The patch never changes a row's identification, so a batch whose
   `initial` holds exactly the rows of `parsed` the product cache matches
   still does afterwards, whether or not the action threw.
   */
  lemma PatchKeepsInitialMatched(
    items: StockImport.StockBatch, mapping: seq<Entry>, locations: map<string, seq<Location>>,
    products: map<string, Product>)
    requires items.initial == Filter(items.parsed, StockImport.StockMatcher(products))
    ensures var r := UpdateMissingFacilitiesInBatch(items, mapping, locations);
            r.items.initial == Filter(r.items.parsed, StockImport.StockMatcher(products))
  {
    var r := UpdateMissingFacilitiesInBatch(items, mapping, locations);
    var keep := StockImport.StockMatcher(products);
    var f := (row: Row) => PatchedRow(row, mapping, locations);
    assert forall x :: keep(f(x)) == keep(x) by {
      forall x ensures keep(f(x)) == keep(x) {
        assert SameExceptPlacement(f(x), x);
      }
    }
    FilterMapped(items.parsed, r.items.parsed, f, keep);
  }

  /** A row whose external id is no key is left as it is. */
  lemma {:induction false} UnkeyedRowUntouched(row: Row, mapping: seq<Entry>, locations: map<string, seq<Location>>)
    requires row.externalFacilityId !in Keys(mapping)
    ensures PatchedRow(row, mapping, locations) == row
    decreases |mapping|
  {
    if |mapping| > 0 && mapping[0].facilityId in locations {
      assert Keys(mapping[1..]) == Keys(mapping)[1..];
      assert Keys(mapping)[0] == mapping[0].externalId;
      UnkeyedRowUntouched(row, mapping[1..], locations);
    }
  }

  /** A row with a blank external id takes the facility chosen for the key `""`. */
  lemma {:induction false} BlankRowTakesEmptyKey(
    row: Row, mapping: seq<Entry>, locations: map<string, seq<Location>>, e: nat)
    requires row.externalFacilityId == ""
    requires NoDuplicates(Keys(mapping))
    requires forall k :: 0 <= k < |mapping| ==> mapping[k].facilityId in locations
    requires e < |mapping| && mapping[e].externalId == ""
    ensures PatchedRow(row, mapping, locations) == Relocated(row, mapping[e], locations)
    decreases |mapping|
  {
    var tail := mapping[1..];
    assert Keys(tail) == Keys(mapping)[1..];
    var patched := PatchRow(row, mapping[0].externalId, mapping[0].facilityId,
                            DefaultLocation(locations[mapping[0].facilityId]));
    if e == 0 {
      assert "" !in Keys(tail) by {
        forall j | 0 <= j < |tail| ensures Keys(tail)[j] != "" {
          assert Keys(mapping)[j + 1] != Keys(mapping)[0];
        }
      }
      UnkeyedRowUntouched(patched, tail, locations);
    } else {
      assert Keys(mapping)[0] != Keys(mapping)[e];
      assert tail[e - 1] == mapping[e];
      BlankRowTakesEmptyKey(row, tail, locations, e - 1);
    }
  }

  /**
   A row carrying key `k` takes `k`'s facility, unless the key `""` comes
   later: the row, blanked by `k`, is then rewritten again by `""`.
   */
  lemma {:induction false} KeyedRowOutcome(
    row: Row, mapping: seq<Entry>, locations: map<string, seq<Location>>, k: nat)
    requires NoDuplicates(Keys(mapping))
    requires forall j :: 0 <= j < |mapping| ==> mapping[j].facilityId in locations
    requires k < |mapping| && row.externalFacilityId == mapping[k].externalId
    ensures (forall e :: k < e < |mapping| ==> mapping[e].externalId != "") ==>
              PatchedRow(row, mapping, locations) == Relocated(row, mapping[k], locations)
    ensures forall e :: k < e < |mapping| && mapping[e].externalId == "" ==>
              PatchedRow(row, mapping, locations) == Relocated(row, mapping[e], locations)
    decreases |mapping|
  {
    var tail := mapping[1..];
    assert Keys(tail) == Keys(mapping)[1..];
    assert forall j :: 0 <= j < |tail| ==> tail[j] == mapping[j + 1];
    var patched := PatchRow(row, mapping[0].externalId, mapping[0].facilityId,
                            DefaultLocation(locations[mapping[0].facilityId]));
    if k == 0 {
      assert patched == Relocated(row, mapping[0], locations);
      forall e | 0 < e < |mapping| && mapping[e].externalId == ""
        ensures PatchedRow(row, mapping, locations) == Relocated(row, mapping[e], locations)
      {
        BlankRowTakesEmptyKey(patched, tail, locations, e - 1);
      }
      if forall e :: 0 < e < |mapping| ==> mapping[e].externalId != "" {
        assert "" !in Keys(tail) by {
          forall j | 0 <= j < |tail| ensures Keys(tail)[j] != "" {
            assert tail[j] == mapping[j + 1];
          }
        }
        UnkeyedRowUntouched(patched, tail, locations);
      }
    } else {
      assert Keys(mapping)[0] != Keys(mapping)[k];
      assert patched == row;
      KeyedRowOutcome(row, tail, locations, k - 1);
    }
  }

  /**
   With distinct keys, a location list for every chosen facility, and the
   key `""` at position `e`: a row whose external id is `""` or a key before
   `e` ends with the facility chosen for `""`; a row whose key comes after
   `e` ends with its own key's facility.
   */
  lemma EmptyKeyRepatchesEarlierRows(
    rows: seq<Row>, mapping: seq<Entry>, locations: map<string, seq<Location>>, e: nat)
    requires NoDuplicates(Keys(mapping))
    requires forall k :: 0 <= k < |mapping| ==> mapping[k].facilityId in locations
    requires e < |mapping| && mapping[e].externalId == ""
    ensures var r := UpdateMissingFacilities(rows, mapping, locations);
            && r.failedAt == None
            && (forall i, k :: 0 <= i < |rows| && 0 <= k <= e && rows[i].externalFacilityId == mapping[k].externalId ==>
                  r.parsed[i] == Relocated(rows[i], mapping[e], locations))
            && (forall i, k :: 0 <= i < |rows| && e < k < |mapping| && rows[i].externalFacilityId == mapping[k].externalId ==>
                  r.parsed[i] == Relocated(rows[i], mapping[k], locations))
  {
    var r := UpdateMissingFacilities(rows, mapping, locations);
    forall i, k | 0 <= i < |rows| && 0 <= k < |mapping| && rows[i].externalFacilityId == mapping[k].externalId
      ensures k <= e ==> r.parsed[i] == Relocated(rows[i], mapping[e], locations)
      ensures e < k ==> r.parsed[i] == Relocated(rows[i], mapping[k], locations)
    {
      KeyedRowOutcome(rows[i], mapping, locations, k);
      forall e' | k < e' < |mapping| && e' != e ensures mapping[e'].externalId != "" {
        assert Keys(mapping)[e'] != Keys(mapping)[e];
      }
      if k == e {
        forall e' | k < e' < |mapping| ensures mapping[e'].externalId != "" {
          assert Keys(mapping)[e'] != Keys(mapping)[e];
        }
      }
    }
  }
}
