/**
 Facility resolution shared by both import actions: the imported rows name
 facilities by their external id; the directory maps external ids to the
 internal facility ids whose locations the store can fetch.
 */
module Facilities {
  import opened Records
  import opened Seqs

  /** `facilities[i]` is the last facility in the list carrying its (truthy) external id. */
  predicate IsLastWithExternalId(facilities: seq<Facility>, i: int)
    requires 0 <= i < |facilities|
  {
    && facilities[i].externalId != ""
    && forall j :: i < j < |facilities| ==> facilities[j].externalId != facilities[i].externalId
  }

  /**
   The `reduce` over the facility directory: facilities without an external
   id are skipped, and a repeated external id is overwritten, so the last
   facility carrying it wins.
   */
  function FacilityMapping(facilities: seq<Facility>): (m: map<string, string>)
    ensures forall f :: f in facilities && f.externalId != "" ==> f.externalId in m
    ensures forall i :: 0 <= i < |facilities| && IsLastWithExternalId(facilities, i) ==>
              m[facilities[i].externalId] == facilities[i].facilityId
    ensures forall k :: k in m ==> k != "" && exists f :: f in facilities && f.externalId == k && f.facilityId == m[k]
    decreases |facilities|
  {
    if |facilities| == 0 then map[]
    else
      var front := facilities[..|facilities| - 1];
      var last := facilities[|facilities| - 1];
      assert facilities == front + [last];
      var m := FacilityMapping(front);
      assert forall i :: 0 <= i < |front| && IsLastWithExternalId(facilities, i) ==>
               IsLastWithExternalId(front, i) && facilities[i] == front[i];
      if last.externalId != "" then m[last.externalId := last.facilityId] else m
  }

  /** The `externalFacilityId` column of the rows. */
  function ExternalColumn(rows: seq<Row>): (c: seq<string>)
    ensures |c| == |rows|
    ensures forall i :: 0 <= i < |rows| ==> c[i] == rows[i].externalFacilityId
  {
    seq(|rows|, i requires 0 <= i < |rows| => rows[i].externalFacilityId)
  }

  /** `[...new Set(items.map(item => item.externalFacilityId))]` */
  function ExternalFacilityIds(rows: seq<Row>): (ids: seq<string>)
    ensures NoDuplicates(ids)
    ensures forall x :: x in ids ==> exists i :: 0 <= i < |rows| && rows[i].externalFacilityId == x
    ensures forall i :: 0 <= i < |rows| ==> rows[i].externalFacilityId in ids
    ensures forall x :: x in ids ==> x in ExternalColumn(rows)
    ensures forall i, j :: 0 <= i < j < |ids| ==>
              IndexOf(ExternalColumn(rows), ids[i]) < IndexOf(ExternalColumn(rows), ids[j])
  {
    var column := ExternalColumn(rows);
    var ids := Distinct(column);
    assert forall i :: 0 <= i < |rows| ==> column[i] in column;
    ids
  }

  /** `facilityMapping[externalFacilityId]` for each id; `undefined` becomes `""`, equally falsy. */
  function Lookups(ids: seq<string>, mapping: map<string, string>): (r: seq<string>)
    ensures |r| == |ids|
    ensures forall i :: 0 <= i < |ids| ==> r[i] == if ids[i] in mapping then mapping[ids[i]] else ""
  {
    seq(|ids|, i requires 0 <= i < |ids| => if ids[i] in mapping then mapping[ids[i]] else "")
  }

  /** Some row's external id maps to `id` in `mapping`. */
  ghost predicate ResolvedFromRows(rows: seq<Row>, mapping: map<string, string>, id: string)
  {
    exists i :: 0 <= i < |rows| && rows[i].externalFacilityId in mapping && mapping[rows[i].externalFacilityId] == id
  }

  /**
   The `facilityIds` both import actions compute: each distinct external id
   of the rows mapped through the directory, unresolved ones dropped, in the
   order the external ids first occur.
   */
  function FacilityIds(rows: seq<Row>, facilities: seq<Facility>): (ids: seq<string>)
    ensures |ids| <= |ExternalFacilityIds(rows)|
    ensures IsSubsequence(ids, Lookups(ExternalFacilityIds(rows), FacilityMapping(facilities)))
    ensures forall id :: id in ids ==> id != ""
    ensures |ids| == Count(Lookups(ExternalFacilityIds(rows), FacilityMapping(facilities)), Truthy)
  {
    Filter(Lookups(ExternalFacilityIds(rows), FacilityMapping(facilities)), Truthy)
  }

  /** Membership in the filtered lookups, independent of where the ids come from. */
  lemma ResolvedLookups(ext: seq<string>, m: map<string, string>)
    ensures forall id :: id in Filter(Lookups(ext, m), Truthy) <==>
              id != "" && exists k :: k in ext && k in m && m[k] == id
  {
    var looked := Lookups(ext, m);
    forall id | id in Filter(looked, Truthy)
      ensures exists k :: k in ext && k in m && m[k] == id
    {
      var i :| 0 <= i < |looked| && looked[i] == id;
      assert ext[i] in m;
    }
    forall id | id != "" && exists k :: k in ext && k in m && m[k] == id
      ensures id in Filter(looked, Truthy)
    {
      var k :| k in ext && k in m && m[k] == id;
      var i :| 0 <= i < |ext| && ext[i] == k;
      assert looked[i] == id;
    }
  }

  /**
   An id is resolved exactly when it is non-empty and some row's external id
   maps to it; every resolved id belongs to a facility of the directory that
   has an external id.
   */
  lemma FacilityIdsResolve(rows: seq<Row>, facilities: seq<Facility>)
    ensures forall id :: id in FacilityIds(rows, facilities) <==>
              id != "" && ResolvedFromRows(rows, FacilityMapping(facilities), id)
  {
    var m := FacilityMapping(facilities);
    var ext := ExternalFacilityIds(rows);
    ResolvedLookups(ext, m);
    forall id | id != "" && ResolvedFromRows(rows, m, id)
      ensures exists k :: k in ext && k in m && m[k] == id
    {
      var i :| 0 <= i < |rows| && rows[i].externalFacilityId in m && m[rows[i].externalFacilityId] == id;
      assert rows[i].externalFacilityId in ext;
    }
    forall id | id != "" && (exists k :: k in ext && k in m && m[k] == id)
      ensures ResolvedFromRows(rows, m, id)
    {
      var k :| k in ext && k in m && m[k] == id;
      var i :| 0 <= i < |rows| && rows[i].externalFacilityId == k;
    }
  }

  /** Every resolved id is the id of a directory facility that has an external id. */
  lemma FacilityIdsFromDirectory(rows: seq<Row>, facilities: seq<Facility>)
    ensures forall id :: id in FacilityIds(rows, facilities) ==>
              exists f :: f in facilities && f.externalId != "" && f.facilityId == id
  {
    var m := FacilityMapping(facilities);
    FacilityIdsResolve(rows, facilities);
    forall id | id in FacilityIds(rows, facilities)
      ensures exists f :: f in facilities && f.externalId != "" && f.facilityId == id
    {
      var i :| 0 <= i < |rows| && rows[i].externalFacilityId in m && m[rows[i].externalFacilityId] == id;
      var f :| f in facilities && f.externalId == rows[i].externalFacilityId && f.facilityId == id;
      assert f.externalId in m.Keys;
    }
  }

  /**
   When no two facilities with different external ids share a facility id,
   the resolved ids are free of duplicates.
   */
  lemma FacilityIdsDistinct(rows: seq<Row>, facilities: seq<Facility>)
    requires forall f, g :: (f in facilities && g in facilities && f.externalId != "" && g.externalId != ""
                             && f.externalId != g.externalId) ==> f.facilityId != g.facilityId
    ensures NoDuplicates(FacilityIds(rows, facilities))
  {
    var m := FacilityMapping(facilities);
    var ext := ExternalFacilityIds(rows);
    var looked := Lookups(ext, m);
    forall i, j | 0 <= i < j < |looked| && Truthy(looked[i]) && Truthy(looked[j])
      ensures looked[i] != looked[j]
    {
      assert ext[i] != ext[j];
      var f :| f in facilities && f.externalId == ext[i] && f.facilityId == m[ext[i]];
      var g :| g in facilities && g.externalId == ext[j] && g.facilityId == m[ext[j]];
    }
    FilterNoDuplicates(looked, Truthy);
  }

  /**
   Two external ids mapped to the same facility both resolve to it:
   `facilityIds` may hold duplicates.
   */
  lemma FacilityIdsMayRepeat(rows: seq<Row>, facilities: seq<Facility>)
    requires facilities == [Facility("F1", "E1"), Facility("F1", "E2")]
    requires rows == [ImportedRow("E1"), ImportedRow("E2")]
    ensures FacilityIds(rows, facilities) == ["F1", "F1"]
  {
    TwoExternalIds(rows);
    var m := FacilityMapping(facilities);
    assert "E1" in m && m["E1"] == "F1" by {
      assert IsLastWithExternalId(facilities, 0);
    }
    assert "E2" in m && m["E2"] == "F1" by {
      assert IsLastWithExternalId(facilities, 1);
    }
    LookupsOfTwo(["E1", "E2"], m);
    assert Filter(["F1", "F1"], Truthy) == ["F1", "F1"] by {
      assert ["F1"][1..] == [];
      assert Filter(["F1"], Truthy) == ["F1"];
      assert ["F1", "F1"][1..] == ["F1"];
    }
  }

  lemma TwoExternalIds(rows: seq<Row>)
    requires rows == [ImportedRow("E1"), ImportedRow("E2")]
    ensures ExternalFacilityIds(rows) == ["E1", "E2"]
  {
    assert ExternalColumn(rows) == ["E1", "E2"];
    DistinctOfTwo();
  }

  lemma DistinctOfTwo()
    ensures Distinct(["E1", "E2"]) == ["E1", "E2"]
  {
    assert ["E1"][..0] == [];
    assert Distinct(["E1"]) == ["E1"];
    assert ["E1", "E2"][..1] == ["E1"];
  }

  lemma LookupsOfTwo(ext: seq<string>, m: map<string, string>)
    requires ext == ["E1", "E2"]
    requires "E1" in m && m["E1"] == "F1" && "E2" in m && m["E2"] == "F1"
    ensures Lookups(ext, m) == ["F1", "F1"]
  {
  }

  /** A bare imported row naming only its external facility. */
  function ImportedRow(externalFacilityId: string): Row
  {
    Row("", "", externalFacilityId, "", map[], Wrappers.None, Wrappers.None, Wrappers.None,
        Wrappers.None, Wrappers.None, Wrappers.None, Wrappers.None, Wrappers.None)
  }
}
