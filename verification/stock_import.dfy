/**
 `processUpdateStockItems`: a stock-count file import. The rows are enriched
 in place with their default location and, when the product cache knows
 their identification, with the product's catalogue fields; the action then
 stores `parsed`, `original` and `initial`.

 The store's product fetch, facility fetch and location getter are inputs:
 `products` is what the product fetch returned for the query built here,
 `locations` is the location getter's table.
 */
module StockImport {
  import opened Wrappers
  import opened Records
  import opened Seqs
  import Facilities

  /** The payload sent to the product fetch. */
  datatype ProductQuery = ProductQuery(
    viewSize: nat,
    viewIndex: nat,
    productIds: seq<string>,
    identificationTypeId: Option<string>)

  /** What the action commits to the stock state. */
  datatype StockBatch = StockBatch(parsed: seq<Row>, original: seq<Row>, initial: seq<Row>)

  datatype StockImport = StockImport(query: ProductQuery, facilityIds: seq<string>, batch: StockBatch)

  /**
   Length of `items.slice(0, end)`: an unset end takes everything, a
   negative end counts back from the end of the array.
   */
  function SliceEnd(length: nat, end: Option<int>): nat
  {
    match end
    case None => length
    case Some(e) =>
      if e < 0 then (if length + e < 0 then 0 else length + e)
      else if e < length then e
      else length
  }

  /** `items[0]?.identificationTypeId` */
  function FirstIdentificationType(items: seq<Row>): Option<string>
  {
    if |items| == 0 then None else Some(items[0].identificationTypeId)
  }

  /**
   The product query: the identifications of the first `viewSize` rows, with
   the page size set to how many were taken.
   */
  function StockQuery(items: seq<Row>, viewSize: Option<int>): (q: ProductQuery)
    ensures |q.productIds| <= |items|
    ensures forall i :: 0 <= i < |q.productIds| ==> q.productIds[i] == items[i].identification
    ensures viewSize.None? ==> |q.productIds| == |items|
    ensures viewSize.Some? && 0 <= viewSize.value ==>
              |q.productIds| == if viewSize.value < |items| then viewSize.value else |items|
    ensures q.viewSize == |q.productIds| && q.viewIndex == 0
    ensures q.identificationTypeId.Some? <==> |items| > 0
    ensures |items| > 0 ==> q.identificationTypeId.value == items[0].identificationTypeId
  {
    var n := SliceEnd(|items|, viewSize);
    var productIds := seq(n, i requires 0 <= i < n => items[i].identification);
    ProductQuery(|productIds|, 0, productIds, FirstIdentificationType(items))
  }

  /** A row is matched when the product cache has an entry for its identification. */
  function StockMatcher(products: map<string, Product>): Row -> bool
  {
    (row: Row) => row.identification in products
  }

  /** The body of the `items.map` callback for one row. */
  function EnrichStockRow(row: Row, location: Option<string>, products: map<string, Product>): (r: Row)
    ensures SameImportedColumns(r, row) && r.facilityId == row.facilityId && r.productId == row.productId
    ensures r.locationSeqId == location
    ensures row.identification in products ==> ShowsProduct(r, products[row.identification])
    ensures row.identification !in products ==> SameProductFields(r, row)
  {
    var located := row.(locationSeqId := location);
    if row.identification in products then WithProduct(located, products[row.identification])
    else located
  }

  /** Every row run through the `items.map` callback, in order. */
  function EnrichAll(items: seq<Row>, locationOf: string -> Option<string>, products: map<string, Product>)
    : (parsed: seq<Row>)
    ensures |parsed| == |items|
    ensures forall i :: 0 <= i < |items| ==>
              parsed[i] == EnrichStockRow(items[i], locationOf(items[i].externalFacilityId), products)
  {
    seq(|items|, i requires 0 <= i < |items| =>
          EnrichStockRow(items[i], locationOf(items[i].externalFacilityId), products))
  }

  /**
   The join of the rows against the product cache, given the location each
   external facility id yields. Every row lands in `parsed`, matched or
   not; `initial` keeps exactly the matched rows, in order; `original` is a
   copy of the rows taken after enrichment.
   */
  function Reconcile(items: seq<Row>, locationOf: string -> Option<string>, products: map<string, Product>)
    : (b: StockBatch)
    ensures |b.parsed| == |items|
    ensures forall i :: 0 <= i < |items| ==>
              && SameImportedColumns(b.parsed[i], items[i])
              && b.parsed[i].facilityId == items[i].facilityId
              && b.parsed[i].productId == items[i].productId
    ensures forall i :: 0 <= i < |items| ==> b.parsed[i].locationSeqId == locationOf(items[i].externalFacilityId)
    ensures forall i :: 0 <= i < |items| && items[i].identification in products ==>
              ShowsProduct(b.parsed[i], products[items[i].identification])
    ensures forall i :: 0 <= i < |items| && items[i].identification !in products ==>
              SameProductFields(b.parsed[i], items[i])
    ensures b.original == b.parsed
    ensures IsSubsequence(b.initial, b.parsed)
    ensures forall j :: 0 <= j < |b.initial| ==>
              b.initial[j].identification in products && b.initial[j].isSelected == Some(true)
    ensures |b.initial| == Count(b.parsed, StockMatcher(products))
    ensures forall i :: 0 <= i < |items| && items[i].identification in products ==> b.parsed[i] in b.initial
  {
    var parsed := EnrichAll(items, locationOf, products);
    var initial := Filter(parsed, StockMatcher(products));
    assert forall i :: 0 <= i < |items| ==> SameImportedColumns(parsed[i], items[i]);
    assert forall i :: 0 <= i < |items| && items[i].identification in products ==>
             ShowsProduct(parsed[i], products[items[i].identification]);
    MatchedRowsSelected(items, parsed, products);
    StockBatch(parsed, parsed, initial)
  }

  lemma MatchedRowsSelected(items: seq<Row>, rows: seq<Row>, products: map<string, Product>)
    requires |rows| == |items|
    requires forall i :: 0 <= i < |items| ==> SameImportedColumns(rows[i], items[i])
    requires forall i :: 0 <= i < |items| && items[i].identification in products ==>
               ShowsProduct(rows[i], products[items[i].identification])
    ensures forall x :: x in rows && x.identification in products ==> x.isSelected == Some(true)
  {
    forall x | x in rows && x.identification in products
      ensures x.isSelected == Some(true)
    {
      var i :| 0 <= i < |rows| && rows[i] == x;
      assert items[i].identification == x.identification;
    }
  }

  /**
   `processUpdateStockItems` as written: the default location of a row is
   looked up under its EXTERNAL facility id.
   */
  function ProcessStockItems(
    items: seq<Row>,
    viewSize: Option<int>,
    facilities: seq<Facility>,
    locations: map<string, seq<Location>>,
    products: map<string, Product>): (r: StockImport)
    ensures r.query == StockQuery(items, viewSize)
    ensures r.facilityIds == Facilities.FacilityIds(items, facilities)
    ensures |r.batch.parsed| == |items|
    ensures forall i :: 0 <= i < |items| ==>
              r.batch.parsed[i].locationSeqId == FirstLocation(locations, items[i].externalFacilityId)
  {
    StockImport(
      StockQuery(items, viewSize),
      Facilities.FacilityIds(items, facilities),
      Reconcile(items, ext => FirstLocation(locations, ext), products))
  }

  /**
   The import with the default location looked up under the facility id the
   row's external id resolves to, the key the location table is filled
   under.
   */
  function ProcessStockItemsByFacility(
    items: seq<Row>,
    viewSize: Option<int>,
    facilities: seq<Facility>,
    locations: map<string, seq<Location>>,
    products: map<string, Product>): (r: StockImport)
    ensures r.query == StockQuery(items, viewSize)
    ensures r.facilityIds == Facilities.FacilityIds(items, facilities)
    ensures |r.batch.parsed| == |items|
    ensures forall i :: 0 <= i < |items| ==>
              var mapping := Facilities.FacilityMapping(facilities);
              var ext := items[i].externalFacilityId;
              r.batch.parsed[i].locationSeqId ==
                if ext in mapping then FirstLocation(locations, mapping[ext]) else None
  {
    var mapping := Facilities.FacilityMapping(facilities);
    StockImport(
      StockQuery(items, viewSize),
      Facilities.FacilityIds(items, facilities),
      Reconcile(items, ext => if ext in mapping then FirstLocation(locations, mapping[ext]) else None, products))
  }

  /** A row of the example import: identification `P1` at external facility `EXT1`. */
  function ExampleRow(): Row
  {
    Row("P1", "SKU", "EXT1", "", map[], None, None, None, None, None, None, None, None)
  }

  function ExampleProducts(): map<string, Product>
  {
    map["P1" := Product(None, Some("SKU1"), None, None)]
  }

  /**
   With the directory mapping `EXT1` to `FAC1` and the location table filled
   under `FAC1`, the import as written matches the product but finds no
   location: the lookup uses `EXT1`.
   */
  lemma ExternalKeyMissesLocation()
    ensures var r := ProcessStockItems([ExampleRow()], None, [Facility("FAC1", "EXT1")],
                                       map["FAC1" := [Location("LOC1")]], ExampleProducts());
            && r.batch.parsed[0].pseudoId == Some("SKU1")
            && r.batch.parsed[0].locationSeqId == None
  {
  }

  /** The same import keyed by the resolved facility id finds `LOC1`. */
  lemma FacilityKeyFindsLocation()
    ensures var r := ProcessStockItemsByFacility([ExampleRow()], None, [Facility("FAC1", "EXT1")],
                                                 map["FAC1" := [Location("LOC1")]], ExampleProducts());
            && r.batch.parsed[0].pseudoId == Some("SKU1")
            && r.batch.parsed[0].locationSeqId == Some("LOC1")
  {
    var facilities := [Facility("FAC1", "EXT1")];
    assert Facilities.IsLastWithExternalId(facilities, 0);
  }

  /**
   With an empty product cache nothing is selected, and every parsed row is
   its input row with only the location rewritten.
   */
  lemma EmptyCacheSelectsNothing(items: seq<Row>, viewSize: Option<int>, facilities: seq<Facility>,
                                 locations: map<string, seq<Location>>)
    ensures var r := ProcessStockItems(items, viewSize, facilities, locations, map[]);
            && r.batch.initial == []
            && forall i :: 0 <= i < |items| ==>
                 r.batch.parsed[i] == items[i].(locationSeqId := FirstLocation(locations, items[i].externalFacilityId))
  {
  }
}
