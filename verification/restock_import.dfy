/**
 `processUpdateRestockItems`: a restock file import. Rows name their product
 in the `product` column; rows the product cache knows are enriched in place,
 including the internal `productId`, and become the schedule's `initial`
 items.
 */
module RestockImport {
  import opened Wrappers
  import opened Records
  import opened Seqs
  import StockImport

  /** The payload sent to the product fetch. */
  datatype RestockQuery = RestockQuery(productIds: seq<string>, identificationTypeId: Option<string>)

  /** `rows` are the caller's rows after the in-place enrichment; `initial` is what is committed. */
  datatype RestockImport = RestockImport(query: RestockQuery, rows: seq<Row>, initial: seq<Row>)

  /** The `product` column of the rows. */
  function ProductColumn(items: seq<Row>): (c: seq<string>)
    ensures |c| == |items|
    ensures forall i :: 0 <= i < |items| ==> c[i] == items[i].product
  {
    seq(|items|, i requires 0 <= i < |items| => items[i].product)
  }

  /** `items.filter(item => item.product).map(item => item.product)` with the first row's type. */
  function RestockQueryOf(items: seq<Row>): (q: RestockQuery)
    ensures IsSubsequence(q.productIds, ProductColumn(items))
    ensures forall j :: 0 <= j < |q.productIds| ==> q.productIds[j] != ""
    ensures |q.productIds| == Count(ProductColumn(items), Truthy)
    ensures forall i :: 0 <= i < |items| && items[i].product != "" ==> items[i].product in q.productIds
    ensures q.identificationTypeId.Some? <==> |items| > 0
    ensures |items| > 0 ==> q.identificationTypeId.value == items[0].identificationTypeId
  {
    var column := ProductColumn(items);
    assert forall i :: 0 <= i < |items| ==> column[i] in column;
    RestockQuery(Filter(column, Truthy), StockImport.FirstIdentificationType(items))
  }

  /** A row is matched when the product cache has an entry for its `product`. */
  function RestockMatcher(products: map<string, Product>): Row -> bool
  {
    (row: Row) => row.product in products
  }

  /** The body of the `items.map` callback for one row. */
  function EnrichRestockRow(row: Row, products: map<string, Product>): (r: Row)
    ensures row.product in products ==>
              && ShowsProduct(r, products[row.product])
              && r.productId == products[row.product].productId
              && SameImportedColumns(r, row)
              && r.facilityId == row.facilityId
              && r.locationSeqId == row.locationSeqId
    ensures row.product !in products ==> r == row
  {
    if row.product in products then
      var p := products[row.product];
      WithProduct(row, p).(productId := p.productId)
    else row
  }

  /** Every row run through the `items.map` callback, in order. */
  function EnrichAll(items: seq<Row>, products: map<string, Product>): (rows: seq<Row>)
    ensures |rows| == |items|
    ensures forall i :: 0 <= i < |items| ==> rows[i] == EnrichRestockRow(items[i], products)
  {
    seq(|items|, i requires 0 <= i < |items| => EnrichRestockRow(items[i], products))
  }

  lemma MatchedRowsCarryProduct(items: seq<Row>, rows: seq<Row>, products: map<string, Product>)
    requires |rows| == |items|
    requires forall i :: 0 <= i < |items| ==> rows[i].product == items[i].product
    requires forall i :: 0 <= i < |items| && items[i].product in products ==>
               rows[i].isSelected == Some(true) && rows[i].productId == products[items[i].product].productId
    ensures forall x :: x in rows && x.product in products ==>
              x.isSelected == Some(true) && x.productId == products[x.product].productId
  {
    forall x | x in rows && x.product in products
      ensures x.isSelected == Some(true) && x.productId == products[x.product].productId
    {
      var i :| 0 <= i < |rows| && rows[i] == x;
      assert items[i].product == x.product;
    }
  }

  /**
   The restock import: matched rows gain the product's catalogue fields,
   its `productId` and the selection flag; unmatched rows are left as they
   were; `initial` is exactly the matched rows, in order.
   */
  function ProcessRestockItems(items: seq<Row>, products: map<string, Product>): (r: RestockImport)
    ensures r.query == RestockQueryOf(items)
    ensures |r.rows| == |items|
    ensures forall i :: 0 <= i < |items| && items[i].product in products ==>
              && ShowsProduct(r.rows[i], products[items[i].product])
              && r.rows[i].productId == products[items[i].product].productId
              && SameImportedColumns(r.rows[i], items[i])
              && r.rows[i].facilityId == items[i].facilityId
              && r.rows[i].locationSeqId == items[i].locationSeqId
    ensures forall i :: 0 <= i < |items| && items[i].product !in products ==> r.rows[i] == items[i]
    ensures IsSubsequence(r.initial, r.rows)
    ensures forall j :: 0 <= j < |r.initial| ==>
              && r.initial[j].product in products
              && r.initial[j].isSelected == Some(true)
              && r.initial[j].productId == products[r.initial[j].product].productId
    ensures |r.initial| == Count(r.rows, RestockMatcher(products))
    ensures forall i :: 0 <= i < |items| && items[i].product in products ==> r.rows[i] in r.initial
  {
    var rows := EnrichAll(items, products);
    var initial := Filter(rows, RestockMatcher(products));
    assert forall i :: 0 <= i < |items| ==> rows[i].product == items[i].product;
    MatchedRowsCarryProduct(items, rows, products);
    RestockImport(RestockQueryOf(items), rows, initial)
  }
}
