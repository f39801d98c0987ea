/**
 The plain objects the stock actions exchange with the rest of the store:
 imported CSV rows, cached products, facilities and facility locations.

 A JavaScript field that may be missing is an `Option`; assigning `undefined`
 to a field is assigning `None`. The text columns a row always carries are
 `string`s, an absent one being `""` (both are falsy).
 */
module Records {
  import opened Wrappers

  /** One imported stock-count or restock row, before or after enrichment. */
  datatype Row = Row(
    // columns read from the file
    identification: string,
    identificationTypeId: string,
    externalFacilityId: string,
    product: string,
    columns: map<string, string>,   // quantities and every other column the actions never touch
    // fields the actions write
    facilityId: Option<string>,
    locationSeqId: Option<string>,
    productId: Option<string>,
    parentProductId: Option<string>,
    pseudoId: Option<string>,
    parentProductName: Option<string>,
    imageUrl: Option<string>,
    isSelected: Option<bool>)

  datatype ProductParent = ProductParent(id: Option<string>, productName: Option<string>)

  datatype ProductImages = ProductImages(mainImageUrl: Option<string>)

  /** A cached product, as returned by the product module's fetch. */
  datatype Product = Product(
    productId: Option<string>,
    pseudoId: Option<string>,
    parent: Option<ProductParent>,
    images: Option<ProductImages>)

  datatype Facility = Facility(facilityId: string, externalId: string)

  datatype Location = Location(locationSeqId: string)

  /** JavaScript truthiness of a text value: only the empty string is falsy. */
  predicate Truthy(s: string)
  {
    s != ""
  }

  /** `product?.parent?.id` */
  function ParentId(p: Product): Option<string>
  {
    match p.parent
    case None => None
    case Some(parent) => parent.id
  }

  /** `product?.parent?.productName` */
  function ParentName(p: Product): Option<string>
  {
    match p.parent
    case None => None
    case Some(parent) => parent.productName
  }

  /** `product.images?.mainImageUrl` */
  function MainImageUrl(p: Product): Option<string>
  {
    match p.images
    case None => None
    case Some(images) => images.mainImageUrl
  }

  /** The row still carries the columns it was imported with. */
  predicate SameImportedColumns(a: Row, b: Row)
  {
    && a.identification == b.identification
    && a.identificationTypeId == b.identificationTypeId
    && a.externalFacilityId == b.externalFacilityId
    && a.product == b.product
    && a.columns == b.columns
  }

  /** The fields a product match writes are equal in both rows. */
  predicate SameProductFields(a: Row, b: Row)
  {
    && a.parentProductId == b.parentProductId
    && a.pseudoId == b.pseudoId
    && a.parentProductName == b.parentProductName
    && a.imageUrl == b.imageUrl
    && a.isSelected == b.isSelected
  }

  /** The row shows product `p`'s catalogue fields and is selected. */
  predicate ShowsProduct(row: Row, p: Product)
  {
    && row.parentProductId == ParentId(p)
    && row.pseudoId == p.pseudoId
    && row.parentProductName == ParentName(p)
    && row.imageUrl == MainImageUrl(p)
    && row.isSelected == Some(true)
  }

  /**
   The in-place assignments a matched row receives from its product
   (the `if (product)` branch of both import actions).
   */
  function WithProduct(row: Row, p: Product): (r: Row)
    ensures ShowsProduct(r, p)
    ensures SameImportedColumns(r, row)
    ensures r.facilityId == row.facilityId && r.locationSeqId == row.locationSeqId
    ensures r.productId == row.productId
  {
    row.(parentProductId := ParentId(p),
         pseudoId := p.pseudoId,
         parentProductName := ParentName(p),
         imageUrl := MainImageUrl(p),
         isSelected := Some(true))
  }

  /** The first location listed for `key`, if the lookup yields a non-empty list. */
  function FirstLocation(locations: map<string, seq<Location>>, key: string): (r: Option<string>)
    ensures r.Some? <==> key in locations && |locations[key]| > 0
    ensures r.Some? ==> r.value == locations[key][0].locationSeqId
  {
    if key in locations && |locations[key]| > 0 then Some(locations[key][0].locationSeqId) else None
  }
}
