/** The product summary a serialized visit carries: for a product visit, the visited
    product's title, price text and the first image available. */
module VisitSerializers {
  import opened Wrappers
  import opened Numbers
  import opened Tables
  import opened Models

  datatype ProductCard = ProductCard(title: string, price: string, image: Option<string>)

  /** Product ids are primary keys. */
  predicate ProductIds(catalog: seq<Product>) {
    UniqueBy(catalog, (p: Product) => p.id)
  }

  /** The image of the summary: a non-empty direct image by its storage URL, else the
      image_path of the first related image when it has one, else none. */
  function CardImage(p: Product, url: string -> string): (r: Option<string>)
    ensures p.image.Some? && p.image.value != "" ==> r == Some(url(p.image.value))
    ensures !(p.image.Some? && p.image.value != "") && p.images.Some? && p.images.value != [] ==>
              r == p.images.value[0]
    ensures r.None? <==>
              (p.image.None? || p.image.value == "") &&
              (p.images.None? || p.images.value == [] || p.images.value[0].None?)
  {
    if p.image.Some? && p.image.value != "" then Some(url(p.image.value))
    else if p.images.Some? && |p.images.value| > 0 && p.images.value[0].Some? then p.images.value[0]
    else None
  }

  /** VisitSerializer.get_product. */
  function VisitProduct(catalog: seq<Product>, v: Visit, url: string -> string): (r: Option<ProductCard>)
    requires ProductIds(catalog)
    ensures v.itemType != ProductItem ==> r.None?
    ensures (forall p :: p in catalog ==> p.id != v.itemId) ==> r.None?
  {
    if v.itemType != ProductItem then None
    else
      GetByUniqueKey(catalog, (p: Product) => p.id, v.itemId);
      match Get(catalog, (p: Product) => p.id == v.itemId)
      case Found(i) =>
        var p := catalog[i];
        Some(ProductCard(p.title, DecimalText(p.price), CardImage(p, url)))
      case DoesNotExist =>
        assert forall j :: 0 <= j < |catalog| ==> catalog[j] in catalog;
        None
      case MultipleObjectsReturned => None
  }

  /** A product visit to a stored product summarises that product: its title, its price
      written as a decimal that reads back as the stored price, and its card image. */
  lemma {:induction false} VisitProductOfStored(catalog: seq<Product>, v: Visit, url: string -> string, i: nat)
    requires ProductIds(catalog) && i < |catalog|
    requires v.itemType == ProductItem && catalog[i].id == v.itemId
    ensures var r := VisitProduct(catalog, v, url);
            && r.Some?
            && r.value.title == catalog[i].title
            && ParseDecimal(r.value.price) == Some(catalog[i].price)
            && r.value.image == CardImage(catalog[i], url)
  {
    GetByUniqueKey(catalog, (p: Product) => p.id, v.itemId);
    assert Get(catalog, (p: Product) => p.id == v.itemId) == Found(i);
    DecimalTextRoundTrip(catalog[i].price);
  }
}
