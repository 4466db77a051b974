/** The product endpoints: the listing with its optional filters, the latest products,
    retrieval by slug or id, the status change, and the related products. */
module ProductViews {
  import opened Wrappers
  import opened Text
  import opened Numbers
  import opened Tables
  import opened Requests
  import opened Models

  /** Why a request fails: the lookup found nothing (404), or an exception the view
      does not catch ends in a server error (500). */
  datatype Fault = NotFound | ServerError

  // ----- ProductPagination -----

  const DefaultPageSize: nat := 10
  const PageSizeParam: string := "page_size"
  const MaxPageSize: nat := 100

  /** The page size for a request: a positive integer in `page_size`, capped at the
      maximum; the default when it is missing, not an integer, zero or negative. */
  function PageSize(q: Params): (n: nat)
    ensures 1 <= n <= MaxPageSize
    ensures (PageSizeParam !in q || ParseInt(q[PageSizeParam]).None?) ==> n == DefaultPageSize
    ensures PageSizeParam in q && ParseInt(q[PageSizeParam]).Some? ==>
              var v := ParseInt(q[PageSizeParam]).value;
              n == if v <= 0 then DefaultPageSize else if v > MaxPageSize then MaxPageSize else v
  {
    match Param(q, PageSizeParam)
    case None => DefaultPageSize
    case Some(t) =>
      match ParseInt(t)
      case None => DefaultPageSize
      case Some(v) => if v <= 0 then DefaultPageSize else if v > MaxPageSize then MaxPageSize else v
  }

  /** A client asking for n rows per page, written as decimal text, gets n up to the cap. */
  lemma {:induction false} PageSizeRequested(q: Params, n: nat)
    requires PageSizeParam in q && q[PageSizeParam] == IntText(n) && n >= 1
    ensures PageSize(q) == if n > MaxPageSize then MaxPageSize else n
  {
    ParseIntText(n);
  }

  /** The first page of a listing. */
  function FirstPage(items: seq<Product>, q: Params): (page: seq<Product>)
    ensures |page| <= PageSize(q) && |page| <= |items| && page == items[..|page|]
    ensures |items| <= PageSize(q) ==> page == items
  {
    Take(items, PageSize(q))
  }

  // ----- orderBy -----

  /** The product columns a listing can be ordered by. */
  datatype Column = Id | Title | Description | Price | Slug | Status | Date

  /** A column and a direction ('-' in front of the name means descending). */
  datatype Ordering = Ordering(column: Column, descending: bool)

  function ColumnNamed(name: string): Option<Column> {
    if name == "id" || name == "pk" then Some(Id)
    else if name == "title" then Some(Title)
    else if name == "description" then Some(Description)
    else if name == "price" then Some(Price)
    else if name == "slug" then Some(Slug)
    else if name == "status" then Some(Status)
    else if name == "date" then Some(Date)
    else None
  }

  /** order_by's argument; None is the FieldError an unknown name raises. */
  function ParseOrdering(t: string): (r: Option<Ordering>)
    ensures r.Some? && !r.value.descending ==> ColumnNamed(t) == Some(r.value.column)
    ensures r.Some? && r.value.descending ==>
              |t| >= 1 && t[0] == '-' && ColumnNamed(t[1..]) == Some(r.value.column)
    ensures (t == [] || t[0] != '-') && ColumnNamed(t).Some? ==> r == Some(Ordering(ColumnNamed(t).value, false))
    ensures t != [] && t[0] == '-' && ColumnNamed(t[1..]).Some? ==>
              r == Some(Ordering(ColumnNamed(t[1..]).value, true))
  {
    if t != [] && t[0] == '-' then
      match ColumnNamed(t[1..])
      case Some(c) => Some(Ordering(c, true))
      case None => None
    else
      match ColumnNamed(t)
      case Some(c) => Some(Ordering(c, false))
      case None => None
  }

  /** Ascending order of one column. */
  predicate ColumnLe(c: Column, a: Product, b: Product) {
    match c
    case Id => a.id <= b.id
    case Title => StrLe(a.title, b.title)
    case Description => StrLe(a.description, b.description)
    case Price => DecimalLe(a.price, b.price)
    case Slug => StrLe(a.slug, b.slug)
    case Status => StrLe(a.status, b.status)
    case Date => a.date <= b.date
  }

  function OrderingLe(o: Ordering): (Product, Product) -> bool {
    (a: Product, b: Product) => if o.descending then ColumnLe(o.column, b, a) else ColumnLe(o.column, a, b)
  }

  lemma {:induction false} ColumnTotal(c: Column, a: Product, b: Product)
    ensures ColumnLe(c, a, b) || ColumnLe(c, b, a)
  {
    match c
    case Title => StrLeTotal(a.title, b.title);
    case Description => StrLeTotal(a.description, b.description);
    case Price => DecimalLeTotal(a.price, b.price);
    case Slug => StrLeTotal(a.slug, b.slug);
    case Status => StrLeTotal(a.status, b.status);
    case _ =>
  }

  lemma {:induction false} ColumnTransitive(c: Column, a: Product, b: Product, d: Product)
    requires ColumnLe(c, a, b) && ColumnLe(c, b, d)
    ensures ColumnLe(c, a, d)
  {
    match c
    case Title => StrLeTransitive(a.title, b.title, d.title);
    case Description => StrLeTransitive(a.description, b.description, d.description);
    case Price => DecimalLeTransitive(a.price, b.price, d.price);
    case Slug => StrLeTransitive(a.slug, b.slug, d.slug);
    case Status => StrLeTransitive(a.status, b.status, d.status);
    case _ =>
  }

  /** Every orderBy value orders by a sort key: ties allowed, nothing contradictory. */
  lemma {:induction false} OrderingIsPreorder(o: Ordering)
    ensures TotalPreorder(OrderingLe(o))
  {
    var le := OrderingLe(o);
    forall a, b ensures le(a, b) || le(b, a) {
      ColumnTotal(o.column, a, b);
    }
    forall a, b, d | le(a, b) && le(b, d) ensures le(a, d) {
      if o.descending {
        ColumnTransitive(o.column, d, b, a);
      } else {
        ColumnTransitive(o.column, a, b, d);
      }
    }
  }

  /** Newest first: the order of order_by('-date'). */
  function NewestFirst(): (Product, Product) -> bool {
    (a: Product, b: Product) => a.date >= b.date
  }

  lemma {:induction false} NewestFirstIsPreorder()
    ensures TotalPreorder(NewestFirst())
  {
    var le := NewestFirst();
    assert forall a, b :: le(a, b) <==> a.date >= b.date;
  }

  // ----- the listing query -----

  /** A comma-separated list of ids; None when a piece is not an integer (the
      ValueError the ORM raises when it converts the ids). */
  function IdsOf(pieces: seq<string>): (r: Option<seq<int>>)
    ensures r.Some? <==> forall k :: 0 <= k < |pieces| ==> ParseInt(pieces[k]).Some?
    ensures r.Some? ==> |r.value| == |pieces|
                        && forall k :: 0 <= k < |pieces| ==> Some(r.value[k]) == ParseInt(pieces[k])
  {
    if pieces == [] then Some([])
    else
      match ParseInt(pieces[0])
      case None => None
      case Some(v) =>
        match IdsOf(pieces[1..])
        case None => None
        case Some(rest) => Some([v] + rest)
  }

  function ParseIds(text: string): Option<seq<int>> {
    IdsOf(Split(text, ','))
  }

  /** The listing's parameters once read: None where a filter is not applied. */
  datatype Query = Query(ordering: Option<Ordering>, categories: Option<seq<int>>,
                         locations: Option<seq<int>>, minPrice: Option<Decimal>,
                         maxPrice: Option<Decimal>, status: Option<string>,
                         search: Option<string>)

  /** orderBy is applied when it has a non-blank value; the value itself, unstripped,
      names the column. */
  function ParseOrderBy(value: Option<string>): Result<Option<Ordering>, Fault> {
    match value
    case None => Ok(None)
    case Some(t) =>
      if Strip(t) == "" then Ok(None)
      else
        match ParseOrdering(t)
        case None => Err(ServerError)
        case Some(o) => Ok(Some(o))
  }

  /** An id list applies when its parameter is non-empty; a bad id is a server error. */
  function ParseIdParam(value: Option<string>): Result<Option<seq<int>>, Fault> {
    match value
    case None => Ok(None)
    case Some(t) =>
      match ParseIds(t)
      case None => Err(ServerError)
      case Some(ids) => Ok(Some(ids))
  }

  /** A price bound applies only when float() accepts it; otherwise it is dropped. */
  function ParseBound(value: Option<string>): Option<Decimal> {
    match value
    case None => None
    case Some(t) => ParseDecimal(t)
  }

  /** The query from the parameter values the view reads. */
  function QueryOf(orderBy: Option<string>, categories: Option<string>, locations: Option<string>,
                   minPrice: Option<string>, maxPrice: Option<string>, status: Option<string>,
                   search: Option<string>): Result<Query, Fault> {
    match ParseOrderBy(orderBy)
    case Err(f) => Err(f)
    case Ok(ordering) =>
      match ParseIdParam(categories)
      case Err(f) => Err(f)
      case Ok(categoryIds) =>
        match ParseIdParam(locations)
        case Err(f) => Err(f)
        case Ok(locationIds) =>
          Ok(Query(ordering, categoryIds, locationIds, ParseBound(minPrice), ParseBound(maxPrice),
                   status, search))
  }

  function ParseQuery(q: Params): Result<Query, Fault> {
    QueryOf(Param(q, "orderBy"), NonEmptyParam(q, "categories"), NonEmptyParam(q, "locations"),
            NonEmptyParam(q, "minPrice"), NonEmptyParam(q, "maxPrice"),
            NonEmptyParam(q, "status"), NonEmptyParam(q, "query"))
  }

  predicate CategoryOk(ids: Option<seq<int>>, p: Product) {
    ids.None? || exists c :: c in p.categories && c in ids.value
  }

  /** `known` is the set of ids of stored locations the listed ids resolve to. */
  predicate LocationOk(ids: Option<seq<int>>, known: set<nat>, p: Product) {
    ids.None? || (p.location.Some? && p.location.value in ids.value && p.location.value in known)
  }

  predicate MinPriceOk(bound: Option<Decimal>, p: Product) {
    bound.None? || DecimalLe(bound.value, p.price)
  }

  predicate MaxPriceOk(bound: Option<Decimal>, p: Product) {
    bound.None? || DecimalLe(p.price, bound.value)
  }

  /** An explicit status is matched exactly; without one, Deleted products are hidden. */
  predicate StatusOk(status: Option<string>, p: Product) {
    if status.Some? then p.status == status.value else p.status != Deleted
  }

  predicate SearchOk(search: Option<string>, p: Product) {
    search.None?
    || ContainsIgnoringCase(p.title, search.value)
    || ContainsIgnoringCase(p.description, search.value)
  }

  /** A product the query selects: every filter, taken on its own, lets it through. */
  predicate Matches(query: Query, known: set<nat>, p: Product) {
    && CategoryOk(query.categories, p)
    && LocationOk(query.locations, known, p)
    && MinPriceOk(query.minPrice, p)
    && MaxPriceOk(query.maxPrice, p)
    && StatusOk(query.status, p)
    && SearchOk(query.search, p)
  }

  /** One conditional narrowing step: `keep` applied when `apply` holds. */
  function Step(s: seq<Product>, apply: bool, keep: Product -> bool): (r: seq<Product>)
    ensures forall x :: multiset(r)[x] == if !apply || keep(x) then multiset(s)[x] else 0
  {
    if apply then Filter(s, keep) else s
  }

  /** The queryset after each narrowing step, in the order the view applies them. */
  function Narrow(catalog: seq<Product>, known: set<nat>, query: Query): seq<Product> {
    var ordered := if query.ordering.Some? then SortBy(catalog, OrderingLe(query.ordering.value)) else catalog;
    var byCategory := Step(ordered, query.categories.Some?, p => CategoryOk(query.categories, p));
    var byLocation := Step(byCategory, query.locations.Some?, p => LocationOk(query.locations, known, p));
    var aboveMin := Step(byLocation, query.minPrice.Some?, p => MinPriceOk(query.minPrice, p));
    var belowMax := Step(aboveMin, query.maxPrice.Some?, p => MaxPriceOk(query.maxPrice, p));
    var byStatus := Step(belowMax, true, p => StatusOk(query.status, p));
    Step(byStatus, query.search.Some?, p => SearchOk(query.search, p))
  }

  /** ProductView.get_queryset: the listing for the request's parameters, or the
      server error an unknown orderBy column or a non-integer id causes. */
  function ListProducts(catalog: seq<Product>, known: set<nat>, q: Params): Result<seq<Product>, Fault> {
    match ParseQuery(q)
    case Err(f) => Err(f)
    case Ok(query) => Ok(Narrow(catalog, known, query))
  }

  /** The narrowing chain keeps exactly the products the query matches, each as often as
      the catalogue holds it: filters only remove, and ordering only rearranges. */
  lemma {:induction false} NarrowCounts(catalog: seq<Product>, known: set<nat>, query: Query)
    ensures forall x :: multiset(Narrow(catalog, known, query))[x]
                        == if Matches(query, known, x) then multiset(catalog)[x] else 0
  {
  }

  /** Each listed product comes from the catalogue and passes every filter, and each
      catalogue product passing every filter is listed. */
  lemma {:induction false} ListedExactly(catalog: seq<Product>, known: set<nat>, q: Params, query: Query)
    requires ParseQuery(q) == Ok(query)
    ensures ListProducts(catalog, known, q) == Ok(Narrow(catalog, known, query))
    ensures var r := Narrow(catalog, known, query);
            && multiset(r) <= multiset(catalog)
            && forall x :: x in r <==> x in catalog && Matches(query, known, x)
  {
    NarrowCounts(catalog, known, query);
    CountsGiveMembers(Narrow(catalog, known, query), catalog, x => Matches(query, known, x));
  }
  /** Without a status parameter no Deleted product is listed; with one, every listed
      product has exactly that status. */
  lemma {:induction false} StatusFilter(catalog: seq<Product>, known: set<nat>, q: Params, query: Query)
    requires ParseQuery(q) == Ok(query)
    ensures var r := Narrow(catalog, known, query);
            && (NonEmptyParam(q, "status").None? ==> forall x :: x in r ==> x.status != Deleted)
            && (NonEmptyParam(q, "status").Some? ==> forall x :: x in r ==> x.status == q["status"])
  {
    ListedExactly(catalog, known, q, query);
  }

  /** Each product is listed at most once when the catalogue holds it at most once. */
  lemma {:induction false} ListedOnce(catalog: seq<Product>, known: set<nat>, query: Query)
    requires NoRepeats(catalog)
    ensures NoRepeats(Narrow(catalog, known, query))
  {
    NarrowCounts(catalog, known, query);
  }

  /** With categories, each listed product is in one of the listed categories, and no
      product is listed twice. */
  lemma {:induction false} CategoriesFilter(catalog: seq<Product>, known: set<nat>, q: Params, query: Query)
    requires ParseQuery(q) == Ok(query)
    requires NonEmptyParam(q, "categories").Some?
    ensures ParseIds(q["categories"]).Some?
    ensures forall x :: x in Narrow(catalog, known, query) ==>
              exists c :: c in x.categories && c in ParseIds(q["categories"]).value
    ensures UniqueBy(catalog, (p: Product) => p.id) ==> NoRepeats(Narrow(catalog, known, query))
  {
    assert query.categories == ParseIds(q["categories"]);
    ListedExactly(catalog, known, q, query);
    if UniqueBy(catalog, (p: Product) => p.id) {
      UniqueByNoRepeats(catalog, (p: Product) => p.id);
      ListedOnce(catalog, known, query);
    }
  }

  /** With query, each listed product contains it, ignoring case, in its title or its
      description. */
  lemma {:induction false} SearchFilter(catalog: seq<Product>, known: set<nat>, q: Params, query: Query)
    requires ParseQuery(q) == Ok(query)
    requires NonEmptyParam(q, "query").Some?
    ensures forall x :: x in Narrow(catalog, known, query) ==>
              OccursIgnoringCase(x.title, q["query"]) || OccursIgnoringCase(x.description, q["query"])
  {
    ParsedFields(q, query);
    ListedMatch(catalog, known, query);
    SearchedOccur(Narrow(catalog, known, query), q["query"]);
  }

  /** The parameters the query takes over as they are. */
  lemma {:induction false} ParsedFields(q: Params, query: Query)
    requires ParseQuery(q) == Ok(query)
    ensures query.status == NonEmptyParam(q, "status") && query.search == NonEmptyParam(q, "query")
    ensures query.minPrice == ParseBound(NonEmptyParam(q, "minPrice"))
    ensures query.maxPrice == ParseBound(NonEmptyParam(q, "maxPrice"))
  {
  }

  /** The listed products are the catalogue products the query matches. */
  lemma {:induction false} ListedMatch(catalog: seq<Product>, known: set<nat>, query: Query)
    ensures forall x :: x in Narrow(catalog, known, query) <==> x in catalog && Matches(query, known, x)
  {
    NarrowCounts(catalog, known, query);
    CountsGiveMembers(Narrow(catalog, known, query), catalog, x => Matches(query, known, x));
  }

  lemma {:induction false} SearchedOccur(r: seq<Product>, needle: string)
    requires forall x :: x in r ==> ContainsIgnoringCase(x.title, needle) || ContainsIgnoringCase(x.description, needle)
    ensures forall x :: x in r ==> OccursIgnoringCase(x.title, needle) || OccursIgnoringCase(x.description, needle)
  {
    forall x | x in r
      ensures OccursIgnoringCase(x.title, needle) || OccursIgnoringCase(x.description, needle)
    {
      ContainsIgnoringCaseOccurs(x.title, needle);
      ContainsIgnoringCaseOccurs(x.description, needle);
    }
  }

  /** The bound a price parameter sets: float() of a sent text, or none. */
  function BoundSent(q: Params, key: string): Option<Decimal> {
    if key in q then ParseDecimal(q[key]) else None
  }

  /** The price bounds act independently and inclusively, whatever text float() reads as
      the bound: a product the other filters let through is listed exactly when its
      price is at least minPrice when that is sent and at most maxPrice when that is sent. */
  lemma {:induction false} PriceBoundsInclusive(catalog: seq<Product>, known: set<nat>, q: Params,
                                                query: Query, x: Product)
    requires ParseQuery(q) == Ok(query) && x in catalog
    requires CategoryOk(query.categories, x) && LocationOk(query.locations, known, x)
    requires StatusOk(query.status, x) && SearchOk(query.search, x)
    ensures x in Narrow(catalog, known, query) <==>
              && (BoundSent(q, "minPrice").Some? ==> DecimalLe(BoundSent(q, "minPrice").value, x.price))
              && (BoundSent(q, "maxPrice").Some? ==> DecimalLe(x.price, BoundSent(q, "maxPrice").value))
  {
    assert query.minPrice == BoundSent(q, "minPrice") && query.maxPrice == BoundSent(q, "maxPrice") by {
      ParsedFields(q, query);
      EmptyIsNotDecimal();
    }
    ListedMatch(catalog, known, query);
  }

  /** A bound need not be spelled as the price prints: minPrice "10" admits a price of
      10.00. */
  lemma {:induction false} WholeBoundAdmitsCents()
    ensures BoundSent(map["minPrice" := "10"], "minPrice") == Some(Decimal(10, 0))
    ensures DecimalLe(Decimal(10, 0), Decimal(1000, 2))
  {
    TenParses();
    assert DecimalLe(Decimal(10, 0), Decimal(1000, 2)) by {
      assert Units(Decimal(10, 0), 2) == 1000;
    }
  }

  lemma {:induction false} TenParses()
    ensures ParseDecimal("10") == Some(Decimal(10, 0))
  {
    ParseDecimalUnsigned("10");
    assert '.' !in "10";
    assert "10"[..1] == "1" && "1"[..0] == "";
  }

  lemma {:induction false} OtherParamKept(q: Params, key: string, k: string)
    requires k != key
    ensures Param(q - {key}, k) == Param(q, k) && NonEmptyParam(q - {key}, k) == NonEmptyParam(q, k)
  {
  }

  /** A bound float() rejects reads the same as no bound. */
  lemma {:induction false} BadBoundIsNone(q: Params, key: string)
    requires key in q && ParseDecimal(q[key]).None?
    ensures ParseBound(NonEmptyParam(q, key)) == None == ParseBound(NonEmptyParam(q - {key}, key))
  {
  }

  /** Removing a price bound float() rejects leaves the parsed query as it was. */
  lemma {:induction false} BadBoundNotParsed(q: Params, key: string)
    requires key == "minPrice" || key == "maxPrice"
    requires key in q && ParseDecimal(q[key]).None?
    ensures ParseQuery(q) == ParseQuery(q - {key})
  {
    var other := if key == "minPrice" then "maxPrice" else "minPrice";
    assert key[1] != other[1];
    OtherParamKept(q, key, "orderBy");
    OtherParamKept(q, key, "categories");
    OtherParamKept(q, key, "locations");
    OtherParamKept(q, key, other);
    OtherParamKept(q, key, "status");
    OtherParamKept(q, key, "query");
    BadBoundIsNone(q, key);
  }

  /** A price bound float() rejects is ignored: the listing is the one without it. */
  lemma {:induction false} UnparsableBoundIgnored(catalog: seq<Product>, known: set<nat>, q: Params, key: string)
    requires key == "minPrice" || key == "maxPrice"
    requires key in q && ParseDecimal(q[key]).None?
    ensures ListProducts(catalog, known, q) == ListProducts(catalog, known, q - {key})
  {
    BadBoundNotParsed(q, key);
  }

  lemma {:induction false} StepPreservesSorted(s: seq<Product>, apply: bool, keep: Product -> bool,
                                               le: (Product, Product) -> bool)
    requires Sorted(s, le)
    ensures Sorted(Step(s, apply, keep), le)
  {
    if apply {
      FilterPreservesSorted(s, keep, le);
    }
  }

  /** With orderBy the listing is in that order. */
  lemma {:induction false} ListingOrdered(catalog: seq<Product>, known: set<nat>, query: Query)
    requires query.ordering.Some?
    ensures Sorted(Narrow(catalog, known, query), OrderingLe(query.ordering.value))
  {
    var le := OrderingLe(query.ordering.value);
    OrderingIsPreorder(query.ordering.value);
    var ordered := SortBy(catalog, le);
    SortBySorted(catalog, le);
    var byCategory := Step(ordered, query.categories.Some?, p => CategoryOk(query.categories, p));
    StepPreservesSorted(ordered, query.categories.Some?, p => CategoryOk(query.categories, p), le);
    var byLocation := Step(byCategory, query.locations.Some?, p => LocationOk(query.locations, known, p));
    StepPreservesSorted(byCategory, query.locations.Some?, p => LocationOk(query.locations, known, p), le);
    var aboveMin := Step(byLocation, query.minPrice.Some?, p => MinPriceOk(query.minPrice, p));
    StepPreservesSorted(byLocation, query.minPrice.Some?, p => MinPriceOk(query.minPrice, p), le);
    var belowMax := Step(aboveMin, query.maxPrice.Some?, p => MaxPriceOk(query.maxPrice, p));
    StepPreservesSorted(aboveMin, query.maxPrice.Some?, p => MaxPriceOk(query.maxPrice, p), le);
    var byStatus := Step(belowMax, true, p => StatusOk(query.status, p));
    StepPreservesSorted(belowMax, true, p => StatusOk(query.status, p), le);
    StepPreservesSorted(byStatus, query.search.Some?, p => SearchOk(query.search, p), le);
  }

  /** orderBy only rearranges: with or without it the same products are listed, each
      as often. */
  lemma {:induction false} OrderingOnlyRearranges(catalog: seq<Product>, known: set<nat>, query: Query)
    ensures multiset(Narrow(catalog, known, query)) == multiset(Narrow(catalog, known, query.(ordering := None)))
  {
    var unordered := query.(ordering := None);
    NarrowCounts(catalog, known, query);
    NarrowCounts(catalog, known, unordered);
    assert forall x :: Matches(query, known, x) == Matches(unordered, known, x);
    var a, b := Narrow(catalog, known, query), Narrow(catalog, known, unordered);
    assert forall x :: multiset(a)[x] == multiset(b)[x];
  }

  // ----- latest -----

  const DefaultLatestCount: int := 5

  /** The count parameter, or 5 when it is missing or int() rejects it. */
  function LatestCount(q: Params): int {
    match Param(q, "count")
    case None => DefaultLatestCount
    case Some(t) =>
      match ParseInt(t)
      case Some(v) => v
      case None => DefaultLatestCount
  }

  lemma {:induction false} LatestCountRead(q: Params, n: int)
    ensures "count" !in q || ParseInt(q["count"]).None? ==> LatestCount(q) == 5
    ensures "count" in q && q["count"] == IntText(n) ==> LatestCount(q) == n
  {
    ParseIntText(n);
  }

  /** ProductView.latest: the newest `count` listed products, paginated like the listing;
      a negative count is a negative slice, which the ORM refuses. */
  function Latest(catalog: seq<Product>, known: set<nat>, q: Params): Result<seq<Product>, Fault> {
    match ListProducts(catalog, known, q)
    case Err(f) => Err(f)
    case Ok(listed) =>
      var n := LatestCount(q);
      if n < 0 then Err(ServerError) else Ok(FirstPage(Take(SortBy(listed, NewestFirst()), n), q))
  }

  /** The latest products: as many as the smallest of `count`, the listing and the page
      size, newest first, and none left out is newer than one returned. */
  lemma {:induction false} LatestAreNewest(catalog: seq<Product>, known: set<nat>, q: Params,
                                           listed: seq<Product>, r: seq<Product>)
    requires ListProducts(catalog, known, q) == Ok(listed) && Latest(catalog, known, q) == Ok(r)
    ensures LatestCount(q) >= 0
    ensures var count := LatestCount(q);
            var page := PageSize(q);
            |r| == if count <= page && count <= |listed| then count
                   else if page <= |listed| then page
                   else |listed|
    ensures multiset(r) <= multiset(listed)
    ensures Sorted(r, NewestFirst())
    ensures forall x :: x in listed && x !in r ==> forall y :: y in r ==> y.date >= x.date
  {
    var n: nat := LatestCount(q);
    var page := PageSize(q);
    var k := if n < page then n else page;
    TakeTake(SortBy(listed, NewestFirst()), n, page);
    assert r == Take(SortBy(listed, NewestFirst()), k);
    NewestFirstIsPreorder();
    TopOfSorted(listed, k, NewestFirst());
  }

  // ----- retrieval -----

  /** Turns a get() outcome into a result: DoesNotExist is NotFound, two rows are an
      uncaught error. */
  function FromLookup(l: Lookup): (r: Result<nat, Fault>)
    ensures r.Ok? <==> l.Found?
    ensures r == Err(NotFound) <==> l.DoesNotExist?
  {
    match l
    case DoesNotExist => Err(NotFound)
    case Found(i) => Ok(i)
    case MultipleObjectsReturned => Err(ServerError)
  }

  /** ProductView.retrieve: the product with that slug, whatever its status. */
  function Retrieve(catalog: seq<Product>, slug: string): (r: Result<Product, Fault>)
    ensures r.Ok? ==> r.value in catalog && r.value.slug == slug
    ensures r == Err(NotFound) <==> forall p :: p in catalog ==> p.slug != slug
  {
    match FromLookup(Get(catalog, (p: Product) => p.slug == slug))
    case Ok(i) => Ok(catalog[i])
    case Err(f) => Err(f)
  }

  /** Distinct ids and distinct slugs: what the catalogue's keys guarantee. */
  predicate CatalogueKeys(rows: seq<Product>) {
    UniqueBy(rows, (p: Product) => p.id) && UniqueBy(rows, (p: Product) => p.slug)
  }

  /** With unique slugs retrieval finds the product or reports it missing. */
  lemma {:induction false} RetrieveFinds(catalog: seq<Product>, slug: string)
    requires CatalogueKeys(catalog)
    ensures Retrieve(catalog, slug).Ok? <==> exists p :: p in catalog && p.slug == slug
    ensures Retrieve(catalog, slug).Ok? || Retrieve(catalog, slug) == Err(NotFound)
  {
    GetByUniqueKey(catalog, (p: Product) => p.slug, slug);
  }

  /** The URL keyword the detail view was routed with. */
  datatype Kwargs = ById(id: nat) | BySlug(slug: string) | NoLookup

  /** ProductDetailView.get_object: the position of the product the URL names. An id
      of 0 is falsy, so the view falls back to the (missing) slug and finds nothing. */
  function GetObject(rows: seq<Product>, kwargs: Kwargs): (r: Result<nat, Fault>)
    ensures r.Ok? ==> r.value < |rows|
    ensures r.Ok? && kwargs.ById? ==> kwargs.id != 0 && rows[r.value].id == kwargs.id
    ensures r.Ok? && kwargs.BySlug? ==> rows[r.value].slug == kwargs.slug
    ensures r.Ok? ==> !kwargs.NoLookup?
    ensures r == Err(NotFound) <==>
              match kwargs
              case ById(i) => i == 0 || forall k :: 0 <= k < |rows| ==> rows[k].id != i
              case BySlug(t) => forall k :: 0 <= k < |rows| ==> rows[k].slug != t
              case NoLookup => true
  {
    match kwargs
    case ById(i) => if i == 0 then Err(NotFound) else FromLookup(Get(rows, (p: Product) => p.id == i))
    case BySlug(t) => FromLookup(Get(rows, (p: Product) => p.slug == t))
    case NoLookup => Err(NotFound)
  }

  /** With the catalogue's keys unique, get_object never finds two products. */
  lemma {:induction false} GetObjectSingle(rows: seq<Product>, kwargs: Kwargs)
    requires CatalogueKeys(rows)
    ensures GetObject(rows, kwargs) != Err(ServerError)
  {
    match kwargs
    case ById(i) =>
      GetByUniqueKey(rows, (p: Product) => p.id, i);
    case BySlug(t) =>
      GetByUniqueKey(rows, (p: Product) => p.slug, t);
    case NoLookup =>
  }

  // ----- change_status -----

  /** The replies of change_status: 200 with "post <status>", 400 for a status outside
      the five, 404 "post not found", and 500 carrying the caught exception. */
  datatype StatusReply = StatusSet(message: string) | InvalidStatus | PostNotFound | InternalError(cause: Fault)

  function StatusCode(r: StatusReply): nat {
    match r
    case StatusSet(_) => 200
    case InvalidStatus => 400
    case PostNotFound => 404
    case InternalError(_) => 500
  }

  /** request.data's status is one of the five accepted values. */
  predicate ValidStatus(d: Datum) {
    d.Str? && d.s in Statuses
  }

  /** change_status as written: get_object's NotFound is not Product.DoesNotExist, so a
      missing product is caught by the catch-all and answered with a 500. The save
      itself may fail (`saveFails`), which the catch-all also answers. */
  function StatusChange(rows: seq<Product>, kwargs: Kwargs, status: Datum, saveFails: bool)
    : (r: (StatusReply, seq<Product>))
    ensures r.0 != PostNotFound
    ensures GetObject(rows, kwargs) == Err(NotFound) ==> r == (InternalError(NotFound), rows)
    ensures GetObject(rows, kwargs).Ok? && !ValidStatus(status) ==> StatusCode(r.0) == 400 && r.1 == rows
    ensures !r.0.StatusSet? ==> r.1 == rows
  {
    match GetObject(rows, kwargs)
    case Err(f) => (InternalError(f), rows)
    case Ok(i) =>
      if !ValidStatus(status) then (InvalidStatus, rows)
      else if saveFails then (InternalError(ServerError), rows)
      else (StatusSet("post " + Lower(status.s)), rows[i := rows[i].(status := status.s)])
  }

  /** A valid value becomes the stored status of the product the URL names, nothing else
      changes, and the same lookup finds that product again. */
  lemma {:induction false} ValidStatusStored(rows: seq<Product>, kwargs: Kwargs, s: string)
    requires GetObject(rows, kwargs).Ok? && s in Statuses
    ensures var i := GetObject(rows, kwargs).value;
            var (reply, after) := StatusChange(rows, kwargs, Str(s), false);
            && reply == StatusSet("post " + Lower(s)) && StatusCode(reply) == 200
            && |after| == |rows| && after[i] == rows[i].(status := s)
            && (forall j :: 0 <= j < |rows| && j != i ==> after[j] == rows[j])
            && GetObject(after, kwargs) == Ok(i)
  {
    var i := GetObject(rows, kwargs).value;
    var after := StatusChange(rows, kwargs, Str(s), false).1;
    var post := rows[i].(status := s);
    assert after == rows[i := post];
    match kwargs
    case ById(n) =>
      GetAfterUpdate(rows, (p: Product) => p.id == n, i, post);
    case BySlug(t) =>
      GetAfterUpdate(rows, (p: Product) => p.slug == t, i, post);
  }

  /** As written, a status change for a slug no product has is answered with a 500. */
  lemma {:induction false} MissingProductIs500()
    ensures var (reply, after) := StatusChange([], BySlug("lamp"), Str("Active"), false);
            StatusCode(reply) == 500 && after == []
  {
  }

  /** change_status as its 404 branch intends: a missing product is "post not found". */
  function IntendedStatusChange(rows: seq<Product>, kwargs: Kwargs, status: Datum, saveFails: bool)
    : (r: (StatusReply, seq<Product>))
    ensures StatusCode(r.0) == 404 <==> GetObject(rows, kwargs) == Err(NotFound)
    ensures GetObject(rows, kwargs) == Err(NotFound) ==> r.1 == rows
    ensures GetObject(rows, kwargs) != Err(NotFound) ==> r == StatusChange(rows, kwargs, status, saveFails)
  {
    if GetObject(rows, kwargs) == Err(NotFound) then (PostNotFound, rows)
    else StatusChange(rows, kwargs, status, saveFails)
  }

  /** The stored catalogue, with the keys the database keeps unique. */
  class Catalogue {
    var products: seq<Product>

    ghost predicate Valid()
      reads this
    {
      CatalogueKeys(products)
    }

    constructor (products: seq<Product>)
      requires CatalogueKeys(products)
      ensures Valid() && this.products == products
    {
      this.products := products;
    }

    /** ProductDetailView.change_status: validate the requested status, then store it on
        the product the URL names. */
    method ChangeStatus(kwargs: Kwargs, status: Datum, saveFails: bool) returns (reply: StatusReply)
      requires Valid()
      modifies this
      ensures Valid()
      ensures (reply, products) == StatusChange(old(products), kwargs, status, saveFails)
    {
      var found := GetObject(products, kwargs);
      if found.Err? {
        reply := InternalError(found.error);
        return;
      }
      var i := found.value;
      if !ValidStatus(status) {
        reply := InvalidStatus;
        return;
      }
      if saveFails {
        reply := InternalError(ServerError);
        return;
      }
      var post := products[i].(status := status.s);
      UpdateKeepsUnique(products, (p: Product) => p.id, i, post);
      UpdateKeepsUnique(products, (p: Product) => p.slug, i, post);
      products := products[i := post];
      reply := StatusSet("post " + Lower(status.s));
    }
  }

  // ----- related products -----

  const RelatedLimit: nat := 4

  predicate SharesCategory(p: Product, source: Product) {
    p.categories * source.categories != {}
  }

  /** The other products sharing a category with `source`, whatever their status. */
  function RelatedCandidates(catalog: seq<Product>, source: Product, slug: string): seq<Product> {
    Filter(catalog, (p: Product) => SharesCategory(p, source) && p.slug != slug)
  }

  /** RelatedProducts.get: up to four products sharing a category with the one named by
      `slug`, newest first; 404 when the slug names no product. */
  function Related(catalog: seq<Product>, slug: string): (r: Result<seq<Product>, Fault>)
    ensures r == Err(NotFound) <==> forall p :: p in catalog ==> p.slug != slug
  {
    match FromLookup(Get(catalog, (p: Product) => p.slug == slug))
    case Err(f) => Err(f)
    case Ok(i) => Ok(Take(SortBy(RelatedCandidates(catalog, catalog[i], slug), NewestFirst()), RelatedLimit))
  }

  /** A stored product's slug finds it, so its related products are the newest four
      of its candidates. */
  lemma {:induction false} RelatedOfStored(catalog: seq<Product>, i: nat)
    requires CatalogueKeys(catalog) && i < |catalog|
    ensures var source := catalog[i];
            Related(catalog, source.slug)
              == Ok(Take(SortBy(RelatedCandidates(catalog, source, source.slug), NewestFirst()), RelatedLimit))
  {
    var slug := catalog[i].slug;
    GetByUniqueKey(catalog, (p: Product) => p.slug, slug);
    assert Get(catalog, (p: Product) => p.slug == slug) == Found(i);
  }

  /** The related products of a stored product: at most four, never itself, each
      sharing a category with it, and none twice. */
  lemma {:induction false} RelatedArePeers(catalog: seq<Product>, i: nat)
    requires CatalogueKeys(catalog) && i < |catalog|
    ensures var source := catalog[i];
            var r := Related(catalog, source.slug);
            && r.Ok?
            && |r.value| <= RelatedLimit
            && (forall x :: x in r.value ==> x in catalog && x.slug != source.slug && SharesCategory(x, source))
            && NoRepeats(r.value)
  {
    var source := catalog[i];
    RelatedOfStored(catalog, i);
    UniqueByNoRepeats(catalog, (p: Product) => p.id);
    TopOfSelection(catalog, (p: Product) => SharesCategory(p, source) && p.slug != source.slug,
                   NewestFirst(), RelatedLimit);
  }

  /** The related products are the newest candidates, newest first: no candidate left
      out is newer than one shown, and fewer than four means every candidate is shown. */
  lemma {:induction false} RelatedAreNewest(catalog: seq<Product>, i: nat)
    requires CatalogueKeys(catalog) && i < |catalog|
    ensures var source := catalog[i];
            var candidates := RelatedCandidates(catalog, source, source.slug);
            var r := Related(catalog, source.slug);
            && r.Ok?
            && Sorted(r.value, NewestFirst())
            && (forall x :: x in candidates && x !in r.value ==> forall y :: y in r.value ==> y.date >= x.date)
            && (|r.value| < RelatedLimit ==> forall x :: x in candidates ==> x in r.value)
  {
    var source := catalog[i];
    var candidates := RelatedCandidates(catalog, source, source.slug);
    RelatedOfStored(catalog, i);
    NewestFirstIsPreorder();
    TopOfSorted(candidates, RelatedLimit, NewestFirst());
  }

  /** Related products are not filtered by status: a Deleted peer can be shown. */
  lemma RelatedMayIncludeDeleted()
    ensures exists catalog: seq<Product>, slug: string, x: Product ::
              && Related(catalog, slug).Ok? && x in Related(catalog, slug).value && x.status == Deleted
  {
    var source := Product(1, "lamp", "Lamp", "", Decimal(1200, 2), "Active", 1, {7}, None, None, None);
    var peer := Product(2, "shade", "Shade", "", Decimal(300, 2), Deleted, 2, {7}, None, None, None);
    assert 7 in source.categories * peer.categories;
    RelatedOfPair(source, peer);
    assert peer in Related([source, peer], "lamp").value;
  }

  /** Two products sharing a category, the second with another slug: the second is
      the first's only related product. */
  lemma RelatedOfPair(source: Product, peer: Product)
    requires source.slug == "lamp" && peer.slug == "shade"
    requires source.categories * peer.categories != {}
    ensures Related([source, peer], "lamp") == Ok([peer])
  {
    var catalog := [source, peer];
    assert Get(catalog, (p: Product) => p.slug == "lamp") == Found(0);
    var keep := (p: Product) => SharesCategory(p, source) && p.slug != "lamp";
    assert "shade" != "lamp";
    assert !keep(source) && keep(peer);
    assert catalog[1..] == [peer] && [peer][1..] == [];
    assert Filter([peer], keep) == [peer];
    assert RelatedCandidates(catalog, source, "lamp") == [peer];
    assert SortBy([peer], NewestFirst()) == [peer];
    assert Take([peer], RelatedLimit) == [peer];
  }
}
