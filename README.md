# starbound-backend views, modelled in Dafny

This project models the request-handling rules of the starbound-backend Django REST
service. Tables are sequences of record datatypes. A handler is a function from the
stored tables and the request to a reply and the new tables. Handlers that change a
stored row also have a class that holds the table, with a method proved equal to
that function. The modelled handlers are:

- the product listing, with its optional filters, and the latest products;
- product retrieval by slug and the detail lookup by id or slug;
- the product status change and the related products;
- the review listings (by product, by user, staff-or-own), review creation and the
  owner-or-staff review edit;
- the wishlist, notification and update endpoints, the trip history and the
  profile image update;
- the computed fields of serialized reviews and visits;
- visit listing and visit recording.

Python's own conversions are modelled on text:

- `int()` (`Numbers.ParseInt`), `float()` restricted to decimal notation
  (`Numbers.ParseDecimal`) and `str()` of a decimal price (`Numbers.DecimalText`);
- `str.strip` (`Text.Strip`), `str.split` (`Text.Split`) and ASCII case-insensitive
  containment (`Text.ContainsIgnoringCase`);
- truthiness of request values (`Requests.Truthy`) and the integer conversion the
  ORM applies to a key (`Requests.KeyOf`).

The ORM's `filter`, `order_by`, slicing and `get` are `Tables.Filter`,
`Tables.SortBy`, `Tables.Take` and `Tables.Get`. Their general facts are proved
once, in `Tables`:

- a filter keeps exactly the matching rows, each as often as stored;
- a sort is a permutation and is sorted;
- the first n rows of a sorted listing are the top n;
- a lookup on a unique key never finds two rows.

Some inputs are parameters rather than modelled:

- the clock (`now`);
- serializer validation that is not spelled out in the code (`fieldsValid`,
  `valid`);
- a failing `save()` (`saveFails`);
- storage URLs of image files (`url`) and `request.build_absolute_uri`
  (`absolute`).

The database keys become predicates that the table classes keep as their `Valid()`
invariant: unique ids, unique slugs, one profile per user, one wishlist entry per
(user, product), and unique visit triples.

## Model

| member | source | states |
|---|---|---|
| ProductViews.PageSize | app/product/views.py:16-19 | The page size is between 1 and 100. It is 10 when `page_size` is missing or not an integer. Otherwise it is the requested value capped at 100, and non-positive values fall back to 10. |
| ProductViews.PageSizeRequested | app/product/views.py:16-19 | A client that sends n ≥ 1 as decimal text gets n rows per page, or 100 when n is larger. |
| ProductViews.FirstPage | app/product/views.py:16-19 | The first page is a prefix of the listing, no longer than the page size, and it is the whole listing when that fits. |
| ProductViews.ParseOrdering | app/product/views.py:40-41 | orderBy is accepted exactly when it names a product column, optionally after a leading '-'. Every column name is accepted ascending and every '-' + column name descending. |
| ProductViews.OrderingIsPreorder | app/product/views.py:40-41 | Every accepted orderBy orders by a total preorder (ties allowed), so the ordered listing is well defined up to ties. |
| ProductViews.IdsOf | app/product/views.py:43-48 | A comma-separated id list converts exactly when every piece is an integer, piece by piece. |
| ProductViews.Step | app/product/views.py:28-73 | One conditional narrowing keeps a row as often as stored when the filter is not applied or lets the row through, and drops it otherwise. |
| ProductViews.ListedExactly | app/product/views.py:28-73 | The listing is a sub-multiset of the catalogue. It holds exactly the catalogue products that pass every applied filter. |
| ProductViews.StatusFilter | app/product/views.py:62-65 | Without `status`, no listed product is Deleted. With `status`, every listed product has exactly that status. |
| ProductViews.CategoriesFilter | app/product/views.py:43-44 | With `categories`, the id list parses and each listed product is in a listed category. With unique product ids, no product is listed twice. |
| ProductViews.ListedOnce | app/product/views.py:43-44 | The listing repeats no product that the catalogue holds once. |
| ProductViews.SearchFilter | app/product/views.py:67-71 | With `query`, the lower-cased query occurs at some position of every listed product's lower-cased title or lower-cased description. |
| ProductViews.PriceBoundsInclusive | app/product/views.py:50-60 | Each price bound acts on its own, inclusively, whatever text float() reads as it. A product the other filters admit is listed exactly when its price is at least the minPrice value when one is sent and at most the maxPrice value when one is sent. |
| ProductViews.WholeBoundAdmitsCents | app/product/views.py:50-53 | minPrice "10" reads as 10 and admits a price of 10.00: a bound need not be spelled as the price prints. |
| ProductViews.BadBoundNotParsed | app/product/views.py:50-60 | A price bound that `float()` rejects parses to the same query as no bound. |
| ProductViews.UnparsableBoundIgnored | app/product/views.py:50-60 | A price bound that `float()` rejects gives the same listing as no bound. |
| ProductViews.ListingOrdered | app/product/views.py:40-41 | With orderBy, the listing is sorted by that column and direction after every filter. |
| ProductViews.OrderingOnlyRearranges | app/product/views.py:40-41 | orderBy never adds or drops a product: the listing with it is a permutation of the listing without it. |
| ProductViews.LatestCountRead | app/product/views.py:77-81 | count is 5 when it is missing or not an integer, and n when n is sent as decimal text. |
| ProductViews.LatestAreNewest | app/product/views.py:76-87 | `latest` has a non-negative count and returns the first page of the newest `count` listed products: as many as the least of count, the listing size and the page size. They are newest first, and no listed product left out is newer than one returned. |
| ProductViews.FromLookup | app/product/views.py:94-97 | A lookup yields a row exactly when one row matches, and NotFound exactly when none does. |
| ProductViews.Retrieve | app/product/views.py:92-100 | A retrieved product is in the catalogue and has the slug. NotFound is returned exactly when no product has the slug. |
| ProductViews.RetrieveFinds | app/product/views.py:92-100 | With unique slugs, retrieval succeeds exactly when some product has the slug, and otherwise reports NotFound. |
| ProductViews.GetObject | app/product/views.py:107-120 | The detail lookup finds the product with the URL's non-zero id or its slug. It is NotFound exactly when the id is 0, or nothing matches, or the URL names neither key. |
| ProductViews.GetObjectSingle | app/product/views.py:107-120 | With unique keys, the detail lookup never fails with a server error. |
| ProductViews.StatusChange | app/product/views.py:122-138 | As written, change_status never answers 404. A missing product is a 500, and a status outside the five values is a 400. Nothing is stored unless the status is set. |
| ProductViews.ValidStatusStored | app/product/views.py:128-134 | A valid status becomes the named product's stored status, the reply is 200 "post <status in lower case>", every other product is unchanged, and the lookup still finds the product. |
| ProductViews.MissingProductIs500 | app/product/views.py:135-138 | A status change for a missing slug is answered with 500. |
| ProductViews.IntendedStatusChange | app/product/views.py:135-136 | The corrected handler answers 404 exactly when the product is missing, stores nothing then, and agrees with the code as written everywhere else. |
| ProductViews.Catalogue.ChangeStatus | app/product/views.py:122-138 | The method's reply and new catalogue are those of the handler as written, and the catalogue keys stay unique. |
| ProductViews.Related | app/product/views.py:146-156 | Related products are NotFound exactly when no product has the slug. |
| ProductViews.RelatedArePeers | app/product/views.py:149-151 | A stored product gets at most 4 related products. None of them has its slug, each shares a category with it, each is in the catalogue, and none appears twice. |
| ProductViews.RelatedAreNewest | app/product/views.py:150-151 | The related products are newest first. No candidate left out is newer than one shown, and fewer than 4 means every candidate is shown. |
| ProductViews.RelatedMayIncludeDeleted | app/product/views.py:150-151 | Related products are not filtered by status: some catalogue has a Deleted related product. |
| ReviewViews.ByProduct | reviews/views.py:15-23 | A missing or empty `product_id` gives 400. An id that does not convert gives 500. Otherwise the reply is a listing. |
| ReviewViews.ByProductListsApproved | reviews/views.py:20-23 | Given an id, the listing is exactly the approved reviews of that product, each as stored, newest first. |
| ReviewViews.ByProductIdText | reviews/views.py:15-23 | An id sent as decimal text lists that product's approved reviews. |
| ReviewViews.ByUser | reviews/views.py:28-35 | A falsy `user_id` gives 400. An id that does not convert gives 500. Otherwise the reply is a listing. |
| ReviewViews.ByUserListsTheirs | reviews/views.py:33-35 | The listing is exactly the reviews of that user, in the model's default newest-first order. |
| ReviewViews.VisibleReviews | reviews/views.py:43-47 | The review list never shows more than the table holds. |
| ReviewViews.VisibleReviewsPolicy | reviews/views.py:43-47 | Staff see every review. Anyone else sees exactly their own reviews. Both listings are newest first. |
| ReviewViews.CreateStampsRequester | reviews/views.py:49-50 | A created review is written by the requester, whatever the payload says. It has a fresh id, is unapproved unless the payload approves it, and is appended. A refused create stores nothing. |
| ReviewViews.CreateKeepsKeys | reviews/views.py:49-50 | Creating a review keeps review ids unique. |
| ReviewViews.ReviewTable.Create | reviews/views.py:49-50 | The method's reply and new table are those of the create transition, and ids stay unique. |
| ReviewViews.ApplyPatch | reviews/views.py:64-66 | A partial update writes exactly the supplied fields and keeps id, author and creation time. |
| ReviewViews.PatchMissingIs404 | reviews/views.py:58 | Editing an unknown review gives 404 and changes nothing. |
| ReviewViews.PatchForbidden | reviews/views.py:59-62 | An edit is refused with 403 exactly when the requester is neither staff nor the author. A refused edit stores nothing. |
| ReviewViews.PatchInvalidStoresNothing | reviews/views.py:64-68 | A permitted edit that fails validation gives 400 and stores nothing. |
| ReviewViews.PatchChangesOnlySupplied | reviews/views.py:64-67 | A permitted valid edit gives 200. It changes only the supplied fields of that one review, leaves every other review alone, and keeps ids unique. |
| ReviewViews.PatchIdempotent | reviews/views.py:57-68 | Sending the same edit twice stores what sending it once stores. |
| ReviewViews.AuthorMayApprove | reviews/views.py:61-66 | An author who is not staff may set `approved` on their own review. |
| ReviewViews.ReviewTable.Patch | reviews/views.py:57-68 | The method's reply and new table are those of the edit transition, and ids stay unique. |
| ReviewSerializers.ProductOf | reviews/serializers.py:22-28 | None exactly when the review has no product. Otherwise the product's id and title. |
| ReviewSerializers.DisplayName | reviews/serializers.py:30-35 | None exactly when there is no user. |
| ReviewSerializers.DisplayNameFallback | reviews/serializers.py:33-34 | A blank stripped full name falls back to the username. Otherwise the name is the full name, with no whitespace at either end. |
| ReviewSerializers.DisplayNameOfPlainNames | reviews/serializers.py:33-34 | Names without surrounding whitespace display as "first last", or as the first name alone when the last name is empty. |
| ReviewSerializers.Email | reviews/serializers.py:37-38 | The user's e-mail, or None exactly when there is no user. |
| ReviewSerializers.ProfileImageCases | reviews/serializers.py:40-51 | None exactly when there is no user, no profile or no image. With a request, the result is the absolute URI of the image URL. Without one, it is the URL itself. |
| VisitSerializers.CardImage | visits/serializers.py:31-43 | A non-empty direct image wins, by its URL. Otherwise the first related image's path is used. The result is None exactly when neither exists. |
| VisitSerializers.VisitProduct | visits/serializers.py:14-22 | None for a visit whose item type is not "product", and None when no product has the visited id. |
| VisitSerializers.VisitProductOfStored | visits/serializers.py:19-45 | A product visit to a stored product is summarised by its title, its price text (which reads back as the stored price) and its card image. |
| VisitViews.VisitsOfRequester | visits/views.py:12-16 | The visit listing is exactly the requester's visits, each as stored, newest first. |
| VisitViews.RecordStampsRequester | visits/views.py:19-23 | Invalid data gives 400 and a repeated visit gives 500, and neither stores anything. A valid visit is refused exactly when the requester has already visited that item. Otherwise the reply is 201 "visit recorded" and one row is appended, whose user is the requester, whatever the body says, and whose id is fresh. |
| VisitViews.RecordKeepsKeys | visits/views.py:19-23 | Recording keeps visit ids and (user, item_id, item_type) triples unique. |
| VisitViews.VisitTable.Record | visits/views.py:19-23 | The method's reply and new table are those of the recording transition, and both keys stay unique. |
| ProfileViews.PastTrips | profiles/views.py:65-66 | History lists exactly the stored trips dated strictly before now, each as stored. |
| ProfileViews.HistoryGrowsWithTime | profiles/views.py:65-66 | The history depends on the clock only monotonically: with a later now, every trip listed before is still listed, at least as often. |
| ProfileViews.WishlistOf | profiles/views.py:74-76 | The wishlist listing is exactly the requester's entries. |
| ProfileViews.WishlistRefusals | profiles/views.py:80-88 | A falsy product id gives 400 (and only it does), an id that does not convert gives 500, and an unknown product gives 404. No refusal adds an entry. |
| ProfileViews.GetOrCreateExactlyOne | profiles/views.py:91-96 | After an add, exactly one entry holds (user, product). The reply is 201 with a new entry exactly when none existed, and otherwise 200 with the table unchanged. The keys stay unique. |
| ProfileViews.WishlistAddIdempotent | profiles/views.py:78-96 | Repeating an add changes nothing, and a repeat after success answers 200. |
| ProfileViews.WishlistTable.Add | profiles/views.py:78-96 | The method's reply and new table are those of the add transition, and the keys stay unique. |
| ProfileViews.FeedOfRequester | profiles/views.py:121-146 | The notification listing and the update listing are each exactly the requester's items, newest first. |
| ProfileViews.MarkReadOwned | profiles/views.py:125-157 | Marking one's own notification or update read sets only its `is_read`. Every other item is unchanged. |
| ProfileViews.MarkReadForeign | profiles/views.py:128-134 | A notification id the requester does not own, or that does not exist, gives 404 and changes nothing. |
| ProfileViews.MarkReadIdempotent | profiles/views.py:125-136 | Marking read twice stores what marking once stores. |
| ProfileViews.FeedTable.MarkItemRead | profiles/views.py:148-159 | The method's reply and new table are those of the mark-read transition, for notifications and updates alike. |
| ProfileViews.NewImage | profiles/views.py:25-30 | An absent image key keeps the image. "" or null clears it. Any other name replaces it. |
| ProfileViews.PutProfileImage | profiles/views.py:20-36 | A valid put changes only the requester's profile image, by that rule. An invalid put stores nothing. |
| ProfileViews.PutWithoutProfile | profiles/views.py:17-21 | A requester without a profile gets a 500 and nothing changes. |
| ProfileViews.ProfileTable.Put | profiles/views.py:20-36 | The method's reply and new table are those of the put transition, and profiles stay one per user. |
| Numbers.ParseIntText | app/product/views.py:79 | `int()` reads back the decimal text of every integer. |
| Numbers.GroupedDigitsParse | app/product/views.py:79 | `int()` reads digits grouped by single underscores: "1_000" is 1000. |
| Numbers.BadGroupingsRefused | app/product/views.py:79 | `int()` refuses a doubled, a leading or a trailing underscore. |
| Numbers.DecimalTextRoundTrip | visits/serializers.py:27 | The printed price of every stored price parses back to that price. |
| Text.Split | app/product/views.py:44 | Splitting on ',' gives at least one piece, no piece contains ',', and joining the pieces gives back the text. |
| Text.StripIdempotent | reviews/serializers.py:33 | Stripping twice is stripping once. |
| Text.StripSlice | reviews/serializers.py:33 | The stripped text is one contiguous slice of the input, and everything dropped before and after it is whitespace. |
| Text.StripEnds | reviews/serializers.py:33 | The stripped text is empty or starts and ends with a character that is not whitespace. |
| Tables.TopOfSorted | app/product/views.py:83 | The first n rows of a listing sorted by a total order are min(n, listing size) rows of the listing, in order. None left out comes before one taken, and fewer than n means none is left out. |
| Tables.SortedSelection | reviews/views.py:21 | Filtering then ordering gives exactly the matching rows, each as often as stored, in order. |

## Left out

- Numbers.ParseDecimal: covers only decimal notation (sign, digits, an optional point). `float()`'s exponents, `inf`, `nan` and digit-group underscores are not modelled. Prices are exact decimals with up to six places, not binary floats.
- Numbers.ParseInt: covers ASCII digits, optionally grouped by single underscores. Other Unicode decimal digits that `int()` accepts are not modelled.
- Text.ContainsIgnoringCase folds ASCII letters only. The database's case-insensitive match for other scripts and its collation are not modelled.
- Text.StrLe orders text by code point. The database's collation order for orderBy on text columns is not modelled.
- Ties in every ordering are left in whatever order the stable sort gives. The database's order for equal keys is not modelled.
- orderBy accepts the product's own columns by name (and "pk"). Related-field paths ("categories__name"), random order ("?") and other model fields are not modelled, apart from being server errors.
- Pagination beyond the first page (page numbers, links, invalid page errors) is not modelled. Neither is the page size of 8 that the notification and update views assign to the shared PageNumberPagination class.
- Authentication and `check_object_permissions` are not modelled. The requester is a parameter, and so is `is_staff`.
- Serializer validation is a boolean parameter. The exceptions are the checks written out: a review's product_id, and a visit's item_id, item_type and timestamp. ProfileSerializer's own field writes on a profile put are not modelled, only the image handling the view does before them.
- Trip listing order: the trip model's default ordering is not part of this model, so the history keeps stored order.
- JSON bodies are modelled as one value per key: missing, null, a boolean, an integer or a string. JSON floats, lists and objects as ids are not modelled. Repeated query-string keys are not modelled; the last value is the one read.
- Response bodies (error messages, serializer output other than the computed fields) and HTTP headers are not modelled. Replies are datatypes with their status codes.
- URL routing is not modelled. The detail view's URL keyword is the `Kwargs` datatype, and a notification or update pk arrives as optional text.
- Concurrency: get_or_create races and database-enforced uniqueness under concurrent requests are not modelled.
- Visit item_id upper bounds that the database backend imposes are not modelled.

## Findings

| source | as written | input that shows it | evidently intended | confidence | as-written member | corrected member |
|---|---|---|---|---|---|---|
| app/product/views.py:125-138 | get_object raises DRF NotFound, not Product.DoesNotExist, so a missing product falls through to the catch-all and is answered with 500 | PATCH change_status with a slug no product has | 404 "post not found", as the DoesNotExist branch says | high; not executed | ProductViews.MissingProductIs500 | ProductViews.IntendedStatusChange |

`ProductViews.StatusChange` and the `Catalogue.ChangeStatus` method follow the code as
written. `ProductViews.IntendedStatusChange` is the corrected handler. It answers 404
exactly when the product is missing and agrees with the code as written on every
other input.
