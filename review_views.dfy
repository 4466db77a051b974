/** The review endpoints: the public per-product listing of approved reviews, the
    by-user listing, the staff-or-own review list, review creation (authorship forced to
    the requester) and the owner-or-staff partial edit. */
module ReviewViews {
  import opened Wrappers
  import opened Numbers
  import opened Tables
  import opened Requests
  import opened Models

  /** Newest first: order_by('-created_at'), also Review.Meta.ordering. */
  function NewestReviewFirst(): (Review, Review) -> bool {
    (a: Review, b: Review) => a.createdAt >= b.createdAt
  }

  lemma {:induction false} NewestReviewFirstIsPreorder()
    ensures TotalPreorder(NewestReviewFirst())
  {
    var le := NewestReviewFirst();
    assert forall a, b :: le(a, b) <==> a.createdAt >= b.createdAt;
  }

  /** A listing either answers the reviews, refuses a missing parameter with 400, or
      fails with 500 when the ORM cannot convert the parameter to a key. */
  datatype ListReply = Listed(reviews: seq<Review>) | MissingParameter | InternalError

  function ListCode(r: ListReply): nat {
    match r
    case Listed(_) => 200
    case MissingParameter => 400
    case InternalError => 500
  }

  predicate ApprovedFor(r: Review, product: int) {
    r.approved && r.product.Some? && r.product.value == product
  }

  predicate WrittenBy(r: Review, user: int) {
    r.user == user
  }

  /** ReviewByProduct.get: the approved reviews of the product named by the
      `product_id` query parameter, newest first. */
  function ByProduct(reviews: seq<Review>, q: Params): (r: ListReply)
    ensures r.MissingParameter? <==> NonEmptyParam(q, "product_id").None?
    ensures r.InternalError? <==> NonEmptyParam(q, "product_id").Some?
                                  && KeyOf(Str(q["product_id"])).BadKey?
  {
    match NonEmptyParam(q, "product_id")
    case None => MissingParameter
    case Some(text) =>
      match KeyOf(Str(text))
      case IntKey(id) =>
        Listed(SortBy(Filter(reviews, (x: Review) => ApprovedFor(x, id)), NewestReviewFirst()))
      case _ => InternalError
  }

  /** Given a product id, the listing is exactly the approved reviews of that product,
      each as often as stored, newest first. */
  lemma {:induction false} ByProductListsApproved(reviews: seq<Review>, q: Params, id: int)
    requires "product_id" in q && KeyOf(Str(q["product_id"])) == IntKey(id)
    ensures var r := ByProduct(reviews, q);
            && r.Listed?
            && (forall x :: x in r.reviews <==> x in reviews && x.approved && x.product.Some? && x.product.value == id)
            && multiset(r.reviews) <= multiset(reviews)
            && Sorted(r.reviews, NewestReviewFirst())
  {
    EmptyTextIsBadKey();
    var keep := (x: Review) => ApprovedFor(x, id);
    NewestReviewFirstIsPreorder();
    SortedSelection(reviews, keep, NewestReviewFirst());
    var r := SortBy(Filter(reviews, keep), NewestReviewFirst());
    CountsGiveMembers(r, reviews, keep);
  }

  /** The id sent as its decimal text lists that product's approved reviews. */
  lemma {:induction false} ByProductIdText(reviews: seq<Review>, q: Params, id: nat)
    requires "product_id" in q && q["product_id"] == IntText(id)
    ensures ByProduct(reviews, q)
              == Listed(SortBy(Filter(reviews, (x: Review) => ApprovedFor(x, id)), NewestReviewFirst()))
  {
    KeyOfText(id);
    EmptyTextIsBadKey();
  }

  /** ReviewByUser.post: the reviews written by the user named by request.data's
      `user_id`, in the model's default order (newest first). */
  function ByUser(reviews: seq<Review>, userId: Datum): (r: ListReply)
    ensures r.MissingParameter? <==> !Truthy(userId)
    ensures r.InternalError? <==> Truthy(userId) && KeyOf(userId).BadKey?
  {
    if !Truthy(userId) then MissingParameter
    else
      match KeyOf(userId)
      case IntKey(id) =>
        Listed(SortBy(Filter(reviews, (x: Review) => WrittenBy(x, id)), NewestReviewFirst()))
      case _ => InternalError
  }

  /** Given a truthy user id, the listing is exactly that user's reviews, newest first. */
  lemma {:induction false} ByUserListsTheirs(reviews: seq<Review>, userId: Datum, id: int)
    requires Truthy(userId) && KeyOf(userId) == IntKey(id)
    ensures var r := ByUser(reviews, userId);
            && r.Listed?
            && (forall x :: x in r.reviews <==> x in reviews && x.user == id)
            && multiset(r.reviews) <= multiset(reviews)
            && Sorted(r.reviews, NewestReviewFirst())
  {
    var keep := (x: Review) => WrittenBy(x, id);
    NewestReviewFirstIsPreorder();
    SortedSelection(reviews, keep, NewestReviewFirst());
    var r := SortBy(Filter(reviews, keep), NewestReviewFirst());
    CountsGiveMembers(r, reviews, keep);
  }

  /** ReviewList.get_queryset: staff see every review, anyone else their own; newest
      first either way. */
  function VisibleReviews(reviews: seq<Review>, requester: User): (r: seq<Review>)
    ensures multiset(r) <= multiset(reviews)
  {
    if requester.isStaff then SortBy(reviews, NewestReviewFirst())
    else
      var own := Filter(reviews, (x: Review) => WrittenBy(x, requester.id));
      CountsGiveMembers(SortBy(own, NewestReviewFirst()), reviews, (x: Review) => WrittenBy(x, requester.id));
      SortBy(own, NewestReviewFirst())
  }

  /** Staff see the whole table, rearranged; anyone else sees exactly their own reviews
      and no one else's; both listings are newest first. */
  lemma {:induction false} VisibleReviewsPolicy(reviews: seq<Review>, requester: User)
    ensures var r := VisibleReviews(reviews, requester);
            && Sorted(r, NewestReviewFirst())
            && (requester.isStaff ==> multiset(r) == multiset(reviews))
            && (!requester.isStaff ==> forall x :: x in r <==> x in reviews && x.user == requester.id)
  {
    NewestReviewFirstIsPreorder();
    if requester.isStaff {
      SortBySorted(reviews, NewestReviewFirst());
    } else {
      SortedSelection(reviews, (x: Review) => WrittenBy(x, requester.id), NewestReviewFirst());
    }
  }

  // ----- creating a review -----

  /** The body of a create request as the serializer reads it. `user` is whatever the
      client sent under that name: the serializer has no such field. */
  datatype ReviewPayload = ReviewPayload(user: Datum, rating: nat, comment: string,
                                         approved: Option<bool>, product: Option<nat>)

  datatype CreateReply = Created(review: Review) | CreateRefused

  function CreateCode(r: CreateReply): nat {
    match r
    case Created(_) => 201
    case CreateRefused => 400
  }

  /** The ids the database keeps unique. */
  predicate ReviewKeys(reviews: seq<Review>) {
    UniqueBy(reviews, (x: Review) => x.id)
  }

  /** The write-only product_id is required and must name a stored product; `fieldsValid`
      stands for the serializer's other field checks. */
  predicate CreateValid(p: ReviewPayload, products: set<nat>, fieldsValid: bool) {
    fieldsValid && p.product.Some? && p.product.value in products
  }

  /** ListCreateAPIView.create with perform_create: validate, then store a new review
      whose author is the requester, stamped `now`. */
  function CreateReview(reviews: seq<Review>, products: set<nat>, requester: User,
                        p: ReviewPayload, fieldsValid: bool, now: Time): (CreateReply, seq<Review>)
  {
    if !CreateValid(p, products, fieldsValid) then (CreateRefused, reviews)
    else
      var review := Review(NextId(reviews, (x: Review) => x.id), requester.id, p.product,
                           p.rating, p.comment, p.approved.GetOr(false), now);
      (Created(review), reviews + [review])
  }

  /** A created review is written by the requester whatever the payload claims, carries a
      fresh id, is unapproved unless the payload approves it, and is appended to the
      table; a refused one stores nothing. */
  lemma {:induction false} CreateStampsRequester(reviews: seq<Review>, products: set<nat>, requester: User,
                                                 p: ReviewPayload, fieldsValid: bool, now: Time)
    ensures var (reply, after) := CreateReview(reviews, products, requester, p, fieldsValid, now);
            && (reply.Created? <==> CreateValid(p, products, fieldsValid))
            && (reply.CreateRefused? ==> after == reviews)
            && (reply.Created? ==>
                  && CreateCode(reply) == 201
                  && reply.review.user == requester.id
                  && (forall x :: x in reviews ==> x.id != reply.review.id)
                  && reply.review.approved == (p.approved == Some(true))
                  && reply.review.createdAt == now
                  && reply.review.product == p.product
                  && after == reviews + [reply.review])
  {
    var (reply, after) := CreateReview(reviews, products, requester, p, fieldsValid, now);
    if reply.Created? {
      forall x | x in reviews ensures x.id != reply.review.id {
        var i :| 0 <= i < |reviews| && reviews[i] == x;
      }
    }
  }

  /** Creating keeps the ids unique. */
  lemma {:induction false} CreateKeepsKeys(reviews: seq<Review>, products: set<nat>, requester: User,
                                           p: ReviewPayload, fieldsValid: bool, now: Time)
    requires ReviewKeys(reviews)
    ensures ReviewKeys(CreateReview(reviews, products, requester, p, fieldsValid, now).1)
  {
    var (reply, after) := CreateReview(reviews, products, requester, p, fieldsValid, now);
    if reply.Created? {
      AppendKeepsUnique(reviews, (x: Review) => x.id, reply.review);
    }
  }

  // ----- editing a review -----

  /** A partial update: only the fields present are written. */
  datatype ReviewPatch = ReviewPatch(rating: Option<nat>, comment: Option<string>,
                                     approved: Option<bool>, product: Option<nat>)

  datatype PatchReply = Patched(review: Review) | ReviewNotFound | Forbidden | PatchRefused | LookupFailed

  function PatchCode(r: PatchReply): nat {
    match r
    case Patched(_) => 200
    case ReviewNotFound => 404
    case Forbidden => 403
    case PatchRefused => 400
    case LookupFailed => 500
  }

  /** A supplied product_id must name a stored product; `fieldsValid` stands for the
      serializer's other checks on the supplied fields. */
  predicate PatchValid(p: ReviewPatch, products: set<nat>, fieldsValid: bool) {
    fieldsValid && (p.product.Some? ==> p.product.value in products)
  }

  function ApplyPatch(r: Review, p: ReviewPatch): (r': Review)
    ensures r'.id == r.id && r'.user == r.user && r'.createdAt == r.createdAt
    ensures r'.rating == p.rating.GetOr(r.rating) && r'.comment == p.comment.GetOr(r.comment)
    ensures r'.approved == p.approved.GetOr(r.approved)
    ensures r'.product == if p.product.Some? then Some(p.product.value) else r.product
  {
    Review(r.id, r.user, if p.product.Some? then Some(p.product.value) else r.product,
           p.rating.GetOr(r.rating), p.comment.GetOr(r.comment), p.approved.GetOr(r.approved),
           r.createdAt)
  }

  /** ReviewDetail.patch: look up the review by pk (404), allow only staff or its author
      (403), validate the supplied fields (400), then write exactly those. */
  function PatchReview(reviews: seq<Review>, products: set<nat>, requester: User, pk: nat,
                       p: ReviewPatch, fieldsValid: bool): (PatchReply, seq<Review>)
  {
    match Get(reviews, (x: Review) => x.id == pk)
    case DoesNotExist => (ReviewNotFound, reviews)
    case MultipleObjectsReturned => (LookupFailed, reviews)
    case Found(i) =>
      if !(requester.isStaff || reviews[i].user == requester.id) then (Forbidden, reviews)
      else if !PatchValid(p, products, fieldsValid) then (PatchRefused, reviews)
      else
        var r := ApplyPatch(reviews[i], p);
        (Patched(r), reviews[i := r])
  }

  /** An unknown pk is 404 and nothing changes. */
  lemma {:induction false} PatchMissingIs404(reviews: seq<Review>, products: set<nat>, requester: User,
                                             pk: nat, p: ReviewPatch, fieldsValid: bool)
    requires forall x :: x in reviews ==> x.id != pk
    ensures PatchReview(reviews, products, requester, pk, p, fieldsValid) == (ReviewNotFound, reviews)
  {
    assert forall j :: 0 <= j < |reviews| ==> reviews[j] in reviews;
  }

  /** Who may edit: with unique ids, a stored review answers 403, storing nothing,
      exactly when the requester is neither staff nor its author. */
  lemma {:induction false} PatchForbidden(reviews: seq<Review>, products: set<nat>, requester: User,
                                          i: nat, p: ReviewPatch, fieldsValid: bool)
    requires ReviewKeys(reviews) && i < |reviews|
    ensures var (reply, after) := PatchReview(reviews, products, requester, reviews[i].id, p, fieldsValid);
            && (reply == Forbidden <==> !requester.isStaff && reviews[i].user != requester.id)
            && (reply == Forbidden ==> after == reviews)
  {
    FoundById(reviews, i);
  }

  /** A permitted edit that fails validation answers 400 and stores nothing. */
  lemma {:induction false} PatchInvalidStoresNothing(reviews: seq<Review>, products: set<nat>, requester: User,
                                                     i: nat, p: ReviewPatch, fieldsValid: bool)
    requires ReviewKeys(reviews) && i < |reviews|
    requires requester.isStaff || reviews[i].user == requester.id
    requires !PatchValid(p, products, fieldsValid)
    ensures PatchReview(reviews, products, requester, reviews[i].id, p, fieldsValid) == (PatchRefused, reviews)
  {
    FoundById(reviews, i);
  }

  /** A permitted valid edit answers 200 and changes only the supplied fields of the one
      review the pk names; its author, id and creation time stay, and so do all other
      reviews. */
  lemma {:induction false} PatchChangesOnlySupplied(reviews: seq<Review>, products: set<nat>, requester: User,
                                                    i: nat, p: ReviewPatch, fieldsValid: bool)
    requires ReviewKeys(reviews) && i < |reviews|
    requires requester.isStaff || reviews[i].user == requester.id
    requires PatchValid(p, products, fieldsValid)
    ensures var (reply, after) := PatchReview(reviews, products, requester, reviews[i].id, p, fieldsValid);
            && reply.Patched? && PatchCode(reply) == 200
            && |after| == |reviews|
            && after[i] == reply.review
            && reply.review.id == reviews[i].id && reply.review.user == reviews[i].user
            && reply.review.createdAt == reviews[i].createdAt
            && (p.rating.None? ==> reply.review.rating == reviews[i].rating)
            && (p.rating.Some? ==> reply.review.rating == p.rating.value)
            && (p.comment.None? ==> reply.review.comment == reviews[i].comment)
            && (p.comment.Some? ==> reply.review.comment == p.comment.value)
            && (p.approved.None? ==> reply.review.approved == reviews[i].approved)
            && (p.approved.Some? ==> reply.review.approved == p.approved.value)
            && (p.product.None? ==> reply.review.product == reviews[i].product)
            && (p.product.Some? ==> reply.review.product == Some(p.product.value))
            && (forall j :: 0 <= j < |reviews| && j != i ==> after[j] == reviews[j])
            && ReviewKeys(after)
  {
    FoundById(reviews, i);
    UpdateKeepsUnique(reviews, (x: Review) => x.id, i, ApplyPatch(reviews[i], p));
  }

  /** Sending the same edit twice stores the same table as sending it once. */
  lemma {:induction false} PatchIdempotent(reviews: seq<Review>, products: set<nat>, requester: User,
                                           pk: nat, p: ReviewPatch, fieldsValid: bool)
    requires ReviewKeys(reviews)
    ensures var once := PatchReview(reviews, products, requester, pk, p, fieldsValid).1;
            PatchReview(once, products, requester, pk, p, fieldsValid).1 == once
  {
    var (reply, once) := PatchReview(reviews, products, requester, pk, p, fieldsValid);
    if reply.Patched? {
      var i := Get(reviews, (x: Review) => x.id == pk).index;
      PatchChangesOnlySupplied(reviews, products, requester, i, p, fieldsValid);
      FoundById(once, i);
      assert ApplyPatch(once[i], p) == once[i];
      assert once[i := once[i]] == once;
    }
  }

  /** An author who is not staff may approve their own review: approval is an ordinary
      writable field, not reserved to staff. */
  lemma {:induction false} AuthorMayApprove(reviews: seq<Review>, products: set<nat>, requester: User, i: nat)
    requires ReviewKeys(reviews) && i < |reviews| && reviews[i].user == requester.id
    ensures var (reply, after) :=
              PatchReview(reviews, products, requester, reviews[i].id, ReviewPatch(None, None, Some(true), None), true);
            reply.Patched? && after[i].approved
  {
    PatchChangesOnlySupplied(reviews, products, requester, i, ReviewPatch(None, None, Some(true), None), true);
  }

  /** With unique ids, the lookup by a stored review's id finds that review. */
  lemma {:induction false} FoundById(reviews: seq<Review>, i: nat)
    requires ReviewKeys(reviews) && i < |reviews|
    ensures Get(reviews, (x: Review) => x.id == reviews[i].id) == Found(i)
  {
    GetByUniqueKey(reviews, (x: Review) => x.id, reviews[i].id);
  }

  /** The stored reviews, with the ids the database keeps unique. */
  class ReviewTable {
    var reviews: seq<Review>

    ghost predicate Valid()
      reads this
    {
      ReviewKeys(reviews)
    }

    constructor (reviews: seq<Review>)
      requires ReviewKeys(reviews)
      ensures Valid() && this.reviews == reviews
    {
      this.reviews := reviews;
    }

    /** perform_create: store the validated payload with the requester as author. */
    method Create(products: set<nat>, requester: User, p: ReviewPayload, fieldsValid: bool, now: Time)
      returns (reply: CreateReply)
      requires Valid()
      modifies this
      ensures Valid()
      ensures (reply, reviews) == CreateReview(old(reviews), products, requester, p, fieldsValid, now)
    {
      CreateKeepsKeys(reviews, products, requester, p, fieldsValid, now);
      if !CreateValid(p, products, fieldsValid) {
        reply := CreateRefused;
        return;
      }
      var review := Review(NextId(reviews, (x: Review) => x.id), requester.id, p.product,
                           p.rating, p.comment, p.approved.GetOr(false), now);
      reviews := reviews + [review];
      reply := Created(review);
    }

    /** ReviewDetail.patch: the lookup, the permission check, validation, then the
        in-place update of the one stored review. */
    method Patch(products: set<nat>, requester: User, pk: nat, p: ReviewPatch, fieldsValid: bool)
      returns (reply: PatchReply)
      requires Valid()
      modifies this
      ensures Valid()
      ensures (reply, reviews) == PatchReview(old(reviews), products, requester, pk, p, fieldsValid)
    {
      var found := Get(reviews, (x: Review) => x.id == pk);
      if found.DoesNotExist? {
        reply := ReviewNotFound;
        return;
      }
      if found.MultipleObjectsReturned? {
        reply := LookupFailed;
        return;
      }
      var i := found.index;
      if !(requester.isStaff || reviews[i].user == requester.id) {
        reply := Forbidden;
        return;
      }
      if !PatchValid(p, products, fieldsValid) {
        reply := PatchRefused;
        return;
      }
      var r := ApplyPatch(reviews[i], p);
      UpdateKeepsUnique(reviews, (x: Review) => x.id, i, r);
      reviews := reviews[i := r];
      reply := Patched(r);
    }
  }
}
