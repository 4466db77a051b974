/** The per-user endpoints: past trips, the wishlist (listing and get-or-create add),
    notifications and updates (owner listings and "mark read"), and the profile image
    update. */
module ProfileViews {
  import opened Wrappers
  import opened Numbers
  import opened Tables
  import opened Requests
  import opened Models

  // ----- history -----

  predicate Past(t: Trip, now: Time) {
    t.date < now
  }

  /** HistoryView.get_queryset: every stored trip dated strictly before `now`, whoever
      made it, in stored order. */
  function PastTrips(trips: seq<Trip>, now: Time): (r: seq<Trip>)
    ensures forall t :: t in r <==> t in trips && t.date < now
    ensures forall t :: multiset(r)[t] == if t.date < now then multiset(trips)[t] else 0
  {
    Filter(trips, (t: Trip) => Past(t, now))
  }

  /** A trip in the history stays there as time passes: a later clock lists every trip
      an earlier one does, each at least as often. */
  lemma {:induction false} HistoryGrowsWithTime(trips: seq<Trip>, earlier: Time, later: Time)
    requires earlier <= later
    ensures multiset(PastTrips(trips, earlier)) <= multiset(PastTrips(trips, later))
  {
    var a, b := PastTrips(trips, earlier), PastTrips(trips, later);
    forall t: Trip ensures multiset(a)[t] <= multiset(b)[t] {
      if t.date < earlier {
        assert t.date < later;
      }
    }
  }

  // ----- wishlist -----

  predicate OwnedEntry(e: WishlistEntry, user: nat) {
    e.user == user
  }

  /** WishlistView.get_queryset: the requester's entries, in stored order. */
  function WishlistOf(entries: seq<WishlistEntry>, requester: User): (r: seq<WishlistEntry>)
    ensures forall e :: e in r <==> e in entries && e.user == requester.id
    ensures multiset(r) <= multiset(entries)
  {
    var r := Filter(entries, (e: WishlistEntry) => OwnedEntry(e, requester.id));
    CountsGiveMembers(r, entries, (e: WishlistEntry) => OwnedEntry(e, requester.id));
    r
  }

  predicate ForPair(e: WishlistEntry, user: nat, product: nat) {
    e.user == user && e.product == product
  }

  /** The keys the table keeps: unique ids, and at most one entry per (user, product),
      which the add keeps through get_or_create. */
  predicate WishlistKeys(entries: seq<WishlistEntry>) {
    && UniqueBy(entries, (e: WishlistEntry) => e.id)
    && forall i, j :: 0 <= i < j < |entries| ==> !ForPair(entries[j], entries[i].user, entries[i].product)
  }

  /** 201 added, 200 already there, 400 no product id, 404 unknown product, 500 for an
      id the ORM cannot convert (or a lookup that finds two rows). */
  datatype WishReply = Added | AlreadyListed | ProductIdMissing | ProductNotFound | WishFailed

  function WishCode(r: WishReply): nat {
    match r
    case Added => 201
    case AlreadyListed => 200
    case ProductIdMissing => 400
    case ProductNotFound => 404
    case WishFailed => 500
  }

  /** WishlistView.post: look up the product request.data names, then get_or_create the
      (requester, product) entry. */
  function AddToWishlist(entries: seq<WishlistEntry>, products: seq<Product>, requester: User,
                         productId: Datum): (WishReply, seq<WishlistEntry>)
  {
    if !Truthy(productId) then (ProductIdMissing, entries)
    else
      match KeyOf(productId)
      case IntKey(k) =>
        (match Get(products, (p: Product) => p.id == k)
         case DoesNotExist => (ProductNotFound, entries)
         case MultipleObjectsReturned => (WishFailed, entries)
         case Found(i) => GetOrCreate(entries, requester.id, products[i].id))
      case _ => (WishFailed, entries)
  }

  /** Wishlist.objects.get_or_create(user=..., product=...). */
  function GetOrCreate(entries: seq<WishlistEntry>, user: nat, product: nat): (WishReply, seq<WishlistEntry>)
  {
    match Get(entries, (e: WishlistEntry) => ForPair(e, user, product))
    case Found(_) => (AlreadyListed, entries)
    case MultipleObjectsReturned => (WishFailed, entries)
    case DoesNotExist =>
      (Added, entries + [WishlistEntry(NextId(entries, (e: WishlistEntry) => e.id), user, product)])
  }

  /** No product id, an unknown product or an unconvertible id adds nothing. */
  lemma {:induction false} WishlistRefusals(entries: seq<WishlistEntry>, products: seq<Product>, requester: User,
                                            productId: Datum)
    ensures var (reply, after) := AddToWishlist(entries, products, requester, productId);
            && (reply == ProductIdMissing <==> !Truthy(productId))
            && (Truthy(productId) && KeyOf(productId).BadKey? ==> reply == WishFailed)
            && ((Truthy(productId) && KeyOf(productId).IntKey?
                 && forall p :: p in products ==> p.id != KeyOf(productId).key) ==> reply == ProductNotFound)
            && (reply != Added ==> after == entries)
  {
    if Truthy(productId) && KeyOf(productId).IntKey? {
      var k := KeyOf(productId).key;
      assert forall j :: 0 <= j < |products| ==> products[j] in products;
    }
  }

  /** After a successful add exactly one entry holds the pair: a new one (201) exactly
      when none did before, otherwise the table is untouched (200). */
  lemma {:induction false} GetOrCreateExactlyOne(entries: seq<WishlistEntry>, user: nat, product: nat)
    requires WishlistKeys(entries)
    ensures var (reply, after) := GetOrCreate(entries, user, product);
            && (reply == Added || reply == AlreadyListed)
            && (reply == Added <==> forall e :: e in entries ==> !ForPair(e, user, product))
            && (reply == AlreadyListed ==> after == entries)
            && (reply == Added ==> after == entries + [after[|entries|]] && ForPair(after[|entries|], user, product))
            && Get(after, (e: WishlistEntry) => ForPair(e, user, product)).Found?
            && WishlistKeys(after)
  {
    var pair := (e: WishlistEntry) => ForPair(e, user, product);
    PairLookupUnique(entries, user, product);
    assert forall j :: 0 <= j < |entries| ==> entries[j] in entries;
    var (reply, after) := GetOrCreate(entries, user, product);
    if reply == Added {
      var e := after[|entries|];
      assert after == entries + [e];
      AppendKeepsUnique(entries, (x: WishlistEntry) => x.id, e);
      forall i, j | 0 <= i < j < |after| ensures !ForPair(after[j], after[i].user, after[i].product) {
        if j == |entries| {
          assert after[i] in entries;
        }
      }
      assert forall j :: 0 <= j < |entries| ==> after[j] == entries[j];
      assert Get(after, pair) == Found(|entries|);
    }
  }

  /** Adding the same product twice: the second add answers 200 and changes nothing. */
  lemma {:induction false} WishlistAddIdempotent(entries: seq<WishlistEntry>, products: seq<Product>,
                                                 requester: User, productId: Datum)
    requires WishlistKeys(entries)
    ensures var (first, once) := AddToWishlist(entries, products, requester, productId);
            var (second, twice) := AddToWishlist(once, products, requester, productId);
            && twice == once
            && (first == Added || first == AlreadyListed ==> second == AlreadyListed)
  {
    var (first, once) := AddToWishlist(entries, products, requester, productId);
    if first == Added || first == AlreadyListed {
      var k := KeyOf(productId).key;
      var i := Get(products, (p: Product) => p.id == k).index;
      GetOrCreateExactlyOne(entries, requester.id, products[i].id);
      GetOrCreateExactlyOne(once, requester.id, products[i].id);
    }
  }

  /** With at most one entry per pair, the pair lookup never finds two rows. */
  lemma {:induction false} PairLookupUnique(entries: seq<WishlistEntry>, user: nat, product: nat)
    requires WishlistKeys(entries)
    ensures !Get(entries, (e: WishlistEntry) => ForPair(e, user, product)).MultipleObjectsReturned?
  {
    var pair := (e: WishlistEntry) => ForPair(e, user, product);
    forall i, j | 0 <= i < j < |entries| ensures !(pair(entries[i]) && pair(entries[j])) {
      if pair(entries[i]) {
        assert entries[i].user == user && entries[i].product == product;
      }
    }
  }

  // ----- notifications and updates -----

  /** Newest first: order_by('-timestamp'). */
  function NewestItemFirst(): (FeedItem, FeedItem) -> bool {
    (a: FeedItem, b: FeedItem) => a.timestamp >= b.timestamp
  }

  lemma {:induction false} NewestItemFirstIsPreorder()
    ensures TotalPreorder(NewestItemFirst())
  {
    var le := NewestItemFirst();
    assert forall a, b :: le(a, b) <==> a.timestamp >= b.timestamp;
  }

  predicate OwnedItem(x: FeedItem, user: nat) {
    x.user == user
  }

  /** NotificationView.get_queryset and UpdateListView.get_queryset. */
  function FeedOf(items: seq<FeedItem>, requester: User): seq<FeedItem> {
    SortBy(Filter(items, (x: FeedItem) => OwnedItem(x, requester.id)), NewestItemFirst())
  }

  /** The listing holds exactly the requester's items, newest first. */
  lemma {:induction false} FeedOfRequester(items: seq<FeedItem>, requester: User)
    ensures var r := FeedOf(items, requester);
            && (forall x :: x in r <==> x in items && x.user == requester.id)
            && multiset(r) <= multiset(items)
            && Sorted(r, NewestItemFirst())
  {
    var keep := (x: FeedItem) => OwnedItem(x, requester.id);
    NewestItemFirstIsPreorder();
    SortedSelection(items, keep, NewestItemFirst());
    CountsGiveMembers(FeedOf(items, requester), items, keep);
  }

  /** 200 with the item, 404 when the requester owns no item with that id, 400 for
      any other failure (an id that does not convert, a failed save). */
  datatype ReadReply = MarkedRead(item: FeedItem) | ItemNotFound | ReadFailed

  function ReadCode(r: ReadReply): nat {
    match r
    case MarkedRead(_) => 200
    case ItemNotFound => 404
    case ReadFailed => 400
  }

  predicate FeedKeys(items: seq<FeedItem>) {
    UniqueBy(items, (x: FeedItem) => x.id)
  }

  predicate IsOwnedItem(x: FeedItem, id: int, user: nat) {
    x.id == id && x.user == user
  }

  /** NotificationView.put and UpdateListView.put: the item with URL id `pk` owned by
      the requester gets is_read set and saved; `saveFails` stands for a save that
      raises. */
  function MarkRead(items: seq<FeedItem>, requester: User, pk: Option<string>, saveFails: bool)
    : (ReadReply, seq<FeedItem>)
  {
    var key := if pk.Some? then KeyOf(Str(pk.value)) else NullKey;
    match key
    case NullKey => (ItemNotFound, items)
    case BadKey => (ReadFailed, items)
    case IntKey(id) =>
      match Get(items, (x: FeedItem) => IsOwnedItem(x, id, requester.id))
      case DoesNotExist => (ItemNotFound, items)
      case MultipleObjectsReturned => (ReadFailed, items)
      case Found(i) =>
        if saveFails then (ReadFailed, items)
        else
          var x := items[i].(isRead := true);
          (MarkedRead(x), items[i := x])
  }

  /** Marking the requester's own item read sets is_read on that item only: every other
      item, and every other field of it, stays as it was. */
  lemma {:induction false} MarkReadOwned(items: seq<FeedItem>, requester: User, i: nat)
    requires FeedKeys(items) && i < |items| && items[i].user == requester.id
    ensures var (reply, after) := MarkRead(items, requester, Some(IntText(items[i].id)), false);
            && reply == MarkedRead(after[i])
            && |after| == |items|
            && after[i] == items[i].(isRead := true)
            && (forall j :: 0 <= j < |items| && j != i ==> after[j] == items[j])
            && FeedKeys(after)
  {
    KeyOfText(items[i].id);
    GetByUniqueKey(items, (x: FeedItem) => x.id, items[i].id);
    var owned := (x: FeedItem) => IsOwnedItem(x, items[i].id, requester.id);
    assert Get(items, owned) == Found(i) by {
      assert forall j :: 0 <= j < |items| && j != i ==> items[j].id != items[i].id;
    }
    UpdateKeepsUnique(items, (x: FeedItem) => x.id, i, items[i].(isRead := true));
  }

  /** An id the requester does not own, or that no item has, is 404 and nothing changes,
      even when another user's item has that id. */
  lemma {:induction false} MarkReadForeign(items: seq<FeedItem>, requester: User, id: nat, saveFails: bool)
    requires forall x :: x in items && x.id == id ==> x.user != requester.id
    ensures MarkRead(items, requester, Some(IntText(id)), saveFails) == (ItemNotFound, items)
  {
    KeyOfText(id);
    assert forall j :: 0 <= j < |items| ==> items[j] in items;
  }

  /** Marking twice is marking once. */
  lemma {:induction false} MarkReadIdempotent(items: seq<FeedItem>, requester: User, pk: Option<string>)
    requires FeedKeys(items)
    ensures var once := MarkRead(items, requester, pk, false).1;
            MarkRead(once, requester, pk, false).1 == once
  {
    var (reply, once) := MarkRead(items, requester, pk, false);
    if reply.MarkedRead? {
      var id := KeyOf(Str(pk.value)).key;
      var owned := (x: FeedItem) => IsOwnedItem(x, id, requester.id);
      var i := Get(items, owned).index;
      var x := items[i].(isRead := true);
      GetAfterUpdate(items, owned, i, x);
      assert once[i := once[i].(isRead := true)] == once;
    }
  }

  // ----- profile image -----

  predicate ProfileKeys(profiles: seq<Profile>) {
    UniqueBy(profiles, (p: Profile) => p.user)
  }

  /** The `image` key of the request body: None when absent, Some(None) for null,
      Some(Some(name)) for a file name. */
  type ImageField = Option<Option<string>>

  /** The image after the view's handling: an absent key keeps it, "" or null clears
      it, a name replaces it. */
  function NewImage(current: Option<string>, image: ImageField): (r: Option<string>)
    ensures image.None? ==> r == current
    ensures image == Some(Some("")) || image == Some(None) ==> r.None?
    ensures image.Some? && image.value.Some? && image.value.value != "" ==> r == image.value
  {
    match image
    case None => current
    case Some(None) => None
    case Some(Some(name)) => if name == "" then None else Some(name)
  }

  datatype ProfileReply = ProfileSaved(profile: Profile) | ProfileInvalid | ProfileMissing

  function ProfileCode(r: ProfileReply): nat {
    match r
    case ProfileSaved(_) => 200
    case ProfileInvalid => 400
    case ProfileMissing => 500
  }

  /** ProfileDetail.put, image handling: find the requester's profile (its absence is an
      unhandled DoesNotExist), apply the image rule, and save when the serializer
      accepts the body (`valid`). */
  function PutProfile(profiles: seq<Profile>, requester: User, image: ImageField, valid: bool)
    : (ProfileReply, seq<Profile>)
  {
    match Get(profiles, (p: Profile) => p.user == requester.id)
    case Found(i) =>
      if !valid then (ProfileInvalid, profiles)
      else
        var p := profiles[i].(image := NewImage(profiles[i].image, image));
        (ProfileSaved(p), profiles[i := p])
    case _ => (ProfileMissing, profiles)
  }

  /** A valid put changes only the requester's profile image, by the image rule; an
      invalid one stores nothing. */
  lemma {:induction false} PutProfileImage(profiles: seq<Profile>, requester: User, image: ImageField,
                                           valid: bool, i: nat)
    requires ProfileKeys(profiles) && i < |profiles| && profiles[i].user == requester.id
    ensures var (reply, after) := PutProfile(profiles, requester, image, valid);
            && (!valid ==> reply == ProfileInvalid && after == profiles)
            && (valid ==>
                  && reply == ProfileSaved(after[i])
                  && |after| == |profiles|
                  && after[i].user == requester.id
                  && after[i].image == NewImage(profiles[i].image, image)
                  && (forall j :: 0 <= j < |profiles| && j != i ==> after[j] == profiles[j])
                  && ProfileKeys(after))
  {
    GetByUniqueKey(profiles, (p: Profile) => p.user, requester.id);
    assert Get(profiles, (p: Profile) => p.user == requester.id) == Found(i);
    UpdateKeepsUnique(profiles, (p: Profile) => p.user, i,
                      profiles[i].(image := NewImage(profiles[i].image, image)));
  }

  /** A requester without a profile gets a 500 and nothing changes. */
  lemma {:induction false} PutWithoutProfile(profiles: seq<Profile>, requester: User, image: ImageField, valid: bool)
    requires forall p :: p in profiles ==> p.user != requester.id
    ensures PutProfile(profiles, requester, image, valid) == (ProfileMissing, profiles)
  {
    assert forall j :: 0 <= j < |profiles| ==> profiles[j] in profiles;
  }

  // ----- the stored tables -----

  /** The wishlist table. */
  class WishlistTable {
    var entries: seq<WishlistEntry>

    ghost predicate Valid()
      reads this
    {
      WishlistKeys(entries)
    }

    constructor (entries: seq<WishlistEntry>)
      requires WishlistKeys(entries)
      ensures Valid() && this.entries == entries
    {
      this.entries := entries;
    }

    /** WishlistView.post. */
    method Add(products: seq<Product>, requester: User, productId: Datum) returns (reply: WishReply)
      requires Valid()
      modifies this
      ensures Valid()
      ensures (reply, entries) == AddToWishlist(old(entries), products, requester, productId)
    {
      if !Truthy(productId) {
        reply := ProductIdMissing;
        return;
      }
      var key := KeyOf(productId);
      if !key.IntKey? {
        reply := WishFailed;
        return;
      }
      var found := Get(products, (p: Product) => p.id == key.key);
      if found.DoesNotExist? {
        reply := ProductNotFound;
        return;
      }
      if found.MultipleObjectsReturned? {
        reply := WishFailed;
        return;
      }
      var product := products[found.index].id;
      GetOrCreateExactlyOne(entries, requester.id, product);
      var existing := Get(entries, (e: WishlistEntry) => ForPair(e, requester.id, product));
      if existing.Found? {
        reply := AlreadyListed;
      } else if existing.MultipleObjectsReturned? {
        reply := WishFailed;
      } else {
        entries := entries + [WishlistEntry(NextId(entries, (e: WishlistEntry) => e.id), requester.id, product)];
        reply := Added;
      }
    }
  }

  /** A Notification or Update table. */
  class FeedTable {
    var items: seq<FeedItem>

    ghost predicate Valid()
      reads this
    {
      FeedKeys(items)
    }

    constructor (items: seq<FeedItem>)
      requires FeedKeys(items)
      ensures Valid() && this.items == items
    {
      this.items := items;
    }

    /** NotificationView.put / UpdateListView.put. */
    method MarkItemRead(requester: User, pk: Option<string>, saveFails: bool) returns (reply: ReadReply)
      requires Valid()
      modifies this
      ensures Valid()
      ensures (reply, items) == MarkRead(old(items), requester, pk, saveFails)
    {
      var key := if pk.Some? then KeyOf(Str(pk.value)) else NullKey;
      if key.NullKey? {
        reply := ItemNotFound;
        return;
      }
      if key.BadKey? {
        reply := ReadFailed;
        return;
      }
      var found := Get(items, (x: FeedItem) => IsOwnedItem(x, key.key, requester.id));
      if found.DoesNotExist? {
        reply := ItemNotFound;
        return;
      }
      if found.MultipleObjectsReturned? || saveFails {
        reply := ReadFailed;
        return;
      }
      var i := found.index;
      var x := items[i].(isRead := true);
      UpdateKeepsUnique(items, (y: FeedItem) => y.id, i, x);
      items := items[i := x];
      reply := MarkedRead(x);
    }
  }

  /** The profile table, one profile per user. */
  class ProfileTable {
    var profiles: seq<Profile>

    ghost predicate Valid()
      reads this
    {
      ProfileKeys(profiles)
    }

    constructor (profiles: seq<Profile>)
      requires ProfileKeys(profiles)
      ensures Valid() && this.profiles == profiles
    {
      this.profiles := profiles;
    }

    /** ProfileDetail.put: the image handling and the save. */
    method Put(requester: User, image: ImageField, valid: bool) returns (reply: ProfileReply)
      requires Valid()
      modifies this
      ensures Valid()
      ensures (reply, profiles) == PutProfile(old(profiles), requester, image, valid)
    {
      var found := Get(profiles, (p: Profile) => p.user == requester.id);
      if !found.Found? {
        reply := ProfileMissing;
        return;
      }
      var i := found.index;
      if !valid {
        reply := ProfileInvalid;
        return;
      }
      var p := profiles[i].(image := NewImage(profiles[i].image, image));
      UpdateKeepsUnique(profiles, (q: Profile) => q.user, i, p);
      profiles := profiles[i := p];
      reply := ProfileSaved(p);
    }
  }
}
