/** The stored records the views read and write. Times are abstract instants, ordered
    as integers; identifiers are the auto-increment primary keys. */
module Models {
  import opened Wrappers
  import opened Numbers

  type Time = int

  /** django.contrib.auth's User, the fields the views and serializers read. */
  datatype User = User(id: nat, username: string, firstName: string, lastName: string,
                       email: string, isStaff: bool)

  /** A catalogue product. `image` is the direct image field (None when the model has
      none, "" when it is empty); `images` the related images in primary-key order,
      each with its optional image_path (None when the relation is absent). */
  datatype Product = Product(id: nat, slug: string, title: string, description: string,
                             price: Price, status: string, date: Time,
                             categories: set<nat>, location: Option<nat>,
                             image: Option<string>, images: Option<seq<Option<string>>>)

  /** The five product statuses change_status accepts. */
  const Statuses: seq<string> := ["Deleted", "Active", "Published", "Archived", "Draft"]

  /** The soft-deleted status the default listing hides. */
  const Deleted: string := "Deleted"

  /** A review; `approved` is false unless set. */
  datatype Review = Review(id: nat, user: nat, product: Option<nat>, rating: nat,
                           comment: string, approved: bool, createdAt: Time)

  /** The only item type a visit may name. */
  const ProductItem: string := "product"

  /** A recorded visit; (user, itemId, itemType) is declared unique. */
  datatype Visit = Visit(id: nat, user: nat, itemId: nat, itemType: string, timestamp: Time)

  datatype WishlistEntry = WishlistEntry(id: nat, user: nat, product: nat)

  /** A Notification or an Update: both are owned, timestamped and carry a read flag. */
  datatype FeedItem = FeedItem(id: nat, user: nat, isRead: bool, timestamp: Time)

  datatype Trip = Trip(id: nat, user: nat, date: Time)

  /** A user's profile with its optional image file name. */
  datatype Profile = Profile(user: nat, image: Option<string>)
}
