/** The computed fields of a serialized review: the product summary, the author's display
    name, e-mail and profile image. A review's related objects arrive as options: its
    product (none when the review has none), its author and the author's profile (none
    when the profile does not exist). */
module ReviewSerializers {
  import opened Wrappers
  import opened Text
  import opened Models

  /** The {id, title} summary of a review's product. */
  datatype ProductRef = ProductRef(id: nat, title: string)

  /** get_product. */
  function ProductOf(product: Option<Product>): (r: Option<ProductRef>)
    ensures r.None? <==> product.None?
    ensures r.Some? ==> r.value.id == product.value.id && r.value.title == product.value.title
  {
    match product
    case None => None
    case Some(p) => Some(ProductRef(p.id, p.title))
  }

  /** "first last" with surrounding whitespace removed. */
  function FullName(u: User): string {
    Strip(u.firstName + " " + u.lastName)
  }

  /** get_Name: the stripped full name, or the username when that is empty. */
  function DisplayName(user: Option<User>): (r: Option<string>)
    ensures r.None? <==> user.None?
  {
    match user
    case None => None
    case Some(u) => var full := FullName(u); Some(if full != "" then full else u.username)
  }

  /** The display name is either the username, when the full name is blank, or the
      full name with no whitespace at either end. */
  lemma {:induction false} DisplayNameFallback(u: User)
    ensures var name := DisplayName(Some(u)).value;
            && (FullName(u) == "" ==> name == u.username)
            && (FullName(u) != "" ==> name == FullName(u) && !IsSpace(name[0]) && !IsSpace(name[|name| - 1]))
  {
    StripEnds(u.firstName + " " + u.lastName);
  }

  /** Names without surrounding whitespace are shown joined by one space; a blank last
      name leaves the first name alone. */
  lemma {:induction false} DisplayNameOfPlainNames(u: User)
    requires u.firstName != "" && !IsSpace(u.firstName[0]) && !IsSpace(u.firstName[|u.firstName| - 1])
    requires u.lastName == "" || !IsSpace(u.lastName[|u.lastName| - 1])
    ensures u.lastName != "" ==> DisplayName(Some(u)) == Some(u.firstName + " " + u.lastName)
    ensures u.lastName == "" ==> DisplayName(Some(u)) == Some(u.firstName)
  {
    var joined := u.firstName + " " + u.lastName;
    if u.lastName != "" {
      assert joined[0] == u.firstName[0];
      assert joined[|joined| - 1] == u.lastName[|u.lastName| - 1];
      StripNoOp(joined);
    } else {
      assert joined == u.firstName + " ";
      assert TrimStart(joined) == joined by {
        assert !IsSpace(joined[0]);
      }
      assert IsSpace(joined[|joined| - 1]);
      assert TrimEnd(joined) == TrimEnd(u.firstName) by {
        assert joined[..|joined| - 1] == u.firstName;
      }
      StripNoOp(u.firstName);
    }
  }

  /** get_Email. */
  function Email(user: Option<User>): (r: Option<string>)
    ensures r.None? <==> user.None?
    ensures r.Some? ==> r.value == user.value.email
  {
    match user
    case None => None
    case Some(u) => Some(u.email)
  }

  /** get_ProfileImage. `url` is the storage URL of an image file name; `absolute` is
      build_absolute_uri of the request in the serializer context, when there is one. */
  function ProfileImage(user: Option<User>, profile: Option<Profile>, url: string -> string,
                        absolute: Option<string -> string>): (r: Option<string>)
  {
    if user.None? || profile.None? then None
    else
      var image := profile.value.image;
      if image.None? || image.value == "" then None
      else
        var u := url(image.value);
        if u != "" && absolute.Some? then Some(absolute.value(u)) else Some(u)
  }

  /** No author, no profile or no image: no profile image. An image with a request in
      context is its absolute URI, without one its URL as stored. */
  lemma {:induction false} ProfileImageCases(user: Option<User>, profile: Option<Profile>, url: string -> string,
                                              absolute: Option<string -> string>)
    ensures var r := ProfileImage(user, profile, url, absolute);
            && (r.None? <==> user.None? || profile.None? || profile.value.image in {None, Some("")})
            && (r.Some? && absolute.None? ==> r.value == url(profile.value.image.value))
            && (r.Some? && absolute.Some? && url(profile.value.image.value) != "" ==>
                  r.value == absolute.value(url(profile.value.image.value)))
  {
    var r := ProfileImage(user, profile, url, absolute);
    if user.Some? && profile.Some? {
      var image := profile.value.image;
      assert image in {None, Some("")} <==> image.None? || image.value == "";
    }
  }
}
