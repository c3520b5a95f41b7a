/**
 * The records of the marketplace's relational store (app/models.py), with the
 * fields the routers actually read and write, and the small result types the
 * handlers use in place of raised HTTP exceptions.
 */
module Models {

  datatype Option<T> = None | Some(value: T)

  /** An HTTP error raised by a handler, or the end of a random-value oracle. */
  datatype Error =
    | Http(status: int, detail: string)
      // The sequence of random draws ran out before a retry loop found a free name;
      // the source would keep drawing.
    | DrawsExhausted

  datatype Result<T> = Ok(value: T) | Err(error: Error)

  /** Python truthiness of an optional string: None and "" are false. */
  predicate Truthy(s: Option<string>) {
    s.Some? && s.value != ""
  }

  datatype College = College(id: int, name: string, slug: string, domain: Option<string>)

  datatype User = User(
    id: int,
    email: string,
    username: string,
    name: Option<string>,
    picture: Option<string>,
    phoneNumber: Option<string>,
    isPhoneVerified: bool,
    gender: Option<string>,
    rollNumber: Option<string>,
    officialName: Option<string>,
    collegeId: Option<int>,
    // Written by the profile handlers; never linked to collegeId by the code.
    collegeSlug: Option<string>,
    isCollegeVerified: bool
  )

  datatype ProductType = Buy | Sell | Rent | Lost | Found

  /** Visibility tiers; the listing filter handles only the first three. */
  datatype ProductVisibility = Public | SameCollege | SameGender | SameCity

  datatype ProductStatus = Active | OtherStatus(name: string)

  datatype Product = Product(
    id: int,
    title: string,
    slug: string,
    description: string,
    price: int,
    productType: ProductType,
    visibility: ProductVisibility,
    isDigital: bool,
    city: Option<string>,
    categoryId: Option<int>,
    userId: int,
    status: ProductStatus
  )

  datatype Category = Category(id: int, name: string, slug: string, isVerified: bool)

  datatype Otp = Otp(phoneNumber: string, code: string, expiresAt: int, isUsed: bool)

  /** An uploaded file, reduced to what validation looks at. */
  datatype Upload = Upload(contentType: string, size: nat)

  /** A stored product image; the URL produced by the image pipeline is not modelled. */
  datatype ProductImage = ProductImage(productId: int, upload: Upload)

  /**
   * The index of the first element satisfying p: what a store query followed
   * by `.first()` returns, in store order.
   */
  function FirstIndex<T>(s: seq<T>, p: T -> bool): (r: Option<nat>)
    ensures r.Some? ==> r.value < |s| && p(s[r.value])
    ensures r.Some? ==> forall j :: 0 <= j < r.value ==> !p(s[j])
    ensures r.None? <==> forall j :: 0 <= j < |s| ==> !p(s[j])
  {
    if s == [] then None
    else if p(s[0]) then Some(0)
    else match FirstIndex(s[1..], p)
      case None => None
      case Some(i) => Some(i + 1)
  }

  /** The record a `college_id` foreign key resolves to (the `user.college` relationship). */
  function CollegeById(colleges: seq<College>, id: Option<int>): (r: Option<College>)
    ensures r.Some? ==> id.Some? && r.value in colleges && r.value.id == id.value
    ensures r.None? ==> id.None? || forall c :: c in colleges ==> c.id != id.value
  {
    if id.None? then None
    else match FirstIndex(colleges, (c: College) => c.id == id.value)
      case None => None
      case Some(i) => Some(colleges[i])
  }
}
