/**
 * The relational store the handlers share: one table per record kind, held as
 * sequences in insertion order. Rows are never deleted by this core, so the
 * autoincrement key of a row is its position plus one.
 */
module Database {
  import opened Models

  /** Autoincrement ids, unique usernames and emails, and the two trust-flag invariants. */
  ghost predicate ValidUsers(users: seq<User>) {
    && (forall i :: 0 <= i < |users| ==> users[i].id == i + 1)
    && (forall i, j :: 0 <= i < j < |users| ==> users[i].username != users[j].username)
    && (forall i, j :: 0 <= i < j < |users| ==> users[i].email != users[j].email)
    // College verification is only ever true for a user linked to a college.
    && (forall i :: 0 <= i < |users| && users[i].isCollegeVerified ==> users[i].collegeId.Some?)
    // A verified phone flag always comes with a stored phone number.
    && (forall i :: 0 <= i < |users| && users[i].isPhoneVerified ==> users[i].phoneNumber.Some?)
  }

  /** Autoincrement ids, owners that exist, unique slugs. */
  ghost predicate ValidProducts(products: seq<Product>, userCount: nat) {
    && (forall i :: 0 <= i < |products| ==> products[i].id == i + 1)
    && (forall i :: 0 <= i < |products| ==> 1 <= products[i].userId <= userCount)
    && (forall i, j :: 0 <= i < j < |products| ==> products[i].slug != products[j].slug)
  }

  ghost predicate ValidCategories(categories: seq<Category>) {
    && (forall i :: 0 <= i < |categories| ==> categories[i].id == i + 1)
    && (forall i, j :: 0 <= i < j < |categories| ==> categories[i].slug != categories[j].slug)
  }

  /** A product table stays valid when users are only appended. */
  lemma ProductsValidForMoreUsers(products: seq<Product>, n: nat, m: nat)
    requires ValidProducts(products, n) && n <= m
    ensures ValidProducts(products, m)
  {
  }

  /** Appending a user with the next id, a new username and a new email keeps the user table valid. */
  lemma AppendUserKeepsValid(users: seq<User>, u: User)
    requires ValidUsers(users)
    requires u.id == |users| + 1
    requires forall i :: 0 <= i < |users| ==> users[i].username != u.username && users[i].email != u.email
    requires u.isCollegeVerified ==> u.collegeId.Some?
    requires u.isPhoneVerified ==> u.phoneNumber.Some?
    ensures ValidUsers(users + [u])
  {
  }

  /** Replacing a user by a record with the same id, username and email, and trust
      flags that still satisfy their invariants, keeps the user table valid. */
  lemma UpdateUserKeepsValid(users: seq<User>, k: nat, u: User)
    requires ValidUsers(users) && k < |users|
    requires u.id == users[k].id && u.username == users[k].username && u.email == users[k].email
    requires u.isCollegeVerified ==> u.collegeId.Some?
    requires u.isPhoneVerified ==> u.phoneNumber.Some?
    ensures ValidUsers(users[k := u])
  {
  }

  /** Appending a product under the next id, with a stored owner and an unused slug, keeps the table valid. */
  lemma AppendProductKeepsValid(products: seq<Product>, p: Product, userCount: nat)
    requires ValidProducts(products, userCount)
    requires p.id == |products| + 1 && 1 <= p.userId <= userCount
    requires forall i :: 0 <= i < |products| ==> products[i].slug != p.slug
    ensures ValidProducts(products + [p], userCount)
  {
  }

  class Store {
    var users: seq<User>
    var colleges: seq<College>
    var products: seq<Product>
    var categories: seq<Category>
    var otps: seq<Otp>
    var images: seq<ProductImage>

    /** The uniqueness constraints and the trust-flag invariants every handler keeps. */
    ghost predicate Valid()
      reads this
    {
      ValidUsers(users) && ValidProducts(products, |users|) && ValidCategories(categories)
    }

    /** A store holding only the administratively created colleges. */
    constructor (initialColleges: seq<College>)
      ensures Valid()
      ensures colleges == initialColleges
      ensures users == [] && products == [] && categories == [] && otps == [] && images == []
    {
      users := [];
      colleges := initialColleges;
      products := [];
      categories := [];
      otps := [];
      images := [];
    }

    /** db.add(user); db.commit(): the row is appended, the invariants kept. */
    method AddUser(u: User)
      requires Valid()
      requires u.id == |users| + 1
      requires forall i :: 0 <= i < |users| ==> users[i].username != u.username && users[i].email != u.email
      requires u.isCollegeVerified ==> u.collegeId.Some?
      requires u.isPhoneVerified ==> u.phoneNumber.Some?
      modifies this
      ensures Valid()
      ensures users == old(users) + [u]
      ensures colleges == old(colleges) && products == old(products) && categories == old(categories)
      ensures otps == old(otps) && images == old(images)
    {
      AppendUserKeepsValid(users, u);
      ProductsValidForMoreUsers(products, |users|, |users| + 1);
      users := users + [u];
    }

    /** Writes a changed user row back; the id, the unique keys and the trust-flag invariants are kept. */
    method UpdateUser(k: nat, u: User)
      requires Valid() && k < |users|
      requires u.id == users[k].id && u.username == users[k].username && u.email == users[k].email
      requires u.isCollegeVerified ==> u.collegeId.Some?
      requires u.isPhoneVerified ==> u.phoneNumber.Some?
      modifies this
      ensures Valid()
      ensures users == old(users)[k := u]
      ensures colleges == old(colleges) && products == old(products) && categories == old(categories)
      ensures otps == old(otps) && images == old(images)
    {
      UpdateUserKeepsValid(users, k, u);
      users := users[k := u];
    }

    /** Inserts a category under the next id and an unused slug. */
    method AddCategory(c: Category)
      requires Valid()
      requires c.id == |categories| + 1
      requires forall i :: 0 <= i < |categories| ==> categories[i].slug != c.slug
      modifies this
      ensures Valid()
      ensures categories == old(categories) + [c]
      ensures users == old(users) && colleges == old(colleges) && products == old(products)
      ensures otps == old(otps) && images == old(images)
    {
      categories := categories + [c];
    }

    /** Inserts a product under the next id, owned by a stored user, with an unused slug. */
    method AddProduct(p: Product)
      requires Valid()
      requires p.id == |products| + 1
      requires 1 <= p.userId <= |users|
      requires forall i :: 0 <= i < |products| ==> products[i].slug != p.slug
      modifies this
      ensures Valid()
      ensures products == old(products) + [p]
      ensures users == old(users) && colleges == old(colleges) && categories == old(categories)
      ensures otps == old(otps) && images == old(images)
    {
      products := products + [p];
    }

    /** Commits image rows; image rows carry no constraint of their own. */
    method AddImages(rows: seq<ProductImage>)
      requires Valid()
      modifies this
      ensures Valid()
      ensures images == old(images) + rows
      ensures users == old(users) && colleges == old(colleges) && products == old(products)
      ensures categories == old(categories) && otps == old(otps)
    {
      images := images + rows;
    }
  }
}
