/**
 * app/routers/products.py: creating a listing (price rule, category reuse,
 * a unique slug, the product row, the attached images) and the per-viewer
 * listing feed.
 */
module Products {
  import opened Models
  import opened Text
  import Utils
  import ImageManager
  import Database

  /** A value of random.randint(10, 99). */
  type SlugDraw = n: int | 10 <= n <= 99 witness 10

  const PriceRequired := Http(400, "Price is required for Buy/Sell/Rent.")
  const TooManyImages := Http(400, "Max 5 images allowed")
  const MaxImages: nat := 5

  /** The form fields of the create request; an absent optional field is None. */
  datatype ProductForm = ProductForm(
    title: string,
    description: string,
    productType: ProductType,
    price: Option<int>,
    visibility: ProductVisibility,
    isDigital: bool,
    city: Option<string>,
    categoryId: Option<int>,
    newCategoryName: Option<string>,
    files: Option<seq<Upload>>
  )

  // ---------------------------------------------------------------------
  // Step 1: the price
  // ---------------------------------------------------------------------

  /** The price stored: 0 for lost and found items, otherwise the submitted one, which is then required. */
  function FinalPrice(t: ProductType, price: Option<int>): (r: Result<int>)
    ensures (t == Lost || t == Found) ==> r == Ok(0)
    ensures t != Lost && t != Found ==> (r.Ok? <==> price.Some?)
    ensures t != Lost && t != Found && price.Some? ==> r == Ok(price.value)
    ensures r.Err? ==> r.error == PriceRequired
  {
    if t == Lost || t == Found then Ok(0)
    else if price.None? then Err(PriceRequired)
    else Ok(price.value)
  }

  // ---------------------------------------------------------------------
  // Step 2: the category
  // ---------------------------------------------------------------------

  function CategoryWithSlug(categories: seq<Category>, slug: string): Option<nat> {
    FirstIndex(categories, (c: Category) => c.slug == slug)
  }

  /**
   * The category table after step 2 and final_cat_id. A non-empty new
   * category name is slugged; a category with that slug is reused, otherwise
   * an unverified one is inserted under the next id.
   */
  function ResolveCategory(categories: seq<Category>, categoryId: Option<int>, newName: Option<string>)
    : (seq<Category>, Option<int>)
  {
    if !Truthy(newName) then (categories, categoryId)
    else
      var slug := Utils.GenerateSlug(newName.value);
      match CategoryWithSlug(categories, slug)
      case Some(i) => (categories, Some(categories[i].id))
      case None => (categories + [Category(|categories| + 1, newName.value, slug, false)], Some(|categories| + 1))
  }

  /** Without a new name the submitted category id is used as given and no row is written. */
  lemma CategoryIdKept(categories: seq<Category>, categoryId: Option<int>, newName: Option<string>)
    requires !Truthy(newName)
    ensures ResolveCategory(categories, categoryId, newName) == (categories, categoryId)
  {
  }

  /** An existing category whose slug is the slug of the new name is reused; the table is unchanged. */
  lemma CategoryReused(categories: seq<Category>, categoryId: Option<int>, name: string, k: nat)
    requires Database.ValidCategories(categories)
    requires name != "" && k < |categories| && categories[k].slug == Utils.GenerateSlug(name)
    ensures ResolveCategory(categories, categoryId, Some(name)) == (categories, Some(categories[k].id))
  {
    var slug := Utils.GenerateSlug(name);
    var i := CategoryWithSlug(categories, slug).value;
    assert categories[i].slug == slug;
    assert i == k;
  }

  /**
   * No category has the slug: exactly one unverified category is appended,
   * named as submitted, and its id is the one used; the table stays valid.
   */
  lemma CategoryInserted(categories: seq<Category>, categoryId: Option<int>, name: string)
    requires Database.ValidCategories(categories)
    requires name != ""
    requires forall i :: 0 <= i < |categories| ==> categories[i].slug != Utils.GenerateSlug(name)
    ensures var (cats, id) := ResolveCategory(categories, categoryId, Some(name));
      && cats == categories + [Category(|categories| + 1, name, Utils.GenerateSlug(name), false)]
      && !cats[|categories|].isVerified
      && id == Some(cats[|categories|].id)
      && Database.ValidCategories(cats)
  {
    var slug := Utils.GenerateSlug(name);
    assert CategoryWithSlug(categories, slug).None?;
  }

  /** Step 2 keeps the category table valid, and a resolved new name names a stored category. */
  lemma {:induction false} ResolveCategoryKeepsValid(categories: seq<Category>, categoryId: Option<int>, newName: Option<string>)
    requires Database.ValidCategories(categories)
    ensures var (cats, id) := ResolveCategory(categories, categoryId, newName);
      && Database.ValidCategories(cats)
      && |categories| <= |cats| <= |categories| + 1
      && cats[..|categories|] == categories
      && (Truthy(newName) ==>
            exists k :: 0 <= k < |cats| && cats[k].slug == Utils.GenerateSlug(newName.value) && id == Some(cats[k].id))
  {
    var (cats, id) := ResolveCategory(categories, categoryId, newName);
    if Truthy(newName) {
      var slug := Utils.GenerateSlug(newName.value);
      match CategoryWithSlug(categories, slug)
      case Some(i) =>
        assert cats[i].slug == slug && id == Some(cats[i].id);
      case None =>
        CategoryInserted(categories, categoryId, newName.value);
        assert cats[|categories|].slug == slug;
    }
  }

  /** Step 2 on the store: final_cat_id, with the category row inserted when none has the slug. */
  method ResolveCategoryStep(s: Database.Store, categoryId: Option<int>, newName: Option<string>)
    returns (finalCatId: Option<int>)
    requires s.Valid()
    modifies s
    ensures s.Valid()
    ensures (s.categories, finalCatId) == ResolveCategory(old(s.categories), categoryId, newName)
    ensures s.users == old(s.users) && s.colleges == old(s.colleges) && s.products == old(s.products)
    ensures s.otps == old(s.otps) && s.images == old(s.images)
  {
    finalCatId := categoryId;
    if Truthy(newName) {
      var catSlug := Utils.GenerateSlug(newName.value);
      var existing := CategoryWithSlug(s.categories, catSlug);
      if existing.Some? {
        finalCatId := Some(s.categories[existing.value].id);
      } else {
        var newCat := Category(|s.categories| + 1, newName.value, catSlug, false);
        s.AddCategory(newCat);
        finalCatId := Some(newCat.id);
      }
    }
  }

  // ---------------------------------------------------------------------
  // Step 3: the slug
  // ---------------------------------------------------------------------

  /** f"-{json.dumps(n)}": '-' and the two digits of a draw. */
  function SlugSuffix(n: SlugDraw): (r: string)
    ensures |r| == 3 && r[0] == '-'
  {
    ['-', DigitChar(n / 10), DigitChar(n % 10)]
  }

  /** The suffix is '-' and the decimal form of the draw, which reads back as the draw. */
  lemma SlugSuffixIsDecimal(n: SlugDraw)
    ensures SlugSuffix(n) == "-" + Decimal(n)
    ensures AllDigits(SlugSuffix(n)[1..]) && DigitsValue(SlugSuffix(n)[1..]) == n
  {
    DecimalRoundTrip(n);
    assert Decimal(n) == [DigitChar(n / 10), DigitChar(n % 10)];
    assert SlugSuffix(n)[1..] == Decimal(n);
  }

  predicate SlugTaken(products: seq<Product>, slug: string) {
    exists i :: 0 <= i < |products| && products[i].slug == slug
  }

  /** The slug after k retries: the title slug with the first k suffixes appended in draw order. */
  function SlugAfter(base: string, draws: seq<SlugDraw>, k: nat): (r: string)
    requires k <= |draws|
    ensures |r| == |base| + 3 * k
    ensures base <= r
  {
    if k == 0 then base else SlugAfter(base, draws, k - 1) + SlugSuffix(draws[k - 1])
  }

  /** The slugs the loop can test, after 0, 1, ..., |draws| retries. */
  function SlugCandidates(base: string, draws: seq<SlugDraw>): (c: seq<string>)
    ensures |c| == |draws| + 1
  {
    seq(|draws| + 1, j requires 0 <= j <= |draws| => SlugAfter(base, draws, j))
  }

  /** The slug the loop settles on: the first candidate no product holds, if any. */
  function PickSlug(base: string, products: seq<Product>, draws: seq<SlugDraw>): Option<string> {
    var candidates := SlugCandidates(base, draws);
    match FirstIndex(candidates, (c: string) => !SlugTaken(products, c))
    case None => None
    case Some(j) => Some(candidates[j])
  }

  /**
   * The slug chosen is free and is the first free one among the retries; the
   * loop gives up only when every slug it could reach is taken.
   */
  lemma PickSlugFacts(base: string, products: seq<Product>, draws: seq<SlugDraw>)
    ensures var r := PickSlug(base, products, draws);
      r.Some? ==> !SlugTaken(products, r.value)
    ensures var r := PickSlug(base, products, draws);
      r.Some? ==> exists j :: (0 <= j <= |draws| && r.value == SlugAfter(base, draws, j) &&
                               forall i :: 0 <= i < j ==> SlugTaken(products, SlugAfter(base, draws, i)))
    ensures PickSlug(base, products, draws).None? ==>
      forall j :: 0 <= j <= |draws| ==> SlugTaken(products, SlugAfter(base, draws, j))
    ensures (forall j :: 0 <= j <= |draws| ==> SlugTaken(products, SlugAfter(base, draws, j))) ==>
      PickSlug(base, products, draws).None?
  {
    var candidates := SlugCandidates(base, draws);
    var free := (c: string) => !SlugTaken(products, c);
    match FirstIndex(candidates, free)
    case None =>
      forall j | 0 <= j <= |draws|
        ensures SlugTaken(products, SlugAfter(base, draws, j))
      {
        assert !free(candidates[j]);
      }
    case Some(j) =>
      assert candidates[j] == SlugAfter(base, draws, j);
      forall i | 0 <= i < j
        ensures SlugTaken(products, SlugAfter(base, draws, i))
      {
        assert !free(candidates[i]);
      }
  }

  /**
   * Suffixes accumulate: each later slug extends every earlier one, three
   * characters ('-' and two digits) per retry, and all start with the title slug.
   */
  lemma {:induction false} SlugAfterExtends(base: string, draws: seq<SlugDraw>, j: nat, k: nat)
    requires j <= k <= |draws|
    ensures SlugAfter(base, draws, k)[..|SlugAfter(base, draws, j)|] == SlugAfter(base, draws, j)
    ensures SlugAfter(base, draws, k)[..|base|] == base
    decreases k
  {
    if k > 0 {
      var prev := SlugAfter(base, draws, k - 1);
      SlugAfterExtends(base, draws, 0, k - 1);
      if j < k {
        SlugAfterExtends(base, draws, j, k - 1);
        assert |SlugAfter(base, draws, j)| <= |prev|;
        assert (prev + SlugSuffix(draws[k - 1]))[..|prev|] == prev;
      }
      assert (prev + SlugSuffix(draws[k - 1]))[..|base|] == prev[..|base|];
    }
  }

  /** After one retry the slug is the title slug, '-', and the two digits of the draw. */
  lemma FirstRetrySlug(base: string, draws: seq<SlugDraw>)
    requires |draws| >= 1
    ensures SlugAfter(base, draws, 1) == base + "-" + Decimal(draws[0])
  {
  }

  /**
   * The slug loop: starting from the title slug, while a product holds the
   * slug, append '-' and the next drawn number. The products table is the
   * one the query reads.
   */
  method UniqueProductSlug(products: seq<Product>, title: string, draws: seq<SlugDraw>) returns (r: Option<string>)
    ensures r == PickSlug(Utils.GenerateSlug(title), products, draws)
    ensures r.Some? ==> !SlugTaken(products, r.value)
    ensures r.Some? ==> |Utils.GenerateSlug(title)| <= |r.value| && r.value[..|Utils.GenerateSlug(title)|] == Utils.GenerateSlug(title)
    ensures !SlugTaken(products, Utils.GenerateSlug(title)) ==> r == Some(Utils.GenerateSlug(title))
  {
    var base := Utils.GenerateSlug(title);
    ghost var candidates := SlugCandidates(base, draws);
    ghost var free := (c: string) => !SlugTaken(products, c);
    var slug := base;
    var i := 0;
    while SlugTaken(products, slug)
      invariant 0 <= i <= |draws|
      invariant slug == SlugAfter(base, draws, i) == candidates[i]
      invariant forall j :: 0 <= j < i ==> !free(candidates[j])
      decreases |draws| - i
    {
      if i == |draws| {
        assert forall j :: 0 <= j < |candidates| ==> !free(candidates[j]);
        return None;
      }
      slug := slug + SlugSuffix(draws[i]);
      i := i + 1;
    }
    assert free(candidates[i]);
    assert FirstIndex(candidates, free) == Some(i);
    SlugAfterExtends(base, draws, 0, i);
    r := Some(slug);
  }

  // ---------------------------------------------------------------------
  // Step 4: the product row
  // ---------------------------------------------------------------------

  /** The new row: active, owned by the creator, with no city for a digital item. */
  function NewProduct(id: int, form: ProductForm, price: int, slug: string, categoryId: Option<int>, userId: int): (p: Product)
    ensures p.id == id && p.slug == slug && p.price == price && p.userId == userId && p.status == Active
    ensures p.title == form.title && p.categoryId == categoryId && p.visibility == form.visibility
    ensures p.isDigital ==> p.city.None?
  {
    Product(id, form.title, slug, form.description, price, form.productType, form.visibility, form.isDigital,
            if form.isDigital then None else form.city, categoryId, userId, Active)
  }

  /** The stored fields of a new listing as the form and the earlier steps determine them. */
  lemma NewProductFields(id: int, form: ProductForm, price: int, slug: string, categoryId: Option<int>, userId: int)
    requires FinalPrice(form.productType, form.price) == Ok(price)
    ensures var p := NewProduct(id, form, price, slug, categoryId, userId);
      && p.status == Active && p.userId == userId && p.id == id && p.slug == slug
      && p.categoryId == categoryId
      && (form.isDigital ==> p.city.None?)
      && (!form.isDigital ==> p.city == form.city)
      && ((form.productType == Lost || form.productType == Found) ==> p.price == 0)
      && (form.productType != Lost && form.productType != Found ==> Some(p.price) == form.price)
  {
  }

  // ---------------------------------------------------------------------
  // Step 5: the images
  // ---------------------------------------------------------------------

  /** The image rows for a product's files, in upload order. */
  function ImageRows(productId: int, files: seq<Upload>): seq<ProductImage> {
    seq(|files|, i requires 0 <= i < |files| => ProductImage(productId, files[i]))
  }

  /** The first validation error among the files, in upload order. */
  function FirstImageError(files: seq<Upload>): (r: Option<Error>)
    ensures r.None? <==> forall i :: 0 <= i < |files| ==> ImageManager.ValidateImage(files[i]).Ok?
    ensures r.Some? ==> exists i :: (0 <= i < |files| && ImageManager.ValidateImage(files[i]) == Err(r.value) &&
      forall j :: 0 <= j < i ==> ImageManager.ValidateImage(files[j]).Ok?)
  {
    match FirstIndex(files, (f: Upload) => ImageManager.ValidateImage(f).Err?)
    case None => None
    case Some(i) => Some(ImageManager.ValidateImage(files[i]).error)
  }

  /**
   * The rows step 5 commits. Only a non-empty file list is looked at; more
   * than five files are refused before any is validated; a file that fails
   * validation aborts the request, and the rows added before it are never
   * committed.
   */
  function ImagesStep(productId: int, files: Option<seq<Upload>>): Result<seq<ProductImage>> {
    if files.None? || files.value == [] then Ok([])
    else if |files.value| > MaxImages then Err(TooManyImages)
    else match FirstImageError(files.value)
      case Some(e) => Err(e)
      case None => Ok(ImageRows(productId, files.value))
  }

  /** The image step accepts iff there are at most five files and all validate; accepted rows are exactly the files. */
  lemma ImagesStepIff(productId: int, files: seq<Upload>)
    requires files != []
    ensures ImagesStep(productId, Some(files)).Ok? <==>
      |files| <= 5 && forall i :: 0 <= i < |files| ==> ImageManager.ValidateImage(files[i]).Ok?
    ensures ImagesStep(productId, Some(files)).Ok? ==>
      var rows := ImagesStep(productId, Some(files)).value;
      |rows| == |files| && forall i :: 0 <= i < |rows| ==> rows[i].productId == productId && rows[i].upload == files[i]
  {
  }

  /** The count is checked first: six or more files are refused whatever their content. */
  lemma TooManyFilesRefused(productId: int, files: seq<Upload>)
    requires |files| > 5
    ensures ImagesStep(productId, Some(files)) == Err(TooManyImages)
  {
  }

  /** An absent or empty file list attaches nothing and cannot fail. */
  lemma NoFilesNoImages(productId: int, files: Option<seq<Upload>>)
    requires files.None? || files.value == []
    ensures ImagesStep(productId, files) == Ok([])
  {
  }

  /**
   * The loop over the files: each is validated in upload order and a row is
   * collected for it; the first invalid file ends the loop with its error.
   */
  method CollectImages(productId: int, files: seq<Upload>) returns (r: Result<seq<ProductImage>>)
    ensures FirstImageError(files).Some? ==> r == Err(FirstImageError(files).value)
    ensures FirstImageError(files).None? ==> r == Ok(ImageRows(productId, files))
  {
    var pending: seq<ProductImage> := [];
    var i := 0;
    while i < |files|
      invariant 0 <= i <= |files|
      invariant pending == ImageRows(productId, files[..i])
      invariant forall j :: 0 <= j < i ==> ImageManager.ValidateImage(files[j]).Ok?
    {
      var checked := ImageManager.ValidateImage(files[i]);
      if checked.Err? {
        return Err(checked.error);
      }
      pending := pending + [ProductImage(productId, files[i])];
      i := i + 1;
    }
    assert files[..i] == files;
    r := Ok(pending);
  }

  /** Step 5 before anything is written: the count check, then the loop when there are files at all. */
  method CheckImages(productId: int, files: Option<seq<Upload>>) returns (r: Result<seq<ProductImage>>)
    ensures r == ImagesStep(productId, files)
  {
    if files.Some? && files.value != [] {
      if |files.value| > MaxImages {
        return Err(TooManyImages);
      }
      r := CollectImages(productId, files.value);
    } else {
      r := Ok([]);
    }
  }

  // ---------------------------------------------------------------------
  // create_product
  // ---------------------------------------------------------------------

  /** The three tables create_product writes. */
  datatype Tables = Tables(categories: seq<Category>, products: seq<Product>, images: seq<ProductImage>)

  /**
   * create_product as written, on the tables it writes: the answer and the
   * tables afterwards. A missing price for a priced type is refused before
   * anything is written. Otherwise the category step is committed, then the
   * product row, and only then are the files looked at: a refusal there
   * leaves both rows in place. The answer is the slug and the status.
   */
  function CreateOutcome(t: Tables, uid: int, form: ProductForm, draws: seq<SlugDraw>)
    : (Result<(string, ProductStatus)>, Tables)
  {
    match FinalPrice(form.productType, form.price)
    case Err(e) => (Err(e), t)
    case Ok(price) =>
      var (cats, catId) := ResolveCategory(t.categories, form.categoryId, form.newCategoryName);
      match PickSlug(Utils.GenerateSlug(form.title), t.products, draws)
      case None => (Err(DrawsExhausted), Tables(cats, t.products, t.images))
      case Some(slug) =>
        var p := NewProduct(|t.products| + 1, form, price, slug, catId, uid);
        match ImagesStep(p.id, form.files)
        case Err(e) => (Err(e), Tables(cats, t.products + [p], t.images))
        case Ok(rows) => (Ok((p.slug, p.status)), Tables(cats, t.products + [p], t.images + rows))
  }

  /**
   * As written, a refused upload comes after the product row was committed:
   * with more than five files and a free title slug the request fails with
   * 400 and the listing is stored anyway, without its images.
   */
  lemma ListingSurvivesImageRefusal(t: Tables, uid: int, form: ProductForm, draws: seq<SlugDraw>)
    requires FinalPrice(form.productType, form.price).Ok?
    requires form.files.Some? && |form.files.value| > MaxImages
    requires !SlugTaken(t.products, Utils.GenerateSlug(form.title))
    ensures var (r, after) := CreateOutcome(t, uid, form, draws);
      && r == Err(TooManyImages)
      && |after.products| == |t.products| + 1 && after.products[|t.products|].slug == Utils.GenerateSlug(form.title)
      && after.images == t.images
  {
    PickSlugFacts(Utils.GenerateSlug(form.title), t.products, draws);
    assert PickSlug(Utils.GenerateSlug(form.title), t.products, draws) == Some(SlugAfter(Utils.GenerateSlug(form.title), draws, 0));
  }

  /**
   * create_product with the listing and its images written as one unit, the
   * order the rest of this model uses: the price is checked, then the files
   * are checked and the slug is found, and only then are the category, the
   * product row and the image rows written.
   */
  function CreateOutcomeAtomic(t: Tables, uid: int, form: ProductForm, draws: seq<SlugDraw>)
    : (Result<(string, ProductStatus)>, Tables)
  {
    match FinalPrice(form.productType, form.price)
    case Err(e) => (Err(e), t)
    case Ok(price) =>
      match ImagesStep(|t.products| + 1, form.files)
      case Err(e) => (Err(e), t)
      case Ok(rows) =>
        match PickSlug(Utils.GenerateSlug(form.title), t.products, draws)
        case None => (Err(DrawsExhausted), t)
        case Some(slug) =>
          var (cats, catId) := ResolveCategory(t.categories, form.categoryId, form.newCategoryName);
          var p := NewProduct(|t.products| + 1, form, price, slug, catId, uid);
          (Ok((p.slug, p.status)), Tables(cats, t.products + [p], t.images + rows))
  }

  /** With the atomic order every refusal leaves all three tables as they were. */
  lemma AtomicRefusalWritesNothing(t: Tables, uid: int, form: ProductForm, draws: seq<SlugDraw>)
    requires CreateOutcomeAtomic(t, uid, form, draws).0.Err?
    ensures CreateOutcomeAtomic(t, uid, form, draws).1 == t
  {
  }

  /** The atomic order succeeds on exactly the requests the written order accepts, with the same answer and tables. */
  lemma AtomicAgreesOnSuccess(t: Tables, uid: int, form: ProductForm, draws: seq<SlugDraw>)
    ensures CreateOutcomeAtomic(t, uid, form, draws).0.Ok? <==> CreateOutcome(t, uid, form, draws).0.Ok?
    ensures CreateOutcome(t, uid, form, draws).0.Ok? ==>
      CreateOutcomeAtomic(t, uid, form, draws) == CreateOutcome(t, uid, form, draws)
  {
  }

  /** A refused price writes nothing. */
  lemma PriceRefusalWritesNothing(t: Tables, uid: int, form: ProductForm, draws: seq<SlugDraw>)
    requires form.productType != Lost && form.productType != Found && form.price.None?
    ensures CreateOutcome(t, uid, form, draws) == (Err(PriceRequired), t)
    ensures CreateOutcomeAtomic(t, uid, form, draws) == (Err(PriceRequired), t)
  {
  }

  /**
   * As written, six or more files are refused with 400 whatever their
   * content, once a slug is found, and the category step and the listing
   * row stay committed; no image row is written.
   */
  lemma ImageRefusalKeepsListing(t: Tables, uid: int, form: ProductForm, draws: seq<SlugDraw>)
    requires FinalPrice(form.productType, form.price).Ok?
    requires form.files.Some? && |form.files.value| > MaxImages
    requires PickSlug(Utils.GenerateSlug(form.title), t.products, draws).Some?
    ensures var (r, after) := CreateOutcome(t, uid, form, draws);
      && r == Err(TooManyImages)
      && after.categories == ResolveCategory(t.categories, form.categoryId, form.newCategoryName).0
      && |after.products| == |t.products| + 1 && after.products[..|t.products|] == t.products
      && after.products[|t.products|].slug == PickSlug(Utils.GenerateSlug(form.title), t.products, draws).value
      && after.images == t.images
  {
    TooManyFilesRefused(|t.products| + 1, form.files.value);
    var after := CreateOutcome(t, uid, form, draws).1;
    assert after.products[..|t.products|] == t.products;
  }

  /** With the atomic order refused files write nothing, and six or more are refused whatever their content. */
  lemma AtomicImageRefusalWritesNothing(t: Tables, uid: int, form: ProductForm, draws: seq<SlugDraw>)
    requires FinalPrice(form.productType, form.price).Ok?
    requires form.files.Some? && |form.files.value| > MaxImages
    ensures CreateOutcomeAtomic(t, uid, form, draws) == (Err(TooManyImages), t)
  {
    TooManyFilesRefused(|t.products| + 1, form.files.value);
  }

  /**
   * A successful create appends exactly one active row owned by the creator,
   * priced by the price rule, under a slug that no product held and that
   * extends the title slug, and appends at most five image rows, each a
   * valid file of that product. Nothing else is changed in those tables.
   */
  lemma CreatedListing(t: Tables, uid: int, form: ProductForm, draws: seq<SlugDraw>)
    requires CreateOutcomeAtomic(t, uid, form, draws).0.Ok?
    ensures var (r, after) := CreateOutcomeAtomic(t, uid, form, draws);
      var base := Utils.GenerateSlug(form.title);
      && |after.products| == |t.products| + 1 && after.products[..|t.products|] == t.products
      && var p := after.products[|t.products|];
      && r.value == (p.slug, Active) && p.status == Active && p.userId == uid && p.id == |t.products| + 1
      && !SlugTaken(t.products, p.slug) && |base| <= |p.slug| && p.slug[..|base|] == base
      && ((form.productType == Lost || form.productType == Found) ==> p.price == 0)
      && (form.productType != Lost && form.productType != Found ==> Some(p.price) == form.price)
      && p.city == (if form.isDigital then None else form.city)
      && |t.images| <= |after.images| <= |t.images| + MaxImages && after.images[..|t.images|] == t.images
      && (forall i :: |t.images| <= i < |after.images| ==>
            after.images[i].productId == p.id && ImageManager.ValidateImage(after.images[i].upload).Ok?)
  {
    var base := Utils.GenerateSlug(form.title);
    var slug := PickSlug(base, t.products, draws).value;
    PickSlugFacts(base, t.products, draws);
    var j :| 0 <= j <= |draws| && slug == SlugAfter(base, draws, j);
    SlugAfterExtends(base, draws, 0, j);
    var (r, after) := CreateOutcomeAtomic(t, uid, form, draws);
    var p := after.products[|t.products|];
    assert after.products[..|t.products|] == t.products;
    assert after.images[..|t.images|] == t.images;
    if form.files.Some? && form.files.value != [] {
      ImagesStepIff(p.id, form.files.value);
    }
  }

  /**
   * Every create as written keeps the category and product tables valid,
   * refusals that leave a new category or listing behind included.
   */
  lemma CreateKeepsValid(t: Tables, uid: int, form: ProductForm, draws: seq<SlugDraw>, userCount: nat)
    requires Database.ValidCategories(t.categories) && Database.ValidProducts(t.products, userCount)
    requires 1 <= uid <= userCount
    ensures var after := CreateOutcome(t, uid, form, draws).1;
      Database.ValidCategories(after.categories) && Database.ValidProducts(after.products, userCount)
  {
    ResolveCategoryKeepsValid(t.categories, form.categoryId, form.newCategoryName);
    var base := Utils.GenerateSlug(form.title);
    if FinalPrice(form.productType, form.price).Ok? && PickSlug(base, t.products, draws).Some? {
      var slug := PickSlug(base, t.products, draws).value;
      PickSlugFacts(base, t.products, draws);
      var price := FinalPrice(form.productType, form.price).value;
      var catId := ResolveCategory(t.categories, form.categoryId, form.newCategoryName).1;
      var p := NewProduct(|t.products| + 1, form, price, slug, catId, uid);
      Database.AppendProductKeepsValid(t.products, p, userCount);
      assert CreateOutcome(t, uid, form, draws).1.products == t.products + [p];
    }
  }

  /** Every create in the atomic order keeps the category and product tables valid. */
  lemma AtomicKeepsValid(t: Tables, uid: int, form: ProductForm, draws: seq<SlugDraw>, userCount: nat)
    requires Database.ValidCategories(t.categories) && Database.ValidProducts(t.products, userCount)
    requires 1 <= uid <= userCount
    ensures var after := CreateOutcomeAtomic(t, uid, form, draws).1;
      Database.ValidCategories(after.categories) && Database.ValidProducts(after.products, userCount)
  {
    var base := Utils.GenerateSlug(form.title);
    if CreateOutcomeAtomic(t, uid, form, draws).0.Ok? {
      ResolveCategoryKeepsValid(t.categories, form.categoryId, form.newCategoryName);
      var slug := PickSlug(base, t.products, draws).value;
      PickSlugFacts(base, t.products, draws);
      var price := FinalPrice(form.productType, form.price).value;
      var catId := ResolveCategory(t.categories, form.categoryId, form.newCategoryName).1;
      var p := NewProduct(|t.products| + 1, form, price, slug, catId, uid);
      Database.AppendProductKeepsValid(t.products, p, userCount);
      assert CreateOutcomeAtomic(t, uid, form, draws).1.products == t.products + [p];
    }
  }

  /** The atomic outcome once the price, the files and the slug have passed: the three writes. */
  lemma AtomicSuccess(t: Tables, uid: int, form: ProductForm, draws: seq<SlugDraw>,
                      price: int, rows: seq<ProductImage>, slug: string)
    requires FinalPrice(form.productType, form.price) == Ok(price)
    requires ImagesStep(|t.products| + 1, form.files) == Ok(rows)
    requires PickSlug(Utils.GenerateSlug(form.title), t.products, draws) == Some(slug)
    ensures var (cats, catId) := ResolveCategory(t.categories, form.categoryId, form.newCategoryName);
      CreateOutcomeAtomic(t, uid, form, draws)
        == (Ok((slug, Active)), Tables(cats, t.products + [NewProduct(|t.products| + 1, form, price, slug, catId, uid)], t.images + rows))
  {
  }

  /** Steps 2, 4 and 5's commit, once every check has passed: the category, the listing row, its image rows. */
  method WriteListing(s: Database.Store, uid: int, form: ProductForm, price: int, slug: string, rows: seq<ProductImage>)
    returns (product: Product)
    requires s.Valid()
    requires 1 <= uid <= |s.users|
    requires !SlugTaken(s.products, slug)
    modifies s
    ensures s.Valid()
    ensures s.users == old(s.users) && s.colleges == old(s.colleges) && s.otps == old(s.otps)
    ensures var (cats, catId) := ResolveCategory(old(s.categories), form.categoryId, form.newCategoryName);
      && product == NewProduct(|old(s.products)| + 1, form, price, slug, catId, uid)
      && s.categories == cats
      && s.products == old(s.products) + [product]
      && s.images == old(s.images) + rows
  {
    var finalCatId := ResolveCategoryStep(s, form.categoryId, form.newCategoryName);
    product := NewProduct(|s.products| + 1, form, price, slug, finalCatId, uid);
    s.AddProduct(product);
    s.AddImages(rows);
  }

  /**
   * create_product for the user at position uid - 1, the caller resolved
   * from the token, in the atomic order of CreateOutcomeAtomic.
   */
  method CreateProduct(s: Database.Store, uid: int, form: ProductForm, slugDraws: seq<SlugDraw>)
    returns (r: Result<(string, ProductStatus)>)
    requires s.Valid()
    requires 1 <= uid <= |s.users|
    modifies s
    ensures s.Valid()
    ensures s.users == old(s.users) && s.colleges == old(s.colleges) && s.otps == old(s.otps)
    ensures (r, Tables(s.categories, s.products, s.images))
      == CreateOutcomeAtomic(Tables(old(s.categories), old(s.products), old(s.images)), uid, form, slugDraws)
  {
    // 1. price
    var price := FinalPrice(form.productType, form.price);
    if price.Err? {
      return Err(PriceRequired);
    }

    // 5. the images, checked before any row is written
    var rows := CheckImages(|s.products| + 1, form.files);
    if rows.Err? {
      return Err(rows.error);
    }

    // 3. slug
    var slug := UniqueProductSlug(s.products, form.title, slugDraws);
    if slug.None? {
      return Err(DrawsExhausted);
    }

    // 2. category, 4. product, then its images
    var product := WriteListing(s, uid, form, price.value, slug.value, rows.value);
    r := Ok((product.slug, product.status));
    AtomicSuccess(Tables(old(s.categories), old(s.products), old(s.images)), uid, form, slugDraws,
                  price.value, rows.value, slug.value);
  }

  // ---------------------------------------------------------------------
  // get_products
  // ---------------------------------------------------------------------

  /** Every listed product's owner is a stored user. */
  predicate OwnersStored(users: seq<User>, products: seq<Product>) {
    forall p :: p in products ==> 1 <= p.userId <= |users|
  }

  /** `product.user`: user ids are positions plus one, so the owner is found by position. */
  function Owner(users: seq<User>, p: Product): User
    requires 1 <= p.userId <= |users|
  {
    users[p.userId - 1]
  }

  /** In a valid user table the owner found is the user whose id is the product's user_id. */
  lemma OwnerHasUserId(users: seq<User>, p: Product)
    requires Database.ValidUsers(users) && 1 <= p.userId <= |users|
    ensures Owner(users, p) in users && Owner(users, p).id == p.userId
  {
  }

  /** The tier test of the listing loop; the last tier has no branch and is never shown. */
  predicate Visible(viewer: User, owner: User, p: Product)
    ensures p.visibility == Public ==> Visible(viewer, owner, p)
    ensures p.visibility == SameCity ==> !Visible(viewer, owner, p)
  {
    match p.visibility
    case Public => true
    case SameCollege => viewer.collegeId == owner.collegeId
    case SameGender => viewer.gender == owner.gender
    case SameCity => false
  }

  /** The tier test is symmetric in viewer and owner, and an owner passes it on every tier but the last. */
  lemma VisibleSymmetric(viewer: User, owner: User, p: Product)
    ensures Visible(viewer, owner, p) == Visible(owner, viewer, p)
    ensures p.visibility != SameCity ==> Visible(owner, owner, p)
  {
  }

  /** The query `status == active`, in store order. */
  function ActiveProducts(products: seq<Product>): (r: seq<Product>)
    ensures forall p :: p in r <==> p in products && p.status == Active
  {
    if products == [] then []
    else
      var rest := ActiveProducts(products[..|products| - 1]);
      assert forall p :: p in products <==> p in products[..|products| - 1] || p == products[|products| - 1];
      if products[|products| - 1].status == Active then rest + [products[|products| - 1]] else rest
  }

  /** The results the loop keeps, in order. */
  function VisibleTo(viewer: User, users: seq<User>, results: seq<Product>): (r: seq<Product>)
    requires OwnersStored(users, results)
    ensures forall p :: p in r ==> p in results
  {
    if results == [] then []
    else
      var last := results[|results| - 1];
      var rest := VisibleTo(viewer, users, results[..|results| - 1]);
      if Visible(viewer, Owner(users, last), last) then rest + [last] else rest
  }

  /** What get_products returns to the viewer. */
  function Listing(viewer: User, users: seq<User>, products: seq<Product>): seq<Product>
    requires OwnersStored(users, products)
  {
    VisibleTo(viewer, users, ActiveProducts(products))
  }

  ghost predicate SubsequenceAt<T>(a: seq<T>, b: seq<T>, idx: seq<int>) {
    && |idx| == |a|
    && (forall k :: 0 <= k < |a| ==> 0 <= idx[k] < |b| && a[k] == b[idx[k]])
    && (forall k, l :: 0 <= k < l < |a| ==> idx[k] < idx[l])
  }

  /** a can be obtained from b by deleting elements. */
  ghost predicate IsSubsequence<T>(a: seq<T>, b: seq<T>) {
    exists idx :: SubsequenceAt(a, b, idx)
  }

  lemma SubsequenceTrans<T>(a: seq<T>, b: seq<T>, c: seq<T>)
    requires IsSubsequence(a, b) && IsSubsequence(b, c)
    ensures IsSubsequence(a, c)
  {
    var i1 :| SubsequenceAt(a, b, i1);
    var i2 :| SubsequenceAt(b, c, i2);
    var idx := seq(|a|, k requires 0 <= k < |a| => i2[i1[k]]);
    assert SubsequenceAt(a, c, idx);
  }

  /** Keeping or dropping the last element of a filter's input keeps the subsequence relation. */
  lemma SubsequenceStep<T>(a: seq<T>, b: seq<T>, keep: bool)
    requires b != [] && IsSubsequence(a, b[..|b| - 1])
    ensures IsSubsequence(if keep then a + [b[|b| - 1]] else a, b)
  {
    var idx :| SubsequenceAt(a, b[..|b| - 1], idx);
    if keep {
      assert SubsequenceAt(a + [b[|b| - 1]], b, idx + [|b| - 1]);
    } else {
      assert SubsequenceAt(a, b, idx);
    }
  }

  lemma {:induction false} ActiveIsSubsequence(products: seq<Product>)
    ensures IsSubsequence(ActiveProducts(products), products)
  {
    if products == [] {
      assert SubsequenceAt([], products, []);
    } else {
      ActiveIsSubsequence(products[..|products| - 1]);
      SubsequenceStep(ActiveProducts(products[..|products| - 1]), products, products[|products| - 1].status == Active);
    }
  }

  lemma {:induction false} VisibleIsSubsequence(viewer: User, users: seq<User>, results: seq<Product>)
    requires OwnersStored(users, results)
    ensures IsSubsequence(VisibleTo(viewer, users, results), results)
  {
    if results == [] {
      assert SubsequenceAt([], results, []);
    } else {
      var last := results[|results| - 1];
      VisibleIsSubsequence(viewer, users, results[..|results| - 1]);
      SubsequenceStep(VisibleTo(viewer, users, results[..|results| - 1]), results, Visible(viewer, Owner(users, last), last));
    }
  }

  /** A result is kept iff it passes the tier test. */
  lemma {:induction false} VisibleToMembership(viewer: User, users: seq<User>, results: seq<Product>, p: Product)
    requires OwnersStored(users, results) && p in results
    ensures p in VisibleTo(viewer, users, results) <==> Visible(viewer, Owner(users, p), p)
  {
    var last := results[|results| - 1];
    var init := results[..|results| - 1];
    if p in init {
      VisibleToMembership(viewer, users, init, p);
    }
  }

  /** The feed keeps store order: it is a subsequence of the product table. */
  lemma ListingIsSubsequence(viewer: User, users: seq<User>, products: seq<Product>)
    requires OwnersStored(users, products)
    ensures IsSubsequence(Listing(viewer, users, products), products)
  {
    ActiveIsSubsequence(products);
    VisibleIsSubsequence(viewer, users, ActiveProducts(products));
    SubsequenceTrans(Listing(viewer, users, products), ActiveProducts(products), products);
  }

  /**
   * The tier rules: an active public product is always listed; a college-tier
   * one iff viewer and owner have the same college id (two absent ids are
   * equal); a gender-tier one iff they have the same gender; any other tier
   * never; an inactive product never.
   */
  lemma ListingTiers(viewer: User, users: seq<User>, products: seq<Product>, p: Product)
    requires OwnersStored(users, products) && p in products
    ensures p.status != Active ==> p !in Listing(viewer, users, products)
    ensures p.status == Active && p.visibility == Public ==> p in Listing(viewer, users, products)
    ensures p.status == Active && p.visibility == SameCollege ==>
      (p in Listing(viewer, users, products) <==> viewer.collegeId == Owner(users, p).collegeId)
    ensures p.status == Active && p.visibility == SameGender ==>
      (p in Listing(viewer, users, products) <==> viewer.gender == Owner(users, p).gender)
    ensures p.visibility == SameCity ==> p !in Listing(viewer, users, products)
  {
    if p.status == Active {
      VisibleToMembership(viewer, users, ActiveProducts(products), p);
    }
  }

  /** One more result extends the visible prefix by that result exactly when it is visible. */
  lemma VisibleToStep(viewer: User, users: seq<User>, results: seq<Product>, i: int)
    requires OwnersStored(users, results)
    requires 0 <= i < |results|
    ensures 1 <= results[i].userId <= |users|
    ensures OwnersStored(users, results[..i]) && OwnersStored(users, results[..i + 1])
    ensures VisibleTo(viewer, users, results[..i + 1])
         == if Visible(viewer, Owner(users, results[i]), results[i])
            then VisibleTo(viewer, users, results[..i]) + [results[i]]
            else VisibleTo(viewer, users, results[..i])
  {
    assert results[i] in results;
    assert results[..i + 1][..i] == results[..i];
  }

  /** A valid store lists only products whose owners it holds. */
  lemma StoredOwners(users: seq<User>, products: seq<Product>)
    requires Database.ValidProducts(products, |users|)
    ensures OwnersStored(users, products)
  {
  }

  /** get_products: the active products, then the loop that keeps those the viewer may see. */
  method GetProducts(s: Database.Store, viewer: User) returns (visible: seq<Product>)
    requires s.Valid()
    ensures OwnersStored(s.users, s.products)
    ensures visible == Listing(viewer, s.users, s.products)
  {
    StoredOwners(s.users, s.products);
    var results := ActiveProducts(s.products);
    visible := FilterVisible(viewer, s.users, results);
  }

  /** The loop of get_products over the active results: each tier test in turn, the last tier never shown. */
  method FilterVisible(viewer: User, users: seq<User>, results: seq<Product>) returns (visible: seq<Product>)
    requires OwnersStored(users, results)
    ensures visible == VisibleTo(viewer, users, results)
  {
    visible := [];
    var i := 0;
    while i < |results|
      invariant 0 <= i <= |results|
      invariant visible == VisibleTo(viewer, users, results[..i])
    {
      var product := results[i];
      VisibleToStep(viewer, users, results, i);
      var owner := users[product.userId - 1];
      if product.visibility == Public {
        visible := visible + [product];
      } else if product.visibility == SameCollege {
        if viewer.collegeId == owner.collegeId {
          visible := visible + [product];
        }
      } else if product.visibility == SameGender {
        if viewer.gender == owner.gender {
          visible := visible + [product];
        }
      }
      i := i + 1;
    }
    assert results[..i] == results;
  }
}
