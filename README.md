# Tenexis marketplace core, modelled in Dafny

Tenexis is a campus marketplace backend. Users sign in with Google. They are
matched to a college by the domain of their email address, verify a phone
number with a one-time code, and complete an onboarding form. They can then
list products for sale, rent, or lost-and-found. Each listing has a slug,
an optional category, up to five images and a visibility tier. The listing
feed shows each viewer only the products their tier lets them see.

This project models the rules behind these flows and proves properties of
them:

- **The store** is `Database.Store`, a class with one `seq` field per table:
  users, colleges, products, categories, one-time codes and product images.
  Rows are appended in insertion order, so the autoincrement id of a row is
  its position plus one. `Store.Valid()` holds:
  - ids equal to position plus one;
  - unique usernames, emails, product slugs and category slugs;
  - product owners that are stored users;
  - two trust-flag invariants: a college-verified user is linked to a
    college, and a phone-verified user has a phone number.

  Every handler keeps `Valid()` and states its whole new store.
- **Randomness is a parameter.** Three sources are passed in as draws:
  - the three-digit username suffixes (`Utils.SuffixDraw`);
  - the two-digit slug suffixes (`Products.SlugDraw`, 10..99);
  - the six-digit code (`OtpService.OtpDraw`, 100000..999999).

  A retry loop reads the draws in order.
- **Time is `now`**, in seconds. A code lives 600 seconds. A session token
  lives 604800 seconds (seven days).
- **Token signing is abstract.** A token is either `Signed(payload)`, issued
  by this server, or `Tampered(payload)`. Decoding a signed token fails only
  when its `exp` claim is not an integer or has been reached.
- **Authenticated handlers** act on the caller's row at position `uid - 1`.
  Resolving the token to that row is `Auth.CurrentUser`.
- **HTTP errors** are `Err(Http(status, detail))` results, with the status
  and detail strings the handlers raise.

Modules follow the source files:

| module | models |
|---|---|
| `Models` | records and result types, from `app/models.py` |
| `Text` | decimal formatting |
| `Database` | the store |
| `Utils` | `app/utils.py` |
| `OtpService` | `app/services/otp.py` |
| `ImageManager` | `app/services/image_manager.py` |
| `Auth` | `app/auth.py` |
| `AuthRouter` | `app/routers/auth.py` |
| `Products` | `app/routers/products.py` |
| `Users` | `app/routers/users.py` |

## Model

| member | source | states |
|---|---|---|
| Models.FirstIndex | app/routers/users.py:38 | The first row in store order that satisfies the query's condition, if there is one. None exactly when no row satisfies it. |
| Models.CollegeById | app/routers/users.py:45 | The `user.college` relationship. A result is a stored college with the linked id. None means no link, or no stored college has that id. |
| Database.Store.constructor | app/models.py:5-8 | A store holding only the given colleges, with every other table empty. It is valid. |
| Database.Store.AddUser | app/routers/auth.py:36-46 | The new user is appended with the next id, a fresh username and a fresh email. Validity is kept and every other table is unchanged. |
| Database.Store.UpdateUser | app/routers/users.py:31-33 | Writes back a changed row with the same id, username and email and consistent trust flags. Only that row changes, and validity is kept. |
| Database.Store.AddCategory | app/routers/products.py:51-55 | Appends a category under the next id and an unused slug. Validity is kept and the other tables are unchanged. |
| Database.Store.AddProduct | app/routers/products.py:76-78 | Appends a product under the next id and an unused slug, owned by a stored user. Validity is kept and the other tables are unchanged. |
| Database.Store.AddImages | app/routers/products.py:87-89 | The image rows are appended in order. Validity is kept and the other tables are unchanged. |
| Database.AppendUserKeepsValid | app/models.py:15-18 | Appending a user with the next id, a new username and a new email keeps the user table's uniqueness and flag invariants. |
| Database.UpdateUserKeepsValid | app/models.py:15-18 | Replacing a row with one that keeps the id and unique keys, and whose trust flags are consistent, keeps the user table valid. |
| Database.AppendProductKeepsValid | app/routers/products.py:63-78 | Appending a product with the next id, a stored owner and an unused slug keeps the product table valid. |
| Utils.GenerateSlug | app/utils.py:19-23 | The definition of generate_slug: lower-case, strip, delete punctuation, collapse separator runs to `-`. Its properties are the lemmas below. |
| Utils.TrimStartFacts | app/utils.py:20 | `strip()` on the left removes whitespace and only whitespace. The result is a suffix of the input with no leading whitespace. |
| Utils.TrimEndFacts | app/utils.py:20 | `strip()` on the right removes whitespace and only whitespace. The result is a prefix of the input with no trailing whitespace. |
| Utils.StripFacts | app/utils.py:20 | `strip()` returns a contiguous slice of the input with whitespace at neither end. Input with no whitespace is returned unchanged. |
| Utils.CollapseFacts | app/utils.py:22 | After collapsing, separators survive only as `-`. A leading run becomes a leading `-`, and no `--` remains. |
| Utils.StripKeeps | app/utils.py:20 | Stripping only deletes characters. Any property of every input character holds of every output character. |
| Utils.RemovePunctuationKeeps | app/utils.py:21 | Deleting punctuation only deletes characters, so any property of every input character is kept. |
| Utils.CollapseKeeps | app/utils.py:22 | Collapsing separators keeps the input characters or writes `-`. |
| Utils.SlugKeeps | app/utils.py:19-23 | Any property of every lower-cased input character holds of every slug character other than `-`. |
| Utils.SlugShape | app/utils.py:19-23 | A slug has no upper-case letter, no whitespace, no `_`, no deleted punctuation and no `--`. |
| Utils.SlugAsciiAlphabet | app/utils.py:19-23 | For ASCII text a slug is made only of `a`-`z`, `0`-`9` and `-`. |
| Utils.RemovePunctuationFixed | app/utils.py:21 | Text made only of kept characters passes punctuation removal unchanged. |
| Utils.CollapseFixed | app/utils.py:22 | Text with no whitespace, no `_` and no `--` passes separator collapsing unchanged. |
| Utils.LowerStringFixed | app/utils.py:20 | Text with no upper-case letter is its own lower-casing. |
| Utils.SlugOfSlugShaped | app/utils.py:19-23 | Text already in slug shape is its own slug. |
| Utils.SlugIdempotent | app/utils.py:19-23 | Slugging a slug returns it unchanged. |
| Utils.SlugMayStartWithDash | app/utils.py:20-22 | Stripping comes before punctuation removal, so `"! a"` slugs to `"-a"`. A slug can start with `-`. |
| Utils.SlugMayEndWithDash | app/utils.py:20-22 | For the same reason `"a !"` slugs to `"a-"`. A slug can end with `-`. |
| Utils.FirstAtFacts | app/utils.py:26 | The position found is the first `@` at or after the start, or the end of the text. |
| Utils.LocalPartFacts | app/utils.py:26 | `email.split("@")[0]`: a prefix with no `@`, followed by `@` unless it is the whole address. |
| Utils.SuffixedShape | app/utils.py:31-32 | A retry candidate is the base, `-` and exactly three digits. The base never accumulates suffixes. |
| Utils.PickUsername | app/utils.py:27-32 | The name chosen is free and is one of the candidates the loop tests. None exactly when every candidate is taken. |
| Utils.GenerateUniqueUsername | app/utils.py:25-34 | The loop returns the chosen name, which is free. A free base is returned unchanged. A taken base gets one three-digit suffix. |
| OtpService.GenerateOtp | app/services/otp.py:8-9 | A six-digit code with no leading zero, which reads back as the drawn number. |
| OtpService.Accepts | app/services/otp.py:37-45 | The definition of a successful check: some record matches the query. `AcceptsIff` characterises it. |
| OtpService.Consume | app/services/otp.py:43-49 | The definition of the table after a check: the first match is marked used. `ConsumeFlipsOne` and `ConsumeRejectedUnchanged` state its effect. |
| OtpService.AcceptsIff | app/services/otp.py:37-45 | Verification succeeds iff some record has that phone and code, is unused and expires strictly after `now`. |
| OtpService.ExpiryIsStrict | app/services/otp.py:41 | A record that expires at exactly `now` is refused. |
| OtpService.ConsumeFlipsOne | app/services/otp.py:43-49 | On success the first matching record becomes used, and every other record is unchanged. |
| OtpService.ConsumeRejectedUnchanged | app/services/otp.py:50 | On failure the code table is unchanged. |
| OtpService.SingleUse | app/services/otp.py:45-49 | After a success, the same phone and code succeed again only through a different record that still matches. |
| OtpService.IssuedCodeAccepted | app/services/otp.py:20-28 | A freshly issued code is accepted for its phone before its expiry. From the expiry on it adds nothing to what the table accepted before. |
| OtpService.CreateAndSend | app/services/otp.py:20-32 | Exactly one unused record is appended, with the phone, the generated code and an expiry 600 seconds after `now`. Nothing else changes. |
| OtpService.VerifyOtp | app/services/otp.py:35-50 | The answer is `Accepts`. The table becomes `Consume` of the old one. Nothing else changes. |
| ImageManager.ValidateImage | app/services/image_manager.py:13-23 | Passes iff the type is JPEG, PNG or WebP and the size is at most 5 MiB. A bad type is reported first, then a bad size. |
| ImageManager.IsNsfw | app/services/image_manager.py:26-29 | The placeholder never flags an image. |
| ImageManager.SizeLimitBoundary | app/services/image_manager.py:22-23 | The limit is inclusive: 5,242,880 bytes pass and 5,242,881 are refused. |
| Auth.Decode | app/auth.py:23 | Decoding yields the payload iff the token is intact and its `exp`, when present, is an integer after `now`. |
| Auth.CreateAccessToken | app/auth.py:15-19 | A signed token carrying the caller's claims, plus `exp` = `now` + lifetime. |
| Auth.IssueDecodeRoundTrip | app/auth.py:15-23 | An issued token decodes iff it is still within its lifetime. It then returns the issued claims plus `exp`. |
| Auth.CurrentUser | app/auth.py:21-33 | 401 "Invalid token" for a token that does not decode or has no non-null `user_id`. 401 "User not found" for an integer id no user has, and for a `user_id` that is not an integer. Otherwise the stored user with that id, and Ok exactly when one exists. |
| Auth.IssuedTokenResolves | app/auth.py:15-33 | A live token issued with a stored user's id resolves to that user's current row. |
| Auth.OnlyUserIdMatters | app/auth.py:24-33 | Two live tokens with the same `user_id` resolve identically, whatever other claims they carry. |
| AuthRouter.LastAt | app/routers/auth.py:19 | The position of the last `@` before the bound, with no `@` after it. |
| AuthRouter.EmailDomain | app/routers/auth.py:19 | `email.split("@")[-1]`: a suffix of the email with no `@`, preceded by `@` unless it is the whole address. |
| AuthRouter.DomainMatches | app/routers/auth.py:27 | A college with no domain never matches. A match needs a stored domain no longer than the login domain. A stored domain equal to the login domain matches, and an empty stored domain matches every login domain, as `LIKE '%'` does. |
| AuthRouter.MatchCollege | app/routers/auth.py:27-28 | The first college in store order whose domain is a suffix of the login domain. None iff no college's domain is. |
| AuthRouter.SuffixMatchIgnoresLabels | app/routers/auth.py:27 | Read as a literal suffix test, the LIKE clause does not stop at a label boundary. `notiitd.ac.in` matches `iitd.ac.in`, and a college with no domain never matches. |
| AuthRouter.LoginClaims | app/routers/auth.py:59-67 | The login token carries exactly `sub`, `user_id`, `username`, `college_slug` and `is_verified`, and no `is_onboarded`. `sub` is the email, `user_id` the id, `college_slug` the given slug or null, and `is_verified` the user's college flag. |
| AuthRouter.LoginTokenResolves | app/routers/auth.py:59-67 | A login token issued for a stored user resolves to that user until it expires, and decodes with the user's college flag. |
| AuthRouter.NewUser | app/routers/auth.py:36-43 | The inserted row has the next id, the Google email and the generated username. It takes the name and picture from the Google identity. It is college-verified iff it is linked to a college, and it is linked to the matched college when there is one and to none otherwise. The phone is unset and unverified, and no college slug is set. |
| AuthRouter.LoginGoogle | app/routers/auth.py:12-69 | A refused credential gives 400 and writes nothing. A known email writes nothing and gets a token from its stored row and college. An unknown email gets one new row with a free username and the matched college, verified iff matched, and a token with that college's slug. |
| Products.FinalPrice | app/routers/products.py:37-41 | Lost and found items cost 0. Other types need a price, used as given. A missing one is refused with 400. |
| Products.ResolveCategory | app/routers/products.py:43-55 | The definition of the category step: the id as given, an existing category with the name's slug, or a new one appended. Its cases are the next four lemmas. |
| Products.CategoryIdKept | app/routers/products.py:44-45 | Without a new category name the submitted id is used and no row is written. |
| Products.CategoryReused | app/routers/products.py:45-49 | An existing category with the name's slug is reused, and the table is unchanged. |
| Products.CategoryInserted | app/routers/products.py:50-55 | When no category has the slug, exactly one unverified row is appended and its id is used. The table stays valid. |
| Products.ResolveCategoryKeepsValid | app/routers/products.py:43-55 | The category step keeps the table valid and only appends. A given name resolves to a stored category with that slug. |
| Products.ResolveCategoryStep | app/routers/products.py:43-55 | The category step on the store equals `ResolveCategory`. Nothing else changes. |
| Products.SlugSuffixIsDecimal | app/routers/products.py:60 | A retry suffix is `-` followed by the decimal form of the draw, which reads back as the draw. |
| Products.PickSlug | app/routers/products.py:57-60 | The definition of the slug loop's outcome: the first free candidate after 0, 1, ... retries. `PickSlugFacts` states its properties. |
| Products.PickSlugFacts | app/routers/products.py:58-60 | The slug chosen is free and is the first free one among the retries. The loop gives up only when every reachable slug is taken. |
| Products.SlugAfter | app/routers/products.py:57-61 | After k retries the candidate is the title slug followed by k three-character suffixes, so it starts with the title slug and is 3k characters longer. |
| Products.SlugAfterExtends | app/routers/products.py:60 | Suffixes accumulate. Each later slug extends every earlier one and starts with the title slug. |
| Products.FirstRetrySlug | app/routers/products.py:60 | After one retry the slug is the title slug, `-` and the two digits of the draw. |
| Products.UniqueProductSlug | app/routers/products.py:57-60 | The loop returns `PickSlug`. The slug is free and extends the title slug, and a free title slug is used as is. |
| Products.NewProduct | app/routers/products.py:63-75 | The built row has the given id, slug, price, owner and category. It takes the form's title and visibility, and it is active. A digital item has no city. |
| Products.NewProductFields | app/routers/products.py:62-75 | The new row is active, owned by the creator and priced by the price rule. A digital item has no city. |
| Products.FirstImageError | app/routers/products.py:84-85 | The first validation error among the files in upload order. None iff every file validates. |
| Products.ImagesStep | app/routers/products.py:80-89 | The definition of the image step: nothing without files, the count check, then the first validation error or one row per file. The next three lemmas state its properties. |
| Products.ImagesStepIff | app/routers/products.py:80-89 | Non-empty files are accepted iff there are at most five and all validate. The rows are exactly the files, in order. |
| Products.TooManyFilesRefused | app/routers/products.py:82-83 | Six or more files are refused before any is validated. |
| Products.NoFilesNoImages | app/routers/products.py:81 | No files, or an empty list, attaches nothing and cannot fail. |
| Products.CollectImages | app/routers/products.py:84-88 | The file loop stops with the first invalid file's error. Otherwise it yields one row per file of that product, in upload order. |
| Products.CheckImages | app/routers/products.py:80-89 | The image step equals `ImagesStep`: files only when there are some, the count check, then the loop. |
| Products.CreateOutcome | app/routers/products.py:37-91 | The definition of create_product as written: price, category, slug, listing row, then images. The refusal lemmas and `CreateKeepsValid` state its properties. |
| Products.ListingSurvivesImageRefusal | app/routers/products.py:76-83 | As written: with more than five files and a free title slug the request fails with 400, yet the listing row is stored, without images. |
| Products.CreateOutcomeAtomic | app/routers/products.py:37-91 | The definition of the corrected create_product: price and images, then slug, then the writes. `AtomicRefusalWritesNothing` and `AtomicAgreesOnSuccess` state its properties. |
| Products.AtomicRefusalWritesNothing | app/routers/products.py:37-91 | With the listing and its images written as one unit, every refusal leaves all three tables as they were. |
| Products.AtomicAgreesOnSuccess | app/routers/products.py:37-91 | The atomic order succeeds on exactly the requests the written order accepts, with the same answer and tables. |
| Products.PriceRefusalWritesNothing | app/routers/products.py:40-41 | A missing price for a priced type is refused before any table is written, in the written order and in the atomic one. |
| Products.ImageRefusalKeepsListing | app/routers/products.py:44-83 | As written, once a slug is found, more than five files are refused with 400 whatever their content. The category step and the new listing row stay committed, and no image row is written. |
| Products.AtomicImageRefusalWritesNothing | app/routers/products.py:82-83 | In the atomic order, more than five files are refused with 400 whatever their content, and no table is written. |
| Products.CreatedListing | app/routers/products.py:37-91 | In the atomic order, which agrees with the written one on success, a success appends exactly one active row, owned by the creator and suitably priced, under a free slug that extends the title slug. It appends at most five valid image rows of that product and answers with the slug and the active status. |
| Products.CreateKeepsValid | app/routers/products.py:37-89 | Every create as written keeps the category and product tables valid. This includes a refusal that leaves a new category or listing behind. |
| Products.AtomicKeepsValid | app/routers/products.py:37-89 | Every create in the atomic order, refused or not, keeps the category and product tables valid. |
| Products.WriteListing | app/routers/products.py:43-89 | Once every check has passed: the category step, then the listing row under the next id and the free slug, then the image rows. Users, colleges and codes are unchanged, and the store stays valid. |
| Products.CreateProduct | app/routers/products.py:14-91 | The handler's answer and its three tables equal `CreateOutcomeAtomic` of the old tables. Users, colleges and codes are unchanged, and the store stays valid. |
| Products.Visible | app/routers/products.py:105-121 | The tier test of the loop: a public product always passes, and a same-city product never does, since no branch handles it. |
| Products.VisibleSymmetric | app/routers/products.py:112-121 | The college and gender tests compare the viewer and the owner symmetrically. An owner passes the test for its own product on every tier but same-city. |
| Products.OwnerHasUserId | app/routers/products.py:113 | `product.user` is the stored user whose id is the product's `user_id`. |
| Products.ActiveProducts | app/routers/products.py:99-102 | A product is in the query's results iff it is stored and active. |
| Products.VisibleTo | app/routers/products.py:104-121 | The loop keeps only products from its input. |
| Products.SubsequenceTrans | app/routers/products.py:99-123 | Two filters in sequence keep store order. |
| Products.ActiveIsSubsequence | app/routers/products.py:99-102 | The active query keeps store order. |
| Products.VisibleIsSubsequence | app/routers/products.py:104-121 | The visibility loop keeps its input's order. |
| Products.VisibleToMembership | app/routers/products.py:105-121 | A result is kept iff the viewer passes its tier test. |
| Products.Listing | app/routers/products.py:94-123 | The definition of the feed: the visibility loop over the active products. `ListingTiers` and `ListingIsSubsequence` state its properties. |
| Products.ListingIsSubsequence | app/routers/products.py:94-123 | The feed is a subsequence of the product table. |
| Products.ListingTiers | app/routers/products.py:99-123 | Inactive products are never shown and public ones always are. Same-college and same-gender products are shown iff the viewer's field equals the owner's. Same-city products are never shown. |
| Products.StoredOwners | app/routers/products.py:113 | In a valid store every product's owner is a stored user. |
| Products.VisibleToStep | app/routers/products.py:105-121 | One more loop iteration appends the product exactly when the viewer passes its tier test, and otherwise leaves the kept results as they were. |
| Products.FilterVisible | app/routers/products.py:104-123 | The loop returns the active results the viewer may see, in query order, as `VisibleTo` defines. |
| Products.GetProducts | app/routers/products.py:94-123 | The handler returns `Listing` of the store. |
| Users.CompletedProfile | app/routers/users.py:21-29 | The definition of complete_profile's new row, as written. `CompletedProfileFacts` states its effect. |
| Users.CompletedProfileCorrected | app/routers/users.py:21-29 | The definition of the corrected row: as written, except that a changed number clears the phone flag. `CorrectedProfileKeepsGateSound` states its properties. |
| Users.CompletedProfileFacts | app/routers/users.py:21-29 | Phone, gender, roll number and official name are overwritten and the phone flag is kept. A selected college slug is taken only when none is set, and it clears the college flag. Identity is kept. |
| Users.ProfileKeepsStalePhoneFlag | app/routers/users.py:21 | As written: a user verified with 9000000001 who completes the profile with 9000000002 passes the onboarding gate for 9000000002. |
| Users.CorrectedProfileKeepsGateSound | app/routers/users.py:21-29 | With the correction, the gate opens after completion only for a number it accepted before. Every other change of the handler is kept. |
| Users.CompleteProfile | app/routers/users.py:15-34 | The caller's row becomes `CompletedProfileCorrected` of it. Every other row and table is unchanged. |
| Users.UserProfile | app/routers/users.py:36-47 | 404 iff no user has the username. Otherwise that user's username, name, college label and picture. |
| Users.ProfileLabelIgnoresFlag | app/routers/users.py:45 | The college label follows the link, not the college flag. An unlinked user shows "Unverified". |
| Users.SendOtp | app/routers/users.py:49-59 | A number that any user has verified gets 400 and no code. Any other number gets exactly one new code record. |
| Users.PhoneVerified | app/routers/users.py:71-72 | After a successful check the row has the number and the phone flag. Nothing else in the row changes. |
| Users.VerifyOtpRoute | app/routers/users.py:61-76 | A failed check gives 400 and leaves the user row unchanged. A success stores the number and sets the flag. The code table is consumed either way. |
| Users.Onboarded | app/routers/users.py:90-104 | The definition of the onboarding updates, in handler order. `OnboardedFacts` states their effect. |
| Users.OnboardedFacts | app/routers/users.py:90-104 | Gender and official name are overwritten. A changed slug or roll number is stored. The college flag survives iff neither changed. Phone fields and identity are untouched. |
| Users.OnboardingClaims | app/routers/users.py:113-121 | The onboarding claims are exactly `sub`, `user_id`, `username`, `college_slug`, `is_verified` and `is_onboarded`. `user_id` is the user's id, `is_onboarded` is true and `is_verified` is the stored college flag. |
| Users.OnboardingTokenFacts | app/routers/users.py:110-122 | The new token carries `is_onboarded` true and the updated college flag. It lasts seven days and resolves to the updated row. |
| Users.EarlierTokenStaysLive | app/routers/users.py:110-122 | An earlier token is not revoked. It still resolves to the updated row while carrying the college flag it was issued with. |
| Users.CompleteOnboarding | app/routers/users.py:80-128 | Unless the phone flag is set and the given number is the stored one, the answer is 400 and nothing is written. Otherwise the row becomes `Onboarded` of it and a fresh token is returned. |

## Left out

- DrawsExhausted: the source retries with fresh random values until a name is free. The model reads a finite sequence of draws, and `Err(DrawsExhausted)` marks the point where the sequence runs out. No handler in the source returns that outcome.
- Utils.GenerateSlug: characters outside ASCII are treated as word characters that lower-casing leaves unchanged. Python's Unicode `lower()`, its `\w` and its `\s` beyond ASCII are not modelled.
- Auth.Decode: HS256 signing and the python-jose library are abstract. A token is intact or tampered, and only the `exp` check is modelled. The model refuses a token at its exact `exp` second, while python-jose refuses only once `exp` is in the past, so it accepts that one second.
- Products.FinalPrice: the price is a float in the source and an integer here.
- Products.GetProducts: a same-college product is shown when both users have no college, as `None == None` is in the source. This is modelled as written.
- ImageManager: decoding with Pillow, conversion, file names, `save_image`, the local disk and S3 are not part of this model. An image row records the upload it came from instead of a URL.
- Products.CreateProduct: the model assumes that the image rows added before a failed file are discarded, because they were added to the session but never committed.
- Products.CreateProduct: the handler follows the corrected atomic order, `CreateOutcomeAtomic`, not the source's order. For a priced request with a free title slug and six files, the source commits any new category (app/routers/products.py:53) and the listing (:77) before refusing at :82-83. The method writes nothing. The source's order is `CreateOutcome`, proved about in `ListingSurvivesImageRefusal`, `ImageRefusalKeepsListing` and `CreateKeepsValid`, but no Store method runs it.
- Users.CompleteProfile: the handler follows `CompletedProfileCorrected`, not the source. A phone-verified user who submits a different number keeps `is_phone_verified` in the source (app/routers/users.py:21), and the method clears it. The source's row is `CompletedProfile`, proved about in `CompletedProfileFacts`, but no Store method writes it.
- Concurrency: two requests racing for the same username, slug or code are not modelled. Each handler runs alone on the store.
- AuthRouter.DomainMatches: LIKE wildcards in stored domains (`_`, `%`) and the collation's case rules are not modelled. Stored domains are compared literally, character by character.
- Auth.CurrentUser: a `user_id` claim that is neither an integer nor null is answered 401 "User not found". How `session.get` would coerce such a value (a numeric string, say) is not modelled.
- AuthRouter.LoginGoogle: Google's credential check is an oracle whose answer is a parameter.
- OtpService.CreateAndSend: the SMS mock only prints, so it is left out.
- Users: the code reads `college_slug` on users and `selected_college_slug` on the profile request. The model follows the code, although app/models.py and app/schemas.py declare no user slug and declare a `selected_college_id` instead.
- Users.CompleteOnboarding: the onboarding request's schema is not declared in app/schemas.py. Its optional fields are modelled as `Option`, and the phone number as required.
- The OTP, Product, ProductImage and Category record declarations are not in app/models.py. They are modelled from the handlers' use of them.
- app/routers/colleges.py, main.py at the repository root, `read_users_me` and the database engine are not part of this model.

## Findings

Both handlers below are modelled as corrected (see the two lines under "## Left out"). `Products.CreateProduct` follows
`Products.CreateOutcomeAtomic`, and `Users.CompleteProfile` follows
`Users.CompletedProfileCorrected`. The handlers as written are kept as
`Products.CreateOutcome` and `Users.CompletedProfile`. A lemma ties each
as-written version to its corrected one.

| source | as written | input that shows it | evidently intended | confidence | as-written member | corrected member |
|---|---|---|---|---|---|---|
| app/routers/products.py:76-89 | The product row is committed before the file count and the files are checked, so a refused upload answers 400 but leaves the listing stored without images | A Buy listing with a price, a free title slug and six image files | The listing and its images are written together, or not at all | medium, not executed | Products.ListingSurvivesImageRefusal | Products.AtomicRefusalWritesNothing |
| app/routers/users.py:21-24 | complete_profile overwrites a verified phone number and keeps `is_phone_verified`, so the onboarding gate accepts a number that was never verified | A user verified with 9000000001 completes the profile with 9000000002, then onboards with 9000000002 | Changing the number clears the phone flag | medium, not executed | Users.ProfileKeepsStalePhoneFlag | Users.CorrectedProfileKeepsGateSound |
