/**
 * app/routers/users.py: the handlers that change a user's trust state (phone
 * and college verification) and the public profile lookup. The handlers act
 * on the caller's own row, at position uid - 1 of the user table.
 */
module Users {
  import opened Models
  import opened Auth
  import OtpService
  import Database

  const PhoneInUse := Http(400, "Phone number already in use.")
  const InvalidOtp := Http(400, "Invalid or Expired OTP")
  const VerifyPhoneFirst := Http(400, "Please verify phone number first.")
  const ProfileNotFound := Http(404, "User not found")

  /** The profile-completion body; the college field is the selected college's slug. */
  datatype ProfileRequest = ProfileRequest(
    phoneNumber: string,
    gender: string,
    rollNumber: string,
    officialName: string,
    selectedCollegeSlug: Option<string>
  )

  /** The onboarding body. */
  datatype OnboardingRequest = OnboardingRequest(
    phoneNumber: string,
    gender: Option<string>,
    officialName: Option<string>,
    collegeSlug: Option<string>,
    rollNumber: Option<string>
  )

  /** Only the fields a profile handler may change differ: identity and college link are fixed. */
  predicate SameIdentity(u: User, v: User) {
    v.id == u.id && v.email == u.email && v.username == u.username && v.name == u.name &&
    v.picture == u.picture && v.collegeId == u.collegeId
  }

  /** The two trust-flag invariants of a user row. */
  predicate FlagsConsistent(u: User) {
    (u.isCollegeVerified ==> u.collegeId.Some?) && (u.isPhoneVerified ==> u.phoneNumber.Some?)
  }

  // ---------------------------------------------------------------------
  // complete_profile
  // ---------------------------------------------------------------------

  /** complete_profile's new row, as the handler writes it. */
  function CompletedProfile(u: User, req: ProfileRequest): User {
    var v := u.(phoneNumber := Some(req.phoneNumber), gender := Some(req.gender),
                rollNumber := Some(req.rollNumber), officialName := Some(req.officialName));
    if !Truthy(u.collegeSlug) && Truthy(req.selectedCollegeSlug) then
      v.(collegeSlug := req.selectedCollegeSlug, isCollegeVerified := false)
    else v
  }

  /**
   * Phone, gender, roll number and official name are always overwritten and
   * the phone flag is left alone. A college is assigned only to a user with no
   * college slug, when one is selected, and then the college flag is cleared;
   * otherwise slug and flag are kept.
   */
  lemma CompletedProfileFacts(u: User, req: ProfileRequest)
    ensures var v := CompletedProfile(u, req);
      && SameIdentity(u, v)
      && v.phoneNumber == Some(req.phoneNumber) && v.gender == Some(req.gender)
      && v.rollNumber == Some(req.rollNumber) && v.officialName == Some(req.officialName)
      && v.isPhoneVerified == u.isPhoneVerified
      && (!Truthy(u.collegeSlug) && Truthy(req.selectedCollegeSlug) ==>
            v.collegeSlug == req.selectedCollegeSlug && !v.isCollegeVerified)
      && (Truthy(u.collegeSlug) || !Truthy(req.selectedCollegeSlug) ==>
            v.collegeSlug == u.collegeSlug && v.isCollegeVerified == u.isCollegeVerified)
      && (FlagsConsistent(u) ==> FlagsConsistent(v))
  {
  }

  /** The onboarding gate: the phone flag is set and the stored number is the one given. */
  predicate PhoneGateOpen(u: User, phone: string) {
    u.isPhoneVerified && u.phoneNumber == Some(phone)
  }

  /**
   * As written, profile completion replaces a verified number and keeps the
   * flag: a user who verified one number can put in another that was never
   * verified, and the onboarding gate then accepts that number.
   */
  lemma ProfileKeepsStalePhoneFlag()
    ensures var u := User(1, "a@x.in", "a", None, None, Some("9000000001"), true, None, None, None, None, None, false);
      var v := CompletedProfile(u, ProfileRequest("9000000002", "f", "r1", "A", None));
      PhoneGateOpen(u, "9000000001") && PhoneGateOpen(v, "9000000002") && !PhoneGateOpen(u, "9000000002")
  {
  }

  /** The evidently intended completion: a changed number loses the phone flag. */
  function CompletedProfileCorrected(u: User, req: ProfileRequest): User {
    CompletedProfile(u, req).(isPhoneVerified := u.isPhoneVerified && u.phoneNumber == Some(req.phoneNumber))
  }

  /**
   * With the correction the gate opens after completion only for a number
   * it already accepted before, and every other change of the handler stays.
   */
  lemma CorrectedProfileKeepsGateSound(u: User, req: ProfileRequest, phone: string)
    ensures PhoneGateOpen(CompletedProfileCorrected(u, req), phone) ==> PhoneGateOpen(u, phone)
    ensures CompletedProfileCorrected(u, req).(isPhoneVerified := u.isPhoneVerified) == CompletedProfile(u, req)
    ensures u.phoneNumber == Some(req.phoneNumber) ==> CompletedProfileCorrected(u, req) == CompletedProfile(u, req)
  {
  }

  /**
   * complete_profile, with the correction: the caller's row becomes
   * CompletedProfileCorrected of it; every other row and table stays.
   */
  method CompleteProfile(s: Database.Store, uid: int, req: ProfileRequest) returns (r: User)
    requires s.Valid() && 1 <= uid <= |s.users|
    modifies s
    ensures s.Valid()
    ensures r == CompletedProfileCorrected(old(s.users)[uid - 1], req)
    ensures s.users == old(s.users)[uid - 1 := r]
    ensures s.colleges == old(s.colleges) && s.products == old(s.products) && s.categories == old(s.categories)
    ensures s.otps == old(s.otps) && s.images == old(s.images)
  {
    var user := s.users[uid - 1];
    user := user.(phoneNumber := Some(req.phoneNumber));
    user := user.(gender := Some(req.gender));
    user := user.(rollNumber := Some(req.rollNumber));
    user := user.(officialName := Some(req.officialName));
    if !Truthy(s.users[uid - 1].collegeSlug) && Truthy(req.selectedCollegeSlug) {
      user := user.(collegeSlug := req.selectedCollegeSlug);
      user := user.(isCollegeVerified := false);
    }
    if s.users[uid - 1].phoneNumber != Some(req.phoneNumber) {
      user := user.(isPhoneVerified := false);
    }
    s.UpdateUser(uid - 1, user);
    r := user;
  }

  // ---------------------------------------------------------------------
  // get_user_profile
  // ---------------------------------------------------------------------

  /** The public view of a user. */
  datatype PublicProfile = PublicProfile(username: string, name: Option<string>, college: string, picture: Option<string>)

  /** The linked college's name, or "Unverified" when the link resolves to no college. */
  function CollegeLabel(colleges: seq<College>, collegeId: Option<int>): string {
    match CollegeById(colleges, collegeId)
    case Some(c) => c.name
    case None => "Unverified"
  }

  /** get_user_profile: 404 for an unknown username, else the public fields of that user. */
  function UserProfile(users: seq<User>, colleges: seq<College>, username: string): (r: Result<PublicProfile>)
    ensures r.Err? <==> forall i :: 0 <= i < |users| ==> users[i].username != username
    ensures r.Err? ==> r.error == ProfileNotFound
    ensures r.Ok? ==> exists i :: (0 <= i < |users| && users[i].username == username &&
      r.value == PublicProfile(users[i].username, users[i].name, CollegeLabel(colleges, users[i].collegeId), users[i].picture))
  {
    match FirstIndex(users, (u: User) => u.username == username)
    case None => Err(ProfileNotFound)
    case Some(i) =>
      var u := users[i];
      Ok(PublicProfile(u.username, u.name, CollegeLabel(colleges, u.collegeId), u.picture))
  }

  /**
   * The label follows the college link only: a linked user shows the
   * college's name whether or not the college flag is set, and a user with
   * no link shows "Unverified".
   */
  lemma ProfileLabelIgnoresFlag(users: seq<User>, colleges: seq<College>, k: nat, flag: bool)
    requires Database.ValidUsers(users) && k < |users|
    ensures UserProfile(users[k := users[k].(isCollegeVerified := flag)], colleges, users[k].username)
         == UserProfile(users, colleges, users[k].username)
    ensures users[k].collegeId.None? ==> UserProfile(users, colleges, users[k].username).value.college == "Unverified"
  {
    var name := users[k].username;
    var users' := users[k := users[k].(isCollegeVerified := flag)];
    var p := (u: User) => u.username == name;
    assert p(users[k]) && p(users'[k]);
    var i := FirstIndex(users, p).value;
    var j := FirstIndex(users', p).value;
    assert i == k;
    assert j == k;
  }

  // ---------------------------------------------------------------------
  // send_otp and verify_otp
  // ---------------------------------------------------------------------

  /** Some user already holds this number with the phone flag set. */
  predicate PhoneClaimed(users: seq<User>, phone: string) {
    exists i :: 0 <= i < |users| && users[i].phoneNumber == Some(phone) && users[i].isPhoneVerified
  }

  /** send_otp: a number verified by any user gets no code; any other number gets one. */
  method SendOtp(s: Database.Store, phone: string, draw: OtpService.OtpDraw, now: int) returns (r: Result<()>)
    requires s.Valid()
    modifies s
    ensures s.Valid()
    ensures PhoneClaimed(old(s.users), phone) ==> r == Err(PhoneInUse) && s.otps == old(s.otps)
    ensures !PhoneClaimed(old(s.users), phone) ==>
      r == Ok(()) && s.otps == old(s.otps) + [Otp(phone, OtpService.GenerateOtp(draw), now + OtpService.OtpLifetime, false)]
    ensures s.users == old(s.users) && s.colleges == old(s.colleges) && s.products == old(s.products)
    ensures s.categories == old(s.categories) && s.images == old(s.images)
  {
    var existing := FirstIndex(s.users, (u: User) => u.phoneNumber == Some(phone) && u.isPhoneVerified);
    if existing.Some? {
      return Err(PhoneInUse);
    }
    var _ := OtpService.CreateAndSend(s, phone, draw, now);
    r := Ok(());
  }

  /** The caller's row after a successful code check. */
  function PhoneVerified(u: User, phone: string): (v: User)
    ensures SameIdentity(u, v) && PhoneGateOpen(v, phone)
    ensures v.(phoneNumber := u.phoneNumber, isPhoneVerified := u.isPhoneVerified) == u
  {
    u.(phoneNumber := Some(phone), isPhoneVerified := true)
  }

  /**
   * The verify_otp route: a failed check answers 400 and leaves the user as
   * it was; a successful one stores the number and sets the phone flag.
   * Either way the code table is what the service leaves.
   */
  method VerifyOtpRoute(s: Database.Store, uid: int, phone: string, code: string, now: int) returns (r: Result<()>)
    requires s.Valid() && 1 <= uid <= |s.users|
    modifies s
    ensures s.Valid()
    ensures s.otps == OtpService.Consume(old(s.otps), phone, code, now)
    ensures !OtpService.Accepts(old(s.otps), phone, code, now) ==> r == Err(InvalidOtp) && s.users == old(s.users)
    ensures OtpService.Accepts(old(s.otps), phone, code, now) ==>
      r == Ok(()) && s.users == old(s.users)[uid - 1 := PhoneVerified(old(s.users)[uid - 1], phone)]
    ensures s.colleges == old(s.colleges) && s.products == old(s.products)
    ensures s.categories == old(s.categories) && s.images == old(s.images)
  {
    var isValid := OtpService.VerifyOtp(s, phone, code, now);
    if !isValid {
      return Err(InvalidOtp);
    }
    var user := s.users[uid - 1];
    user := user.(phoneNumber := Some(phone));
    user := user.(isPhoneVerified := true);
    s.UpdateUser(uid - 1, user);
    r := Ok(());
  }

  // ---------------------------------------------------------------------
  // complete_onboarding
  // ---------------------------------------------------------------------

  /** The onboarding updates in handler order: basic info, then college slug, then roll number. */
  function Onboarded(u: User, req: OnboardingRequest): User {
    var v := u.(gender := req.gender, officialName := req.officialName);
    var w := if req.collegeSlug.Some? && v.collegeSlug != req.collegeSlug
             then v.(collegeSlug := req.collegeSlug, isCollegeVerified := false) else v;
    if Truthy(req.rollNumber) && w.rollNumber != req.rollNumber
    then w.(rollNumber := req.rollNumber, isCollegeVerified := false) else w
  }

  /** A given slug that differs from the stored one. */
  predicate SlugChanges(u: User, req: OnboardingRequest) {
    req.collegeSlug.Some? && u.collegeSlug != req.collegeSlug
  }

  /** A non-empty roll number that differs from the stored one. */
  predicate RollChanges(u: User, req: OnboardingRequest) {
    Truthy(req.rollNumber) && u.rollNumber != req.rollNumber
  }

  /**
   * Gender and official name are overwritten. A changed college slug or roll
   * number is stored; an absent slug, or an absent or empty roll number,
   * leaves the stored one. The college flag survives iff neither changed.
   * The phone fields and the identity are never touched.
   */
  lemma OnboardedFacts(u: User, req: OnboardingRequest)
    ensures var v := Onboarded(u, req);
      && SameIdentity(u, v)
      && v.phoneNumber == u.phoneNumber && v.isPhoneVerified == u.isPhoneVerified
      && v.gender == req.gender && v.officialName == req.officialName
      && v.collegeSlug == (if SlugChanges(u, req) then req.collegeSlug else u.collegeSlug)
      && v.rollNumber == (if RollChanges(u, req) then req.rollNumber else u.rollNumber)
      && (v.isCollegeVerified <==> u.isCollegeVerified && !SlugChanges(u, req) && !RollChanges(u, req))
      && (FlagsConsistent(u) ==> FlagsConsistent(v))
  {
  }

  /** The claims of the onboarding token, read after the updates. */
  function OnboardingClaims(u: User): (c: Claims)
    ensures c.Keys == {"sub", "user_id", "username", "college_slug", "is_verified", "is_onboarded"}
    ensures c["user_id"] == Int(u.id) && c["is_onboarded"] == Bool(true)
    ensures c["is_verified"] == Bool(u.isCollegeVerified)
  {
    map[
      "sub" := Str(u.email),
      "user_id" := Int(u.id),
      "username" := Str(u.username),
      "college_slug" := OptionalStr(u.collegeSlug),
      "is_verified" := Bool(u.isCollegeVerified),
      "is_onboarded" := Bool(true)
    ]
  }

  /**
   * The new token carries is_onboarded = true and the college flag as it is
   * after the updates; until it expires it resolves to the updated row.
   */
  lemma OnboardingTokenFacts(users: seq<User>, k: nat, req: OnboardingRequest, issuedAt: int, now: int)
    requires Database.ValidUsers(users) && k < |users|
    requires now < issuedAt + DefaultExpiry
    ensures var v := Onboarded(users[k], req);
      var c := Decode(CreateAccessToken(OnboardingClaims(v), issuedAt), now);
      && c.Some?
      && c.value.Keys == {"sub", "user_id", "username", "college_slug", "is_verified", "is_onboarded", "exp"}
      && c.value["is_onboarded"] == Bool(true)
      && c.value["is_verified"] == Bool(v.isCollegeVerified)
      && c.value["exp"] == Int(issuedAt + DefaultExpiry)
      && CurrentUser(CreateAccessToken(OnboardingClaims(v), issuedAt), users[k := v], now) == Ok(v)
  {
    var v := Onboarded(users[k], req);
    IssueDecodeRoundTrip(OnboardingClaims(v), issuedAt, DefaultExpiry, now);
    IssuedTokenResolves(OnboardingClaims(v), issuedAt, DefaultExpiry, now, users[k := v], k);
  }

  /**
   * No revocation: a token issued before onboarding still resolves, to the
   * updated row, while the college flag it carries may differ from the stored one.
   */
  lemma EarlierTokenStaysLive(users: seq<User>, k: nat, req: OnboardingRequest, earlierClaims: Claims, issuedAt: int, now: int)
    requires Database.ValidUsers(users) && k < |users|
    requires "user_id" in earlierClaims && earlierClaims["user_id"] == Int(users[k].id)
    requires now < issuedAt + DefaultExpiry
    ensures CurrentUser(CreateAccessToken(earlierClaims, issuedAt), users[k := Onboarded(users[k], req)], now)
         == Ok(Onboarded(users[k], req))
    ensures "is_verified" in earlierClaims ==>
      Decode(CreateAccessToken(earlierClaims, issuedAt), now).value["is_verified"] == earlierClaims["is_verified"]
  {
    var v := Onboarded(users[k], req);
    IssueDecodeRoundTrip(earlierClaims, issuedAt, DefaultExpiry, now);
    IssuedTokenResolves(earlierClaims, issuedAt, DefaultExpiry, now, users[k := v], k);
  }

  /**
   * complete_onboarding: refused with 400, writing nothing, unless the phone
   * flag is set and the given number is the stored one; otherwise the row is
   * updated and a fresh token with the updated claims is returned.
   */
  method CompleteOnboarding(s: Database.Store, uid: int, req: OnboardingRequest, now: int)
    returns (r: Result<(User, Token)>)
    requires s.Valid() && 1 <= uid <= |s.users|
    modifies s
    ensures s.Valid()
    ensures !PhoneGateOpen(old(s.users)[uid - 1], req.phoneNumber) ==>
      r == Err(VerifyPhoneFirst) && s.users == old(s.users)
    ensures PhoneGateOpen(old(s.users)[uid - 1], req.phoneNumber) ==>
      var v := Onboarded(old(s.users)[uid - 1], req);
      && s.users == old(s.users)[uid - 1 := v]
      && r == Ok((v, CreateAccessToken(OnboardingClaims(v), now)))
    ensures s.colleges == old(s.colleges) && s.products == old(s.products) && s.categories == old(s.categories)
    ensures s.otps == old(s.otps) && s.images == old(s.images)
  {
    var user := s.users[uid - 1];
    if !user.isPhoneVerified || user.phoneNumber != Some(req.phoneNumber) {
      return Err(VerifyPhoneFirst);
    }
    user := user.(gender := req.gender);
    user := user.(officialName := req.officialName);
    if req.collegeSlug.Some? {
      if user.collegeSlug != req.collegeSlug {
        user := user.(collegeSlug := req.collegeSlug);
        user := user.(isCollegeVerified := false);
      }
    }
    if Truthy(req.rollNumber) {
      if user.rollNumber != req.rollNumber {
        user := user.(rollNumber := req.rollNumber);
        user := user.(isCollegeVerified := false);
      }
    }
    s.UpdateUser(uid - 1, user);
    var isOnboarded := true;
    var token := CreateAccessToken(map[
      "sub" := Str(user.email),
      "user_id" := Int(user.id),
      "username" := Str(user.username),
      "college_slug" := OptionalStr(user.collegeSlug),
      "is_verified" := Bool(user.isCollegeVerified),
      "is_onboarded" := Bool(isOnboarded)
    ], now);
    r := Ok((user, token));
  }
}
