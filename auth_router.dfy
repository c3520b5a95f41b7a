/**
 * app/routers/auth.py: Google login. The credential check is an oracle whose
 * answer is passed in; the rest resolves or creates the user and mints the
 * session claims.
 */
module AuthRouter {
  import opened Models
  import opened Text
  import opened Auth
  import Utils
  import Database

  /** What the identity provider returns for a valid credential. */
  datatype GoogleIdentity = GoogleIdentity(email: string, name: Option<string>, picture: Option<string>)

  const InvalidGoogleToken := Http(400, "Invalid Google Token")

  /** The position of the last '@' before n, or -1 when there is none. */
  function LastAt(s: string, n: nat): (r: int)
    requires n <= |s|
    ensures -1 <= r < n
    ensures forall j :: r < j < n ==> s[j] != '@'
    ensures r >= 0 ==> s[r] == '@'
  {
    if n == 0 then -1 else if s[n - 1] == '@' then n - 1 else LastAt(s, n - 1)
  }

  /** email.split("@")[-1]: the text after the last '@', or all of it. */
  function EmailDomain(email: string): (r: string)
    ensures |r| <= |email| && r == email[|email| - |r|..]
    ensures forall i :: 0 <= i < |r| ==> r[i] != '@'
    ensures |r| < |email| ==> email[|email| - |r| - 1] == '@'
  {
    email[LastAt(email, |email|) + 1..]
  }

  /**
   * `'domain' LIKE '%' || college.domain`, read as a literal suffix test;
   * NULL never matches, an empty stored domain matches every login domain.
   */
  predicate DomainMatches(c: College, domain: string)
    ensures DomainMatches(c, domain) ==> c.domain.Some? && |c.domain.value| <= |domain|
    ensures c.domain == Some(domain) ==> DomainMatches(c, domain)
    ensures c.domain == Some("") ==> DomainMatches(c, domain)
  {
    c.domain.Some? && EndsWith(domain, c.domain.value)
  }

  /** The first college in store order whose domain is a suffix of the login domain. */
  function MatchCollege(colleges: seq<College>, domain: string): (r: Option<College>)
    ensures r.Some? <==> exists i :: 0 <= i < |colleges| && DomainMatches(colleges[i], domain)
    ensures r.Some? ==>
      exists i :: (0 <= i < |colleges| && colleges[i] == r.value && DomainMatches(colleges[i], domain) &&
                   forall j :: 0 <= j < i ==> !DomainMatches(colleges[j], domain))
  {
    var p := (c: College) => DomainMatches(c, domain);
    match FirstIndex(colleges, p)
    case None => None
    case Some(i) => Some(colleges[i])
  }

  /** The match is a bare suffix test, not anchored at a label boundary. */
  lemma SuffixMatchIgnoresLabels()
    ensures DomainMatches(College(1, "IIT Delhi", "iitd", Some("iitd.ac.in")), "notiitd.ac.in")
    ensures DomainMatches(College(1, "IIT Delhi", "iitd", Some("iitd.ac.in")), "cs.iitd.ac.in")
    ensures !DomainMatches(College(1, "IIT Delhi", "iitd", None), "iitd.ac.in")
  {
    assert "notiitd.ac.in"[3..] == "iitd.ac.in";
    assert "cs.iitd.ac.in"[3..] == "iitd.ac.in";
  }

  /** The claims of a login token: no "is_onboarded" entry. */
  function LoginClaims(u: User, collegeSlug: Option<string>): (c: Claims)
    ensures c.Keys == {"sub", "user_id", "username", "college_slug", "is_verified"}
    ensures "is_onboarded" !in c
    ensures c["sub"] == Str(u.email) && c["user_id"] == Int(u.id) && c["username"] == Str(u.username)
    ensures c["college_slug"] == OptionalStr(collegeSlug) && c["is_verified"] == Bool(u.isCollegeVerified)
  {
    map[
      "sub" := Str(u.email),
      "user_id" := Int(u.id),
      "username" := Str(u.username),
      "college_slug" := OptionalStr(collegeSlug),
      "is_verified" := Bool(u.isCollegeVerified)
    ]
  }

  /**
   * A login token issued for a stored user resolves to that user until it
   * expires, and carries the user's college flag.
   */
  lemma LoginTokenResolves(users: seq<User>, k: nat, collegeSlug: Option<string>, issuedAt: int, now: int)
    requires k < |users|
    requires forall i :: 0 <= i < |users| ==> users[i].id == i + 1
    requires now < issuedAt + DefaultExpiry
    ensures var t := CreateAccessToken(LoginClaims(users[k], collegeSlug), issuedAt);
      && CurrentUser(t, users, now) == Ok(users[k])
      && Decode(t, now).Some? && Decode(t, now).value["is_verified"] == Bool(users[k].isCollegeVerified)
  {
    IssuedTokenResolves(LoginClaims(users[k], collegeSlug), issuedAt, DefaultExpiry, now, users, k);
  }

  function SlugOf(c: Option<College>): Option<string> {
    if c.Some? then Some(c.value.slug) else None
  }

  predicate HasEmail(users: seq<User>, email: string) {
    exists i :: 0 <= i < |users| && users[i].email == email
  }

  function NewUser(id: int, g: GoogleIdentity, username: string, college: Option<College>): (u: User)
    ensures u.id == id && u.email == g.email && u.username == username
    ensures u.isCollegeVerified <==> u.collegeId.Some?
    ensures u.collegeId == (if college.Some? then Some(college.value.id) else None)
    ensures u.name == g.name && u.picture == g.picture
    ensures !u.isPhoneVerified && u.phoneNumber.None? && u.collegeSlug.None?
  {
    User(id, g.email, username, g.name, g.picture, None, false, None, None, None,
         if college.Some? then Some(college.value.id) else None, None, college.Some?)
  }

  /**
   * login_google. A refused credential gives 400 and writes nothing. An
   * unknown email gets a new row (NewUser, Store.AddUser). A known user is left as
   * stored. The token's college slug is the matched college's for a new user
   * and the slug of the linked college for an existing one.
   */
  method LoginGoogle(s: Database.Store, google: Option<GoogleIdentity>, draws: seq<Utils.SuffixDraw>, now: int)
    returns (r: Result<Token>)
    requires s.Valid()
    modifies s
    ensures s.Valid()
    ensures s.colleges == old(s.colleges) && s.products == old(s.products) && s.otps == old(s.otps)
    ensures s.categories == old(s.categories) && s.images == old(s.images)
    ensures google.None? ==> r == Err(InvalidGoogleToken) && s.users == old(s.users)
    // an existing user: nothing is written, the stored flags are reported
    ensures google.Some? && HasEmail(old(s.users), google.value.email) ==>
      && s.users == old(s.users)
      && exists i :: (0 <= i < |s.users| && s.users[i].email == google.value.email &&
        r == Ok(CreateAccessToken(LoginClaims(s.users[i], SlugOf(CollegeById(s.colleges, s.users[i].collegeId))), now)))
    // a new user: exactly one row appended, or nothing when the username draws ran out
    ensures google.Some? && !HasEmail(old(s.users), google.value.email) ==>
      var g := google.value;
      var college := MatchCollege(s.colleges, EmailDomain(g.email));
      var name := Utils.PickUsername(Utils.BaseUsername(g.email), old(s.users), draws, 0);
      if name.None? then r == Err(DrawsExhausted) && s.users == old(s.users)
      else
        var u := NewUser(|old(s.users)| + 1, g, name.value, college);
        && s.users == old(s.users) + [u]
        && !Utils.UsernameTaken(old(s.users), u.username)
        && u.isCollegeVerified == college.Some?
        && r == Ok(CreateAccessToken(LoginClaims(u, SlugOf(college)), now))
  {
    if google.None? {
      return Err(InvalidGoogleToken);
    }
    var g := google.value;
    var email := g.email;
    var found := FirstIndex(s.users, (u: User) => u.email == email);
    var knownCollege: Option<College> := None;
    var user: User;
    if found.None? {
      assert !HasEmail(s.users, email);
      knownCollege := MatchCollege(s.colleges, EmailDomain(email));
      ghost var users := s.users;
      var newUsername := Utils.GenerateUniqueUsername(s.users, email, draws);
      if newUsername.None? {
        return Err(DrawsExhausted);
      }
      user := NewUser(|s.users| + 1, g, newUsername.value, knownCollege);
      assert forall i :: 0 <= i < |users| ==> users[i].username != user.username && users[i].email != user.email;
      s.AddUser(user);
    } else {
      user := s.users[found.value];
      if user.collegeId.Some? && user.collegeId.value != 0 {
        knownCollege := CollegeById(s.colleges, user.collegeId);
      }
    }
    var collegeSlug: Option<string> := None;
    if knownCollege.Some? {
      collegeSlug := Some(knownCollege.value.slug);
    } else if CollegeById(s.colleges, user.collegeId).Some? {
      collegeSlug := Some(CollegeById(s.colleges, user.collegeId).value.slug);
    }
    r := Ok(CreateAccessToken(LoginClaims(user, collegeSlug), now));
  }
}
