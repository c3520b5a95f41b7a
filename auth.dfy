/**
 * app/auth.py: issuing a signed, expiring claims token and resolving the
 * caller of an authenticated request from it.
 *
 * Signing is abstract: a token is either one this server signed, carrying
 * its payload, or one whose payload or signature was altered. Decoding a
 * signed token fails only when its "exp" claim is not an integer or has
 * been reached.
 */
module Auth {
  import opened Models

  /** A JSON value inside the claims. */
  datatype Value = Str(s: string) | Int(i: int) | Bool(b: bool) | Null

  type Claims = map<string, Value>

  datatype Token = Signed(payload: Claims) | Tampered(payload: Claims)

  /** seven days, in seconds */
  const DefaultExpiry: int := 7 * 24 * 60 * 60

  function OptionalStr(v: Option<string>): Value {
    if v.Some? then Str(v.value) else Null
  }

  /** jwt.decode: the payload of an intact token whose expiry is still ahead. */
  function Decode(token: Token, now: int): (r: Option<Claims>)
    ensures r.Some? <==>
      (token.Signed? && ("exp" in token.payload ==> token.payload["exp"].Int? && token.payload["exp"].i > now))
    ensures r.Some? ==> r.value == token.payload
  {
    match token
    case Tampered(_) => None
    case Signed(payload) =>
      if "exp" in payload && (!payload["exp"].Int? || payload["exp"].i <= now) then None
      else Some(payload)
  }

  /**
   * create_access_token: the caller's claims with "exp" set to now plus the
   * lifetime, signed. The caller's map is a value and stays as it was.
   */
  function CreateAccessToken(data: Claims, now: int, expiresDelta: int := DefaultExpiry): (t: Token)
    ensures t.Signed?
    ensures t.payload.Keys == data.Keys + {"exp"}
    ensures t.payload["exp"] == Int(now + expiresDelta)
    ensures forall k :: k in data && k != "exp" ==> t.payload[k] == data[k]
  {
    Signed(data["exp" := Int(now + expiresDelta)])
  }

  /** Decoding an issued token returns its claims exactly while the lifetime has not run out. */
  lemma IssueDecodeRoundTrip(data: Claims, issuedAt: int, expiresDelta: int, now: int)
    ensures Decode(CreateAccessToken(data, issuedAt, expiresDelta), now).Some?
      <==> now < issuedAt + expiresDelta
    ensures now < issuedAt + expiresDelta ==>
      var c := Decode(CreateAccessToken(data, issuedAt, expiresDelta), now).value;
      c.Keys == data.Keys + {"exp"} && forall k :: k in data && k != "exp" ==> c[k] == data[k]
  {
  }

  const InvalidToken := Http(401, "Invalid token")
  const UserNotFound := Http(401, "User not found")

  function UserIdClaim(payload: Claims): Option<int> {
    if "user_id" in payload && payload["user_id"].Int? then Some(payload["user_id"].i) else None
  }

  /**
   * get_current_user: a token that does not decode, or whose payload has no
   * non-null "user_id", is refused with 401; so is an id that no stored user
   * has. Otherwise the stored record is returned, whatever else the token says.
   */
  function CurrentUser(token: Token, users: seq<User>, now: int): (r: Result<User>)
    ensures Decode(token, now).None? ==> r == Err(InvalidToken)
    ensures Decode(token, now).Some? && ("user_id" !in token.payload || token.payload["user_id"] == Null)
      ==> r == Err(InvalidToken)
    ensures Decode(token, now).Some? && "user_id" in token.payload
      && token.payload["user_id"] != Null && !token.payload["user_id"].Int?
      ==> r == Err(UserNotFound)
    ensures Decode(token, now).Some? && UserIdClaim(token.payload).Some?
      && (forall i :: 0 <= i < |users| ==> users[i].id != UserIdClaim(token.payload).value)
      ==> r == Err(UserNotFound)
    ensures r.Ok? <==>
      (Decode(token, now).Some? && UserIdClaim(token.payload).Some? &&
       exists i :: 0 <= i < |users| && users[i].id == UserIdClaim(token.payload).value)
    ensures r.Ok? ==> r.value in users && r.value.id == UserIdClaim(token.payload).value
  {
    match Decode(token, now)
    case None => Err(InvalidToken)
    case Some(payload) =>
      if "user_id" !in payload || payload["user_id"] == Null then Err(InvalidToken)
      else if !payload["user_id"].Int? then Err(UserNotFound)
      else
        var id := payload["user_id"].i;
        match FirstIndex(users, (u: User) => u.id == id)
        case None => Err(UserNotFound)
        case Some(i) => Ok(users[i])
  }

  /**
   * A token issued for a stored user resolves to that user's current record
   * until it expires, with no revocation: the other claims are never consulted.
   */
  lemma IssuedTokenResolves(data: Claims, issuedAt: int, expiresDelta: int, now: int, users: seq<User>, k: nat)
    requires k < |users|
    requires forall i :: 0 <= i < |users| ==> users[i].id == i + 1
    requires "user_id" in data && data["user_id"] == Int(users[k].id)
    requires now < issuedAt + expiresDelta
    ensures CurrentUser(CreateAccessToken(data, issuedAt, expiresDelta), users, now) == Ok(users[k])
  {
    var t := CreateAccessToken(data, issuedAt, expiresDelta);
    var p := (u: User) => u.id == users[k].id;
    assert p(users[k]);
    var i := FirstIndex(users, p).value;
    assert users[i].id == i + 1;
  }

  /** Two live tokens naming the same user id resolve identically, whatever other claims they carry. */
  lemma OnlyUserIdMatters(t1: Token, t2: Token, users: seq<User>, now: int)
    requires Decode(t1, now).Some? && Decode(t2, now).Some?
    requires "user_id" in t1.payload && "user_id" in t2.payload
    requires t1.payload["user_id"] == t2.payload["user_id"]
    ensures CurrentUser(t1, users, now) == CurrentUser(t2, users, now)
  {
  }
}
