/**
 * app/services/otp.py: the one-time-code table. Issuing appends a record that
 * expires ten minutes later; verifying marks the first matching live record
 * as used, so each issued record admits exactly one success.
 */
module OtpService {
  import opened Models
  import opened Text
  import Database

  /** ten minutes, in seconds */
  const OtpLifetime: int := 10 * 60

  /** A value of random.randint(100000, 999999). */
  type OtpDraw = n: int | 100000 <= n <= 999999 witness 100000

  /** generate_otp: the decimal form of the drawn number. */
  function GenerateOtp(draw: OtpDraw): (code: string)
    ensures |code| == 6 && AllDigits(code) && code[0] != '0'
    ensures DigitsValue(code) == draw
  {
    assert Pow10(2) == 100 && Pow10(4) == 10000 && Pow10(6) == 1000000;
    DecimalLength(draw, 6);
    DecimalNoLeadingZero(draw);
    DecimalRoundTrip(draw);
    Decimal(draw)
  }

  /** The conditions of the verification query: phone, code, unused, strictly unexpired. */
  predicate Matches(o: Otp, phone: string, code: string, now: int) {
    o.phoneNumber == phone && o.code == code && !o.isUsed && o.expiresAt > now
  }

  function FirstMatch(otps: seq<Otp>, phone: string, code: string, now: int): Option<nat> {
    FirstIndex(otps, (o: Otp) => Matches(o, phone, code, now))
  }

  /** Whether verify_otp succeeds on this table. */
  predicate Accepts(otps: seq<Otp>, phone: string, code: string, now: int) {
    FirstMatch(otps, phone, code, now).Some?
  }

  /** The table after verify_otp: the first matching record marked used, or no change. */
  function Consume(otps: seq<Otp>, phone: string, code: string, now: int): seq<Otp> {
    match FirstMatch(otps, phone, code, now)
    case None => otps
    case Some(i) => otps[i := otps[i].(isUsed := true)]
  }

  /** Success is exactly the existence of a matching record. */
  lemma AcceptsIff(otps: seq<Otp>, phone: string, code: string, now: int)
    ensures Accepts(otps, phone, code, now) <==>
      exists i :: 0 <= i < |otps| && Matches(otps[i], phone, code, now)
  {
    var p := (o: Otp) => Matches(o, phone, code, now);
    if exists i :: 0 <= i < |otps| && Matches(otps[i], phone, code, now) {
      var i :| 0 <= i < |otps| && Matches(otps[i], phone, code, now);
      assert p(otps[i]);
    }
  }

  /** Expiry is strict: a record that expires at the present instant is refused. */
  lemma ExpiryIsStrict(o: Otp, now: int)
    requires o.expiresAt == now
    ensures !Matches(o, o.phoneNumber, o.code, now)
  {
  }

  /** On success one unused record flips to used and every other record is untouched. */
  lemma ConsumeFlipsOne(otps: seq<Otp>, phone: string, code: string, now: int)
    requires Accepts(otps, phone, code, now)
    ensures var i := FirstMatch(otps, phone, code, now).value;
      var t := Consume(otps, phone, code, now);
      && |t| == |otps| && i < |otps|
      && !otps[i].isUsed && t[i] == otps[i].(isUsed := true)
      && Matches(otps[i], phone, code, now)
      && forall j :: 0 <= j < |otps| && j != i ==> t[j] == otps[j]
  {
  }

  /** On failure the table is unchanged. */
  lemma ConsumeRejectedUnchanged(otps: seq<Otp>, phone: string, code: string, now: int)
    requires !Accepts(otps, phone, code, now)
    ensures Consume(otps, phone, code, now) == otps
  {
  }

  /**
   * Single use: after a success, the same phone and code succeed again (at
   * the same or a later time) only through another record that still matches.
   */
  lemma SingleUse(otps: seq<Otp>, phone: string, code: string, now: int, later: int)
    requires Accepts(otps, phone, code, now)
    requires now <= later
    ensures var i := FirstMatch(otps, phone, code, now).value;
      Accepts(Consume(otps, phone, code, now), phone, code, later) <==>
        exists j :: 0 <= j < |otps| && j != i && Matches(otps[j], phone, code, later)
  {
    var i := FirstMatch(otps, phone, code, now).value;
    var t := Consume(otps, phone, code, now);
    AcceptsIff(t, phone, code, later);
    assert !Matches(t[i], phone, code, later);
    if exists j :: 0 <= j < |otps| && j != i && Matches(otps[j], phone, code, later) {
      var j :| 0 <= j < |otps| && j != i && Matches(otps[j], phone, code, later);
      assert Matches(t[j], phone, code, later);
    }
  }

  /** A freshly issued code is accepted for its own phone until, and only before, it expires. */
  lemma IssuedCodeAccepted(otps: seq<Otp>, phone: string, draw: OtpDraw, issuedAt: int, now: int)
    ensures now < issuedAt + OtpLifetime ==>
      Accepts(otps + [Otp(phone, GenerateOtp(draw), issuedAt + OtpLifetime, false)],
              phone, GenerateOtp(draw), now)
    ensures now >= issuedAt + OtpLifetime ==>
      (Accepts(otps + [Otp(phone, GenerateOtp(draw), issuedAt + OtpLifetime, false)],
               phone, GenerateOtp(draw), now)
       <==> Accepts(otps, phone, GenerateOtp(draw), now))
  {
    var rec := Otp(phone, GenerateOtp(draw), issuedAt + OtpLifetime, false);
    var t := otps + [rec];
    AcceptsIff(t, phone, GenerateOtp(draw), now);
    AcceptsIff(otps, phone, GenerateOtp(draw), now);
    if now < issuedAt + OtpLifetime {
      assert Matches(t[|otps|], phone, GenerateOtp(draw), now);
    } else {
      assert !Matches(t[|otps|], phone, GenerateOtp(draw), now);
      assert forall i :: 0 <= i < |otps| ==> t[i] == otps[i];
    }
  }

  /**
   * create_and_send, store part: exactly one record is appended, carrying the
   * phone, the generated code and an expiry ten minutes from now.
   */
  method CreateAndSend(s: Database.Store, phone: string, draw: OtpDraw, now: int) returns (sent: bool)
    requires s.Valid()
    modifies s
    ensures s.Valid()
    ensures sent
    ensures s.otps == old(s.otps) + [Otp(phone, GenerateOtp(draw), now + OtpLifetime, false)]
    ensures s.users == old(s.users) && s.colleges == old(s.colleges) && s.products == old(s.products)
    ensures s.categories == old(s.categories) && s.images == old(s.images)
  {
    var code := GenerateOtp(draw);
    var expires := now + OtpLifetime;
    s.otps := s.otps + [Otp(phone, code, expires, false)];
    sent := true;
  }

  /** verify_otp: finds the first live matching record and marks it used. */
  method VerifyOtp(s: Database.Store, phone: string, code: string, now: int) returns (ok: bool)
    requires s.Valid()
    modifies s
    ensures s.Valid()
    ensures ok == Accepts(old(s.otps), phone, code, now)
    ensures s.otps == Consume(old(s.otps), phone, code, now)
    ensures s.users == old(s.users) && s.colleges == old(s.colleges) && s.products == old(s.products)
    ensures s.categories == old(s.categories) && s.images == old(s.images)
  {
    var found := FirstMatch(s.otps, phone, code, now);
    if found.Some? {
      var i := found.value;
      s.otps := s.otps[i := s.otps[i].(isUsed := true)];
      ok := true;
    } else {
      ok := false;
    }
  }
}
