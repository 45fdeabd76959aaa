/** The User document (discord/models/userModel.js): defaults, the one-time
    password (OTP) state machine and the password-rehash rule of the
    pre-save hook. Hashing is a parameter: `sha256` stands for the hex digest
    of crypto.createHash('sha256') and `bcrypt` for bcrypt.hash with its
    random salt. */
module UserModel {
  import opened Text
  import opened Ids

  /** The `tempRegistrationData` object. */
  datatype Registration = Registration(username: string, email: string, password: string)

  /** A stored user. `password` holds the bcrypt hash once saved. */
  datatype User = User(
    name: string,
    email: string,
    password: string,
    refreshToken: Option<string>,
    otp: Option<string>,
    otpExpiry: Option<int>,
    isVerified: bool,
    tempRegistrationData: Option<Registration>,
    createdAt: int)

  /** How long an OTP stays valid: 10 minutes in milliseconds. */
  const OtpLifetime: int := 10 * 60 * 1000

  /** The `email` path's setters, `trim` and `lowercase`. Mongoose applies
      them both when storing and to a query's `{email}` filter. */
  function NormalizeEmail(e: string): string {
    ToLower(Trim(e))
  }

  /** `new User({...})`: the given fields through their setters and the
      schema defaults — not verified, and no refresh token, OTP or OTP
      expiry. */
  function NewUser(name: string, email: string, password: string, temp: Option<Registration>, now: int): (u: User)
    ensures u.name == Trim(name) && u.email == NormalizeEmail(email) && u.password == password
    ensures !u.isVerified && u.refreshToken.None? && u.otp.None? && u.otpExpiry.None?
    ensures u.tempRegistrationData == temp && u.createdAt == now
  {
    User(Trim(name), NormalizeEmail(email), password, None, None, None, false, temp, now)
  }

  /** `Math.floor(100000 + Math.random() * 900000)` for a draw in [0, 1),
      in exact arithmetic: always six digits. */
  function OtpNumber(draw: real): (n: int)
    requires 0.0 <= draw < 1.0
    ensures 100000 <= n <= 999999
  {
    assert 0.0 <= draw * 900000.0 < 900000.0;
    (100000.0 + draw * 900000.0).Floor
  }

  /** The decimal digit of a value below 10. */
  function DigitChar(d: nat): char
    requires d < 10
  {
    "0123456789"[d]
  }

  predicate IsDigit(c: char) {
    '0' <= c <= '9'
  }

  /** `n.toString()` for a natural number. */
  function DecimalString(n: nat): (s: string)
    ensures |s| >= 1
    ensures forall k :: 0 <= k < |s| ==> IsDigit(s[k])
  {
    if n < 10 then [DigitChar(n)] else DecimalString(n / 10) + [DigitChar(n % 10)]
  }

  /** The value of a string of decimal digits. */
  function DecimalValue(s: string): nat
    requires forall k :: 0 <= k < |s| ==> IsDigit(s[k])
  {
    if s == [] then 0
    else
      var last := s[|s| - 1];
      assert IsDigit(last);
      10 * DecimalValue(s[..|s| - 1]) + (last as int - '0' as int)
  }

  /** Printing a number and reading it back gives the number. */
  lemma {:induction false} DecimalRoundTrip(n: nat)
    ensures DecimalValue(DecimalString(n)) == n
  {
    if n >= 10 {
      DecimalRoundTrip(n / 10);
      var s := DecimalString(n);
      assert s[..|s| - 1] == DecimalString(n / 10);
    }
  }

  /** Numbers from 100000 to 999999 print with exactly six digits. */
  lemma SixDigits(n: nat)
    requires 100000 <= n <= 999999
    ensures |DecimalString(n)| == 6
  {
    var n1 := n / 10;
    var n2 := n1 / 10;
    var n3 := n2 / 10;
    var n4 := n3 / 10;
    var n5 := n4 / 10;
    assert 1 <= n5 < 10;
    assert |DecimalString(n5)| == 1;
    assert |DecimalString(n4)| == 2;
    assert |DecimalString(n3)| == 3;
    assert |DecimalString(n2)| == 4;
    assert |DecimalString(n1)| == 5;
  }

  /** `verifyOTP(candidate)` at time `now` against the stored hash and expiry:
      refused when either is unset (or the hash is empty); refused after the
      expiry instant, accepted at it; otherwise accepted exactly when the
      candidate's digest equals the stored one. */
  predicate OtpAccepts(otp: Option<string>, otpExpiry: Option<int>, candidate: string, now: int, sha256: string -> string) {
    if otp.None? || otp.value == "" || otpExpiry.None? then false
    else if now > otpExpiry.value then false
    else sha256(candidate) == otp.value
  }

  /** What `generateOTP` stores (the code's digest, expiring 10 minutes after
      `issuedAt`) accepts the code until, and including, the expiry instant,
      and nothing whose digest differs. */
  lemma IssuedOtpAccepted(code: string, issuedAt: int, candidate: string, now: int, sha256: string -> string)
    requires sha256(code) != ""
    ensures OtpAccepts(Some(sha256(code)), Some(issuedAt + OtpLifetime), code, now, sha256)
            <==> now <= issuedAt + OtpLifetime
    ensures OtpAccepts(Some(sha256(code)), Some(issuedAt + OtpLifetime), candidate, now, sha256)
            ==> sha256(candidate) == sha256(code)
  {
  }

  /** A loaded user document. `passwordModified` is Mongoose's change
      tracking for the `password` path (`isModified('password')`). */
  class UserDocument {
    var name: string
    var email: string
    var password: string
    var refreshToken: Option<string>
    var otp: Option<string>
    var otpExpiry: Option<int>
    var isVerified: bool
    var tempRegistrationData: Option<Registration>
    var createdAt: int
    var passwordModified: bool

    function Snapshot(): User
      reads this
    {
      User(name, email, password, refreshToken, otp, otpExpiry, isVerified, tempRegistrationData, createdAt)
    }

    /** `findOne`/`findById`: a stored user, nothing modified yet. */
    constructor Load(u: User)
      ensures Snapshot() == u && !passwordModified
    {
      name, email, password, refreshToken := u.name, u.email, u.password, u.refreshToken;
      otp, otpExpiry, isVerified := u.otp, u.otpExpiry, u.isVerified;
      tempRegistrationData, createdAt := u.tempRegistrationData, u.createdAt;
      passwordModified := false;
    }

    /** `new User({...})`: a document not yet saved, its password path dirty. */
    constructor Create(u: User)
      ensures Snapshot() == u && passwordModified
    {
      name, email, password, refreshToken := u.name, u.email, u.password, u.refreshToken;
      otp, otpExpiry, isVerified := u.otp, u.otpExpiry, u.isVerified;
      tempRegistrationData, createdAt := u.tempRegistrationData, u.createdAt;
      passwordModified := true;
    }

    /** `user.password = p` */
    method SetPassword(p: string)
      modifies this`password, this`passwordModified
      ensures password == p && passwordModified
      ensures Snapshot() == old(Snapshot()).(password := p)
    {
      password := p;
      passwordModified := true;
    }

    /** `user.name = name; user.password = password;
        user.tempRegistrationData = {...}` on an unverified account that
        registers again. */
    method Restage(name: string, email: string, password: string)
      modifies this`name, this`password, this`passwordModified, this`tempRegistrationData
      ensures Snapshot() == old(Snapshot()).(name := Trim(name), password := password,
                                             tempRegistrationData := Some(Registration(name, email, password)))
      ensures passwordModified
    {
      this.name := Trim(name);
      this.password := password;
      tempRegistrationData := Some(Registration(name, email, password));
      passwordModified := true;
    }

    /** `generateOTP()` with `Math.random()` = `draw` and `Date.now()` = `now`:
        the six-digit code is returned, only its digest is stored, and it
        expires 10 minutes later. */
    method GenerateOTP(draw: real, now: int, sha256: string -> string) returns (code: string)
      requires 0.0 <= draw < 1.0
      modifies this`otp, this`otpExpiry
      ensures code == DecimalString(OtpNumber(draw)) && |code| == 6
      ensures 100000 <= DecimalValue(code) <= 999999
      ensures otp == Some(sha256(code)) && otpExpiry == Some(now + OtpLifetime)
      ensures Snapshot() == old(Snapshot()).(otp := Some(sha256(code)), otpExpiry := Some(now + OtpLifetime))
    {
      var n := OtpNumber(draw);
      code := DecimalString(n);
      SixDigits(n);
      DecimalRoundTrip(n);
      otp := Some(sha256(code));
      otpExpiry := Some(now + OtpLifetime);
    }

    /** `verifyOTP(candidate)` */
    predicate VerifyOTP(candidate: string, now: int, sha256: string -> string)
      reads this
    {
      OtpAccepts(otp, otpExpiry, candidate, now, sha256)
    }

    /** `clearOTP()`: afterwards no candidate is accepted, at any time. */
    method ClearOTP()
      modifies this`otp, this`otpExpiry
      ensures otp.None? && otpExpiry.None?
      ensures forall c, t, h :: !OtpAccepts(otp, otpExpiry, c, t, h)
    {
      otp := None;
      otpExpiry := None;
    }

    /** The pre-save hook: the password is replaced by its hash exactly when
        it was modified since loading; the change tracking resets. */
    method RunSaveHook(bcrypt: string -> string)
      modifies this`password, this`passwordModified
      ensures old(passwordModified) ==> password == bcrypt(old(password))
      ensures !old(passwordModified) ==> password == old(password)
      ensures !passwordModified
      ensures Snapshot() == old(Snapshot()).(password := if old(passwordModified) then bcrypt(old(password)) else old(password))
    {
      if passwordModified {
        password := bcrypt(password);
      }
      passwordModified := false;
    }
  }
}
