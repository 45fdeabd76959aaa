/** The account handlers of discord/controller/userController.js:
    `checkUsername`, `sendOTP`, `registerUser`, `loginUser`, `logoutUser`,
    `refreshAccessToken` and `getUser`. sha256, bcrypt and the result of
    `jwt.verify` are parameters; so are the tokens `jwt.sign` produces, the
    OTP draw of `Math.random()`, `Date.now()`, and whether the OTP e-mail
    went out. A name in a `^name$` query is compared literally, up to case. */
module UserController {
  import opened Text
  import opened Ids
  import opened UserModel
  import opened Database
  import opened AsyncHandler
  import opened ErrorHandler
  import opened AuthMiddleware

  /** The one-way functions: the sha256 hex digest, bcrypt hashing, and
      `bcrypt.compare(candidate, hash)`. */
  datatype Crypto = Crypto(sha256: string -> string, bcrypt: string -> string, bcryptCompare: (string, string) -> bool)

  /** The two tokens `generateTokens` signs on this call; the reply sets
      them as the `accessToken` and `refreshToken` cookies. */
  datatype Tokens = Tokens(accessToken: string, refreshToken: string)

  /** The user fields the register and login replies carry. */
  datatype Profile = Profile(id: UserId, name: string, email: string, isVerified: bool, createdAt: int)

  function ProfileOf(id: UserId, u: User): Profile {
    Profile(id, u.name, u.email, u.isVerified, u.createdAt)
  }

  /** The first user, from position `from` on, that `keep` accepts:
      `User.findOne(filter)`. */
  function FirstWhere(users: seq<User>, keep: User -> bool, from: nat): (r: Option<UserId>)
    requires from <= |users|
    ensures r.Some? ==> from <= r.value < |users| && keep(users[r.value])
    ensures r.Some? ==> forall id :: from <= id < r.value ==> !keep(users[id])
    ensures r.None? ==> forall id :: from <= id < |users| ==> !keep(users[id])
    decreases |users| - from
  {
    if from == |users| then None
    else if keep(users[from]) then Some(from)
    else FirstWhere(users, keep, from + 1)
  }

  /** The filter `{email}`: the request's e-mail through the path's setters. */
  function HasEmail(email: string): User -> bool {
    (u: User) => u.email == NormalizeEmail(email)
  }

  /** `User.findOne({email})` */
  function FindByEmail(users: seq<User>, email: string): Option<UserId> {
    FirstWhere(users, HasEmail(email), 0)
  }

  /** The filter `{name: /^name$/i}`, with `verifiedOnly` adding `isVerified: true`. */
  function NamedLike(name: string, verifiedOnly: bool): User -> bool {
    (u: User) => ToLower(u.name) == ToLower(name) && (verifiedOnly ==> u.isVerified)
  }

  /** Whether some user's name equals `name` up to case (a verified one
      when `verifiedOnly`). */
  predicate NameTaken(users: seq<User>, name: string, verifiedOnly: bool) {
    FirstWhere(users, NamedLike(name, verifiedOnly), 0).Some?
  }

  /** A search by e-mail finds the first user holding it, and only that one. */
  lemma FindByEmailFirst(users: seq<User>, email: string, id: UserId)
    requires id < |users| && users[id].email == NormalizeEmail(email)
    requires forall j :: 0 <= j < id ==> users[j].email != NormalizeEmail(email)
    ensures FindByEmail(users, email) == Some(id)
  {
    var r := FindByEmail(users, email);
    assert HasEmail(email)(users[id]);
    assert forall j :: 0 <= j < id ==> !HasEmail(email)(users[j]);
  }

  // ----- checkUsername -----

  /** `checkUsername`: a missing or blank name is a 400; otherwise 200 with
      `available` true exactly when no user, verified or not, has the
      trimmed name up to case. */
  function CheckUsername(users: seq<User>, username: Option<string>): (o: Outcome<bool>)
    ensures username.None? || IsBlank(username.value) <==> RaisedWith(o, 400)
    ensures username.None? || IsBlank(username.value) ==> RaisedWithText(o, 400, "Username is required")
    ensures username.Some? && !IsBlank(username.value) ==>
              o.Sent? && o.reply.status == 200 && o.reply.body.Envelope?
              && (o.reply.body.response.data <==> forall id :: 0 <= id < |users| ==>
                    ToLower(users[id].name) != ToLower(Trim(username.value)))
  {
    if username.None? || IsBlank(username.value) then Throw(400, "Username is required")
    else
      var taken := NameTaken(users, Trim(username.value), false);
      Send(200, !taken, "Username availability checked")
  }

  // ----- the blank-field check -----

  /** A field is present and not blank. */
  predicate FieldFilled(f: Option<string>) {
    f.Some? && !IsBlank(f.value)
  }

  /** Every field is present and not blank. */
  predicate Filled(fields: seq<Option<string>>) {
    forall k :: 0 <= k < |fields| ==> FieldFilled(fields[k])
  }

  /** The index of the first field that is absent or blank, or the number of
      fields when all are filled. */
  function FirstUnfilled(fields: seq<Option<string>>): (k: nat)
    ensures k <= |fields| && Filled(fields[..k])
    ensures k < |fields| ==> !FieldFilled(fields[k])
  {
    if fields == [] || !FieldFilled(fields[0]) then 0
    else
      var k := FirstUnfilled(fields[1..]);
      assert fields[..k + 1] == [fields[0]] + fields[1..][..k];
      k + 1
  }

  /** `[a, b, ...].some(f => f.trim() === '')`, left to right: a blank field
      is a 400, and an absent one reached first throws a TypeError. */
  function BlankCheck(fields: seq<Option<string>>): (v: Verdict)
    ensures v.Allowed? <==> Filled(fields)
    ensures v.Refused? ==> v.status == 400
    ensures v.Refused? <==> FirstUnfilled(fields) < |fields| && fields[FirstUnfilled(fields)].Some?
    ensures v.Crash? <==> FirstUnfilled(fields) < |fields| && fields[FirstUnfilled(fields)].None?
  {
    var k := FirstUnfilled(fields);
    if k == |fields| then (assert fields[..k] == fields; Allowed)
    else if fields[k].None? then Crash
    else Refused(400)
  }

  /** Three fields are filled exactly when each of them is. */
  lemma FilledThree(a: Option<string>, b: Option<string>, c: Option<string>)
    ensures Filled([a, b, c]) <==> FieldFilled(a) && FieldFilled(b) && FieldFilled(c)
  {
    var fs := [a, b, c];
    assert fs[0] == a && fs[1] == b && fs[2] == c;
  }

  /** Two fields are filled exactly when each of them is. */
  lemma FilledTwo(a: Option<string>, b: Option<string>)
    ensures Filled([a, b]) <==> FieldFilled(a) && FieldFilled(b)
  {
    var fs := [a, b];
    assert fs[0] == a && fs[1] == b;
  }

  // ----- sendOTP -----

  /** The checks of `sendOTP`, in order: a blank (or missing) field; a
      password under 6 characters (400); a verified account with the e-mail
      (409); a verified account with the name up to case (409). */
  function SendOtpVerdict(users: seq<User>, username: Option<string>, email: Option<string>, password: Option<string>): (v: Verdict)
    ensures v.Allowed? ==> FieldFilled(username) && FieldFilled(email) && FieldFilled(password)
    ensures v.Allowed? ==> |password.value| >= 6 && !NameTaken(users, Trim(username.value), true)
    ensures v.Allowed? && FindByEmail(users, email.value).Some? ==> !users[FindByEmail(users, email.value).value].isVerified
    ensures v.Refused? ==> v.status == 400 || v.status == 409
    ensures v.Crash? <==> BlankCheck([username, email, password]).Crash?
    ensures v.Refused? && !(FieldFilled(username) && FieldFilled(email) && FieldFilled(password)) ==> v == Refused(400)
    ensures v == Refused(400) && FieldFilled(username) && FieldFilled(email) && FieldFilled(password) ==>
              |password.value| < 6
    ensures v == Refused(409) ==> FieldFilled(username) && FieldFilled(email) && FieldFilled(password) && |password.value| >= 6
  {
    FilledThree(username, email, password);
    var blank := BlankCheck([username, email, password]);
    if !blank.Allowed? then blank
    else if |password.value| < 6 then Refused(400)
    else
      var existing := FindByEmail(users, email.value);
      if existing.Some? && users[existing.value].isVerified then Refused(409)
      else if NameTaken(users, Trim(username.value), true) then Refused(409)
      else Allowed
  }

  /** The message of the check of `sendOTP` that failed. */
  function SendOtpMessage(users: seq<User>, username: Option<string>, email: Option<string>, password: Option<string>): string
  {
    if !(FieldFilled(username) && FieldFilled(email) && FieldFilled(password)) then "All fields are reqired"
    else if |password.value| < 6 then "Password must be at least 6 characters long"
    else
      var existing := FindByEmail(users, email.value);
      if existing.Some? && users[existing.value].isVerified then "User already exists and is verified"
      else "Username is already taken"
  }

  /** The code `generateOTP` returns for the draw. */
  function Code(draw: real): string
    requires 0.0 <= draw < 1.0
  {
    DecimalString(OtpNumber(draw))
  }

  /** The account `sendOTP` saves: the unverified account with the e-mail,
      or a new one; with the requested name (trimmed), the bcrypt hash of the
      password, the registration data as sent (the password in clear), and
      the digest of `code`, expiring 10 minutes after `now`. */
  function Pending(prior: Option<User>, username: string, email: string, password: string, code: string, now: int, c: Crypto): User {
    var temp := Some(Registration(username, email, password));
    var base := if prior.Some? then prior.value.(name := Trim(username), tempRegistrationData := temp)
                else NewUser(username, email, password, temp, now);
    base.(password := c.bcrypt(password), otp := Some(c.sha256(code)), otpExpiry := Some(now + OtpLifetime))
  }

  /** The users after a `sendOTP` whose checks passed. When the e-mail
      cannot be sent, a newly created account is deleted again, while an
      update of an existing one stays. */
  function AfterSendOtp(users: seq<User>, username: string, email: string, password: string, code: string,
                        now: int, c: Crypto, mailSent: bool): seq<User>
  {
    match FindByEmail(users, email)
    case Some(id) => users[id := Pending(Some(users[id]), username, email, password, code, now, c)]
    case None => if mailSent then users + [Pending(None, username, email, password, code, now, c)] else users
  }

  /** Updates an existing account the way `sendOTP` does through its
      document: new name, password and pending registration, a fresh OTP,
      and the save hook (which hashes the modified password). */
  method UpdatePending(prior: User, username: string, email: string, password: string, draw: real,
                       now: int, c: Crypto) returns (u: User, code: string)
    requires 0.0 <= draw < 1.0
    ensures code == Code(draw) && |code| == 6
    ensures u == Pending(Some(prior), username, email, password, code, now, c)
  {
    var doc := new UserDocument.Load(prior);
    doc.Restage(username, email, password);
    code := doc.GenerateOTP(draw, now, c.sha256);
    doc.RunSaveHook(c.bcrypt);
    u := doc.Snapshot();
  }

  /** Creates the account `sendOTP` saves for a new e-mail: a fresh document,
      a fresh OTP, and the save hook. */
  method CreatePending(username: string, email: string, password: string, draw: real,
                       now: int, c: Crypto) returns (u: User, code: string)
    requires 0.0 <= draw < 1.0
    ensures code == Code(draw) && |code| == 6
    ensures u == Pending(None, username, email, password, code, now, c)
  {
    var doc := new UserDocument.Create(NewUser(username, email, password, Some(Registration(username, email, password)), now));
    code := doc.GenerateOTP(draw, now, c.sha256);
    doc.RunSaveHook(c.bcrypt);
    u := doc.Snapshot();
  }

  /** Saves the account being registered: the existing one is overwritten;
      a new one is kept only when the e-mail went out. */
  method CommitPending(db: Store, username: string, email: string, password: string, draw: real, now: int,
                       c: Crypto, mailSent: bool) returns (code: string)
    requires db.Valid() && 0.0 <= draw < 1.0
    modifies db`users
    ensures db.Valid() && code == Code(draw)
    ensures db.users == AfterSendOtp(old(db.users), username, email, password, code, now, c, mailSent)
  {
    var existing := FindByEmail(db.users, email);
    var u;
    if existing.Some? {
      u, code := UpdatePending(db.users[existing.value], username, email, password, draw, now, c);
      db.WriteUser(existing.value, u);
    } else {
      u, code := CreatePending(username, email, password, draw, now, c);
      if mailSent {
        var id := db.InsertUser(u);
      }
    }
  }

  /** `sendOTP`: the checks, then the account is saved with a fresh OTP and
      the code e-mailed. A failed e-mail is a 500; otherwise 200 with the
      e-mail as sent. */
  method SendOtp(db: Store, username: Option<string>, email: Option<string>, password: Option<string>,
                 draw: real, now: int, c: Crypto, mailSent: bool) returns (o: Outcome<string>)
    requires db.Valid() && 0.0 <= draw < 1.0
    modifies db`users
    ensures db.Valid()
    ensures var v := SendOtpVerdict(old(db.users), username, email, password);
      && (v.Refused? ==> RaisedWith(o, v.status) && db.users == old(db.users))
      && (v.Crash? ==> Crashed(o) && db.users == old(db.users))
      && (v.Allowed? ==> db.users == AfterSendOtp(old(db.users), username.value, email.value, password.value,
                                                   Code(draw), now, c, mailSent))
      && (v.Allowed? && !mailSent ==> RaisedWithText(o, 500, "Failed to send OTP email"))
      && (v.Refused? && !(FieldFilled(username) && FieldFilled(email) && FieldFilled(password)) ==>
            RaisedWithText(o, 400, "All fields are reqired"))
      && (v.Refused? && FieldFilled(username) && FieldFilled(email) && FieldFilled(password) && |password.value| < 6 ==>
            RaisedWithText(o, 400, "Password must be at least 6 characters long"))
      && (v == Refused(409) && FieldFilled(email) && FindByEmail(old(db.users), email.value).Some?
          && old(db.users)[FindByEmail(old(db.users), email.value).value].isVerified ==>
            RaisedWithText(o, 409, "User already exists and is verified"))
      && (v == Refused(409) && FieldFilled(email) && !(FindByEmail(old(db.users), email.value).Some?
          && old(db.users)[FindByEmail(old(db.users), email.value).value].isVerified) ==>
            RaisedWithText(o, 409, "Username is already taken"))
      && (v.Allowed? && mailSent ==> o == Send(200, email.value, "OTP sent successfully"))
  {
    var v := SendOtpVerdict(db.users, username, email, password);
    if v.Crash? {
      return Raised(Fault(None, "Cannot read properties of undefined (reading 'trim')"));
    }
    if v.Refused? {
      return Throw(v.status, SendOtpMessage(db.users, username, email, password));
    }
    var code := CommitPending(db, username.value, email.value, password.value, draw, now, c, mailSent);
    if !mailSent {
      return Throw(500, "Failed to send OTP email");
    }
    o := Send(200, email.value, "OTP sent successfully");
  }

  // ----- registerUser -----

  /** The checks of `registerUser`, in order: a missing or empty e-mail or
      code (400); no account with the e-mail (404); a code the account's
      OTP state refuses at `now` (400). */
  function RegisterVerdict(users: seq<User>, email: Option<string>, otp: Option<string>, now: int,
                           sha256: string -> string): (v: Verdict)
    ensures v.Allowed? <==>
              (&& Truthy(email) && Truthy(otp) && FindByEmail(users, email.value).Some?
               && OtpAccepts(users[FindByEmail(users, email.value).value].otp,
                             users[FindByEmail(users, email.value).value].otpExpiry, otp.value, now, sha256))
    ensures !(Truthy(email) && Truthy(otp)) ==> v == Refused(400)
    ensures Truthy(email) && Truthy(otp) && FindByEmail(users, email.value).None? ==> v == Refused(404)
    ensures !v.Crash?
  {
    if !Truthy(email) || !Truthy(otp) then Refused(400)
    else match FindByEmail(users, email.value)
      case None => Refused(404)
      case Some(id) =>
        if !OtpAccepts(users[id].otp, users[id].otpExpiry, otp.value, now, sha256) then Refused(400) else Allowed
  }

  /** The account after a registration: verified, without OTP or
      registration data, holding the newly signed refresh token. */
  function Registered(u: User, refreshToken: string): (r: User)
    ensures r.isVerified && r.otp.None? && r.otpExpiry.None? && r.tempRegistrationData.None?
    ensures r.refreshToken == Some(refreshToken)
    ensures r.name == u.name && r.email == u.email && r.password == u.password && r.createdAt == u.createdAt
  {
    u.(isVerified := true, otp := None, otpExpiry := None, tempRegistrationData := None, refreshToken := Some(refreshToken))
  }

  /** `generateTokens(user)`: the new refresh token is stored (the save
      hook leaves the unmodified password alone). */
  method StoreRefreshToken(db: Store, id: UserId, doc: UserDocument, t: Tokens, c: Crypto)
    requires db.Valid() && id < |db.users| && !doc.passwordModified
    modifies db`users, doc
    ensures db.Valid() && !doc.passwordModified
    ensures doc.Snapshot() == old(doc.Snapshot()).(refreshToken := Some(t.refreshToken))
    ensures db.users == old(db.users)[id := doc.Snapshot()]
  {
    doc.refreshToken := Some(t.refreshToken);
    doc.RunSaveHook(c.bcrypt);
    db.WriteUser(id, doc.Snapshot());
  }

  /** `registerUser`: the checks, then the account is verified, its OTP and
      registration data cleared, tokens issued; 201 with the profile, and
      both cookies set. */
  method RegisterUser(db: Store, email: Option<string>, otp: Option<string>, now: int, c: Crypto, t: Tokens)
    returns (o: Outcome<Profile>, cookies: Option<Tokens>)
    requires db.Valid()
    modifies db`users
    ensures db.Valid()
    ensures var v := RegisterVerdict(old(db.users), email, otp, now, c.sha256);
      && (v.Refused? ==> RaisedWith(o, v.status) && db.users == old(db.users) && cookies.None?)
      && (v == Refused(400) && !(Truthy(email) && Truthy(otp)) ==> RaisedWithText(o, 400, "Email and OTP are required"))
      && (v == Refused(404) ==> RaisedWithText(o, 404, "User not found. Please request a new OTP."))
      && (v == Refused(400) && Truthy(email) && Truthy(otp) ==> RaisedWithText(o, 400, "Invalid or expired OTP"))
      && (v.Allowed? ==>
            var id := FindByEmail(old(db.users), email.value).value;
            && db.users == old(db.users)[id := Registered(old(db.users)[id], t.refreshToken)]
            && o == Send(201, ProfileOf(id, db.users[id]), "User registered successfully")
            && cookies == Some(t))
  {
    var v := RegisterVerdict(db.users, email, otp, now, c.sha256);
    if v.Refused? {
      return Throw(v.status, if v.status == 404 then "User not found. Please request a new OTP."
                             else if !Truthy(email) || !Truthy(otp) then "Email and OTP are required"
                             else "Invalid or expired OTP"), None;
    }
    var id := FindByEmail(db.users, email.value).value;
    var u := MarkRegistered(db, id, t, c);
    o := Send(201, ProfileOf(id, u), "User registered successfully");
    cookies := Some(t);
  }

  /** The updates of a passing `registerUser`, saved twice: verified, OTP
      and registration data cleared, then the refresh token stored. */
  method MarkRegistered(db: Store, id: UserId, t: Tokens, c: Crypto) returns (u: User)
    requires db.Valid() && id < |db.users|
    modifies db`users
    ensures db.Valid()
    ensures u == Registered(old(db.users)[id], t.refreshToken) && db.users == old(db.users)[id := u]
  {
    var doc := new UserDocument.Load(db.users[id]);
    doc.isVerified := true;
    doc.ClearOTP();
    doc.tempRegistrationData := None;
    doc.RunSaveHook(c.bcrypt);
    db.WriteUser(id, doc.Snapshot());
    StoreRefreshToken(db, id, doc, t, c);
    u := doc.Snapshot();
  }

  /** The registration round trip: right after a `sendOTP` whose checks
      passed and whose e-mail went out, `registerUser` with the e-mailed
      code passes its checks exactly until the code expires, 10 minutes
      later; then the account is verified and the code is spent. */
  lemma SendThenRegister(users: seq<User>, username: string, email: string, password: string, draw: real,
                         now: int, later: int, c: Crypto, refreshToken: string)
    requires 0.0 <= draw < 1.0
    requires SendOtpVerdict(users, Some(username), Some(email), Some(password)).Allowed?
    requires c.sha256(Code(draw)) != ""
    ensures var after := AfterSendOtp(users, username, email, password, Code(draw), now, c, true);
            && FindByEmail(after, email).Some?
            && (RegisterVerdict(after, Some(email), Some(Code(draw)), later, c.sha256).Allowed?
                <==> later <= now + OtpLifetime)
            && var u := Registered(after[FindByEmail(after, email).value], refreshToken);
               u.isVerified && !OtpAccepts(u.otp, u.otpExpiry, Code(draw), later, c.sha256)
  {
    var code := Code(draw);
    var after := AfterSendOtp(users, username, email, password, code, now, c, true);
    assert email != "" by { assert Trim("") == ""; }
    SixDigits(OtpNumber(draw));
    var existing := FindByEmail(users, email);
    var id := if existing.Some? then existing.value else |users|;
    var p := Pending(if existing.Some? then Some(users[id]) else None, username, email, password, code, now, c);
    assert after[id] == p;
    assert forall j :: 0 <= j < id ==> after[j] == users[j];
    assert forall j :: 0 <= j < id ==> !HasEmail(email)(users[j]);
    if existing.Some? {
      assert HasEmail(email)(users[id]);
    }
    FindByEmailFirst(after, email, id);
    IssuedOtpAccepted(code, now, code, later, c.sha256);
  }

  // ----- loginUser -----

  /** The checks of `loginUser`, in order: a blank (or missing) field; no
      account with the e-mail (404); an unverified account (403); a password
      bcrypt does not match (400). */
  function LoginVerdict(users: seq<User>, email: Option<string>, password: Option<string>, c: Crypto): (v: Verdict)
    ensures v.Allowed? <==>
              (&& FieldFilled(email) && FieldFilled(password) && FindByEmail(users, email.value).Some?
               && users[FindByEmail(users, email.value).value].isVerified
               && c.bcryptCompare(password.value, users[FindByEmail(users, email.value).value].password))
    ensures FieldFilled(email) && FieldFilled(password) && FindByEmail(users, email.value).None? ==> v == Refused(404)
    ensures (&& FieldFilled(email) && FieldFilled(password) && FindByEmail(users, email.value).Some?
             && !users[FindByEmail(users, email.value).value].isVerified) ==> v == Refused(403)
    ensures v == Refused(404) ==> FieldFilled(email) && FieldFilled(password) && FindByEmail(users, email.value).None?
    ensures v == Refused(403) ==> FieldFilled(email) && FieldFilled(password) && FindByEmail(users, email.value).Some?
                                  && !users[FindByEmail(users, email.value).value].isVerified
    ensures v == Refused(400) && FieldFilled(email) && FieldFilled(password) ==>
              && FindByEmail(users, email.value).Some? && users[FindByEmail(users, email.value).value].isVerified
              && !c.bcryptCompare(password.value, users[FindByEmail(users, email.value).value].password)
    ensures v.Refused? && !(FieldFilled(email) && FieldFilled(password)) ==> v == Refused(400)
  {
    FilledTwo(email, password);
    var blank := BlankCheck([email, password]);
    if !blank.Allowed? then blank
    else match FindByEmail(users, email.value)
      case None => Refused(404)
      case Some(id) =>
        if !users[id].isVerified then Refused(403)
        else if !c.bcryptCompare(password.value, users[id].password) then Refused(400)
        else Allowed
  }

  /** The message of the check of `loginUser` that failed. */
  function LoginMessage(users: seq<User>, email: Option<string>, password: Option<string>, c: Crypto): string
  {
    if !(FieldFilled(email) && FieldFilled(password)) then "All fields are reqired"
    else match FindByEmail(users, email.value)
      case None => "User not found"
      case Some(id) => if !users[id].isVerified then "Please verify your email first" else "Invalid credentials"
  }

  /** `loginUser`: the checks, then tokens are issued and the refresh token
      stored; 200 with the profile, and both cookies set. */
  method LoginUser(db: Store, email: Option<string>, password: Option<string>, c: Crypto, t: Tokens)
    returns (o: Outcome<Profile>, cookies: Option<Tokens>)
    requires db.Valid()
    modifies db`users
    ensures db.Valid()
    ensures var v := LoginVerdict(old(db.users), email, password, c);
      && (v.Refused? ==> RaisedWith(o, v.status) && db.users == old(db.users) && cookies.None?)
      && (v == Refused(400) && !(FieldFilled(email) && FieldFilled(password)) ==> RaisedWithText(o, 400, "All fields are reqired"))
      && (v == Refused(404) ==> RaisedWithText(o, 404, "User not found"))
      && (v == Refused(403) ==> RaisedWithText(o, 403, "Please verify your email first"))
      && (v == Refused(400) && FieldFilled(email) && FieldFilled(password) ==> RaisedWithText(o, 400, "Invalid credentials"))
      && (v.Crash? ==> Crashed(o) && db.users == old(db.users) && cookies.None?)
      && (v.Allowed? ==>
            var id := FindByEmail(old(db.users), email.value).value;
            && db.users == old(db.users)[id := old(db.users)[id].(refreshToken := Some(t.refreshToken))]
            && o == Send(200, ProfileOf(id, db.users[id]), "User logged in successfully")
            && cookies == Some(t))
  {
    var v := LoginVerdict(db.users, email, password, c);
    if v.Crash? {
      return Raised(Fault(None, "Cannot read properties of undefined (reading 'trim')")), None;
    }
    if v.Refused? {
      return Throw(v.status, LoginMessage(db.users, email, password, c)), None;
    }
    var id := FindByEmail(db.users, email.value).value;
    var doc := new UserDocument.Load(db.users[id]);
    StoreRefreshToken(db, id, doc, t, c);
    o := Send(200, ProfileOf(id, doc.Snapshot()), "User logged in successfully");
    cookies := Some(t);
  }

  /** The whole sign-up: after a `sendOTP` whose e-mail went out and a
      `registerUser` with the e-mailed code, logging in with the same e-mail
      and password passes every check of `loginUser`, provided bcrypt
      accepts a password against its own hash. */
  lemma {:induction false} SignUpThenLogin(users: seq<User>, username: string, email: string, password: string,
                                           draw: real, now: int, c: Crypto, refreshToken: string)
    requires 0.0 <= draw < 1.0
    requires SendOtpVerdict(users, Some(username), Some(email), Some(password)).Allowed?
    requires c.bcryptCompare(password, c.bcrypt(password))
    ensures var after := AfterSendOtp(users, username, email, password, Code(draw), now, c, true);
            && FindByEmail(after, email).Some?
            && var id := FindByEmail(after, email).value;
               LoginVerdict(after[id := Registered(after[id], refreshToken)], Some(email), Some(password), c).Allowed?
  {
    var code := Code(draw);
    var after := AfterSendOtp(users, username, email, password, code, now, c, true);
    var existing := FindByEmail(users, email);
    var id := if existing.Some? then existing.value else |users|;
    var p := Pending(if existing.Some? then Some(users[id]) else None, username, email, password, code, now, c);
    assert after[id] == p;
    assert forall j :: 0 <= j < id ==> after[j] == users[j];
    assert forall j :: 0 <= j < id ==> !HasEmail(email)(users[j]);
    if existing.Some? {
      assert HasEmail(email)(users[id]);
    }
    FindByEmailFirst(after, email, id);
    var done := after[id := Registered(after[id], refreshToken)];
    assert forall j :: 0 <= j < id ==> done[j] == users[j];
    FindByEmailFirst(done, email, id);
    FilledTwo(Some(email), Some(password));
  }

  // ----- logoutUser -----

  /** `logoutUser` for the authenticated `me`: the stored refresh token is
      unset (`findByIdAndUpdate` on a missing id changes nothing); 200. */
  method LogoutUser(db: Store, me: UserId) returns (o: Outcome<ErrorHandler.Null>)
    requires db.Valid()
    modifies db`users
    ensures db.Valid()
    ensures me < |old(db.users)| ==> db.users == old(db.users)[me := old(db.users)[me].(refreshToken := None)]
    ensures me >= |old(db.users)| ==> db.users == old(db.users)
    ensures o == Send(200, ErrorHandler.Null, "User logged out successfully")
  {
    if me < |db.users| {
      db.WriteUser(me, db.users[me].(refreshToken := None));
    }
    o := Send(200, ErrorHandler.Null, "User logged out successfully");
  }

  // ----- refreshAccessToken -----

  /** The token sources `refreshAccessToken` reads. */
  datatype RefreshRequest = RefreshRequest(
    cookieToken: Option<string>, authorization: Option<string>, refreshHeader: Option<string>, bodyToken: Option<string>)

  /** The `refreshToken` cookie, else the Authorization header without
      "Bearer ", else the `x-refresh-token` header, else `body.refreshToken`. */
  function PresentedToken(req: RefreshRequest): Option<string> {
    FirstTruthy([req.cookieToken, BearerToken(req.authorization), req.refreshHeader, req.bodyToken])
  }

  /** The checks of `refreshAccessToken`: no token (401); a token
      `jwt.verify` refuses, which throws (500); no `_id` claim, no such
      user, or a user whose stored refresh token is not exactly this one
      (401). */
  function RefreshVerdict(users: seq<User>, req: RefreshRequest, verify: string -> Option<Claims>): (v: Verdict)
    ensures v.Allowed? <==>
              (&& PresentedToken(req).Some? && verify(PresentedToken(req).value).Some?
               && var id := verify(PresentedToken(req).value).value.id;
                  id.Some? && id.value < |users| && users[id.value].refreshToken == PresentedToken(req))
    ensures v.Refused? ==> v.status == 401
  {
    var token := PresentedToken(req);
    if token.None? then Refused(401)
    else match verify(token.value)
      case None => Crash
      case Some(claims) =>
        if claims.id.None? || claims.id.value >= |users| || users[claims.id.value].refreshToken != token then Refused(401)
        else Allowed
  }

  /** `refreshAccessToken`: the checks, then new tokens are issued and the
      stored refresh token rotated; 200, and both cookies set. */
  method RefreshAccessToken(db: Store, req: RefreshRequest, verify: string -> Option<Claims>, c: Crypto, t: Tokens)
    returns (o: Outcome<ErrorHandler.Null>, cookies: Option<Tokens>)
    requires db.Valid()
    modifies db`users
    ensures db.Valid()
    ensures var v := RefreshVerdict(old(db.users), req, verify);
      && (v.Refused? ==> RaisedWithText(o, 401, "Unauthorized") && db.users == old(db.users) && cookies.None?)
      && (v.Crash? ==> o == Raised(InvalidToken) && db.users == old(db.users) && cookies.None?)
      && (v.Allowed? ==>
            var id := verify(PresentedToken(req).value).value.id.value;
            && db.users == old(db.users)[id := old(db.users)[id].(refreshToken := Some(t.refreshToken))]
            && o == Send(200, ErrorHandler.Null, "Access token refreshed successfully")
            && cookies == Some(t))
  {
    var v := RefreshVerdict(db.users, req, verify);
    if v.Crash? {
      return Raised(InvalidToken), None;
    }
    if v.Refused? {
      return Throw(401, "Unauthorized"), None;
    }
    var id := verify(PresentedToken(req).value).value.id.value;
    var doc := new UserDocument.Load(db.users[id]);
    StoreRefreshToken(db, id, doc, t, c);
    o := Send(200, ErrorHandler.Null, "Access token refreshed successfully");
    cookies := Some(t);
  }

  /** Rotation: once a refresh has gone through with a new token, the token
      it consumed is refused, and so is any token after a logout. */
  lemma RefreshTokenSingleUse(users: seq<User>, req: RefreshRequest, verify: string -> Option<Claims>, t: Tokens)
    requires RefreshVerdict(users, req, verify).Allowed?
    requires Some(t.refreshToken) != PresentedToken(req)
    ensures var id := verify(PresentedToken(req).value).value.id.value;
            && RefreshVerdict(users[id := users[id].(refreshToken := Some(t.refreshToken))], req, verify) == Refused(401)
            && RefreshVerdict(users[id := users[id].(refreshToken := None)], req, verify) == Refused(401)
  {
  }

  // ----- getUser -----

  /** `getUser` for the authenticated `me`: 404 without such a user,
      otherwise 200 with the account; `select('-password')` is modelled as
      an emptied password. */
  function GetUser(users: seq<User>, me: UserId): (o: Outcome<User>)
    ensures me >= |users| <==> RaisedWith(o, 404)
    ensures me >= |users| ==> RaisedWithText(o, 404, "User not found")
    ensures me < |users| ==> o.Sent? && o.reply.status == 200 && o.reply.body.Envelope?
                             && o.reply.body.response.data == users[me].(password := "")
  {
    if me >= |users| then Throw(404, "User not found")
    else Send(200, users[me].(password := ""), "User found successfully")
  }
}
