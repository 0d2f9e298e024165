/** Token issue and validation, sign-in and registration.

    A token is `"token_" + issuedAt + ":" + base64(email)`: the issue time in
    milliseconds, in decimal, and the owner's email in base64. It carries no
    signature; it is valid while it is younger than the expiry window and its
    email still names a stored user.
 */
module AuthService {
  import opened Wrappers
  import opened Text
  import opened Store
  import opened UserMetadataDto
  import UsersService

  const TokenPrefix := "token_"
  const DefaultExpiryTimeMs := 3_600_000

  const InvalidFormatMessage := "Invalid token format"
  const ExpiredMessage := "Token expired"
  const UserNotFoundMessage := "User not found"
  const SignInFailedMessage := "Invalid email or password, or account disabled by administrator"
  const UserExistsMessage := "User already exists"

  /** Base64 over strings, left abstract: an encoder and a decoder. */
  datatype Base64 = Base64(encode: string -> string, decode: string -> string)

  /** What the token relies on from base64: decoding undoes encoding, and no
      encoded text contains ':' (the base64 alphabet has no colon). */
  ghost predicate Sound(b: Base64) {
    forall e :: b.decode(b.encode(e)) == e && ':' !in b.encode(e)
  }

  /** The expiry window, from the `EXPIRY_TIME_MS` setting: `Number(setting) ||
      3_600_000`, so an unset, empty, zero or non-numeric setting gives the
      default and any other number is taken as it is. */
  function ExpiryTimeMs(setting: Option<string>): (ms: int)
    ensures ms != 0
    ensures setting.None? ==> ms == DefaultExpiryTimeMs
    ensures setting.Some? && ParseNumber(setting.value).Some? && ParseNumber(setting.value).value != 0
            ==> ms == ParseNumber(setting.value).value
    ensures setting.Some? && (ParseNumber(setting.value).None? || ParseNumber(setting.value) == Some(0))
            ==> ms == DefaultExpiryTimeMs
  {
    var n := if setting.None? then None else ParseNumber(setting.value);
    if n.Some? && n.value != 0 then n.value else DefaultExpiryTimeMs
  }

  /** `generateToken`, issued at `now`. */
  function GenerateToken(b: Base64, email: string, now: nat): (token: string)
    ensures StartsWith(token, TokenPrefix)
  {
    TokenPrefix + NatToDecimal(now) + ":" + b.encode(email)
  }

  /** `validateToken` at time `now`, with the given expiry window. The checks
      run in order: prefix, then the split of the rest on ':' into exactly two
      parts, then expiry (a NaN issue time never compares as expired), then
      the lookup of the decoded email, whose failure becomes Unauthorized. */
  function ValidateToken(b: Base64, db: Db, expiryMs: int, now: int, token: string): (r: Result<UserMetadata>)
    ensures r.Err? ==> r.error.Unauthorized?
  {
    if !StartsWith(token, TokenPrefix) then Err(Unauthorized(InvalidFormatMessage))
    else
      var slices := Split(token[|TokenPrefix|..], ':');
      if |slices| != 2 then Err(Unauthorized(InvalidFormatMessage))
      else
        var issuedAt := ParseNumber(slices[0]);
        if issuedAt.Some? && now - issuedAt.value > expiryMs then Err(Unauthorized(ExpiredMessage))
        else
          var email := b.decode(slices[1]);
          match UsersService.FindMetadataOrFail(db, email)
          case Ok(m) => Ok(m)
          case Err(_) => Err(Unauthorized(UserNotFoundMessage))
  }

  /** The text after the prefix of a generated token is the issue time and the
      encoded email, split apart again. */
  lemma GeneratedTokenParts(b: Base64, email: string, t: nat)
    requires Sound(b)
    ensures var token := GenerateToken(b, email, t);
      Split(token[|TokenPrefix|..], ':') == [NatToDecimal(t), b.encode(email)]
  {
    var token := GenerateToken(b, email, t);
    var digits := NatToDecimal(t);
    assert token[|TokenPrefix|..] == digits + [':'] + b.encode(email);
    SplitAroundSeparator(digits, b.encode(email), ':');
  }

  /** Token round trip: a token issued at `t` for a stored email validates, at
      any `now` no more than the window after `t` (the boundary included), to
      that user's metadata; one more millisecond and it is "Token expired". */
  lemma TokenRoundTrip(b: Base64, db: Db, expiryMs: int, t: nat, now: int, email: string)
    requires Sound(b)
    ensures now - t <= expiryMs ==>
      ValidateToken(b, db, expiryMs, now, GenerateToken(b, email, t))
        == if email in db.users then Ok(UserToMetadata(db.users[email]))
           else Err(Unauthorized(UserNotFoundMessage))
    ensures now - t > expiryMs ==>
      ValidateToken(b, db, expiryMs, now, GenerateToken(b, email, t)) == Err(Unauthorized(ExpiredMessage))
  {
    GeneratedTokenParts(b, email, t);
    NatToDecimalRoundTrip(t);
  }

  /** A token without the prefix is rejected as malformed before anything
      else, whatever the store and the clock say. */
  lemma PrefixCheckedFirst(b: Base64, db: Db, expiryMs: int, now: int, token: string)
    requires !StartsWith(token, TokenPrefix)
    ensures ValidateToken(b, db, expiryMs, now, token) == Err(Unauthorized(InvalidFormatMessage))
  {
  }

  /** After the prefix, exactly one ':' must follow: none or several make the
      token malformed, whatever the store and the clock say. */
  lemma OneColonRequired(b: Base64, db: Db, expiryMs: int, now: int, token: string)
    requires StartsWith(token, TokenPrefix)
    ensures |Split(token[|TokenPrefix|..], ':')| != 2 ==>
      ValidateToken(b, db, expiryMs, now, token) == Err(Unauthorized(InvalidFormatMessage))
  {
  }

  /** A non-numeric issue time is NaN, and NaN never compares as expired: such
      a token is judged by its email alone, at any time. */
  lemma NaNIssueTimeNeverExpires(b: Base64, db: Db, expiryMs: int, now: int, issuedAt: string, encoded: string)
    requires ':' !in issuedAt && ':' !in encoded
    requires ParseNumber(issuedAt).None?
    ensures ValidateToken(b, db, expiryMs, now, TokenPrefix + issuedAt + ":" + encoded)
      == if b.decode(encoded) in db.users then Ok(UserToMetadata(db.users[b.decode(encoded)]))
         else Err(Unauthorized(UserNotFoundMessage))
  {
    var token := TokenPrefix + issuedAt + ":" + encoded;
    assert token[|TokenPrefix|..] == issuedAt + [':'] + encoded;
    SplitAroundSeparator(issuedAt, encoded, ':');
  }

  /** A validated token always names a stored user, and yields exactly that
      user's metadata. */
  lemma ValidatedCallerIsStored(b: Base64, db: Db, expiryMs: int, now: int, token: string)
    requires WellKeyed(db)
    ensures var r := ValidateToken(b, db, expiryMs, now, token);
      r.Ok? ==> r.value.email in db.users && r.value == UserToMetadata(db.users[r.value.email])
  {
  }

  /** `signIn`: one Unauthorized answer for an unknown email, a disabled
      account and a wrong password alike (`matches` is the bcrypt comparison;
      a comparison that throws counts as a mismatch). On success, a token for
      the stored email issued at `now`. */
  function SignIn(b: Base64, db: Db, matches: (string, string) -> bool, now: nat,
                  email: string, password: string): (r: Result<string>)
    ensures r.Ok? <==> email in db.users && db.users[email].isEnabled && matches(password, db.users[email].password)
    ensures r.Ok? ==> r.value == GenerateToken(b, db.users[email].email, now)
    ensures r.Err? ==> r.error == Unauthorized(SignInFailedMessage)
  {
    match UsersService.FindOne(db, email)
    case None => Err(Unauthorized(SignInFailedMessage))
    case Some(u) =>
      if !u.isEnabled || !matches(password, u.password) then Err(Unauthorized(SignInFailedMessage))
      else Ok(GenerateToken(b, u.email, now))
  }

  /** The token a successful sign-in returns validates, within the window, to
      the signed-in user. */
  lemma SignInTokenValidates(b: Base64, db: Db, matches: (string, string) -> bool, t: nat,
                             email: string, password: string, expiryMs: int, now: int)
    requires Sound(b) && WellKeyed(db)
    requires SignIn(b, db, matches, t, email, password).Ok?
    requires now - t <= expiryMs
    ensures ValidateToken(b, db, expiryMs, now, SignIn(b, db, matches, t, email, password).value)
         == Ok(UserToMetadata(db.users[email]))
  {
    TokenRoundTrip(b, db, expiryMs, t, now, email);
  }

  /** `register`: a taken email is a Conflict; otherwise the account is
      created (password stored as `hash(password)`) and a token for the
      email, issued at `now`, is returned. */
  function Register(b: Base64, db: Db, hash: string -> string, now: nat, email: string,
                    password: string, name: Option<string>, aboutMe: Option<string>): (r: Result<(Db, string)>)
    ensures r.Err? <==> email in db.users
    ensures r.Err? ==> r.error == Conflict(UserExistsMessage)
  {
    if UsersService.FindOne(db, email).Some? then Err(Conflict(UserExistsMessage))
    else
      match UsersService.Create(db, email, hash(password), name, aboutMe)
      case Err(e) => Err(e)
      case Ok((db', _)) => Ok((db', GenerateToken(b, email, now)))
  }

  /** A registration adds exactly one enabled USER account holding the hashed
      password, changes nothing else, keeps the store valid, and returns a
      token that validates to the new account within the window. */
  lemma RegisterEffect(b: Base64, db: Db, hash: string -> string, t: nat, email: string,
                       password: string, name: Option<string>, aboutMe: Option<string>,
                       expiryMs: int, now: int)
    requires Sound(b) && Valid(db)
    requires email !in db.users
    requires now - t <= expiryMs
    ensures var (db', token) := Register(b, db, hash, t, email, password, name, aboutMe).value;
      && db'.users.Keys == db.users.Keys + {email}
      && (forall e :: e in db.users ==> db'.users[e] == db.users[e])
      && db'.users[email] == User(db.nextUserId, email, hash(password), USER, true, name, aboutMe)
      && db' == db.(users := db'.users, nextUserId := db.nextUserId + 1)
      && Valid(db')
      && ValidateToken(b, db', expiryMs, now, token) == Ok(UserMetadata(email, USER, db.nextUserId))
  {
    UsersService.CreateEffect(db, email, hash(password), name, aboutMe);
    var (db', token) := Register(b, db, hash, t, email, password, name, aboutMe).value;
    TokenRoundTrip(b, db', expiryMs, t, now, email);
  }
}
