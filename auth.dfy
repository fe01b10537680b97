/** Registration and login. The checks run in a fixed order and the first
    that fails decides the reply. Password hashing and token signing are kept
    symbolic: a hash records what was hashed, and a token records its payload
    and options. */
module Auth {
  import opened Wrappers
  import opened JsString
  import opened EmailPattern

  /** A password hash as bcrypt produces it: the cost factor, the random
      salt, and (symbolically) the password it was made from. */
  datatype PasswordHash = Bcrypt(cost: nat, salt: nat, secret: string)

  /** `bcrypt.hash(password, 10)`, with the random salt as a parameter. */
  function Hash(password: string, salt: nat): (h: PasswordHash)
    ensures Compare(password, h)
  {
    Bcrypt(10, salt, password)
  }

  /** `bcrypt.compare(password, hash)`. */
  predicate Compare(password: string, h: PasswordHash) {
    h.secret == password
  }

  /** The signed payload `{ id, email }`. */
  datatype Claims = Claims(id: string, email: string)

  /** A signed token: payload and the options it was signed with. */
  datatype Token = Jwt(payload: Claims, expiresIn: string, issuer: string)

  const TokenLifetime: string := "1h"
  const TokenIssuer: string := "voicetasks-api"

  /** `jwt.sign(payload, secret, { expiresIn: "1h", issuer: "voicetasks-api" })`. */
  function Sign(payload: Claims): Token {
    Jwt(payload, TokenLifetime, TokenIssuer)
  }

  datatype User = User(id: string, name: string, email: string, password: PasswordHash)

  /** The fixed messages of the replies. */
  datatype Msg =
    | FieldsRequired | InvalidEmail | PasswordTooShort
    | EmailAlreadyRegistered | EmailTakenOnSave | AccountCreated | RegisterFailed
    | InvalidCredentials | LoginSucceeded | LoginFailed

  datatype Payload =
    | Message(msg: Msg)
    | Session(msg: Msg, token: Token, name: string, email: string)

  datatype Reply = Reply(status: int, payload: Payload)

  /** How the final `save` of a registration ends. */
  datatype SaveOutcome = Saved | DuplicateKey | SaveFault

  /** A request field is present when it is a non-empty string (`!field`
      rejects both a missing field and ""). */
  predicate Present(field: Option<string>) {
    field.Some? && field.value != ""
  }

  /** The stored form of an email: `email.toLowerCase().trim()`. */
  function Normalize(email: string): string {
    Trim(ToLower(email))
  }

  /** The registration checks, in their order: fields present, then the
      pattern, then at least six UTF-16 code units of password. */
  predicate RegistrationValid(name: Option<string>, email: Option<string>, password: Option<string>) {
    Present(name) && Present(email) && Present(password)
    && MatchesPattern(email.value) && Utf16Length(password.value) >= 6
  }

  /** Two spellings of an address that differ only in case are accepted
      together and share one stored key, which is also the key the
      registration handler looks up. */
  lemma CaseVariantSameKey(email: string, other: string)
    requires MatchesPattern(email)
    requires ToLower(other) == ToLower(email)
    ensures MatchesPattern(other)
    ensures Normalize(other) == Normalize(email) == ToLower(other)
  {
    assert Normalize(other) == Normalize(email);
    CaseVariantAccepted(email, other);
    LookupKeyIsStoredKey(email);
  }

  /** The user collection, keyed by the stored email; the schema's unique
      index on `email` is what makes this a map. */
  class UserStore {
    var users: map<string, User>

    ghost predicate Valid()
      reads this
    {
      forall key :: key in users ==> users[key].email == key
    }

    constructor ()
      ensures Valid() && users == map[]
    {
      users := map[];
    }

    /** `UserRegister`. A failing check is a 400 with that check's message,
        an email whose lower-cased form is stored is a 400, and a lookup fault
        is a 500, all without a change. Otherwise one user is saved with
        trimmed name, normalized email and the hash of the password, unless
        the save fails: a name that is blank after trimming fails the schema's
        `required` rule (500), a duplicate-key error is a 400 and any other
        fault a 500. */
    method Register(name: Option<string>, email: Option<string>, password: Option<string>,
                    newId: string, salt: nat, lookupFault: bool, save: SaveOutcome)
      returns (r: Reply)
      requires Valid()
      modifies this
      ensures Valid()
      ensures !(Present(name) && Present(email) && Present(password)) ==>
        r == Reply(400, Message(FieldsRequired)) && users == old(users)
      ensures Present(name) && Present(email) && Present(password) && !MatchesPattern(email.value) ==>
        r == Reply(400, Message(InvalidEmail)) && users == old(users)
      ensures (Present(name) && Present(email) && Present(password) && MatchesPattern(email.value)
               && Utf16Length(password.value) < 6) ==>
        r == Reply(400, Message(PasswordTooShort)) && users == old(users)
      ensures RegistrationValid(name, email, password) && lookupFault ==>
        r == Reply(500, Message(RegisterFailed)) && users == old(users)
      ensures RegistrationValid(name, email, password) && !lookupFault && ToLower(email.value) in old(users) ==>
        r == Reply(400, Message(EmailAlreadyRegistered)) && users == old(users)
      ensures RegistrationValid(name, email, password) && !lookupFault && ToLower(email.value) !in old(users) ==>
        if Trim(name.value) == "" || save == SaveFault then
          r == Reply(500, Message(RegisterFailed)) && users == old(users)
        else if save == DuplicateKey then
          r == Reply(400, Message(EmailTakenOnSave)) && users == old(users)
        else
          var key := Normalize(email.value);
          && r == Reply(201, Message(AccountCreated))
          && key !in old(users)
          && users == old(users)[key := User(newId, Trim(name.value), key, Hash(password.value, salt))]
    {
      if !(Present(name) && Present(email) && Present(password)) {
        return Reply(400, Message(FieldsRequired));
      }
      if !MatchesPattern(email.value) {
        return Reply(400, Message(InvalidEmail));
      }
      if Utf16Length(password.value) < 6 {
        return Reply(400, Message(PasswordTooShort));
      }
      if lookupFault {
        return Reply(500, Message(RegisterFailed));
      }
      if ToLower(email.value) in users {
        return Reply(400, Message(EmailAlreadyRegistered));
      }
      var hash := Hash(password.value, salt);
      var newUser := User(newId, Trim(name.value), Normalize(email.value), hash);
      if newUser.name == "" || save == SaveFault {
        return Reply(500, Message(RegisterFailed));
      }
      if save == DuplicateKey {
        return Reply(400, Message(EmailTakenOnSave));
      }
      LookupKeyIsStoredKey(email.value);
      users := users[newUser.email := newUser];
      r := Reply(201, Message(AccountCreated));
    }

    /** `UserLogin`: never changes the store. Missing fields and a rejected
        address are 400; an unknown address and a wrong password are the same
        401; otherwise 200 with a token for the stored user's id and email and
        the stored name and email. */
    method Login(email: Option<string>, password: Option<string>, lookupFault: bool) returns (r: Reply)
      requires Valid()
      ensures !(Present(email) && Present(password)) ==> r == Reply(400, Message(FieldsRequired))
      ensures Present(email) && Present(password) && !MatchesPattern(email.value) ==>
        r == Reply(400, Message(InvalidEmail))
      ensures Present(email) && Present(password) && MatchesPattern(email.value) && lookupFault ==>
        r == Reply(500, Message(LoginFailed))
      ensures Present(email) && Present(password) && MatchesPattern(email.value) && !lookupFault ==>
        var key := Normalize(email.value);
        if key in users && Compare(password.value, users[key].password) then
          r == Reply(200, Session(LoginSucceeded, Jwt(Claims(users[key].id, key), "1h", "voicetasks-api"),
                                  users[key].name, key))
        else
          r == Reply(401, Message(InvalidCredentials))
    {
      if !(Present(email) && Present(password)) {
        return Reply(400, Message(FieldsRequired));
      }
      if !MatchesPattern(email.value) {
        return Reply(400, Message(InvalidEmail));
      }
      if lookupFault {
        return Reply(500, Message(LoginFailed));
      }
      var key := Normalize(email.value);
      if key !in users {
        return Reply(401, Message(InvalidCredentials));
      }
      var user := users[key];
      if !Compare(password.value, user.password) {
        return Reply(401, Message(InvalidCredentials));
      }
      var token := Sign(Claims(user.id, user.email));
      r := Reply(200, Session(LoginSucceeded, token, user.name, user.email));
    }
  }

  /** A successful registration followed by a login with the same password and
      any capitalisation of the same address succeeds, and the token carries
      the new user's id and normalized email. */
  method RegisterThenLogin(store: UserStore, name: string, email: string, loginEmail: string,
                           password: string, newId: string, salt: nat)
    returns (registered: Reply, loggedIn: Reply)
    requires store.Valid()
    requires ToLower(loginEmail) == ToLower(email)
    modifies store
    ensures store.Valid()
    ensures registered.status == 201 ==>
      && loggedIn.status == 200
      && loggedIn.payload.Session?
      && loggedIn.payload.token.payload == Claims(newId, Normalize(email))
      && loggedIn.payload.email == Normalize(email)
  {
    if MatchesPattern(email) {
      CaseVariantSameKey(email, loginEmail);
    }
    registered := store.Register(Some(name), Some(email), Some(password), newId, salt, false, Saved);
    ghost var key := Normalize(email);
    ghost var user := User(newId, Trim(name), key, Hash(password, salt));
    if registered.status == 201 {
      assert RegistrationValid(Some(name), Some(email), Some(password));
      assert key in store.users && store.users[key] == user;
    }
    loggedIn := store.Login(Some(loginEmail), Some(password), false);
  }

  /** Once an address is registered, registering any capitalisation of it
      again is refused with 400 and adds no user. */
  method RegisterTwice(store: UserStore, name: string, email: string, otherEmail: string,
                       password: string, firstId: string, secondId: string, salt: nat)
    returns (first: Reply, second: Reply)
    requires store.Valid()
    requires ToLower(otherEmail) == ToLower(email)
    modifies store
    ensures store.Valid()
    ensures first.status == 201 ==>
      second == Reply(400, Message(EmailAlreadyRegistered)) && |store.users| == |old(store.users)| + 1
  {
    first := store.Register(Some(name), Some(email), Some(password), firstId, salt, false, Saved);
    if first.status == 201 {
      CaseVariantSameKey(email, otherEmail);
    }
    second := store.Register(Some(name), Some(otherEmail), Some(password), secondId, salt, false, Saved);
  }
}
