/**
 * `UserService` of src/auth/service/userService.js as a sequential transition
 * system over two tables: the user collection (id to record) and the
 * refresh-token collection kept by the token service (user id to token).
 *
 * Collaborators are reduced to what the service observes of them:
 * - bcrypt's `hash` and `compare` and Yup's `.email()` test are uninterpreted
 *   functions fixed when the service is built;
 * - the activation link from uuid `v4`, the token pair from `generateTokens`
 *   and the payload `validateRefreshToken` recovers are passed in as values;
 * - every awaited call that may throw (the database, bcrypt, the mailer, the
 *   token service) is named by a `Step`, and the parameter `fault` says which
 *   one, if any, throws during this call.
 */
module Users {
  import opened Wrappers
  import opened Validation

  type UserId = nat
  type Token = string

  datatype Avatar = Avatar(data: string, contentType: string)

  /** The avatar a new record is created with. */
  const InitialAvatar: Avatar := Avatar("", "image/png")

  /** A document of the user collection. `password` holds the bcrypt hash. */
  datatype UserRecord = UserRecord(
    login: string,
    email: string,
    password: string,
    activationLink: string,
    isActivated: bool,
    avatarInitials: Avatar)

  /** The projection returned to callers and signed into tokens: no password
      hash, no activation link. */
  datatype UserDto = UserDto(id: UserId, login: string, email: string, isActivated: bool)

  function ToDto(id: UserId, u: UserRecord): UserDto
  {
    UserDto(id, u.login, u.email, u.isActivated)
  }

  datatype TokenPair = TokenPair(accessToken: Token, refreshToken: Token)

  /** `{ ...tokens, user: dtoUser }` */
  datatype AuthResult = AuthResult(tokens: TokenPair, user: UserDto)

  /** The awaited calls of the service that can throw. */
  datatype Step =
    | Connect          // mongoConnect
    | FindUser         // findOne / findById on the user collection
    | HashPassword     // bcrypt.hash
    | CreateUser       // create on the user collection
    | SendMail         // mailService.sendActivationMail
    | GenerateTokens   // tokenService.generateTokens
    | SaveToken        // tokenService.saveToken
    | SaveUser         // User.save()
    | ComparePassword  // bcrypt.compare
    | FindToken        // tokenService.findToken
    | RemoveToken      // tokenService.removeToken
    | DeleteUser       // deleteOne in the catch of registration

  /** What an operation throws: the service's own `ApiError`s, or the
      exception of a collaborator, rethrown unchanged. */
  datatype ApiError = BadRequest(message: string) | Unauthorized | Thrown(step: Step)

  predicate Fails(fault: Option<Step>, step: Step)
  {
    fault == Some(step)
  }

  /** The fault is one of the calls `steps` an operation makes. */
  predicate FailsAny(fault: Option<Step>, steps: set<Step>)
  {
    fault.Some? && fault.value in steps
  }

  /** The calls registration makes whose failure escapes it. */
  const RegistrationSteps: set<Step> := {Connect, FindUser, HashPassword, CreateUser, GenerateTokens, SaveToken}

  /** The calls registration makes after the record exists; their failure runs the compensating delete. */
  const AfterCreateSteps: set<Step> := {GenerateTokens, SaveToken}

  /** The calls login makes whose failure escapes it. */
  const LoginSteps: set<Step> := {Connect, FindUser, ComparePassword, GenerateTokens, SaveToken}

  function EmailTakenMessage(email: string): string
  {
    "Пользователь с почтовым адресом " + email + " уже существует"
  }

  const BadLinkMessage: string := "Неккоректная ссылка активации"
  const UnknownEmailMessage: string := "Пользователь с указанным адресом электронной почты не найден"
  const WrongPasswordMessage: string := "Некорректный пароль"
  const MissingUserMessage: string := "При обновлении токена сессии была обнаружена ошибка"

  // Queries on the two tables.

  function IdsWithEmail(users: map<UserId, UserRecord>, email: string): set<UserId>
  {
    set id | id in users && users[id].email == email
  }

  function IdsWithLink(users: map<UserId, UserRecord>, link: string): set<UserId>
  {
    set id | id in users && users[id].activationLink == link
  }

  /** `findToken(t)` finds a record. */
  predicate TokenStored(tokens: map<UserId, Token>, t: Token)
  {
    t in tokens.Values
  }

  function IdsWithToken(tokens: map<UserId, Token>, t: Token): set<UserId>
  {
    set id | id in tokens && tokens[id] == t
  }

  /** The token table after `removeToken(t)`. */
  function WithoutToken(tokens: map<UserId, Token>, t: Token): (r: map<UserId, Token>)
    ensures !TokenStored(r, t)
    ensures forall id :: id in tokens && tokens[id] != t ==> id in r && r[id] == tokens[id]
    ensures forall id :: id in r ==> id in tokens && r[id] == tokens[id]
  {
    map id | id in tokens && tokens[id] != t :: tokens[id]
  }

  /** The user table after `deleteOne({ email })`, when at most one record has that email. */
  function WithoutEmail(users: map<UserId, UserRecord>, email: string): (r: map<UserId, UserRecord>)
    ensures IdsWithEmail(r, email) == {}
    ensures forall id :: id in users && users[id].email != email ==> id in r && r[id] == users[id]
    ensures forall id :: id in r ==> id in users && r[id] == users[id]
  {
    map id | id in users && users[id].email != email :: users[id]
  }

  ghost predicate EmailsUnique(users: map<UserId, UserRecord>)
  {
    forall a, b :: a in users && b in users && users[a].email == users[b].email ==> a == b
  }

  ghost predicate LinksUnique(users: map<UserId, UserRecord>)
  {
    forall a, b :: a in users && b in users && users[a].activationLink == users[b].activationLink ==> a == b
  }

  /** The invariant of the two tables; `next` is the id the store gives next. */
  ghost predicate TablesValid(users: map<UserId, UserRecord>, tokens: map<UserId, Token>, next: UserId)
  {
    && (forall id :: id in users ==> id < next)
    && EmailsUnique(users)
    && LinksUnique(users)
    && tokens.Keys <= users.Keys
  }

  /** Creating a record under the next id, with an unused email and link, keeps the invariant. */
  lemma CreatePreservesValid(users: map<UserId, UserRecord>, tokens: map<UserId, Token>, next: UserId, rec: UserRecord)
    requires TablesValid(users, tokens, next)
    requires IdsWithEmail(users, rec.email) == {} && IdsWithLink(users, rec.activationLink) == {}
    ensures TablesValid(users[next := rec], tokens, next + 1)
  {
    forall k | k in users ensures users[k].email != rec.email && users[k].activationLink != rec.activationLink {
      assert k !in IdsWithEmail(users, rec.email) && k !in IdsWithLink(users, rec.activationLink);
    }
  }

  /** Deleting by email the record just created restores the table it was created in. */
  lemma CompensationRestores(users: map<UserId, UserRecord>, id: UserId, rec: UserRecord)
    requires id !in users && IdsWithEmail(users, rec.email) == {}
    ensures WithoutEmail(users[id := rec], rec.email) == users
  {
    forall k | k in users ensures users[k].email != rec.email {
      assert k !in IdsWithEmail(users, rec.email);
    }
  }

  class UserService {
    const bounds: Bounds
    /** bcrypt.hash with the configured salt rounds */
    const hash: string -> string
    /** bcrypt.compare(password, hash) */
    const compare: (string, string) -> bool
    /** Yup's `.email()` test */
    const isEmail: string -> bool

    var users: map<UserId, UserRecord>
    var tokens: map<UserId, Token>
    /** The id the store gives the next record it creates. */
    var nextId: UserId

    /** Ids are below `nextId`, emails and activation links identify at most
        one record, and every stored session belongs to an existing user. */
    ghost predicate Valid()
      reads this
    {
      TablesValid(users, tokens, nextId)
    }

    constructor (bounds: Bounds, hash: string -> string, compare: (string, string) -> bool, isEmail: string -> bool)
      ensures Valid()
      ensures this.bounds == bounds && this.hash == hash && this.compare == compare && this.isEmail == isEmail
      ensures users == map[] && tokens == map[]
    {
      this.bounds := bounds;
      this.hash := hash;
      this.compare := compare;
      this.isEmail := isEmail;
      users := map[];
      tokens := map[];
      nextId := 0;
    }

    /** `registration(login, email, password)`. The `catch` deletes the record
        by email only once `User` is set, i.e. after `create` succeeded, and
        rethrows the original error. `deleteFails` says whether that delete
        itself rejects: then the record stays and the delete's error escapes
        instead. */
    method Registration(login: string, email: string, password: string, link: string, issued: TokenPair,
                        fault: Option<Step>, deleteFails: bool)
      returns (r: Result<AuthResult, ApiError>)
      requires Valid()
      requires IdsWithLink(users, link) == {}  // uuid v4 yields a fresh link
      modifies this
      ensures Valid() && nextId >= old(nextId)
      ensures RegistrationErrors(bounds, isEmail, login, email, password) != [] ==>
        r == Err(BadRequest(ValidationMessage(RegistrationErrors(bounds, isEmail, login, email, password))))
      ensures RegistrationErrors(bounds, isEmail, login, email, password) == [] && (Fails(fault, Connect) || Fails(fault, FindUser)) ==>
        r == Err(Thrown(fault.value))
      ensures (RegistrationErrors(bounds, isEmail, login, email, password) == [] && !Fails(fault, Connect) && !Fails(fault, FindUser)
        && IdsWithEmail(old(users), email) != {}) ==> r == Err(BadRequest(EmailTakenMessage(email)))
      ensures (RegistrationErrors(bounds, isEmail, login, email, password) == [] && IdsWithEmail(old(users), email) == {}
        && FailsAny(fault, RegistrationSteps) && !(FailsAny(fault, AfterCreateSteps) && deleteFails)) ==>
        r == Err(Thrown(fault.value)) && users == old(users)
      ensures (RegistrationErrors(bounds, isEmail, login, email, password) == [] && IdsWithEmail(old(users), email) == {}
        && FailsAny(fault, AfterCreateSteps) && deleteFails) ==>
        r == Err(Thrown(DeleteUser))
        && users == old(users)[old(nextId) := UserRecord(login, email, hash(password), link, false, InitialAvatar)]
      ensures r.Err? ==> tokens == old(tokens)
      ensures r.Err? && r.error != Thrown(DeleteUser) ==> users == old(users)
      ensures r.Ok? <==>
        && RegistrationErrors(bounds, isEmail, login, email, password) == []
        && IdsWithEmail(old(users), email) == {}
        && !FailsAny(fault, RegistrationSteps)
      ensures r.Ok? ==>
        var id := r.value.user.id;
        && id !in old(users)
        && users == old(users)[id := UserRecord(login, email, hash(password), link, false, InitialAvatar)]
        && tokens == old(tokens)[id := issued.refreshToken]
        && r.value == AuthResult(issued, UserDto(id, login, email, false))
    {
      var thrown: ApiError := Unauthorized;
      var created: Option<UserId> := None;  // `User`, set by a successful create

      var errors := RegistrationErrors(bounds, isEmail, login, email, password);
      if errors != [] {
        thrown := BadRequest(ValidationMessage(errors));
      } else if Fails(fault, Connect) || Fails(fault, FindUser) {
        thrown := Thrown(fault.value);
      } else if IdsWithEmail(users, email) != {} {
        thrown := BadRequest(EmailTakenMessage(email));
      } else if Fails(fault, HashPassword) || Fails(fault, CreateUser) {
        thrown := Thrown(fault.value);
      } else {
        var hashPassword := hash(password);
        var id := nextId;
        var record := UserRecord(login, email, hashPassword, link, false, InitialAvatar);
        CreatePreservesValid(users, tokens, nextId, record);
        CompensationRestores(users, id, record);
        users := users[id := record];
        nextId := nextId + 1;
        created := Some(id);
        // A rejected activation mail is caught; the error built there is never thrown.
        var dto := ToDto(id, users[id]);
        if Fails(fault, GenerateTokens) || Fails(fault, SaveToken) {
          thrown := Thrown(fault.value);
        } else {
          tokens := tokens[id := issued.refreshToken];
          return Ok(AuthResult(issued, dto));
        }
      }

      // catch (error): compensate, then rethrow
      if created.Some? {
        if deleteFails {
          return Err(Thrown(DeleteUser));
        }
        users := WithoutEmail(users, email);
      }
      r := Err(thrown);
    }

    /** `activate(activationLink)`. `isActivated` is set in memory and then
        saved, even when it was already true; the tokens come after the save,
        so a token failure leaves the record activated. */
    method Activate(link: string, issued: TokenPair, fault: Option<Step>) returns (r: Result<AuthResult, ApiError>)
      requires Valid()
      modifies this
      ensures Valid() && nextId == old(nextId)
      ensures Fails(fault, Connect) || Fails(fault, FindUser) ==>
        r == Err(Thrown(fault.value)) && users == old(users) && tokens == old(tokens)
      ensures !Fails(fault, Connect) && !Fails(fault, FindUser) && IdsWithLink(old(users), link) == {} ==>
        r == Err(BadRequest(BadLinkMessage)) && users == old(users) && tokens == old(tokens)
      ensures forall id :: id in old(users) && old(users)[id].activationLink == link && !Fails(fault, Connect) && !Fails(fault, FindUser) ==>
        var activated := old(users)[id].(isActivated := true);
        && users == (if Fails(fault, SaveUser) then old(users) else old(users)[id := activated])
        && (r.Ok? <==> !Fails(fault, SaveUser) && !Fails(fault, GenerateTokens) && !Fails(fault, SaveToken))
        && (r.Ok? ==> r.value == AuthResult(issued, ToDto(id, activated)) && tokens == old(tokens)[id := issued.refreshToken])
        && (r.Err? ==> r == Err(Thrown(fault.value)) && tokens == old(tokens))
    {
      if Fails(fault, Connect) || Fails(fault, FindUser) {
        return Err(Thrown(fault.value));
      }
      var found := IdsWithLink(users, link);
      if found == {} {
        forall k | k in users ensures users[k].activationLink != link {
          assert k !in found;
        }
        return Err(BadRequest(BadLinkMessage));
      }
      var id :| id in found;
      var user := users[id].(isActivated := true);
      if Fails(fault, SaveUser) {
        return Err(Thrown(SaveUser));
      }
      users := users[id := user];
      var dto := ToDto(id, user);
      if Fails(fault, GenerateTokens) || Fails(fault, SaveToken) {
        return Err(Thrown(fault.value));
      }
      tokens := tokens[id := issued.refreshToken];
      r := Ok(AuthResult(issued, dto));
    }

    /** `login(email, password)`. Activation is not required. An unknown email
        and a wrong password are both `BadRequest`, with different messages. */
    method Login(email: string, password: string, issued: TokenPair, fault: Option<Step>) returns (r: Result<AuthResult, ApiError>)
      requires Valid()
      modifies this
      ensures Valid() && users == old(users) && nextId == old(nextId)
      ensures r.Err? ==> tokens == old(tokens)
      ensures LoginFormErrors(bounds, isEmail, email, password) != [] ==>
        r == Err(BadRequest(ValidationMessage(LoginFormErrors(bounds, isEmail, email, password))))
      ensures (LoginFormErrors(bounds, isEmail, email, password) == [] && !Fails(fault, Connect) && !Fails(fault, FindUser)
        && IdsWithEmail(users, email) == {}) ==> r == Err(BadRequest(UnknownEmailMessage))
      ensures forall id :: (id in users && users[id].email == email && LoginFormErrors(bounds, isEmail, email, password) == []
        && !Fails(fault, Connect) && !Fails(fault, FindUser) && !Fails(fault, ComparePassword)) ==>
        if !compare(password, users[id].password) then r == Err(BadRequest(WrongPasswordMessage))
        else if Fails(fault, GenerateTokens) || Fails(fault, SaveToken) then r == Err(Thrown(fault.value))
        else r == Ok(AuthResult(issued, ToDto(id, users[id]))) && tokens == old(tokens)[id := issued.refreshToken]
      ensures LoginFormErrors(bounds, isEmail, email, password) == [] && (Fails(fault, Connect) || Fails(fault, FindUser)) ==>
        r == Err(Thrown(fault.value))
      ensures (LoginFormErrors(bounds, isEmail, email, password) == [] && !Fails(fault, Connect) && !Fails(fault, FindUser)
        && IdsWithEmail(users, email) != {} && Fails(fault, ComparePassword)) ==> r == Err(Thrown(ComparePassword))
      ensures r.Ok? <==>
        && LoginFormErrors(bounds, isEmail, email, password) == []
        && (exists id :: id in users && users[id].email == email && compare(password, users[id].password))
        && !FailsAny(fault, LoginSteps)
      ensures r.Ok? ==>
        && r.value.user.id in users && users[r.value.user.id].email == email
        && compare(password, users[r.value.user.id].password)
    {
      var errors := LoginFormErrors(bounds, isEmail, email, password);
      if errors != [] {
        return Err(BadRequest(ValidationMessage(errors)));
      }
      if Fails(fault, Connect) || Fails(fault, FindUser) {
        return Err(Thrown(fault.value));
      }
      var found := IdsWithEmail(users, email);
      if found == {} {
        forall k | k in users ensures users[k].email != email {
          assert k !in found;
        }
        return Err(BadRequest(UnknownEmailMessage));
      }
      var id :| id in found;
      if Fails(fault, ComparePassword) {
        return Err(Thrown(ComparePassword));
      }
      if !compare(password, users[id].password) {
        return Err(BadRequest(WrongPasswordMessage));
      }
      var dto := ToDto(id, users[id]);
      if Fails(fault, GenerateTokens) || Fails(fault, SaveToken) {
        return Err(Thrown(fault.value));
      }
      tokens := tokens[id := issued.refreshToken];
      r := Ok(AuthResult(issued, dto));
    }

    /** `logout(refreshToken)`: removes the stored records holding the token
        and reports how many there were; no error when there were none. */
    method Logout(t: Token, fault: Option<Step>) returns (r: Result<nat, ApiError>)
      requires Valid()
      modifies this
      ensures Valid() && users == old(users) && nextId == old(nextId)
      ensures Fails(fault, Connect) || Fails(fault, RemoveToken) ==> r == Err(Thrown(fault.value)) && tokens == old(tokens)
      ensures !Fails(fault, Connect) && !Fails(fault, RemoveToken) ==>
        && tokens == WithoutToken(old(tokens), t)
        && r == Ok(|IdsWithToken(old(tokens), t)|)
    {
      if Fails(fault, Connect) || Fails(fault, RemoveToken) {
        return Err(Thrown(fault.value));
      }
      var removed := IdsWithToken(tokens, t);
      tokens := WithoutToken(tokens, t);
      r := Ok(|removed|);
    }

    /** `checkAuth(refreshToken)`. `claims` is what `validateRefreshToken`
        recovered from the token (None when the signature or expiry check
        failed). A session needs both a valid signature and a stored token. */
    method CheckAuth(t: Token, claims: Option<UserDto>, fault: Option<Step>) returns (r: Result<UserDto, ApiError>)
      ensures t == "" ==> r == Err(Unauthorized)
      ensures t != "" && (Fails(fault, Connect) || Fails(fault, FindToken)) ==> r == Err(Thrown(fault.value))
      ensures t != "" && !Fails(fault, Connect) && !Fails(fault, FindToken) && (claims.None? || !TokenStored(tokens, t)) ==>
        r == Err(Unauthorized)
      ensures t != "" && claims.Some? && TokenStored(tokens, t) && Fails(fault, FindUser) ==> r == Err(Thrown(FindUser))
      ensures (t != "" && !Fails(fault, Connect) && !Fails(fault, FindToken) && !Fails(fault, FindUser)
        && claims.Some? && TokenStored(tokens, t) && claims.value.id !in users) ==> r == Err(BadRequest(MissingUserMessage))
      ensures r.Ok? <==>
        && t != ""
        && !Fails(fault, Connect) && !Fails(fault, FindToken) && !Fails(fault, FindUser)
        && claims.Some? && TokenStored(tokens, t) && claims.value.id in users
      ensures r.Ok? ==> r.value == ToDto(claims.value.id, users[claims.value.id])
    {
      if t == "" {
        return Err(Unauthorized);
      }
      if Fails(fault, Connect) || Fails(fault, FindToken) {
        return Err(Thrown(fault.value));
      }
      var tokenFromDb := t in tokens.Values;
      if claims.None? || !tokenFromDb {
        return Err(Unauthorized);
      }
      var id := claims.value.id;
      if Fails(fault, FindUser) {
        return Err(Thrown(FindUser));
      }
      if id !in users {
        return Err(BadRequest(MissingUserMessage));
      }
      r := Ok(ToDto(id, users[id]));
    }

    /** `refresh(refreshToken)`: new tokens only after `checkAuth` succeeds,
        saved under the user's id, which overwrites that user's previous token. */
    method Refresh(t: Token, claims: Option<UserDto>, issued: TokenPair, fault: Option<Step>) returns (r: Result<AuthResult, ApiError>)
      requires Valid()
      modifies this
      ensures Valid() && users == old(users) && nextId == old(nextId)
      ensures r.Err? ==> tokens == old(tokens)
      ensures t == "" || (!Fails(fault, Connect) && !Fails(fault, FindToken) && (claims.None? || !TokenStored(old(tokens), t))) ==>
        r == Err(Unauthorized)
      ensures t != "" && (Fails(fault, Connect) || Fails(fault, FindToken)) ==> r == Err(Thrown(fault.value))
      ensures t != "" && claims.Some? && TokenStored(old(tokens), t) && Fails(fault, FindUser) ==> r == Err(Thrown(FindUser))
      ensures (t != "" && !FailsAny(fault, {Connect, FindToken, FindUser})
        && claims.Some? && TokenStored(old(tokens), t) && claims.value.id !in users) ==> r == Err(BadRequest(MissingUserMessage))
      ensures (t != "" && claims.Some? && TokenStored(old(tokens), t) && claims.value.id in users
        && (Fails(fault, GenerateTokens) || Fails(fault, SaveToken))) ==> r == Err(Thrown(fault.value))
      ensures r.Ok? <==>
        && t != "" && claims.Some? && TokenStored(old(tokens), t) && claims.value.id in users
        && (fault == None || !(fault.value in {Connect, FindToken, FindUser, GenerateTokens, SaveToken}))
      ensures r.Ok? ==>
        var id := claims.value.id;
        && r.value == AuthResult(issued, ToDto(id, users[id]))
        && tokens == old(tokens)[id := issued.refreshToken]
    {
      var auth := CheckAuth(t, claims, fault);
      if auth.Err? {
        return Err(auth.error);
      }
      var dto := auth.value;
      if Fails(fault, GenerateTokens) || Fails(fault, SaveToken) {
        return Err(Thrown(fault.value));
      }
      tokens := tokens[dto.id := issued.refreshToken];
      r := Ok(AuthResult(issued, dto));
    }
  }

  /** A logged-out token no longer opens a session, whatever its signature. */
  method LogoutThenCheckAuth(s: UserService, t: Token, claims: Option<UserDto>) returns (r: Result<UserDto, ApiError>)
    requires s.Valid()
    modifies s
    ensures s.Valid() && !TokenStored(s.tokens, t)
    ensures r == Err(Unauthorized)
  {
    var _ := s.Logout(t, None);
    r := s.CheckAuth(t, claims, None);
  }

  /** A second registration with the same email is refused and creates nothing. */
  method RegisterTwice(s: UserService, login: string, email: string, password: string, link1: string, link2: string, issued: TokenPair)
    returns (first: Result<AuthResult, ApiError>, second: Result<AuthResult, ApiError>)
    requires s.Valid() && IdsWithLink(s.users, link1) == {} && link1 != link2 && IdsWithLink(s.users, link2) == {}
    requires RegistrationErrors(s.bounds, s.isEmail, login, email, password) == []
    requires IdsWithEmail(s.users, email) == {}
    modifies s
    ensures first.Ok? && second == Err(BadRequest(EmailTakenMessage(email)))
    ensures |IdsWithEmail(s.users, email)| == 1
  {
    first := s.Registration(login, email, password, link1, issued, None, false);
    var id := first.value.user.id;
    assert IdsWithEmail(s.users, email) == {id};
    assert IdsWithLink(s.users, link2) == {};
    second := s.Registration(login, email, password, link2, issued, None, false);
  }

  /** Registration followed by login with the same credentials reaches the same
      user, provided bcrypt accepts the password against its own hash. */
  method RegisterThenLogin(s: UserService, login: string, email: string, password: string, link: string, issued1: TokenPair, issued2: TokenPair)
    returns (registered: Result<AuthResult, ApiError>, loggedIn: Result<AuthResult, ApiError>)
    requires s.Valid() && IdsWithLink(s.users, link) == {}
    requires RegistrationErrors(s.bounds, s.isEmail, login, email, password) == []
    requires IdsWithEmail(s.users, email) == {}
    requires s.compare(password, s.hash(password))
    modifies s
    ensures registered.Ok? && !registered.value.user.isActivated && registered.value.user.login == login
    ensures loggedIn.Ok? && loggedIn.value.user == registered.value.user
    ensures registered.value.user.id in s.tokens && s.tokens[registered.value.user.id] == issued2.refreshToken
  {
    registered := s.Registration(login, email, password, link, issued1, None, false);
    var id := registered.value.user.id;
    assert id in s.users && s.users[id].email == email;
    assert s.compare(password, s.users[id].password);
    ghost var before := s.tokens;
    loggedIn := s.Login(email, password, issued2, None);
    assert id in s.users && s.users[id].email == email;
    assert s.tokens == before[id := issued2.refreshToken];
  }

  /** `activate` never clears the link, so following it a second time succeeds
      again and yields the same activated user. */
  method ActivateTwice(s: UserService, link: string, issued1: TokenPair, issued2: TokenPair)
    returns (first: Result<AuthResult, ApiError>, second: Result<AuthResult, ApiError>)
    requires s.Valid() && IdsWithLink(s.users, link) != {}
    modifies s
    ensures first.Ok? && first.value.user.isActivated
    ensures second.Ok? && second.value.user == first.value.user
  {
    ghost var id :| id in IdsWithLink(s.users, link);
    first := s.Activate(link, issued1, None);
    assert id in s.users && s.users[id].activationLink == link && s.users[id].isActivated;
    ghost var after := s.users;
    second := s.Activate(link, issued2, None);
    assert IdsWithLink(after, link) == {id};
  }
}
