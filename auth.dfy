/**
 * The account handlers of src/routes/auth.js: `POST /register` inserts a user
 * after checking the request body and email uniqueness; `POST /login` looks a
 * user up by email and checks the password. bcrypt, jsonwebtoken and yup's
 * email-format check are foreign code, given to the model as functions.
 */
module Auth {
  import opened Common

  /** The random salt that `bcrypt.hash(password, 10)` draws. */
  type Salt = int

  /** A signed JSON Web Token. */
  type Token = string

  /** The foreign functions the handlers call. */
  datatype AuthEnv = AuthEnv(
    isEmail: string -> bool,            // yup's string().email()
    hash: (string, Salt) -> string,     // bcrypt.hash(password, 10) with the salt it draws
    compare: (string, string) -> bool,  // bcrypt.compare(password, storedHash)
    sign: (int, Time) -> Token)         // jwt.sign({ id }, JWT_SECRET, { expiresIn: '1h' }) at a time

  /** bcrypt's own promise: a password matches any hash made from it. */
  ghost predicate BcryptSound(env: AuthEnv)
  {
    forall p: string, s: Salt :: env.compare(p, env.hash(p, s))
  }

  /** A stored value is a bcrypt hash of some password. */
  ghost predicate IsHash(env: AuthEnv, h: string)
  {
    exists p: string, s: Salt :: h == env.hash(p, s)
  }

  /** One user row; `passwordHash` is the column the handlers call `password`. */
  datatype User = User(id: int, username: string, email: string, passwordHash: string)

  /** `registerSchema`: username and email present and non-empty, email
      well-formed, password present with at least 6 characters. */
  predicate RegisterSchema(env: AuthEnv, username: Option<string>, email: Option<string>, password: Option<string>)
    // a body registerSchema accepts also passes loginSchema
    ensures RegisterSchema(env, username, email, password) ==> LoginSchema(env, email, password)
  {
    && Required(username)
    && Required(email) && env.isEmail(email.value)
    && Required(password) && |password.value| >= 6
  }

  /** `loginSchema`: email present and well-formed, password present. */
  predicate LoginSchema(env: AuthEnv, email: Option<string>, password: Option<string>)
  {
    Required(email) && env.isEmail(email.value) && Required(password)
  }

  predicate EmailTaken(users: seq<User>, email: string)
  {
    exists i :: 0 <= i < |users| && users[i].email == email
  }

  /** The user table invariant: auto-increment ids, unique emails, and every
      row as Register writes it (non-empty username, well-formed email, a
      hashed password). */
  ghost predicate UsersValid(env: AuthEnv, users: seq<User>, nextId: int)
  {
    && 1 <= nextId
    && (forall i :: 0 <= i < |users| ==> 1 <= users[i].id < nextId)
    && (forall i, j :: 0 <= i < j < |users| ==> users[i].id < users[j].id)
    && (forall i, j :: 0 <= i < j < |users| ==> users[i].email != users[j].email)
    && (forall i :: 0 <= i < |users| ==>
          users[i].username != "" && env.isEmail(users[i].email) && IsHash(env, users[i].passwordHash))
  }

  /** The ids the `user_id` foreign key of the links table may refer to. */
  function UserIds(users: seq<User>): set<int>
  {
    set u | u in users :: u.id
  }

  /** In a valid table no two users share an id or an email, and the next
      id is not taken. */
  lemma UsersValidKeys(env: AuthEnv, users: seq<User>, nextId: int)
    requires UsersValid(env, users, nextId)
    ensures forall i, j :: 0 <= i < |users| && 0 <= j < |users| && i != j ==>
              users[i].id != users[j].id && users[i].email != users[j].email
    ensures nextId !in UserIds(users)
  {
  }

  /** A registration adds exactly the new user's id to the ids a link may
      refer to; no id ever leaves the set. */
  lemma RegisterGrowsUserIds(users: seq<User>, u: User)
    ensures UserIds(users + [u]) == UserIds(users) + {u.id}
  {
  }

  /** `User.findOne({ where: { email } })`. */
  function FindByEmail(users: seq<User>, email: string): (r: Option<nat>)
    ensures r.Some? ==> r.value < |users| && users[r.value].email == email
    ensures r.Some? ==> forall j :: 0 <= j < r.value ==> users[j].email != email
    ensures r.None? <==> !EmailTaken(users, email)
  {
    FindFirst(users, (u: User) => u.email == email)
  }

  /** The response of `POST /login`: 400 for a body the schema rejects, 401
      "Invalid credentials" for an unknown email or a password bcrypt does
      not accept, otherwise 200 with a token signed over the user's id. */
  function LoginResponse(users: seq<User>, env: AuthEnv, email: Option<string>, password: Option<string>, now: Time)
    : (r: Response<Token>)
    ensures !LoginSchema(env, email, password) ==> r == BadRequest(SchemaError)
    ensures LoginSchema(env, email, password) && !EmailTaken(users, email.value) ==> r == Unauthorized(InvalidCredentials)
    ensures r.Ok? ==> exists i :: 0 <= i < |users| && users[i].email == email.value &&
                       env.compare(password.value, users[i].passwordHash) && r.value == env.sign(users[i].id, now)
    ensures r.Ok? || r == BadRequest(SchemaError) || r == Unauthorized(InvalidCredentials)
  {
    if !LoginSchema(env, email, password) then BadRequest(SchemaError)
    else match FindByEmail(users, email.value)
      case None => Unauthorized(InvalidCredentials)
      case Some(i) =>
        if env.compare(password.value, users[i].passwordHash) then Ok(env.sign(users[i].id, now))
        else Unauthorized(InvalidCredentials)
  }

  /** With unique emails, a well-formed login for a stored email is decided by
      bcrypt alone: a match yields a token for exactly that user, a mismatch
      a 401. */
  lemma LoginDecides(users: seq<User>, env: AuthEnv, nextId: int, email: Option<string>, password: Option<string>, now: Time, i: nat)
    requires UsersValid(env, users, nextId)
    requires LoginSchema(env, email, password)
    requires i < |users| && users[i].email == email.value
    ensures LoginResponse(users, env, email, password, now) ==
            if env.compare(password.value, users[i].passwordHash) then Ok(env.sign(users[i].id, now))
            else Unauthorized(InvalidCredentials)
  {
  }

  /** The row a successful Register appends. */
  function NewUser(env: AuthEnv, id: int, username: string, email: string, password: string, salt: Salt): User
  {
    User(id, username, email, env.hash(password, salt))
  }

  /** Appending the row of a registration that passed the schema and the
      email check keeps the table valid. */
  lemma RegisterKeepsValid(users: seq<User>, env: AuthEnv, nextId: int,
                           username: Option<string>, email: Option<string>, password: Option<string>, salt: Salt)
    requires UsersValid(env, users, nextId)
    requires RegisterSchema(env, username, email, password)
    requires !EmailTaken(users, email.value)
    ensures UsersValid(env, users + [NewUser(env, nextId, username.value, email.value, password.value, salt)], nextId + 1)
  {
    var u := NewUser(env, nextId, username.value, email.value, password.value, salt);
    var users' := users + [u];
    assert IsHash(env, u.passwordHash) by {
      assert u.passwordHash == env.hash(password.value, salt);
    }
    forall i, j | 0 <= i < j < |users'| ensures users'[i].email != users'[j].email {
      if j == |users| {
        assert users'[i] == users[i];
      }
    }
  }

  /** Logging in right after a registration, with the same email and
      password, succeeds with a token for the new user. */
  lemma RegisterThenLogin(users: seq<User>, env: AuthEnv, nextId: int,
                          username: Option<string>, email: Option<string>, password: Option<string>,
                          salt: Salt, now: Time)
    requires UsersValid(env, users, nextId)
    requires BcryptSound(env)
    requires RegisterSchema(env, username, email, password)
    requires !EmailTaken(users, email.value)
    ensures LoginResponse(users + [NewUser(env, nextId, username.value, email.value, password.value, salt)], env, email, password, now)
            == Ok(env.sign(nextId, now))
  {
    var users' := users + [NewUser(env, nextId, username.value, email.value, password.value, salt)];
    RegisterKeepsValid(users, env, nextId, username, email, password, salt);
    LoginDecides(users', env, nextId + 1, email, password, now, |users|);
  }

  /** Registering a user does not change how logins for other emails go. */
  lemma RegisterKeepsOtherLogins(users: seq<User>, env: AuthEnv, u: User,
                                 email: Option<string>, password: Option<string>, now: Time)
    requires email.Some? && email.value != u.email
    ensures LoginResponse(users + [u], env, email, password, now) == LoginResponse(users, env, email, password, now)
  {
    if LoginSchema(env, email, password) {
      var r, r' := FindByEmail(users + [u], email.value), FindByEmail(users, email.value);
      if r.Some? {
        assert (users + [u])[r.value] == users[r.value];
      }
      if r'.Some? {
        assert (users + [u])[r'.value] == users[r'.value];
      }
    }
  }

  class UserTable {
    const env: AuthEnv

    /** The rows of the users table, in insertion order. */
    var users: seq<User>
    /** The value the auto-increment primary key hands out next. */
    var nextId: int

    ghost predicate Valid()
      reads this
    {
      UsersValid(env, users, nextId)
    }

    constructor (env: AuthEnv)
      ensures Valid()
      ensures this.env == env && users == [] && nextId == 1
    {
      this.env := env;
      users := [];
      nextId := 1;
    }

    /** `POST /register`: 400 for a body the schema rejects, 400 "Email
        already exists" for a stored email, otherwise stores the bcrypt hash
        of the password (never the password) and answers 201 with a token
        signed over the new user's id. */
    method Register(username: Option<string>, email: Option<string>, password: Option<string>, salt: Salt, now: Time)
      returns (r: Response<Token>)
      requires Valid()
      modifies this
      ensures Valid()
      ensures !RegisterSchema(env, username, email, password) ==> r == BadRequest(SchemaError)
      ensures RegisterSchema(env, username, email, password) && EmailTaken(old(users), email.value) ==>
                r == BadRequest(EmailAlreadyExists)
      ensures r.Created? <==> RegisterSchema(env, username, email, password) && !EmailTaken(old(users), email.value)
      ensures r.Created? ==> r.value == env.sign(old(nextId), now)
      ensures r.Created? ==> users == old(users) + [NewUser(env, old(nextId), username.value, email.value, password.value, salt)]
      ensures r.Created? ==> nextId == old(nextId) + 1
      ensures !r.Created? ==> users == old(users) && nextId == old(nextId)
      ensures UserIds(users) == UserIds(old(users)) + (if r.Created? then {old(nextId)} else {})
    {
      if !RegisterSchema(env, username, email, password) {
        return BadRequest(SchemaError);
      }
      var existing := FindByEmail(users, email.value);
      if existing.Some? {
        return BadRequest(EmailAlreadyExists);
      }
      var user := User(nextId, username.value, email.value, env.hash(password.value, salt));
      RegisterKeepsValid(users, env, nextId, username, email, password, salt);
      RegisterGrowsUserIds(users, user);
      users := users + [user];
      nextId := nextId + 1;
      r := Created(env.sign(user.id, now));
    }

    /** `POST /login`; it reads the table and changes nothing. */
    method Login(email: Option<string>, password: Option<string>, now: Time) returns (r: Response<Token>)
      ensures r == LoginResponse(users, env, email, password, now)
    {
      if !LoginSchema(env, email, password) {
        return BadRequest(SchemaError);
      }
      var found := FindByEmail(users, email.value);
      if found.None? || !env.compare(password.value, users[found.value].passwordHash) {
        return Unauthorized(InvalidCredentials);
      }
      r := Ok(env.sign(users[found.value].id, now));
    }
  }
}
