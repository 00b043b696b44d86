/** The Flask backend's auth service (`app.py`): users in a map keyed by email, the
    token identity is the email, fields are required, sign-up answers 201. */
module FlaskAuth {

  import opened Wrappers
  import Crypto

  /** A stored account; the hash never leaves the service. */
  datatype Account = Account(passwordHash: string, fullName: string)

  type Users = map<string, Account>

  /** The `user` object of a response. */
  datatype Summary = Summary(email: string, fullName: string)

  datatype Body =
    | Session(token: string, user: Summary)
    | Profile(user: Summary)
    | Error(error: string)

  datatype Response = Response(status: int, body: Body)

  datatype Outcome = Outcome(users: Users, response: Response)

  const MissingFields := "Missing required fields"
  const MissingCredentials := "Missing email or password"
  const UserExists := "User already exists"
  const InvalidCredentials := "Invalid credentials"
  const UserNotFound := "User not found"

  /** Python falsiness of a request field: absent (`None`) or the empty string. */
  predicate Missing(field: Option<string>)
  {
    field.None? || field.value == ""
  }

  /** POST /api/auth/signup. */
  function Signup(c: Crypto.Primitives<string>, users: Users, email: Option<string>,
                  password: Option<string>, fullName: Option<string>, salt: nat, now: nat): (o: Outcome)
    ensures Missing(email) || Missing(password) || Missing(fullName) ==>
              o == Outcome(users, Response(400, Error(MissingFields)))
    ensures !Missing(email) && email.value in users ==> o.users == users && o.response.status == 400
    ensures !Missing(email) && !Missing(password) && !Missing(fullName) && email.value in users ==>
              o == Outcome(users, Response(400, Error(UserExists)))
    ensures o.response.status == 201 <==>
              !Missing(email) && !Missing(password) && !Missing(fullName) && email.value !in users
    ensures o.response.status != 201 ==> o.users == users && o.response.status == 400
    ensures o.response.status == 201 ==>
              && o.users.Keys == users.Keys + {email.value}
              && (forall k :: k in users ==> o.users[k] == users[k])
              && o.users[email.value] == Account(c.hash(password.value, salt), fullName.value)
              && o.response.body == Session(c.sign(email.value, now), Summary(email.value, fullName.value))
  {
    if Missing(email) || Missing(password) || Missing(fullName) then
      Outcome(users, Response(400, Error(MissingFields)))
    else if email.value in users then
      Outcome(users, Response(400, Error(UserExists)))
    else
      var account := Account(c.hash(password.value, salt), fullName.value);
      var token := c.sign(email.value, now);
      Outcome(users[email.value := account], Response(201, Session(token, Summary(email.value, fullName.value))))
  }

  /** POST /api/auth/login. */
  function Login(c: Crypto.Primitives<string>, users: Users, email: Option<string>,
                 password: Option<string>, now: nat): (r: Response)
    ensures Missing(email) || Missing(password) <==> r == Response(400, Error(MissingCredentials))
    ensures r.status == 401 <==>
              && !Missing(email) && !Missing(password)
              && (email.value !in users || !c.compare(password.value, users[email.value].passwordHash))
    ensures r.status == 401 ==> r == Response(401, Error(InvalidCredentials))
    ensures r.status == 200 <==>
              && !Missing(email) && !Missing(password) && email.value in users
              && c.compare(password.value, users[email.value].passwordHash)
    ensures r.status == 200 || r.status == 400 || r.status == 401
    ensures r.status == 200 ==>
              && email.Some? && email.value in users
              && r.body == Session(c.sign(email.value, now), Summary(email.value, users[email.value].fullName))
  {
    if Missing(email) || Missing(password) then
      Response(400, Error(MissingCredentials))
    else if email.value !in users then
      Response(401, Error(InvalidCredentials))
    else if !c.compare(password.value, users[email.value].passwordHash) then
      Response(401, Error(InvalidCredentials))
    else
      Response(200, Session(c.sign(email.value, now), Summary(email.value, users[email.value].fullName)))
  }

  /** GET /api/auth/validate, for the identity that token verification produced. */
  function Validate(users: Users, identity: string): (r: Response)
    ensures r.status == 404 <==> identity !in users
    ensures r.status == 404 ==> r.body == Error(UserNotFound)
    ensures r.status != 404 ==> r == Response(200, Profile(Summary(identity, users[identity].fullName)))
  {
    if identity !in users then Response(404, Error(UserNotFound))
    else Response(200, Profile(Summary(identity, users[identity].fullName)))
  }

  /** The token sign-up issues verifies to the new email, and validating that identity
      returns the new user's `{email, fullName}`. */
  lemma SignupThenValidate(c: Crypto.Primitives<string>, users: Users, email: Option<string>,
                           password: Option<string>, fullName: Option<string>, salt: nat, now: nat)
    requires Crypto.Sound(c)
    requires Signup(c, users, email, password, fullName, salt, now).response.status == 201
    ensures var o := Signup(c, users, email, password, fullName, salt, now);
            && c.verify(o.response.body.token) == Some(email.value)
            && Validate(o.users, email.value) == Response(200, Profile(o.response.body.user))
  {
  }

  /** After a successful sign-up, logging in with the same email and password
      succeeds, with a token that verifies to the email. */
  lemma SignupThenLogin(c: Crypto.Primitives<string>, users: Users, email: Option<string>,
                        password: Option<string>, fullName: Option<string>, salt: nat, now: nat, later: nat)
    requires Crypto.Sound(c)
    requires Signup(c, users, email, password, fullName, salt, now).response.status == 201
    ensures var o := Signup(c, users, email, password, fullName, salt, now);
            var r := Login(c, o.users, email, password, later);
            && r.status == 200 && r.body.user == o.response.body.user
            && c.verify(r.body.token) == Some(email.value)
  {
    var o := Signup(c, users, email, password, fullName, salt, now);
    assert c.compare(password.value, o.users[email.value].passwordHash);
  }

}
