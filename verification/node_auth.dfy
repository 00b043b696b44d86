/** The Node.js auth service (`server.js`): sign-up, log-in and token validation over
    an append-only, process-lifetime list of users. Request fields are optional
    because an absent JSON field is `undefined`, and the service compares it with
    `===` like any other value. */
module NodeAuth {

  import opened Wrappers
  import Strings
  import Seqs
  import Crypto

  /** The decoded token payload, reduced to its `userId`: `None` when the payload has
      no integer `userId` (absent, or some other JSON type). */
  datatype Claims = Claims(userId: Option<int>)

  /** A stored user; `passwordHash` never leaves the service. */
  datatype User = User(id: int, fullName: Option<string>, email: Option<string>, passwordHash: string)

  type Store = seq<User>

  /** The `user` object of a response: a user without the password hash. */
  datatype Summary = Summary(id: int, fullName: Option<string>, email: Option<string>)

  datatype Body =
    | Session(token: string, user: Summary)
    | Profile(user: Summary)
    | Error(error: string)

  datatype Response = Response(status: int, body: Body)

  /** The store after a request, and the response to it. */
  datatype Outcome = Outcome(users: Store, response: Response)

  const UserExists := "User already exists"
  const CreateFailed := "Error creating user"
  const InvalidCredentials := "Invalid credentials"
  const LoginFailed := "Error logging in"
  const NoToken := "No token provided"
  const InvalidToken := "Invalid token"

  /** The store invariant: ids are 1, 2, 3, ... in insertion order, and no two
      users share an email. */
  predicate Valid(users: Store)
  {
    && (forall i :: 0 <= i < |users| ==> users[i].id == i + 1)
    && (forall i, j :: 0 <= i < j < |users| ==> users[i].email != users[j].email)
  }

  function SummaryOf(u: User): Summary
  {
    Summary(u.id, u.fullName, u.email)
  }

  /** `users.find(u => u.email === email)`, as an index. */
  function FindByEmail(users: Store, email: Option<string>): (r: Option<nat>)
    ensures r.Some? ==> r.value < |users| && users[r.value].email == email
    ensures r.None? <==> forall j :: 0 <= j < |users| ==> users[j].email != email
  {
    Seqs.FindFirst(users, (u: User) => u.email == email)
  }

  /** `users.find(u => u.id === userId)`, as an index. */
  function FindById(users: Store, id: int): (r: Option<nat>)
    ensures r.Some? ==> r.value < |users| && users[r.value].id == id
    ensures r.None? <==> forall j :: 0 <= j < |users| ==> users[j].id != id
  {
    Seqs.FindFirst(users, (u: User) => u.id == id)
  }

  /** POST /api/auth/signup. */
  function Signup(c: Crypto.Primitives<Claims>, users: Store, fullName: Option<string>,
                  email: Option<string>, password: Option<string>, salt: nat, now: nat): (o: Outcome)
    ensures FindByEmail(users, email).Some? ==> o == Outcome(users, Response(400, Error(UserExists)))
    ensures FindByEmail(users, email).None? && password.None? ==>
              o == Outcome(users, Response(500, Error(CreateFailed)))
    ensures o.response.status == 200 <==> FindByEmail(users, email).None? && password.Some?
    ensures o.response.status != 200 ==> o.users == users
    ensures o.response.status == 200 ==>
              && |o.users| == |users| + 1
              && o.users[..|users|] == users
              && o.users[|users|].id == |users| + 1
              && o.users[|users|].email == email
              && o.users[|users|].fullName == fullName
              && o.users[|users|].passwordHash == c.hash(password.value, salt)
              && o.response.body == Session(c.sign(Claims(Some(|users| + 1)), now), SummaryOf(o.users[|users|]))
  {
    if FindByEmail(users, email).Some? then
      Outcome(users, Response(400, Error(UserExists)))
    else
      match password
      // bcrypt rejects a non-string password, and the handler answers 500
      case None => Outcome(users, Response(500, Error(CreateFailed)))
      case Some(p) =>
        var user := User(|users| + 1, fullName, email, c.hash(p, salt));
        var token := c.sign(Claims(Some(user.id)), now);
        Outcome(users + [user], Response(200, Session(token, SummaryOf(user))))
  }

  /** POST /api/auth/login. */
  function Login(c: Crypto.Primitives<Claims>, users: Store, email: Option<string>,
                 password: Option<string>, now: nat): (r: Response)
    ensures r.status == 401 <==>
              || FindByEmail(users, email).None?
              || (password.Some? && !c.compare(password.value, users[FindByEmail(users, email).value].passwordHash))
    ensures r.status == 401 ==> r == Response(401, Error(InvalidCredentials))
    ensures r.status == 500 <==> FindByEmail(users, email).Some? && password.None?
    ensures r.status == 500 ==> r.body == Error(LoginFailed)
    ensures r.status == 200 <==>
              && FindByEmail(users, email).Some? && password.Some?
              && c.compare(password.value, users[FindByEmail(users, email).value].passwordHash)
    ensures r.status == 200 || r.status == 401 || r.status == 500
    ensures r.status == 200 ==>
              var u := users[FindByEmail(users, email).value];
              r.body == Session(c.sign(Claims(Some(u.id)), now), SummaryOf(u))
  {
    match FindByEmail(users, email)
    case None => Response(401, Error(InvalidCredentials))
    case Some(i) =>
      match password
      case None => Response(500, Error(LoginFailed))
      case Some(p) =>
        if !c.compare(p, users[i].passwordHash) then Response(401, Error(InvalidCredentials))
        else Response(200, Session(c.sign(Claims(Some(users[i].id)), now), SummaryOf(users[i])))
  }

  /** `req.headers.authorization?.split(' ')[1]`, where an empty or missing second
      field counts as no token. The scheme word before the space is not inspected. */
  function ExtractToken(header: Option<string>): (r: Option<string>)
    ensures header.None? ==> r.None?
    ensures r.Some? ==> Crypto.IsTokenShaped(r.value)
  {
    match header
    case None => None
    case Some(h) =>
      var parts := Strings.Split(h, ' ');
      if |parts| >= 2 && parts[1] != "" then Some(parts[1]) else None
  }

  /** `h` is a scheme word, one space, the token `t`, and then nothing or a space
      followed by anything. */
  predicate HeaderShape(h: string, scheme: string, t: string, rest: string)
  {
    && ' ' !in scheme
    && Crypto.IsTokenShaped(t)
    && (rest == "" || rest[0] == ' ')
    && h == scheme + " " + t + rest
  }

  lemma HeaderSplits(scheme: string, t: string, rest: string)
    requires HeaderShape(scheme + " " + t + rest, scheme, t, rest)
    ensures ExtractToken(Some(scheme + " " + t + rest)) == Some(t)
  {
    var h := scheme + " " + t + rest;
    assert h == scheme + [' '] + (t + rest);
    Strings.SplitAfter(scheme, ' ', t + rest);
    if rest == "" {
      assert t + rest == t;
      Strings.SplitNoSeparator(t, ' ');
    } else {
      assert t + rest == t + [' '] + rest[1..];
      Strings.SplitAfter(t, ' ', rest[1..]);
    }
  }

  /** The extraction rule, stated without `split`: a token is found exactly when the
      header is a space-free word, one space, a non-empty space-free token, and then
      either the end or another space. */
  lemma ExtractTokenCharacterised(h: string, t: string)
    ensures ExtractToken(Some(h)) == Some(t) <==> exists scheme, rest :: HeaderShape(h, scheme, t, rest)
  {
    var parts := Strings.Split(h, ' ');
    if ExtractToken(Some(h)) == Some(t) {
      Strings.SplitJoin(h, ' ');
      var rest := if |parts| == 2 then "" else " " + Strings.Join(parts[2..], " ");
      assert parts[1..][1..] == parts[2..];
      assert h == parts[0] + " " + t + rest;
      assert HeaderShape(h, parts[0], t, rest);
    }
    if exists scheme, rest :: HeaderShape(h, scheme, t, rest) {
      var scheme, rest :| HeaderShape(h, scheme, t, rest);
      HeaderSplits(scheme, t, rest);
    }
  }

  /** `Authorization: Bearer <token>`, as the client sends it, yields the token. */
  lemma ExtractBearer(t: string)
    requires Crypto.IsTokenShaped(t)
    ensures ExtractToken(Some("Bearer " + t)) == Some(t)
  {
    assert "Bearer " + t == "Bearer" + " " + t + "";
    HeaderSplits("Bearer", t, "");
  }

  /** A header without a space carries no token: `split(' ')[1]` is undefined. */
  lemma ExtractNoSpace(h: string)
    requires ' ' !in h
    ensures ExtractToken(Some(h)) == None
  {
    Strings.SplitNoSeparator(h, ' ');
  }

  /** A header whose second field is empty carries no token, whatever follows:
      `Bearer `, and `Bearer  <token>` with a doubled space. */
  lemma ExtractEmptyField(scheme: string, rest: string)
    requires ' ' !in scheme
    requires rest == "" || rest[0] == ' '
    ensures ExtractToken(Some(scheme + " " + rest)) == None
  {
    assert scheme + " " + rest == scheme + [' '] + rest;
    Strings.SplitAfter(scheme, ' ', rest);
    assert Strings.Split(rest, ' ')[0] == "";
  }

  /** GET /api/auth/validate. */
  function Validate(c: Crypto.Primitives<Claims>, users: Store, header: Option<string>): (r: Response)
    ensures r.status == 200 || r.status == 401
    ensures r.body == Error(NoToken) <==> ExtractToken(header).None?
    ensures r.status == 401 ==> r.body == Error(NoToken) || r.body == Error(InvalidToken)
    ensures r.status == 200 ==>
              && ExtractToken(header).Some?
              && var claims := c.verify(ExtractToken(header).value);
              && claims.Some? && claims.value.userId.Some?
              && exists i :: 0 <= i < |users| && users[i].id == claims.value.userId.value
                               && r.body == Profile(SummaryOf(users[i]))
    ensures (&& ExtractToken(header).Some?
             && var claims := c.verify(ExtractToken(header).value);
             && claims.Some? && claims.value.userId.Some?
             && exists i :: 0 <= i < |users| && users[i].id == claims.value.userId.value)
            ==> r.status == 200
  {
    match ExtractToken(header)
    case None => Response(401, Error(NoToken))
    case Some(token) =>
      match c.verify(token)
      // jwt.verify throws, and the handler answers 401
      case None => Response(401, Error(InvalidToken))
      case Some(claims) =>
        match claims.userId
        case None => Response(401, Error(InvalidToken))
        case Some(id) =>
          match FindById(users, id)
          case None => Response(401, Error(InvalidToken))
          case Some(i) => Response(200, Profile(SummaryOf(users[i])))
  }

  /** In a valid store the user with id `k` sits at index `k - 1`. */
  lemma FindByIdValid(users: Store, i: nat)
    requires Valid(users) && i < |users|
    ensures FindById(users, i + 1) == Some(i)
  {
    var r := FindById(users, i + 1);
    assert users[i].id == i + 1;
    assert users[r.value].id == r.value + 1;
  }

  /** Sign-up keeps the store invariant. */
  lemma SignupKeepsValid(c: Crypto.Primitives<Claims>, users: Store, fullName: Option<string>,
                         email: Option<string>, password: Option<string>, salt: nat, now: nat)
    requires Valid(users)
    ensures Valid(Signup(c, users, fullName, email, password, salt, now).users)
  {
    var o := Signup(c, users, fullName, email, password, salt, now);
    if o.response.status == 200 {
      assert forall j :: 0 <= j < |users| ==> o.users[j] == users[j];
    }
  }

  /** The token sign-up issues, sent back as a bearer header, validates to exactly the
      new user's `{id, fullName, email}`. */
  lemma SignupThenValidate(c: Crypto.Primitives<Claims>, users: Store, fullName: Option<string>,
                           email: Option<string>, password: Option<string>, salt: nat, now: nat)
    requires Crypto.Sound(c) && Valid(users)
    requires Signup(c, users, fullName, email, password, salt, now).response.status == 200
    ensures var o := Signup(c, users, fullName, email, password, salt, now);
            Validate(c, o.users, Some("Bearer " + o.response.body.token))
              == Response(200, Profile(o.response.body.user))
  {
    var o := Signup(c, users, fullName, email, password, salt, now);
    var token := o.response.body.token;
    ExtractBearer(token);
    SignupKeepsValid(c, users, fullName, email, password, salt, now);
    FindByIdValid(o.users, |users|);
  }

  /** The token log-in issues validates to exactly the logged-in user's summary. */
  lemma LoginThenValidate(c: Crypto.Primitives<Claims>, users: Store, email: Option<string>,
                          password: Option<string>, now: nat)
    requires Crypto.Sound(c) && Valid(users)
    requires Login(c, users, email, password, now).status == 200
    ensures var r := Login(c, users, email, password, now);
            Validate(c, users, Some("Bearer " + r.body.token)) == Response(200, Profile(r.body.user))
  {
    var r := Login(c, users, email, password, now);
    var i := FindByEmail(users, email).value;
    ExtractBearer(r.body.token);
    FindByIdValid(users, i);
  }

  /** After a successful sign-up, logging in with the same email and password
      succeeds and names the same user. */
  lemma SignupThenLogin(c: Crypto.Primitives<Claims>, users: Store, fullName: Option<string>,
                        email: Option<string>, password: Option<string>, salt: nat, now: nat, later: nat)
    requires Crypto.Sound(c) && Valid(users)
    requires Signup(c, users, fullName, email, password, salt, now).response.status == 200
    ensures var o := Signup(c, users, fullName, email, password, salt, now);
            var r := Login(c, o.users, email, password, later);
            r.status == 200 && r.body.user == o.response.body.user
  {
    var o := Signup(c, users, fullName, email, password, salt, now);
    SignupKeepsValid(c, users, fullName, email, password, salt, now);
    assert FindByEmail(o.users, email) == Some(|users|);
  }

  /** The sign-up / log-in walk-through: the first user gets id 1, a second sign-up
      with the same email is refused and changes nothing, a wrong password is refused,
      and the right one logs the same user in. */
  lemma FirstUserScenario(c: Crypto.Primitives<Claims>, salt1: nat, salt2: nat, t1: nat, t2: nat, t3: nat, t4: nat)
    requires Crypto.Sound(c)
    requires !c.compare("wrong", c.hash("s3cret!", salt1))
    ensures var o1 := Signup(c, [], Some("Ada Lovelace"), Some("ada@example.com"), Some("s3cret!"), salt1, t1);
            var o2 := Signup(c, o1.users, Some("Ada Lovelace"), Some("ada@example.com"), Some("other"), salt2, t2);
            var bad := Login(c, o2.users, Some("ada@example.com"), Some("wrong"), t3);
            var good := Login(c, o2.users, Some("ada@example.com"), Some("s3cret!"), t4);
            && o1.response.status == 200 && o1.response.body.user.id == 1
            && o2 == Outcome(o1.users, Response(400, Error(UserExists)))
            && bad == Response(401, Error(InvalidCredentials))
            && good.status == 200 && good.body.user.id == 1
  {
    var email := Some("ada@example.com");
    assert FindByEmail([], email) == None;
    var o1 := Signup(c, [], Some("Ada Lovelace"), email, Some("s3cret!"), salt1, t1);
    var ada := User(1, Some("Ada Lovelace"), email, c.hash("s3cret!", salt1));
    assert o1.users == [ada];
    assert FindByEmail(o1.users, email) == Some(0);
    assert c.compare("s3cret!", ada.passwordHash);
  }

  /** A request to the service, with the salt and clock reading it will use. */
  datatype Request =
    | SignupRequest(fullName: Option<string>, email: Option<string>, password: Option<string>, salt: nat, now: nat)
    | LoginRequest(email: Option<string>, password: Option<string>, now: nat)
    | ValidateRequest(header: Option<string>)

  function Handle(c: Crypto.Primitives<Claims>, users: Store, req: Request): Outcome
  {
    match req
    case SignupRequest(n, e, p, s, t) => Signup(c, users, n, e, p, s, t)
    case LoginRequest(e, p, t) => Outcome(users, Login(c, users, e, p, t))
    case ValidateRequest(h) => Outcome(users, Validate(c, users, h))
  }

  datatype Trace = Trace(users: Store, responses: seq<Response>)

  /** The service handling `reqs` one after another: the store only ever grows at the
      end, and there is one response per request. */
  function Run(c: Crypto.Primitives<Claims>, users: Store, reqs: seq<Request>): (t: Trace)
    ensures |t.responses| == |reqs|
    ensures users <= t.users
    decreases |reqs|
  {
    if reqs == [] then Trace(users, [])
    else
      var o := Handle(c, users, reqs[0]);
      var rest := Run(c, o.users, reqs[1..]);
      Trace(rest.users, [o.response] + rest.responses)
  }

  /** Every sequence of requests keeps the store invariant. */
  lemma {:induction false} RunKeepsValid(c: Crypto.Primitives<Claims>, users: Store, reqs: seq<Request>)
    requires Valid(users)
    ensures Valid(Run(c, users, reqs).users)
    decreases |reqs|
  {
    if reqs != [] {
      if reqs[0].SignupRequest? {
        var q := reqs[0];
        SignupKeepsValid(c, users, q.fullName, q.email, q.password, q.salt, q.now);
      }
      RunKeepsValid(c, Handle(c, users, reqs[0]).users, reqs[1..]);
    }
  }

}
