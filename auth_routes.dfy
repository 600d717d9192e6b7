/** The account routes of the back end: register (insert, commit, then send a
    welcome mail), list users, and log in by a plaintext password compare. */
module AuthRoutes {
  import opened Wrappers

  /** A row of `users`: `userid` is generated, `username` is unique, and
      `userpass` holds the password exactly as it was submitted. */
  datatype User = User(userid: int, username: string, useremail: string, userpass: string)

  /** The user object of a successful login: no password field. */
  datatype PublicUser = PublicUser(userid: int, username: string, email: string)

  datatype RegisterForm = RegisterForm(username: Option<string>, email: Option<string>, password: Option<string>)
  datatype LoginForm = LoginForm(username: Option<string>, password: Option<string>)

  datatype MailMessage = MailMessage(subject: string, sender: string, recipients: seq<string>, body: string)

  datatype AuthBody =
    | Error(error: string)
    | Registered(message: string, userid: int)
    | Users(rows: seq<User>)
    | LoggedIn(message: string, user: PublicUser)

  const MissingFields := "Missing required fields"
  const MissingCredentials := "Missing username or password"
  const UserRegistered := "User registered successfully!"
  const UserNotFound := "User not found"
  const InvalidPassword := "Invalid password"
  const LoginSucceeded := "Login successful"

  /** The text of the unique violation PostgreSQL raises for a taken username. */
  function DuplicateUsernameError(username: string): string {
    "duplicate key value violates unique constraint on username: " + username
  }

  /** The welcome mail composed after the insert is committed. */
  function WelcomeMessage(username: string, email: string): (m: MailMessage)
    ensures m.recipients == [email]
  {
    MailMessage("Account Registration Successful", "noreply@webssis.com", [email],
      "You have registered your account successfully. Welcome to Web SSIS, " + username + "!")
  }

  function PublicView(u: User): PublicUser {
    PublicUser(u.userid, u.username, u.useremail)
  }

  /** `SELECT * FROM users WHERE username = %s` followed by `fetchone()`. */
  function FindUser(users: seq<User>, name: string): (r: Option<User>)
    ensures r.Some? ==> r.value in users && r.value.username == name
    ensures r.None? <==> forall u :: u in users ==> u.username != name
  {
    if users == [] then None
    else if users[0].username == name then Some(users[0])
    else
      assert forall u :: u in users ==> u == users[0] || u in users[1..];
      FindUser(users[1..], name)
  }

  predicate UniqueUsers(users: seq<User>) {
    forall i, j :: 0 <= i < j < |users| ==>
      users[i].username != users[j].username && users[i].userid != users[j].userid
  }

  /** With unique usernames the lookup finds the one row with that name. */
  lemma {:induction false} FindUserUnique(users: seq<User>, i: int)
    requires UniqueUsers(users) && 0 <= i < |users|
    ensures FindUser(users, users[i].username) == Some(users[i])
  {
    if i > 0 {
      assert users[0].username != users[i].username;
      assert UniqueUsers(users[1..]) by {
        forall a, b | 0 <= a < b < |users[1..]|
          ensures users[1..][a].username != users[1..][b].username && users[1..][a].userid != users[1..][b].userid
        {
          assert users[1..][a] == users[a + 1] && users[1..][b] == users[b + 1];
        }
      }
      FindUserUnique(users[1..], i - 1);
      assert users[1..][i - 1] == users[i];
    }
  }

  /** Two rows of a table with unique usernames that share a name are the same row. */
  lemma SameNameSameUser(users: seq<User>, u: User, v: User)
    requires UniqueUsers(users) && u in users && v in users && u.username == v.username
    ensures u == v
  {
    var a :| 0 <= a < |users| && users[a] == u;
    var b :| 0 <= b < |users| && users[b] == v;
  }

  class UserDatabase {
    var users: seq<User>
    /** The next value of the `userid` sequence. */
    var nextId: int

    ghost predicate Valid()
      reads this
    {
      UniqueUsers(users) && forall u :: u in users ==> u.userid < nextId
    }

    constructor ()
      ensures Valid() && users == [] && nextId == 1
    {
      users, nextId := [], 1;
    }

    /** `POST /api/register`.  `attempted` is the message handed to the mail
        extension, if the handler got that far. */
    method RegisterUser(form: RegisterForm, conn: Attempt, db: Attempt, mail: Attempt)
      returns (resp: Response<AuthBody>, attempted: Option<MailMessage>)
      requires Valid()
      modifies this
      ensures Valid()
      ensures !Present(form.username) || !Present(form.email) || !Present(form.password) ==>
        resp == Response(400, Error(MissingFields)) && attempted.None? && users == old(users) && nextId == old(nextId)
      ensures Present(form.username) && Present(form.email) && Present(form.password) ==>
        var name, email, password := form.username.value, form.email.value, form.password.value;
        if conn.Raises? then
          resp == Response(500, Error(conn.error)) && attempted.None? && users == old(users) && nextId == old(nextId)
        else if db.Raises? then
          resp == Response(500, Error(db.error)) && attempted.None? && users == old(users) && nextId == old(nextId)
        else if FindUser(old(users), name).Some? then
          && resp == Response(500, Error(DuplicateUsernameError(name))) && attempted.None?
          && users == old(users) && nextId == old(nextId) + 1
        else
          // the row is committed before the mail is sent, so it stays whatever the mail does
          && users == old(users) + [User(old(nextId), name, email, password)]
          && nextId == old(nextId) + 1
          && attempted == Some(WelcomeMessage(name, email))
          && resp == (if mail.Raises? then Response(500, Error(mail.error))
                      else Response(201, Registered(UserRegistered, old(nextId))))
    {
      attempted := None;
      if !Present(form.username) || !Present(form.email) || !Present(form.password) {
        return Response(400, Error(MissingFields)), None;
      }
      var name, email, password := form.username.value, form.email.value, form.password.value;
      if conn.Raises? {
        return Response(500, Error(conn.error)), None;
      }
      if db.Raises? {
        return Response(500, Error(db.error)), None;
      }
      var id := nextId;
      nextId := nextId + 1;
      if FindUser(users, name).Some? {
        return Response(500, Error(DuplicateUsernameError(name))), None;
      }
      users := users + [User(id, name, email, password)];
      attempted := Some(WelcomeMessage(name, email));
      if mail.Raises? {
        return Response(500, Error(mail.error)), attempted;
      }
      resp := Response(201, Registered(UserRegistered, id));
    }

    /** `GET /api/users`: every row with every column, passwords included. */
    method GetUsers(conn: Attempt, db: Attempt) returns (resp: Response<AuthBody>)
      ensures conn.Raises? ==> resp == Response(500, Error(conn.error))
      ensures conn.Succeeds? && db.Raises? ==> resp == Response(500, Error(db.error))
      ensures conn.Succeeds? && db.Succeeds? ==> resp == Response(200, Users(users))
    {
      if conn.Raises? {
        return Response(500, Error(conn.error));
      }
      if db.Raises? {
        return Response(500, Error(db.error));
      }
      resp := Response(200, Users(users));
    }

    /** `POST /api/login`. */
    method LoginUser(form: LoginForm, conn: Attempt, db: Attempt) returns (resp: Response<AuthBody>)
      requires Valid()
      ensures !Present(form.username) || !Present(form.password) ==>
        resp == Response(400, Error(MissingCredentials))
      ensures Present(form.username) && Present(form.password) && conn.Raises? ==>
        resp == Response(500, Error(conn.error))
      ensures Present(form.username) && Present(form.password) && conn.Succeeds? && db.Raises? ==>
        resp == Response(500, Error(db.error))
      ensures Present(form.username) && Present(form.password) && conn.Succeeds? && db.Succeeds? ==>
        var name, password := form.username.value, form.password.value;
        && resp.status in {200, 401, 404}
        && (resp.status == 404 <==> forall u :: u in users ==> u.username != name)
        && (resp.status == 200 <==> exists u :: u in users && u.username == name && u.userpass == password)
        && (resp.status == 404 ==> resp.body == Error(UserNotFound))
        && (resp.status == 401 ==> resp.body == Error(InvalidPassword))
        && (resp.status == 200 ==>
              forall u :: u in users && u.username == name ==> resp.body == LoggedIn(LoginSucceeded, PublicView(u)))
    {
      if !Present(form.username) || !Present(form.password) {
        return Response(400, Error(MissingCredentials));
      }
      var name, password := form.username.value, form.password.value;
      if conn.Raises? {
        return Response(500, Error(conn.error));
      }
      if db.Raises? {
        return Response(500, Error(db.error));
      }
      var user := FindUser(users, name);
      if user.None? {
        return Response(404, Error(UserNotFound));
      }
      forall u | u in users && u.username == name
        ensures u == user.value
      {
        SameNameSameUser(users, u, user.value);
      }
      if user.value.userpass != password {
        return Response(401, Error(InvalidPassword));
      }
      resp := Response(200, LoggedIn(LoginSucceeded, PublicView(user.value)));
    }
  }

  /** A registration followed by logins: the right password gets the public
      fields back, a wrong one 401, an unknown name 404, and a failed welcome
      mail does not undo the registration. */
  method RegisterThenLogin(store: UserDatabase, name: string, email: string, password: string, wrong: string,
                           unknown: string, mail: Attempt)
    requires store.Valid()
    requires name != "" && email != "" && password != "" && wrong != "" && unknown != ""
    requires wrong != password && unknown != name
    requires forall u :: u in store.users ==> u.username != name && u.username != unknown
    modifies store
    ensures store.Valid()
  {
    var id := store.nextId;
    var reg, _ := store.RegisterUser(RegisterForm(Some(name), Some(email), Some(password)), Succeeds, Succeeds, mail);
    assert store.users[|store.users| - 1] == User(id, name, email, password);
    assert mail.Succeeds? ==> reg == Response(201, Registered(UserRegistered, id));
    assert mail.Raises? ==> reg.status == 500;

    assert store.users[|store.users| - 1] in store.users;
    var ok := store.LoginUser(LoginForm(Some(name), Some(password)), Succeeds, Succeeds);
    assert ok == Response(200, LoggedIn(LoginSucceeded, PublicUser(id, name, email)));

    var bad := store.LoginUser(LoginForm(Some(name), Some(wrong)), Succeeds, Succeeds);
    assert bad == Response(401, Error(InvalidPassword));

    var missing := store.LoginUser(LoginForm(Some(unknown), Some(password)), Succeeds, Succeeds);
    assert missing == Response(404, Error(UserNotFound));
  }
}
