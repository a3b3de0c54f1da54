/** Account registration and the login decision. Token signing, cookies and
    password hashing are outside the model; the password check is a parameter. */
module AuthController {
  import opened Common
  import opened Users
  import opened Failures

  /** The directory after a request, and the reply sent. */
  datatype Registration = Registration(users: seq<User>, reply: Result<Profile, Failure>)

  /** `register`: a duplicate email is refused first, then a role outside the
      accepted set; otherwise one account is added and returned without its password. */
  function Register(users: seq<User>, name: string, email: string, password: string, role: string): (r: Registration)
    ensures r.reply.Err? ==> r.users == users
    ensures r.reply == Err(UserAlreadyExists) <==> exists u :: u in users && u.email == email
    ensures r.reply == Err(InvalidRole) <==>
      (forall u :: u in users ==> u.email != email) && forall k: Role :: RoleName(k) != role
    ensures r.reply.Ok? <==>
      (forall u :: u in users ==> u.email != email) && exists k: Role :: RoleName(k) == role
    ensures r.reply.Ok? ==>
      && |r.users| == |users| + 1
      && r.users[..|users|] == users
      && var u := r.users[|users|];
      && u.name == name && u.email == email && u.password == password && RoleName(u.role) == role
      && u.id !in IdsOf(users)
      && r.reply.value == Profile(u.id, name, email, u.role)
    ensures UniqueEmails(users) ==> UniqueEmails(r.users)
    ensures UniqueIds(users) ==> UniqueIds(r.users)
  {
    match FindByEmail(users, email)
    case Some(_) => Registration(users, Err(UserAlreadyExists))
    case None =>
      match ParseRole(role)
      case None => Registration(users, Err(InvalidRole))
      case Some(k) =>
        var u := User(Fresh(IdsOf(users)), name, email, password, k);
        var users' := users + [u];
        assert users'[..|users|] == users;
        assert forall i :: 0 <= i < |users| ==> users'[i] == users[i] && users[i].id in IdsOf(users);
        Registration(users', Ok(ProfileOf(u)))
  }

  /** A duplicate email is reported even when the role is also invalid. */
  lemma DuplicateEmailReportedBeforeRole(users: seq<User>, name: string, email: string, password: string, role: string)
    requires exists u :: u in users && u.email == email
    requires ParseRole(role).None?
    ensures Register(users, name, email, password, role).reply == Err(UserAlreadyExists)
  {
  }

  /** `login`: the account found by email, if its password check accepts. */
  function Login(users: seq<User>, email: string, password: string, passwordMatches: (string, string) -> bool): (r: Result<Profile, Failure>)
    ensures r.Err? ==> r.error == InvalidCredentials
    ensures r.Ok? ==> exists u :: u in users && u.email == email && passwordMatches(u.password, password) && r.value == ProfileOf(u)
    ensures (forall u :: u in users && u.email == email ==> !passwordMatches(u.password, password)) ==> r.Err?
  {
    match FindByEmail(users, email)
    case Some(u) =>
      if passwordMatches(u.password, password) then Ok(ProfileOf(u)) else Err(InvalidCredentials)
    case None => Err(InvalidCredentials)
  }

  /** In a directory with unique emails, login succeeds exactly for an
      existing email whose account accepts the password. */
  lemma {:induction false} LoginAcceptsExactly(users: seq<User>, email: string, password: string, passwordMatches: (string, string) -> bool)
    requires UniqueEmails(users)
    ensures Login(users, email, password, passwordMatches).Ok? <==>
      exists u :: u in users && u.email == email && passwordMatches(u.password, password)
  {
    if u :| u in users && u.email == email && passwordMatches(u.password, password) {
      var found := FindByEmail(users, email);
      var i :| 0 <= i < |users| && users[i] == u;
      var j :| 0 <= j < |users| && users[j] == found.value;
      assert i == j;
    }
  }

  /** A freshly registered account can log in with the password it registered with,
      whenever the check accepts that password against its stored credential. */
  lemma RegisteredUserCanLogIn(users: seq<User>, name: string, email: string, password: string, role: string, passwordMatches: (string, string) -> bool)
    requires UniqueEmails(users)
    requires Register(users, name, email, password, role).reply.Ok?
    requires passwordMatches(password, password)
    ensures Login(Register(users, name, email, password, role).users, email, password, passwordMatches) ==
      Register(users, name, email, password, role).reply
  {
    var r := Register(users, name, email, password, role);
    var u := r.users[|users|];
    LoginAcceptsExactly(r.users, email, password, passwordMatches);
    assert FindByEmail(r.users, email) == Some(u) by {
      var found := FindByEmail(r.users, email);
      var j :| 0 <= j < |r.users| && r.users[j] == found.value;
      assert j == |users|;
    }
  }
}
