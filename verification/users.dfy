/** The user directory: accounts with a role tag, looked up by id, by email and by role. */
module Users {
  import opened Common

  /** The closed set of roles accepted at registration. */
  datatype Role = Patient | Doctor | Finance

  /** The role's spelling in requests and in the database. */
  function RoleName(r: Role): string
  {
    match r
    case Patient => "patient"
    case Doctor => "doctor"
    case Finance => "finance"
  }

  /** Membership of a requested role string in the list of accepted roles. */
  function ParseRole(s: string): (r: Option<Role>)
    ensures r.Some? ==> RoleName(r.value) == s
    ensures r.None? ==> forall k: Role :: RoleName(k) != s
  {
    if s == "patient" then Some(Patient)
    else if s == "doctor" then Some(Doctor)
    else if s == "finance" then Some(Finance)
    else None
  }

  lemma RoleNameRoundTrip(k: Role)
    ensures ParseRole(RoleName(k)) == Some(k)
  {
  }

  /** A stored account; `password` is the credential, opaque to the core. */
  datatype User = User(id: nat, name: string, email: string, password: string, role: Role)

  /** An account as it may be sent to a client: everything but the credential. */
  datatype Profile = Profile(id: nat, name: string, email: string, role: Role)

  /** A reference expanded to the user's name and email (a populated field). */
  datatype Contact = Contact(id: nat, name: string, email: string)

  function ProfileOf(u: User): Profile
  {
    Profile(u.id, u.name, u.email, u.role)
  }

  function ContactOf(u: User): Contact
  {
    Contact(u.id, u.name, u.email)
  }

  function IdsOf(users: seq<User>): (r: seq<nat>)
    ensures |r| == |users|
    ensures forall i :: 0 <= i < |users| ==> r[i] == users[i].id
  {
    seq(|users|, i requires 0 <= i < |users| => users[i].id)
  }

  /** Every account has its own id (the database's primary key). */
  ghost predicate UniqueIds(users: seq<User>)
  {
    forall i, j :: 0 <= i < j < |users| ==> users[i].id != users[j].id
  }

  /** No two accounts share an email address. */
  ghost predicate UniqueEmails(users: seq<User>)
  {
    forall i, j :: 0 <= i < j < |users| ==> users[i].email != users[j].email
  }

  /** `findById`: the first account with the id, if any. */
  function FindById(users: seq<User>, id: nat): (r: Option<User>)
    ensures r.Some? ==> r.value in users && r.value.id == id
    ensures r.None? <==> forall u :: u in users ==> u.id != id
  {
    if |users| == 0 then None
    else if users[0].id == id then Some(users[0])
    else FindById(users[1..], id)
  }

  /** `findOne({ email })`: the first account with the email, if any. */
  function FindByEmail(users: seq<User>, email: string): (r: Option<User>)
    ensures r.Some? ==> r.value in users && r.value.email == email
    ensures r.None? <==> forall u :: u in users ==> u.email != email
  {
    if |users| == 0 then None
    else if users[0].email == email then Some(users[0])
    else FindByEmail(users[1..], email)
  }

  /** With unique ids the account found is the only one carrying the id. */
  lemma {:induction false} FindByIdUnique(users: seq<User>, u: User)
    requires UniqueIds(users)
    requires u in users
    ensures FindById(users, u.id) == Some(u)
  {
    if users[0] != u {
      assert users[0].id != u.id by {
        var k :| 0 <= k < |users| && users[k] == u;
        assert k > 0;
      }
      assert u in users[1..];
      FindByIdUnique(users[1..], u);
    }
  }

  /** `countDocuments({ role })`. */
  function CountRole(users: seq<User>, role: Role): (n: nat)
    ensures n <= |users|
  {
    if |users| == 0 then 0
    else CountRole(users[..|users| - 1], role) + (if users[|users| - 1].role == role then 1 else 0)
  }

  /** Every account has exactly one of the three roles. */
  lemma {:induction false} RoleCountsPartition(users: seq<User>)
    ensures CountRole(users, Patient) + CountRole(users, Doctor) + CountRole(users, Finance) == |users|
  {
    if |users| > 0 {
      RoleCountsPartition(users[..|users| - 1]);
    }
  }
}
