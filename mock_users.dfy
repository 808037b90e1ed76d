/**
 * The simulated sign-in: a fixed table of users and `authenticateUser`, which
 * finds the first entry with the given email and password and hands it back
 * without its password.
 */
module MockUsers {
  import opened Wrappers

  /** An entry of the table; None is an absent optional field. */
  datatype User = User(
    id: string,
    email: string,
    password: string,
    name: string,
    profilePicture: Option<string>,
    birthDate: Option<string>,
    gender: Option<string>,
    relationship: Option<string>,
    bio: Option<string>,
    country: Option<string>,
    profileCompleted: Option<bool>)

  /** What `authenticateUser` returns: an entry with its `password` field dropped. */
  datatype PublicUser = PublicUser(
    id: string,
    email: string,
    name: string,
    profilePicture: Option<string>,
    birthDate: Option<string>,
    gender: Option<string>,
    relationship: Option<string>,
    bio: Option<string>,
    country: Option<string>,
    profileCompleted: Option<bool>)

  /** The `{password, ...rest}` destructuring: the public part, from which the entry comes back with its password. */
  function WithoutPassword(u: User): (r: PublicUser)
    ensures WithPassword(r, u.password) == u
  {
    PublicUser(u.id, u.email, u.name, u.profilePicture, u.birthDate, u.gender,
               u.relationship, u.bio, u.country, u.profileCompleted)
  }

  /** The inverse of dropping the password: the entry rebuilt from the public part and a password. */
  function WithPassword(p: PublicUser, password: string): User {
    User(p.id, p.email, password, p.name, p.profilePicture, p.birthDate, p.gender,
         p.relationship, p.bio, p.country, p.profileCompleted)
  }

  /** Dropping the password loses that field and nothing else. */
  lemma WithoutPasswordLosesOnlyPassword(u: User, p: PublicUser, password: string)
    ensures WithPassword(WithoutPassword(u), u.password) == u
    ensures WithoutPassword(WithPassword(p, password)) == p
  {
  }

  function Simulated(id: string, email: string, password: string, name: string): User {
    User(id, email, password, name, Some("/profile-default.jpg"), None, None, None, None, None, None)
  }

  /** The table of simulated users. */
  const Users: seq<User> := [
    Simulated("1", "madivcb@gmail.com", "123456", "Usuário de Teste"),
    Simulated("2", "maria@example.com", "senha123", "Maria Silva"),
    Simulated("3", "joao@example.com", "senha123", "João Santos")
  ]

  predicate Matches(u: User, email: string, password: string) {
    u.email == email && u.password == password
  }

  /** `i` is the first entry of `table` with both the email and the password. */
  predicate FirstMatch(table: seq<User>, email: string, password: string, i: int) {
    && 0 <= i < |table|
    && Matches(table[i], email, password)
    && forall k :: 0 <= k < i ==> !Matches(table[k], email, password)
  }

  /** `table.find(...)`: the first entry with both the email and the password. */
  function Find(table: seq<User>, email: string, password: string): (r: Option<User>)
    ensures r.None? <==> forall i :: 0 <= i < |table| ==> !Matches(table[i], email, password)
    ensures r.Some? ==> exists i :: FirstMatch(table, email, password, i) && r.value == table[i]
  {
    if table == [] then None
    else if Matches(table[0], email, password) then
      assert FirstMatch(table, email, password, 0);
      Some(table[0])
    else
      var rest := Find(table[1..], email, password);
      assert forall i :: 1 <= i < |table| ==> table[1..][i - 1] == table[i];
      if rest.Some? then
        var i :| FirstMatch(table[1..], email, password, i) && rest.value == table[1..][i];
        assert FirstMatch(table, email, password, i + 1);
        rest
      else
        rest
  }

  /** `authenticateUser` over a given table. */
  function Authenticate(table: seq<User>, email: string, password: string): (r: Option<PublicUser>)
    ensures r.None? <==> forall i :: 0 <= i < |table| ==> !Matches(table[i], email, password)
    ensures r.Some? ==> exists i :: FirstMatch(table, email, password, i) && r.value == WithoutPassword(table[i])
  {
    var found := Find(table, email, password);
    if found.None? then None else Some(WithoutPassword(found.value))
  }

  /** `authenticateUser`: sign-in against the table of simulated users. */
  function AuthenticateUser(email: string, password: string): (r: Option<PublicUser>)
    ensures r.None? <==> forall i :: 0 <= i < |Users| ==> !Matches(Users[i], email, password)
    ensures r.Some? ==> exists i :: FirstMatch(Users, email, password, i) && r.value == WithoutPassword(Users[i])
  {
    Authenticate(Users, email, password)
  }

  /** No two entries of the table share an email, so a sign-in matches at most one of them. */
  lemma UsersEmailsDistinct()
    ensures forall i, j :: 0 <= i < j < |Users| ==> Users[i].email != Users[j].email
  {
  }

  /** Maria signs in with her own password and gets her entry, without the password. */
  lemma MariaSignsIn()
    ensures AuthenticateUser("maria@example.com", "senha123") == Some(WithoutPassword(Users[1]))
    ensures AuthenticateUser("maria@example.com", "senha123").value.id == "2"
  {
    assert FirstMatch(Users, "maria@example.com", "senha123", 1);
    assert forall i :: FirstMatch(Users, "maria@example.com", "senha123", i) ==> i == 1;
  }

  /** A wrong password is refused, even one that is another user's password. */
  lemma WrongPasswordRefused()
    ensures AuthenticateUser("maria@example.com", "123456") == None
    ensures AuthenticateUser("maria@example.com", "") == None
  {
  }

  /** Two users share a password; the email decides which entry comes back. */
  lemma SharedPasswordKeepsUsersApart()
    ensures AuthenticateUser("joao@example.com", "senha123").Some?
    ensures AuthenticateUser("joao@example.com", "senha123").value.id == "3"
  {
    assert FirstMatch(Users, "joao@example.com", "senha123", 2);
    assert forall i :: FirstMatch(Users, "joao@example.com", "senha123", i) ==> i == 2;
  }
}
