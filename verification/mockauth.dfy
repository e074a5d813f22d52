/** The development stand-in for the authentication server: an in-memory
    list of users that sign-up appends to and login searches. */
module MockAuth {
  import opened Wrappers
  import opened Seqs

  /** A stored user; the password is kept as given. */
  datatype User = User(id: string, name: string, email: string, password: string)

  /** What a response exposes of a user: never the password. */
  datatype Profile = Profile(id: string, name: string, email: string)

  function ProfileOf(u: User): Profile {
    Profile(u.id, u.name, u.email)
  }

  const InvalidCredentials := "Invalid email or password"
  const EmailRegistered := "Email already registered"

  /** Both the email and the password match exactly. */
  predicate Matches(u: User, email: string, password: string) {
    u.email == email && u.password == password
  }

  /** `mockUsers.find(u => u.email === email && u.password === password)`:
      the index of the first user matching both, if any. */
  function FirstLogin(users: seq<User>, email: string, password: string): (r: Option<nat>)
    ensures r.Some? ==> r.value < |users| && Matches(users[r.value], email, password)
    ensures r.Some? ==> forall j :: 0 <= j < r.value ==> !Matches(users[j], email, password)
    ensures r.None? <==> forall j :: 0 <= j < |users| ==> !Matches(users[j], email, password)
  {
    Find(users, MatchesBoth(email, password))
  }

  function MatchesBoth(email: string, password: string): User -> bool {
    (u: User) => Matches(u, email, password)
  }

  /** Some stored user has exactly this email. */
  predicate EmailTaken(users: seq<User>, email: string) {
    exists i :: 0 <= i < |users| && users[i].email == email
  }

  /** No two stored users share an email. */
  predicate EmailsDistinct(users: seq<User>) {
    forall i, j :: 0 <= i < j < |users| ==> users[i].email != users[j].email
  }

  /** After a user with a fresh email is appended, logging in with that
      user's email and password finds exactly that user. */
  lemma SignupThenLogin(users: seq<User>, u: User)
    requires !EmailTaken(users, u.email)
    ensures FirstLogin(users + [u], u.email, u.password) == Some(|users|)
  {
    var all := users + [u];
    assert Matches(all[|users|], u.email, u.password);
    forall j | 0 <= j < |users| ensures !Matches(all[j], u.email, u.password) {
      assert all[j] == users[j];
    }
  }

  /** The module-level `mockUsers` array. */
  class UserStore {
    var users: seq<User>

    predicate Valid()
      reads this
    {
      EmailsDistinct(users)
    }

    constructor()
      ensures users == [] && Valid()
    {
      users := [];
    }

    /** `login`: the first user whose email and password both match, as a
        profile; else the invalid-credentials error. */
    method Login(email: string, password: string) returns (r: Result<Profile, string>)
      ensures FirstLogin(users, email, password).Some? ==>
        r == Success(ProfileOf(users[FirstLogin(users, email, password).value]))
      ensures FirstLogin(users, email, password).None? ==> r == Failure(InvalidCredentials)
    {
      var i := 0;
      while i < |users|
        invariant 0 <= i <= |users|
        invariant forall j :: 0 <= j < i ==> !Matches(users[j], email, password)
      {
        if users[i].email == email && users[i].password == password {
          return Success(ProfileOf(users[i]));
        }
        i := i + 1;
      }
      return Failure(InvalidCredentials);
    }

    /** `signup`: a taken email (compared exactly) is refused and nothing
        changes; otherwise the user is appended with the fresh id, its
        profile is returned, and logging in with its credentials now finds
        it. */
    method Signup(name: string, email: string, password: string, freshId: string) returns (r: Result<Profile, string>)
      requires Valid()
      modifies this
      ensures Valid()
      ensures EmailTaken(old(users), email) ==> r == Failure(EmailRegistered) && users == old(users)
      ensures !EmailTaken(old(users), email) ==>
        && users == old(users) + [User(freshId, name, email, password)]
        && r == Success(Profile(freshId, name, email))
        && FirstLogin(users, email, password) == Some(|users| - 1)
    {
      var i := 0;
      while i < |users|
        invariant 0 <= i <= |users|
        invariant forall j :: 0 <= j < i ==> users[j].email != email
      {
        if users[i].email == email {
          return Failure(EmailRegistered);
        }
        i := i + 1;
      }
      var u := User(freshId, name, email, password);
      SignupThenLogin(users, u);
      users := users + [u];
      r := Success(ProfileOf(u));
    }
  }
}
