/**
 * The credential store and session manager: the "users" collection of accounts,
 * the persisted "currentUser" session and its in-memory mirror, and the
 * register / login / logout operations over them.
 */
module Auth {
  import opened Wrappers
  import opened Routing

  /** An account record of the "users" collection. The id is optional: records put
      into storage by other means may lack one. */
  datatype User = User(id: Option<string>, fullName: string, email: string, password: string)

  /** A current-user value. Login stores an account without its password; a record
      read back from storage at start-up may still carry one. */
  datatype Profile = Profile(id: Option<string>, fullName: string, email: string, password: Option<string>)

  /** What the "users" storage key holds: nothing, a readable collection, or a blob
      whose parsing (or whose records' inspection) throws. */
  datatype UsersBlob = Absent | Stored(users: seq<User>) | Corrupt

  /** The value of the registration form as handed to `register`. */
  datatype RegisterData = RegisterData(fullName: string, email: string, password: string, confirmPassword: string)

  const EmailExists: string := "Email already exists"
  const PasswordMismatch: string := "Passwords do not match"
  const RegistrationFailed: string := "Registration failed. Please try again."
  const InvalidCredentials: string := "Invalid email or password"
  const LoginFailed: string := "Login failed. Please try again."

  /** Reading the "users" key: a missing key reads as the empty collection,
      a corrupt one is the exception the catch-all branches handle. */
  function ParseUsers(blob: UsersBlob): Option<seq<User>>
  {
    match blob
    case Absent => Some([])
    case Stored(users) => Some(users)
    case Corrupt => None
  }

  predicate Matches(u: User, email: string, password: string)
  {
    u.email == email && u.password == password
  }

  /** No two accounts share an email address. */
  ghost predicate UniqueEmails(users: seq<User>)
  {
    forall i, j :: 0 <= i < j < |users| ==> users[i].email != users[j].email
  }

  /** Index i holds the first account whose email and password both match. */
  ghost predicate FirstMatchAt(users: seq<User>, email: string, password: string, i: int)
  {
    && 0 <= i < |users|
    && Matches(users[i], email, password)
    && forall j :: 0 <= j < i ==> !Matches(users[j], email, password)
  }

  /** The `some` lookup of register: is the address already in use (exact equality)? */
  function EmailTaken(users: seq<User>, email: string): (taken: bool)
    ensures taken <==> exists i :: 0 <= i < |users| && users[i].email == email
  {
    if users == [] then false
    else if users[0].email == email then true
    else
      var taken := EmailTaken(users[1..], email);
      assert taken ==> exists i :: 0 <= i < |users[1..]| && users[1..][i].email == email;
      assert forall i :: 0 < i < |users| ==> users[i] == users[1..][i - 1];
      taken
  }

  /** The `find` lookup of login: the first account matching both email and password. */
  function Find(users: seq<User>, email: string, password: string): (found: Option<User>)
    ensures found.None? <==> forall i :: 0 <= i < |users| ==> !Matches(users[i], email, password)
    ensures found.Some? ==> exists i :: FirstMatchAt(users, email, password, i) && users[i] == found.value
  {
    if users == [] then None
    else if Matches(users[0], email, password) then
      assert FirstMatchAt(users, email, password, 0);
      Some(users[0])
    else
      var found := Find(users[1..], email, password);
      assert forall i :: 0 < i < |users| ==> users[i] == users[1..][i - 1];
      assert found.Some? ==> exists i :: FirstMatchAt(users[1..], email, password, i) && users[1..][i] == found.value;
      assert forall i :: FirstMatchAt(users[1..], email, password, i) ==> FirstMatchAt(users, email, password, i + 1);
      found
  }

  /** The account with its password removed, as login stores it. */
  function Strip(u: User): Profile
  {
    Profile(u.id, u.fullName, u.email, None)
  }

  /** The record register appends; `id` stands for the randomly generated token. */
  function NewUser(data: RegisterData, id: string): User
  {
    User(Some(id), data.fullName, data.email, data.password)
  }

  /**
   * What register does to the users collection: the collection it writes back,
   * or the message of the error it reports. Uniqueness is checked before the
   * password match, so a taken address wins when both checks fail.
   */
  function RegisterStep(blob: UsersBlob, data: RegisterData, id: string): (r: Result<seq<User>, string>)
    ensures blob.Corrupt? ==> r == Failure(RegistrationFailed)
    ensures ParseUsers(blob).Some? ==>
      var users := ParseUsers(blob).value;
      && ((exists i :: 0 <= i < |users| && users[i].email == data.email) ==> r == Failure(EmailExists))
      && ((forall i :: 0 <= i < |users| ==> users[i].email != data.email) && data.password != data.confirmPassword
          ==> r == Failure(PasswordMismatch))
      && (r.Success? <==> (forall i :: 0 <= i < |users| ==> users[i].email != data.email) && data.password == data.confirmPassword)
      && (r.Success? ==> r.value == users + [User(Some(id), data.fullName, data.email, data.password)])
      && (r.Success? && UniqueEmails(users) ==> UniqueEmails(r.value))
    ensures r.Failure? ==> r.error in {EmailExists, PasswordMismatch, RegistrationFailed}
  {
    match ParseUsers(blob)
    case None => Failure(RegistrationFailed)
    case Some(users) =>
      if EmailTaken(users, data.email) then Failure(EmailExists)
      else if data.password != data.confirmPassword then Failure(PasswordMismatch)
      else Success(users + [NewUser(data, id)])
  }

  /**
   * What login does: the session it stores, or the message of the error it reports.
   * Success exactly when some account matches both fields; the session is the first
   * such account without its password.
   */
  function LoginStep(blob: UsersBlob, email: string, password: string): (r: Result<Profile, string>)
    ensures blob.Corrupt? ==> r == Failure(LoginFailed)
    ensures ParseUsers(blob).Some? ==>
      var users := ParseUsers(blob).value;
      && (r.Success? <==> exists i :: 0 <= i < |users| && Matches(users[i], email, password))
      && (r.Success? ==> exists i :: FirstMatchAt(users, email, password, i) && r.value == Strip(users[i]))
      && (r.Failure? ==> r.error == InvalidCredentials)
    ensures r.Success? ==> r.value.password.None? && r.value.email == email
  {
    match ParseUsers(blob)
    case None => Failure(LoginFailed)
    case Some(users) =>
      match Find(users, email, password)
      case Some(user) => Success(Strip(user))
      case None => Failure(InvalidCredentials)
  }

  /** At most one index is the first match, so "the first matching account" is well defined. */
  lemma FirstMatchUnique(users: seq<User>, email: string, password: string, i: int, j: int)
    requires FirstMatchAt(users, email, password, i) && FirstMatchAt(users, email, password, j)
    ensures i == j
  {
  }

  /** Once an address has been registered, registering it again fails with the
      duplicate-address error, whatever the other fields. */
  lemma {:induction false} RegisterTwiceFails(blob: UsersBlob, data: RegisterData, id: string, again: RegisterData, id': string)
    requires RegisterStep(blob, data, id).Success?
    requires again.email == data.email
    ensures RegisterStep(Stored(RegisterStep(blob, data, id).value), again, id') == Failure(EmailExists)
  {
    var users := RegisterStep(blob, data, id).value;
    assert users[|users| - 1].email == again.email;
  }

  /** An account just registered can log in with the credentials it was registered with,
      and the session is exactly that account without its password. */
  lemma {:induction false} RegisterThenLogin(blob: UsersBlob, data: RegisterData, id: string)
    requires RegisterStep(blob, data, id).Success?
    ensures LoginStep(Stored(RegisterStep(blob, data, id).value), data.email, data.password)
         == Success(Strip(NewUser(data, id)))
  {
    var before := ParseUsers(blob).value;
    var users := RegisterStep(blob, data, id).value;
    var n := |before|;
    assert users[n] == NewUser(data, id);
    assert forall j :: 0 <= j < n ==> users[j] == before[j];
    assert FirstMatchAt(users, data.email, data.password, n);
    var r := LoginStep(Stored(users), data.email, data.password);
    var k :| FirstMatchAt(users, data.email, data.password, k) && r.value == Strip(users[k]);
    FirstMatchUnique(users, data.email, data.password, k, n);
  }

  class AuthService {
    const router: Router
    /** The "users" storage key. */
    var usersBlob: UsersBlob
    /** The "currentUser" storage key. */
    var storedSession: Option<Profile>
    /** The latest value of the current-user subject. */
    var currentUser: Option<Profile>

    /** The in-memory current user mirrors the persisted one. */
    ghost predicate Valid()
      reads this
    {
      currentUser == storedSession
    }

    /** Start-up: the current user is hydrated from exactly the stored record. */
    constructor (router: Router, usersBlob: UsersBlob, storedSession: Option<Profile>)
      ensures Valid()
      ensures this.router == router && this.usersBlob == usersBlob
      ensures this.storedSession == storedSession && currentUser == storedSession
    {
      this.router := router;
      this.usersBlob := usersBlob;
      this.storedSession := storedSession;
      currentUser := storedSession;
    }

    /** The `currentUserValue` getter. */
    function CurrentUserValue(): (u: Option<Profile>)
      reads this
      ensures Valid() ==> u == storedSession
    {
      currentUser
    }

    /** A session is present. */
    function IsAuthenticated(): (b: bool)
      reads this
      ensures b <==> CurrentUserValue().Some?
      ensures Valid() ==> (b <==> storedSession.Some?)
    {
      CurrentUserValue().Some?
    }

    method Register(data: RegisterData, id: string) returns (r: Result<(), string>)
      modifies this, router
      ensures storedSession == old(storedSession) && currentUser == old(currentUser)
      ensures old(Valid()) ==> Valid()
      ensures match RegisterStep(old(usersBlob), data, id)
        case Success(users) =>
          r == Success(()) && usersBlob == Stored(users) && router.log == old(router.log) + [LoginRoute]
        case Failure(message) =>
          r == Failure(message) && usersBlob == old(usersBlob) && router.log == old(router.log)
    {
      var parsed := ParseUsers(usersBlob);
      if parsed.None? {
        return Failure(RegistrationFailed);
      }
      var users := parsed.value;
      if EmailTaken(users, data.email) {
        return Failure(EmailExists);
      }
      if data.password != data.confirmPassword {
        return Failure(PasswordMismatch);
      }
      var newUser := NewUser(data, id);
      users := users + [newUser];
      usersBlob := Stored(users);
      router.Navigate(LoginRoute);
      return Success(());
    }

    method Login(email: string, password: string) returns (r: Result<(), string>)
      modifies this, router
      ensures usersBlob == old(usersBlob)
      ensures match LoginStep(old(usersBlob), email, password)
        case Success(session) =>
          && r == Success(())
          && storedSession == Some(session) && currentUser == Some(session)
          && router.log == old(router.log) + [DashboardRoute]
        case Failure(message) =>
          && r == Failure(message)
          && storedSession == old(storedSession) && currentUser == old(currentUser)
          && router.log == old(router.log)
      ensures r.Success? ==> Valid() && IsAuthenticated()
      ensures old(Valid()) ==> Valid()
    {
      var parsed := ParseUsers(usersBlob);
      if parsed.None? {
        return Failure(LoginFailed);
      }
      var user := Find(parsed.value, email, password);
      if user.Some? {
        var userWithoutPassword := Strip(user.value);
        storedSession := Some(userWithoutPassword);
        currentUser := Some(userWithoutPassword);
        router.Navigate(DashboardRoute);
        return Success(());
      }
      return Failure(InvalidCredentials);
    }

    /** Clears the session whatever the prior state; it has no error path. */
    method Logout()
      modifies this, router
      ensures usersBlob == old(usersBlob)
      ensures storedSession == None && currentUser == None
      ensures Valid() && !IsAuthenticated()
      ensures router.log == old(router.log) + [LoginRoute]
    {
      storedSession := None;
      currentUser := None;
      router.Navigate(LoginRoute);
    }
  }
}
