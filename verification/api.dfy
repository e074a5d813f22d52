/** The decisions inside the API client: the credential check of login
    against the fetched user list, the duplicate check and create check of
    sign-up, the message chosen for a failed request, and the membership
    numbers taken from the stored declarations. */
module Api {
  import opened Wrappers
  import opened Text
  import opened Seqs
  import opened Records
  import MockAuth

  /** A user record as the server lists it; a missing field is `""`. */
  datatype ServerUser = ServerUser(id: string, name: string, email: string, password: string)

  /** The error object the client throws; `errors` is optional. */
  datatype ApiError = ApiError(message: string, errors: Option<map<string, seq<string>>>)

  const InvalidCredentials := "Invalid email or password"
  const IncompleteUser := "User data is incomplete. Please contact support."
  const EmailExists := "Email already exists. Please use a different email or sign in."
  const EmailAlreadyRegistered := "Email is already registered"
  const CreateFailed := "Failed to create user account. Please try again."
  const AccountCreated := "Account created successfully! You can now sign in."
  const Unexpected := "An unexpected error occurred"

  /** The email equals `email` ignoring case. */
  predicate SameEmail(u: ServerUser, email: string) {
    ToLower(u.email) == ToLower(email)
  }

  function SameEmailAs(email: string): ServerUser -> bool {
    (u: ServerUser) => SameEmail(u, email)
  }

  /** The matched user has an id, an email and a name. */
  predicate Complete(u: ServerUser) {
    u.id != "" && u.email != "" && u.name != ""
  }

  /** `users[i]` is the first user whose email equals `email` ignoring case. */
  predicate FirstWithEmail(users: seq<ServerUser>, email: string, i: int) {
    0 <= i < |users| && SameEmail(users[i], email) && forall j :: 0 <= j < i ==> !SameEmail(users[j], email)
  }

  /** `authApi.login` after the user list arrived (`None` when the response
      had no list): the first user with that email ignoring case is taken;
      none is an invalid-credentials error, an incomplete record the
      incomplete-data error, and a missing or different password the
      invalid-credentials error again. */
  function Login(users: Option<seq<ServerUser>>, email: string, password: string): (r: Result<MockAuth.Profile, ApiError>)
    ensures r.Success? <==>
      users.Some? &&
      exists i :: (FirstWithEmail(users.value, email, i) && Complete(users.value[i]) &&
                   users.value[i].password != "" && users.value[i].password == password)
    ensures forall i :: users.Some? && FirstWithEmail(users.value, email, i) && r.Success? ==>
      r.value == MockAuth.Profile(users.value[i].id, users.value[i].name, users.value[i].email)
    ensures r.Failure? ==> r.error.errors == Some(map[])
    ensures r.Failure? ==>
      (r.error.message == IncompleteUser <==>
        users.Some? && exists i :: FirstWithEmail(users.value, email, i) && !Complete(users.value[i]))
    ensures r.Failure? && r.error.message != IncompleteUser ==> r.error.message == InvalidCredentials
  {
    var found := if users.Some? then Find(users.value, SameEmailAs(email)) else None;
    if found.None? then
      Failure(ApiError(InvalidCredentials, Some(map[])))
    else
      var u := users.value[found.value];
      assert FirstWithEmail(users.value, email, found.value);
      if !Complete(u) then Failure(ApiError(IncompleteUser, Some(map[])))
      else if u.password == "" || u.password != password then Failure(ApiError(InvalidCredentials, Some(map[])))
      else Success(MockAuth.Profile(u.id, u.name, u.email))
  }

  /** Emails that differ in more than case. */
  predicate EmailsDistinctIgnoringCase(users: seq<ServerUser>) {
    forall i, j :: 0 <= i < j < |users| ==> ToLower(users[i].email) != ToLower(users[j].email)
  }

  /** With emails that are unique ignoring case, login succeeds exactly for
      a complete user with that email and a non-empty, equal password. */
  lemma LoginWithUniqueEmails(users: seq<ServerUser>, email: string, password: string)
    requires EmailsDistinctIgnoringCase(users)
    ensures Login(Some(users), email, password).Success? <==>
      exists i :: 0 <= i < |users| && SameEmail(users[i], email) && Complete(users[i]) &&
        users[i].password != "" && users[i].password == password
  {
    if exists i :: 0 <= i < |users| && SameEmail(users[i], email) && Complete(users[i]) &&
        users[i].password != "" && users[i].password == password {
      var i :| 0 <= i < |users| && SameEmail(users[i], email) && Complete(users[i]) &&
        users[i].password != "" && users[i].password == password;
      assert FirstWithEmail(users, email, i);
    }
  }

  /** A user listed twice under one email ignoring case can only log in
      with the first record's password. */
  lemma LoginUsesFirstRecord(users: seq<ServerUser>, email: string, password: string, i: int)
    requires FirstWithEmail(users, email, i) && users[i].password != password
    ensures Login(Some(users), email, password).Failure?
  {
  }

  /** `authApi.signup` after the user list arrived and, when no email
      clashed, after the create call answered with `createdId` (`None` or
      `""` when the response has no id). */
  function Signup(existing: Option<seq<ServerUser>>, email: string, createdId: Option<string>): (r: Result<string, ApiError>)
    ensures r.Success? <==>
      !(existing.Some? && exists i :: 0 <= i < |existing.value| && SameEmail(existing.value[i], email)) &&
      createdId.Some? && createdId.value != ""
    ensures r.Success? ==> r.value == AccountCreated
    ensures (existing.Some? && exists i :: 0 <= i < |existing.value| && SameEmail(existing.value[i], email)) ==>
      r == Failure(ApiError(EmailExists, Some(map["email" := [EmailAlreadyRegistered]])))
    ensures r.Failure? && r.error.message != EmailExists ==> r == Failure(ApiError(CreateFailed, Some(map[])))
  {
    var clash := if existing.Some? then Find(existing.value, SameEmailAs(email)) else None;
    if clash.Some? then
      Failure(ApiError(EmailExists, Some(map["email" := [EmailAlreadyRegistered]])))
    else if createdId.None? || createdId.value == "" then
      Failure(ApiError(CreateFailed, Some(map[])))
    else
      Success(AccountCreated)
  }

  /** How a request failed: no response at all, an error response, an
      `ApiError` thrown by the checks above, or anything else. */
  datatype Fault =
    | NoResponse
    | Rejected(status: nat, dataMessage: string, dataError: string, dataErrors: Option<map<string, seq<string>>>)
    | Raised(e: ApiError)
    | Other

  /** The number a string of decimal digits denotes, most significant
      digit first. */
  function DigitsValue(s: string): int {
    if |s| == 0 then 0 else DigitsValue(s[..|s| - 1]) * 10 + (s[|s| - 1] as int - '0' as int)
  }

  /** The decimal digits of a status code, as template interpolation writes
      them: they denote the code, and only zero starts with `0`. */
  function Decimal(n: nat): (r: string)
    ensures |r| > 0
    ensures forall k :: 0 <= k < |r| ==> '0' <= r[k] <= '9'
    ensures DigitsValue(r) == n
    ensures r[0] == '0' <==> n == 0
  {
    if n < 10 then [(n + 48) as char]
    else
      var front, d := Decimal(n / 10), (n % 10 + 48) as char;
      assert (front + [d])[..|front|] == front;
      front + [d]
  }

  const ConnectHead := "Cannot connect to server. Please check if the API is running at "
  const ConnectTail := ". If you're in development, make sure your backend server is started."

  /** The text for an unreachable server, naming the base URL. */
  function CannotConnect(baseUrl: string): string {
    ConnectHead + baseUrl + ConnectTail
  }

  /** The last resort for an error response, e.g. `Login failed (500). Please
      try again.` */
  function StatusDefault(action: string, status: nat): string {
    action + FailedOpen + Decimal(status) + FailedClose
  }

  const FailedOpen := " failed ("
  const FailedClose := "). Please try again."

  /** The error the client throws for a fault: the connection message with
      no response; for an error response the first non-empty of the body's
      `message`, the body's `error` and the status default, with the body's
      field errors; a thrown `ApiError` as it is; else the generic text. */
  function Report(f: Fault, action: string, baseUrl: string): (e: ApiError)
    ensures f.NoResponse? ==> e == ApiError(CannotConnect(baseUrl), Some(map[]))
    ensures f.Rejected? ==> e.errors == f.dataErrors
    ensures f.Rejected? && f.dataMessage != "" ==> e.message == f.dataMessage
    ensures f.Rejected? && f.dataMessage == "" && f.dataError != "" ==> e.message == f.dataError
    ensures f.Rejected? && f.dataMessage == "" && f.dataError == "" ==> e.message == StatusDefault(action, f.status)
    ensures f.Raised? ==> e == f.e
    ensures f.Other? ==> e == ApiError(Unexpected, None)
  {
    match f
    case NoResponse => ApiError(CannotConnect(baseUrl), Some(map[]))
    case Rejected(status, m, err, errs) =>
      ApiError(if m != "" then m else if err != "" then err else StatusDefault(action, status), errs)
    case Raised(e) => e
    case Other => ApiError(Unexpected, None)
  }

  /** Whatever the fault, an error the client produced itself carries a
      message: only a thrown error with an empty message yields an empty
      one. */
  lemma ReportHasMessage(f: Fault, action: string, baseUrl: string)
    requires !(f.Raised? && f.e.message == "")
    ensures |Report(f, action, baseUrl).message| > 0
  {
    if f.Rejected? && f.dataMessage == "" && f.dataError == "" {
      assert |StatusDefault(action, f.status)| >= |FailedOpen|;
    }
  }

  /** `getMembershipNumbers`: the forms' membership numbers in order, or
      none when the forms could not be fetched. */
  function MembershipNumbers(forms: Option<seq<Declaration>>): (r: seq<string>)
    ensures forms.None? ==> r == []
    ensures forms.Some? ==> |r| == |forms.value|
    ensures forms.Some? ==> forall i :: 0 <= i < |r| ==> r[i] == forms.value[i].membershipNumber
  {
    if forms.None? then []
    else seq(|forms.value|, i requires 0 <= i < |forms.value| => forms.value[i].membershipNumber)
  }
}
