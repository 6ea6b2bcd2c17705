/**
 The user lifecycle gate: registration and approval
 (controllers/usersController.js) and the local login check
 (config/passport.js), over a user collection held as a sequence whose
 index is the user's id. Password hashing is not modelled: the stored
 credential is compared through a caller-supplied predicate.
 */
module Accounts {
  import opened Common
  import opened Text

  const MinPasswordLength := 6

  datatype Role = Admin | Manager | Member

  /** models/User.js; `credential` stands for the stored password hash. */
  datatype User = User(username: string, credential: string, company: string, isApproved: bool, role: Role)

  /** The registration form; a missing field is "". */
  datatype RegisterForm = RegisterForm(username: string, password: string, password2: string, companyId: string)

  /** Why a registration was refused, with the message the form shows. */
  datatype RegisterError = PasswordsDoNotMatch | PasswordTooShort | UsernameTaken | SaveRejected {
    function Message(): string {
      match this
      case PasswordsDoNotMatch => "Passwords do not match"
      case PasswordTooShort => "Password must be at least 6 characters"
      case UsernameTaken => "That username is already taken"
      case SaveRejected => "Something went wrong. Please try again."
    }
  }

  /** Why a login was refused, with the message passport flashes. */
  datatype LoginFailure = NotRegistered | PasswordIncorrect | PendingApproval {
    function Message(): string {
      match this
      case NotRegistered => "That username is not registered"
      case PasswordIncorrect => "Password incorrect"
      case PendingApproval => "Your account is still pending Admin approval."
    }
  }

  datatype LoginResult = LoggedIn(id: nat) | Denied(reason: LoginFailure)

  /** `User.findOne({ username })`: the first user with that name. */
  function FindUser(users: seq<User>, username: string): (r: Option<nat>)
    ensures r.Some? ==> r.value < |users| && users[r.value].username == username
                        && forall j :: 0 <= j < r.value ==> users[j].username != username
    ensures r.None? ==> forall j :: 0 <= j < |users| ==> users[j].username != username
    decreases |users|
  {
    if users == [] then None
    else if users[0].username == username then Some(0)
    else match FindUser(users[1..], username)
      case None => None
      case Some(i) => Some(i + 1)
  }

  /**
   `registerUser`: mismatched passwords first, then a short password,
   then a taken username; the first user ever becomes an approved admin,
   every later one an unapproved member. The schema requires a username
   and a company.
   */
  function Register(users: seq<User>, form: RegisterForm): (r: Result<seq<User>, RegisterError>)
    ensures form.password != form.password2 ==> r == Failure(PasswordsDoNotMatch)
    ensures form.password == form.password2 && Utf16Length(form.password) < MinPasswordLength ==> r == Failure(PasswordTooShort)
    ensures form.password == form.password2 && Utf16Length(form.password) >= MinPasswordLength && FindUser(users, form.username).Some?
            ==> r == Failure(UsernameTaken)
    ensures r.Success? <==>
              && form.password == form.password2
              && Utf16Length(form.password) >= MinPasswordLength
              && (forall j :: 0 <= j < |users| ==> users[j].username != form.username)
              && form.username != "" && form.companyId != ""
    ensures r == Failure(SaveRejected) <==>
              && form.password == form.password2
              && Utf16Length(form.password) >= MinPasswordLength
              && FindUser(users, form.username).None?
              && (form.username == "" || form.companyId == "")
    ensures r.Success? ==>
              && |r.value| == |users| + 1
              && r.value[..|users|] == users
              && r.value[|users|].username == form.username
              && r.value[|users|].company == form.companyId
              && r.value[|users|].credential == form.password
              && (r.value[|users|].isApproved <==> |users| == 0)
              && (r.value[|users|].role == Admin <==> |users| == 0)
              && (|users| > 0 ==> r.value[|users|].role == Member)
  {
    if form.password != form.password2 then Failure(PasswordsDoNotMatch)
    else if Utf16Length(form.password) < MinPasswordLength then Failure(PasswordTooShort)
    else if FindUser(users, form.username).Some? then Failure(UsernameTaken)
    else if form.username == "" || form.companyId == "" then Failure(SaveRejected)
    else
      var first := |users| == 0;
      Success(users + [User(form.username, form.password, form.companyId, first, if first then Admin else Member)])
  }

  /** `approveUser`: sets the approval flag of the user with that id, if there is one. */
  function Approve(users: seq<User>, id: nat): (r: seq<User>)
    ensures |r| == |users|
    ensures forall j :: 0 <= j < |users| && j != id ==> r[j] == users[j]
    ensures id < |users| ==> r[id] == users[id].(isApproved := true)
  {
    if id < |users| then users[id := users[id].(isApproved := true)] else users
  }

  /** Approving twice is approving once. */
  lemma ApproveIdempotent(users: seq<User>, id: nat)
    ensures Approve(Approve(users, id), id) == Approve(users, id)
  {
  }

  /**
   The LocalStrategy verify callback: existence, then the password, then
   approval. `matches(entered, stored)` stands for the bcrypt comparison.
   */
  function Login(users: seq<User>, username: string, password: string, matches: (string, string) -> bool)
    : (r: LoginResult)
    ensures r == Denied(NotRegistered) <==> FindUser(users, username).None?
    ensures r.LoggedIn? <==>
              && FindUser(users, username).Some?
              && matches(password, users[FindUser(users, username).value].credential)
              && users[FindUser(users, username).value].isApproved
    ensures r.LoggedIn? ==> r.id < |users| && users[r.id].username == username && users[r.id].isApproved
    ensures r.LoggedIn? ==> FindUser(users, username) == Some(r.id)
    ensures r == Denied(PasswordIncorrect) <==>
              FindUser(users, username).Some? && !matches(password, users[FindUser(users, username).value].credential)
    ensures r == Denied(PendingApproval) <==>
              && FindUser(users, username).Some?
              && matches(password, users[FindUser(users, username).value].credential)
              && !users[FindUser(users, username).value].isApproved
  {
    match FindUser(users, username)
    case None => Denied(NotRegistered)
    case Some(i) =>
      if !matches(password, users[i].credential) then Denied(PasswordIncorrect)
      else if !users[i].isApproved then Denied(PendingApproval)
      else LoggedIn(i)
  }

  /** One step of the user collection's history. */
  datatype Event = Registered(form: RegisterForm) | Approved(id: nat)

  function Apply(users: seq<User>, e: Event): seq<User> {
    match e
    case Registered(form) =>
      (match Register(users, form)
       case Success(users') => users'
       case Failure(_) => users)
    case Approved(id) => Approve(users, id)
  }

  /** The collection after a history of events, starting from no users. */
  function Replay(events: seq<Event>): seq<User>
    decreases |events|
  {
    if events == [] then [] else Apply(Replay(events[..|events| - 1]), events[|events| - 1])
  }

  /** Some approval event of the history named user `j` after `j` had been registered. */
  ghost predicate ApprovedAfterRegistration(events: seq<Event>, j: nat) {
    exists k :: 0 <= k < |events| && events[k] == Approved(j) && j < |Replay(events[..k])|
  }

  /**
   Along any history, the first user is the only admin, and every approved
   user other than the first was named by an approval event that came after
   its registration.
   */
  lemma {:induction false} ReplayInvariant(events: seq<Event>)
    ensures var users := Replay(events);
            && (|users| > 0 ==> users[0].role == Admin)
            && (forall j :: 0 < j < |users| ==> users[j].role == Member)
            && (forall j: nat :: 0 < j < |users| && users[j].isApproved ==> ApprovedAfterRegistration(events, j))
    decreases |events|
  {
    if events != [] {
      var prefix := events[..|events| - 1];
      var e := events[|events| - 1];
      ReplayInvariant(prefix);
      var before := Replay(prefix);
      var after := Replay(events);
      assert after == Apply(before, e);
      forall j: nat | 0 < j < |after| && after[j].isApproved
        ensures ApprovedAfterRegistration(events, j)
      {
        if e == Approved(j) && j < |before| {
          assert events[..|events| - 1] == prefix;
          assert events[|events| - 1] == Approved(j);
        } else {
          assert j < |before| && before[j].isApproved;
          var k :| 0 <= k < |prefix| && prefix[k] == Approved(j) && j < |Replay(prefix[..k])|;
          assert prefix[..k] == events[..k];
          assert events[k] == Approved(j);
        }
      }
    }
  }

  /** Only the first registered user can log in without an approval step that followed their registration. */
  lemma {:induction false} OnlyFirstUserSkipsApproval(events: seq<Event>, username: string, password: string, matches: (string, string) -> bool)
    requires Login(Replay(events), username, password, matches).LoggedIn?
    ensures var id := Login(Replay(events), username, password, matches).id;
            id == 0 || ApprovedAfterRegistration(events, id)
  {
    ReplayInvariant(events);
  }

  /** The first registration on an empty collection yields a user who can log in at once. */
  lemma FirstUserLogsIn(form: RegisterForm, matches: (string, string) -> bool)
    requires Register([], form).Success?
    requires matches(form.password, form.password)
    ensures Login(Register([], form).value, form.username, form.password, matches) == LoggedIn(0)
  {
  }

  /** A later registration yields a user whose correct password is met with the pending-approval refusal. */
  lemma LaterUserPending(users: seq<User>, form: RegisterForm, matches: (string, string) -> bool)
    requires |users| > 0 && Register(users, form).Success?
    requires matches(form.password, form.password)
    ensures Login(Register(users, form).value, form.username, form.password, matches) == Denied(PendingApproval)
  {
    var after := Register(users, form).value;
    assert after[|users|].username == form.username;
    assert FindUser(after, form.username) == Some(|users|);
  }
}
