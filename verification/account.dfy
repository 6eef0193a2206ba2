/**
 * Sign-in and citizen self-registration (`AccountController`). The identity
 * framework's password check and user creation are oracles: `passwordOk(id, pw)`
 * says whether the stored hash accepts `pw` (lockout included), and
 * `creates(user, pw)` whether the framework's own validators accept the new
 * user and password.
 */
module Account {
  import opened Optional
  import opened Text
  import opened Sequences
  import opened Entities

  const InvalidCredentials: string := "Invalid email or password."
  const InactiveAccount: string := "Your account is inactive. Please contact admin."
  const EmailExists: string := "Email already exists."

  /** What a POST to an account action answers. */
  datatype Outcome =
    | FormErrors                                  // the form is shown again with its validation errors
    | Refused(message: string)                    // the form is shown again with one error message
    | Redirect(controller: string, action: string)

  /** E-mail addresses compared after case normalisation. */
  predicate SameEmail(u: User, email: string) {
    u.email.Some? && Lower(u.email.value) == Lower(email)
  }

  /** `FindByEmailAsync(email)`: the user whose normalised e-mail equals the normalised input. */
  function FindByEmail(users: seq<User>, email: string): (r: Option<nat>)
    ensures r.Some? ==> r.value < |users| && SameEmail(users[r.value], email)
    ensures r.Some? ==> forall j :: 0 <= j < r.value ==> !SameEmail(users[j], email)
    ensures r.None? ==> forall u :: u in users ==> !SameEmail(u, email)
  {
    FirstIndex(users, (u: User) => SameEmail(u, email))
  }

  /** `Login(vm)`: account lookup, activation, password, then the role-based landing page. */
  function Login(s: Store, formValid: bool, email: string, password: string,
                 passwordOk: (string, string) -> bool): (r: Outcome)
    ensures !formValid ==> r == FormErrors
    ensures formValid && FindByEmail(s.users, email).None? ==> r == Refused(InvalidCredentials)
    ensures formValid && FindByEmail(s.users, email).Some? ==>
      var u := s.users[FindByEmail(s.users, email).value];
      && (!u.isActive ==> r == Refused(InactiveAccount))
      && (u.isActive && !passwordOk(u.id, password) ==> r == Refused(InvalidCredentials))
      && (u.isActive && passwordOk(u.id, password) && IsInRole(s, u.id, "Admin") ==> r == Redirect("Admin", "Dashboard"))
      && (u.isActive && passwordOk(u.id, password) && !IsInRole(s, u.id, "Admin") ==> r == Redirect("Home", "Index"))
  {
    if !formValid then FormErrors
    else match FindByEmail(s.users, email)
      case None => Refused(InvalidCredentials)
      case Some(i) =>
        var u := s.users[i];
        if !u.isActive then Refused(InactiveAccount)
        else if !passwordOk(u.id, password) then Refused(InvalidCredentials)
        else if IsInRole(s, u.id, "Admin") then Redirect("Admin", "Dashboard")
        else if IsInRole(s, u.id, "MunicipalOfficer") then Redirect("Home", "Index")
        else Redirect("Home", "Index")
  }

  /** An inactive account is refused before the password is looked at: every password oracle gives the same answer. */
  lemma InactiveRefusedWhateverPassword(s: Store, email: string, p1: string, p2: string,
                                        ok1: (string, string) -> bool, ok2: (string, string) -> bool)
    requires FindByEmail(s.users, email).Some? && !s.users[FindByEmail(s.users, email).value].isActive
    ensures Login(s, true, email, p1, ok1) == Login(s, true, email, p2, ok2) == Refused(InactiveAccount)
  {
  }

  /** A wrong password and an unknown address are indistinguishable to the visitor. */
  lemma WrongPasswordLooksLikeUnknownEmail(s: Store, known: string, unknown: string, password: string,
                                           passwordOk: (string, string) -> bool)
    requires FindByEmail(s.users, known).Some?
    requires var u := s.users[FindByEmail(s.users, known).value]; u.isActive && !passwordOk(u.id, password)
    requires FindByEmail(s.users, unknown).None?
    ensures Login(s, true, known, password, passwordOk) == Login(s, true, unknown, password, passwordOk)
  {
  }

  /** Sign-in succeeds exactly for a valid form naming an active account whose password checks out. */
  lemma LoginSucceedsIff(s: Store, formValid: bool, email: string, password: string,
                         passwordOk: (string, string) -> bool)
    ensures Login(s, formValid, email, password, passwordOk).Redirect? <==>
      && formValid && FindByEmail(s.users, email).Some?
      && s.users[FindByEmail(s.users, email).value].isActive
      && passwordOk(s.users[FindByEmail(s.users, email).value].id, password)
  {
  }

  /** Only members of the Admin role land on the admin dashboard. */
  lemma AdminDashboardOnlyForAdmins(s: Store, formValid: bool, email: string, password: string,
                                    passwordOk: (string, string) -> bool)
    requires Login(s, formValid, email, password, passwordOk) == Redirect("Admin", "Dashboard")
    ensures FindByEmail(s.users, email).Some?
    ensures IsInRole(s, s.users[FindByEmail(s.users, email).value].id, "Admin")
  {
  }

  // Registration

  /** The fields of the registration form the action reads. */
  datatype Registration = Registration(fullName: string, email: string, password: string)

  /** What `Register(vm)` ends with. */
  datatype RegisterOutcome =
    | RegisterFormErrors
    | EmailTaken(message: string)
    | CreateFailed  // the identity framework's validators refuse the user or password
    | SaveFailed    // the full name is too long for its column, so inserting the row throws
    | RoleMissing   // the user exists, but adding the Citizen role throws because the role was never created
    | SignedIn      // created, added to Citizen, signed in and sent to Home/Index

  /** The user row a registration creates. */
  function NewCitizen(id: string, vm: Registration): User {
    User(id, Some(vm.email), Some(vm.email), Some(vm.fullName), Some("Citizen"), None, true, false)
  }

  /** `Register(vm)`: a new, active Citizen account for an unused e-mail. `newId` is the id the framework generates. */
  function Register(s: Store, formValid: bool, vm: Registration, newId: string,
                    creates: (User, string) -> bool): (r: (Store, RegisterOutcome))
    ensures !formValid ==> r == (s, RegisterFormErrors)
    ensures formValid && FindByEmail(s.users, vm.email).Some? ==> r == (s, EmailTaken(EmailExists))
    ensures formValid && FindByEmail(s.users, vm.email).None? ==>
      && !r.1.RegisterFormErrors? && !r.1.EmailTaken?
      && (r.1 == CreateFailed <==> UserIndex(s.users, newId).Some? || !creates(NewCitizen(newId, vm), vm.password))
      && (r.1 == SaveFailed <==>
            UserIndex(s.users, newId).None? && creates(NewCitizen(newId, vm), vm.password)
            && !FitsColumn(vm.fullName, 100))
    ensures r.1 == CreateFailed || r.1 == SaveFailed ==> r.0 == s
    ensures r.1 == RoleMissing || r.1 == SignedIn ==>
      && formValid && FindByEmail(s.users, vm.email).None?
      && r.0 == s.(users := r.0.users, userRoles := r.0.userRoles)
      && |r.0.users| == |s.users| + 1 && r.0.users[..|s.users|] == s.users
      && var u := r.0.users[|s.users|];
      && u.id == newId && (forall x :: x in s.users ==> x.id != newId)
      && u.userName == Some(vm.email) && u.email == Some(vm.email) && u.fullName == Some(vm.fullName)
      && u.role == Some("Citizen") && u.isActive && !u.emailConfirmed
    ensures r.1 == SignedIn ==> r.0.userRoles == s.userRoles + {(newId, "Citizen")} && "Citizen" in s.roles
    ensures r.1 == RoleMissing ==> "Citizen" !in s.roles
    ensures r.1 != SignedIn ==> r.0.userRoles == s.userRoles
  {
    if !formValid then (s, RegisterFormErrors)
    else if FindByEmail(s.users, vm.email).Some? then (s, EmailTaken(EmailExists))
    else
      var u := NewCitizen(newId, vm);
      if UserIndex(s.users, newId).Some? || !creates(u, vm.password) then (s, CreateFailed)
      else if !UserFits(u) then (s, SaveFailed)
      else
        var created := s.(users := s.users + [u]);
        if "Citizen" !in s.roles then (created, RoleMissing)
        else (created.(userRoles := s.userRoles + {(newId, "Citizen")}), SignedIn)
  }

  /** After a successful registration the same address and password sign in. */
  lemma RegisteredCitizenCanSignIn(s: Store, vm: Registration, newId: string, creates: (User, string) -> bool,
                                   passwordOk: (string, string) -> bool)
    requires Register(s, true, vm, newId, creates).1 == SignedIn
    requires passwordOk(newId, vm.password)
    ensures var t := Register(s, true, vm, newId, creates).0;
      && FindByEmail(t.users, vm.email) == Some(|s.users|)
      && Login(t, true, vm.email, vm.password, passwordOk).Redirect?
  {
    var t := Register(s, true, vm, newId, creates).0;
    var u := t.users[|s.users|];
    assert SameEmail(u, vm.email);
    assert t.users[..|s.users|] == s.users;
  }
}
