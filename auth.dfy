/**
 * The administrator directory and the two forms of login.js: logging in,
 * with its demo fallback account, and registering a department account.
 */
module Auth {
  import opened Options
  import opened Seqs
  import opened JsText
  import opened Records

  /** What `getAdmins` returns while nothing is stored under `admins`. */
  const DEFAULT_ADMIN := Admin("admin", "admin123", "All", "admin@gov.in")

  /** The demo credentials accepted with any department. */
  const DEMO_USERNAME := "admin"
  const DEMO_PASSWORD := "admin123"

  const ENTER_USERNAME := "Please enter a username"
  const ENTER_PASSWORD := "Please enter a password"
  const SELECT_DEPARTMENT_FIRST := "Please select a department first"
  const INVALID_CREDENTIALS := "Invalid username, password, or department"

  const USERNAME_TOO_SHORT := "Username must be at least 4 characters long"
  const PASSWORD_TOO_SHORT := "Password must be at least 6 characters long"
  const CONFIRM_PASSWORD := "Please confirm your password"
  const PASSWORDS_DIFFER := "Passwords do not match"
  const ENTER_EMAIL := "Please enter an email address"
  const SELECT_DEPARTMENT := "Please select a department"
  const USERNAME_TAKEN := "Username already exists. Please choose a different username."

  /** The login lookup's test: all three fields equal, case-sensitively. */
  predicate Matches(a: Admin, username: string, password: string, department: string) {
    a.username == username && a.password == password && a.department == department
  }

  /** `admins.find(a => a.username === username && a.password === password && a.department === department)`, as an index. */
  function FindAdmin(admins: seq<Admin>, username: string, password: string, department: string): (r: Option<nat>)
    ensures r.Some? ==> r.value < |admins| && Matches(admins[r.value], username, password, department)
    ensures r.Some? ==> forall j :: 0 <= j < r.value ==> !Matches(admins[j], username, password, department)
    ensures r.None? <==> forall j :: 0 <= j < |admins| ==> !Matches(admins[j], username, password, department)
  {
    if admins == [] then None
    else if Matches(admins[0], username, password, department) then Some(0)
    else match FindAdmin(admins[1..], username, password, department)
      case None => None
      case Some(k) => Some(k + 1)
  }

  /** The session record written for a stored admin: the active department is the admin's own. */
  function SessionOf(a: Admin): SessionAdmin {
    SessionAdmin(a.username, a.password, a.department, a.department, a.email)
  }

  /** The department as the fallback address spells it: lower-cased, white space deleted. */
  lemma FallbackMiddle(department: string)
    ensures var middle := RemoveSpaces(Lower(department));
      && (forall i :: 0 <= i < |middle| ==> !IsSpace(middle[i]) && !('A' <= middle[i] <= 'Z'))
      && ((forall i :: 0 <= i < |department| ==> !IsSpace(department[i]) && !('A' <= department[i] <= 'Z'))
          ==> middle == department)
  {
    var lowered := Lower(department);
    var middle := RemoveSpaces(lowered);
    forall i | 0 <= i < |middle| ensures !('A' <= middle[i] <= 'Z') {
      var k :| 0 <= k < |lowered| && lowered[k] == middle[i];
    }
    if forall i :: 0 <= i < |department| ==> !IsSpace(department[i]) && !('A' <= department[i] <= 'Z') {
      assert lowered == department;
    }
  }

  /** `` `admin@${department.toLowerCase().replace(/\s+/g, '')}.gov` `` */
  function FallbackEmail(department: string): (email: string)
    ensures email == "admin@" + RemoveSpaces(Lower(department)) + ".gov"
    ensures |email| >= 10 && email[..6] == "admin@" && email[|email| - 4..] == ".gov"
    ensures forall i :: 6 <= i < |email| - 4 ==> !IsSpace(email[i]) && !('A' <= email[i] <= 'Z')
    ensures (forall i :: 0 <= i < |department| ==> !IsSpace(department[i]) && !('A' <= department[i] <= 'Z'))
            ==> email == "admin@" + department + ".gov"
  {
    var middle := RemoveSpaces(Lower(department));
    FallbackMiddle(department);
    AddressAround(middle);
    "admin@" + middle + ".gov"
  }

  /** Where the middle of an `admin@….gov` address sits. */
  lemma AddressAround(middle: string)
    ensures var email := "admin@" + middle + ".gov";
      && |email| == |middle| + 10 && email[..6] == "admin@" && email[|email| - 4..] == ".gov"
      && forall i :: 6 <= i < |email| - 4 ==> email[i] == middle[i - 6]
  {
  }

  lemma LowerPublicWorks()
    ensures Lower("Public Works") == "public works"
  {
    var lowered := Lower("Public Works");
    forall i | 0 <= i < 12 ensures lowered[i] == "public works"[i] {
      assert lowered[i] == LowerChar("Public Works"[i]);
    }
  }

  /** Two words with one space between them lose only that space. */
  lemma RemoveOneSpace(a: string, b: string)
    requires forall i :: 0 <= i < |a| ==> !IsSpace(a[i])
    requires forall i :: 0 <= i < |b| ==> !IsSpace(b[i])
    ensures RemoveSpaces(a + " " + b) == a + b
  {
    RemoveSpacesAppend(a + " ", b);
    RemoveSpacesAppend(a, " ");
  }

  lemma RemoveSpacesPublicWorks()
    ensures RemoveSpaces("public works") == "publicworks"
  {
    var a, b := "public", "works";
    assert a + " " + b == "public works";
    assert a + b == "publicworks";
    RemoveOneSpace(a, b);
  }

  lemma PublicWorksAddress()
    ensures "admin@" + "publicworks" + ".gov" == "admin@publicworks.gov"
  {
  }

  /** A department name with a capital and a space, as the login form offers them. */
  lemma PublicWorksEmail()
    ensures FallbackEmail("Public Works") == "admin@publicworks.gov"
  {
    LowerPublicWorks();
    RemoveSpacesPublicWorks();
    PublicWorksAddress();
  }

  /** The session synthesised for the demo account and the selected department. */
  function FallbackSession(department: string): SessionAdmin {
    SessionAdmin(DEMO_USERNAME, DEMO_PASSWORD, department, department, FallbackEmail(department))
  }

  datatype LoginResult = LoginRejected(message: string) | LoggedIn(session: SessionAdmin)

  /**
   * `handleLogin` without its DOM effects: trim the username and password,
   * check the three fields in order, look the admin up, fall back to the demo
   * account, otherwise reject.
   */
  function Authenticate(admins: seq<Admin>, rawUsername: string, rawPassword: string, department: string): LoginResult
  {
    var username := Trim(rawUsername);
    var password := Trim(rawPassword);
    if username == "" then LoginRejected(ENTER_USERNAME)
    else if password == "" then LoginRejected(ENTER_PASSWORD)
    else if department == "" then LoginRejected(SELECT_DEPARTMENT_FIRST)
    else match FindAdmin(admins, username, password, department)
      case Some(k) => LoggedIn(SessionOf(admins[k]))
      case None =>
        if username == DEMO_USERNAME && password == DEMO_PASSWORD then LoggedIn(FallbackSession(department))
        else LoginRejected(INVALID_CREDENTIALS)
  }

  /**
   * What logging in yields: a session exactly when the three fields are
   * filled in and either a stored admin matches or the demo credentials were
   * given; the session carries the trimmed credentials and the selected
   * department, and comes from the first matching admin when there is one,
   * from the demo fallback otherwise.
   */
  lemma LoginOutcome(admins: seq<Admin>, rawUsername: string, rawPassword: string, department: string)
    ensures var r := Authenticate(admins, rawUsername, rawPassword, department);
      var username, password := Trim(rawUsername), Trim(rawPassword);
      && (r.LoggedIn? <==>
            && username != "" && password != "" && department != ""
            && (FindAdmin(admins, username, password, department).Some?
                || (username == DEMO_USERNAME && password == DEMO_PASSWORD)))
      && (r.LoggedIn? ==>
            && r.session.username == username && r.session.password == password
            && r.session.department == department && r.session.activeDepartment == department)
      && (r.LoggedIn? ==>
            match FindAdmin(admins, username, password, department)
            case Some(k) => r.session == SessionOf(admins[k])
            case None => r.session.email == FallbackEmail(department))
  {
  }

  /**
   * The field checks come before the lookup: while one fails, the directory
   * plays no part and the first failing check names the message.
   */
  lemma LoginChecksBeforeLookup(admins: seq<Admin>, others: seq<Admin>, rawUsername: string, rawPassword: string, department: string)
    requires Trim(rawUsername) == "" || Trim(rawPassword) == "" || department == ""
    ensures Authenticate(admins, rawUsername, rawPassword, department) == Authenticate(others, rawUsername, rawPassword, department)
    ensures Authenticate(admins, rawUsername, rawPassword, department) ==
      LoginRejected(if Trim(rawUsername) == "" then ENTER_USERNAME
                    else if Trim(rawPassword) == "" then ENTER_PASSWORD
                    else SELECT_DEPARTMENT_FIRST)
  {
  }

  /** Credentials that fail are rejected with the one generic message, and only those. */
  lemma InvalidCredentialsMeansNoMatch(admins: seq<Admin>, rawUsername: string, rawPassword: string, department: string)
    ensures Authenticate(admins, rawUsername, rawPassword, department) == LoginRejected(INVALID_CREDENTIALS) <==>
      && Trim(rawUsername) != "" && Trim(rawPassword) != "" && department != ""
      && (forall j :: 0 <= j < |admins| ==> !Matches(admins[j], Trim(rawUsername), Trim(rawPassword), department))
      && !(Trim(rawUsername) == DEMO_USERNAME && Trim(rawPassword) == DEMO_PASSWORD)
  {
    var username, password := Trim(rawUsername), Trim(rawPassword);
    FieldMessagesDiffer();
    if username != "" && password != "" && department != "" {
      match FindAdmin(admins, username, password, department)
      case Some(k) =>
        assert Matches(admins[k], username, password, department);
      case None =>
    }
  }

  /** The generic rejection is none of the three field-check messages. */
  lemma FieldMessagesDiffer()
    ensures INVALID_CREDENTIALS != ENTER_USERNAME && INVALID_CREDENTIALS != ENTER_PASSWORD
    ensures INVALID_CREDENTIALS != SELECT_DEPARTMENT_FIRST
  {
    assert INVALID_CREDENTIALS[0] == 'I';
    assert ENTER_USERNAME[0] == 'P' && ENTER_PASSWORD[0] == 'P' && SELECT_DEPARTMENT_FIRST[0] == 'P';
  }

  /** `admins.find(a => a.username === username)` found something. */
  function UsernameTaken(admins: seq<Admin>, username: string): (taken: bool)
    ensures taken <==> exists j :: 0 <= j < |admins| && admins[j].username == username
  {
    admins != [] && (admins[0].username == username || UsernameTaken(admins[1..], username))
  }

  datatype RegisterResult = RegisterRejected(message: string) | Registered(admin: Admin)

  /**
   * `handleRegister` without its DOM effects: trim the four text fields, run
   * the checks in order, refuse a username already in the directory, and
   * otherwise produce the admin to append.
   */
  function Registration(admins: seq<Admin>, rawUsername: string, rawPassword: string, rawConfirm: string,
                        rawEmail: string, department: string): (r: RegisterResult)
    ensures r.Registered? <==>
      && Utf16Length(Trim(rawUsername)) >= 4
      && Utf16Length(Trim(rawPassword)) >= 6
      && Trim(rawConfirm) == Trim(rawPassword)
      && Trim(rawEmail) != "" && department != ""
      && forall j :: 0 <= j < |admins| ==> admins[j].username != Trim(rawUsername)
    ensures r.Registered? ==> r.admin == Admin(Trim(rawUsername), Trim(rawPassword), department, Trim(rawEmail))
  {
    var username := Trim(rawUsername);
    var password := Trim(rawPassword);
    var confirm := Trim(rawConfirm);
    var email := Trim(rawEmail);
    if username == "" then RegisterRejected(ENTER_USERNAME)
    else if Utf16Length(username) < 4 then RegisterRejected(USERNAME_TOO_SHORT)
    else if password == "" then RegisterRejected(ENTER_PASSWORD)
    else if Utf16Length(password) < 6 then RegisterRejected(PASSWORD_TOO_SHORT)
    else if confirm == "" then RegisterRejected(CONFIRM_PASSWORD)
    else if password != confirm then RegisterRejected(PASSWORDS_DIFFER)
    else if email == "" then RegisterRejected(ENTER_EMAIL)
    else if department == "" then RegisterRejected(SELECT_DEPARTMENT)
    else if UsernameTaken(admins, username) then RegisterRejected(USERNAME_TAKEN)
    else Registered(Admin(username, password, department, email))
  }

  /** The checks run in order: the first that fails names the message, whatever the later fields hold. */
  lemma RegistrationFirstFailure(admins: seq<Admin>, rawUsername: string, rawPassword: string, rawConfirm: string,
                                 rawEmail: string, department: string)
    ensures var r := Registration(admins, rawUsername, rawPassword, rawConfirm, rawEmail, department);
      var username, password := Trim(rawUsername), Trim(rawPassword);
      && (username == "" ==> r == RegisterRejected(ENTER_USERNAME))
      && (username != "" && Utf16Length(username) < 4 ==> r == RegisterRejected(USERNAME_TOO_SHORT))
      && (Utf16Length(username) >= 4 && password == "" ==> r == RegisterRejected(ENTER_PASSWORD))
      && (Utf16Length(username) >= 4 && password != "" && Utf16Length(password) < 6
          ==> r == RegisterRejected(PASSWORD_TOO_SHORT))
      && (Utf16Length(username) >= 4 && Utf16Length(password) >= 6 && Trim(rawConfirm) == ""
          ==> r == RegisterRejected(CONFIRM_PASSWORD))
      && (Utf16Length(username) >= 4 && Utf16Length(password) >= 6 && Trim(rawConfirm) != ""
          && Trim(rawConfirm) != password
          ==> r == RegisterRejected(PASSWORDS_DIFFER))
      && (Utf16Length(username) >= 4 && Utf16Length(password) >= 6 && Trim(rawConfirm) == password
          && Trim(rawEmail) == ""
          ==> r == RegisterRejected(ENTER_EMAIL))
      && (Utf16Length(username) >= 4 && Utf16Length(password) >= 6 && Trim(rawConfirm) == password
          && Trim(rawEmail) != "" && department == ""
          ==> r == RegisterRejected(SELECT_DEPARTMENT))
      && (Utf16Length(username) >= 4 && Utf16Length(password) >= 6 && Trim(rawConfirm) == password
          && Trim(rawEmail) != "" && department != "" && UsernameTaken(admins, username)
          ==> r == RegisterRejected(USERNAME_TAKEN))
  {
  }

  /** No two admins share a username. */
  predicate UniqueUsernames(admins: seq<Admin>) {
    forall i, j :: 0 <= i < j < |admins| ==> admins[i].username != admins[j].username
  }

  /** Registering keeps usernames unique. */
  lemma RegistrationKeepsUsernamesUnique(admins: seq<Admin>, rawUsername: string, rawPassword: string,
                                         rawConfirm: string, rawEmail: string, department: string)
    requires UniqueUsernames(admins)
    requires Registration(admins, rawUsername, rawPassword, rawConfirm, rawEmail, department).Registered?
    ensures UniqueUsernames(admins + [Registration(admins, rawUsername, rawPassword, rawConfirm, rawEmail, department).admin])
  {
    var a := Registration(admins, rawUsername, rawPassword, rawConfirm, rawEmail, department).admin;
    var all := admins + [a];
    assert forall j :: 0 <= j < |admins| ==> admins[j].username != a.username;
    forall i, j | 0 <= i < j < |all| ensures all[i].username != all[j].username {
      if j == |admins| {
        assert all[i] == admins[i];
      }
    }
  }

  /** The default admin's username is taken from the start, so no one can register it. */
  lemma DefaultUsernameReserved(rawUsername: string, rawPassword: string, rawConfirm: string,
                                rawEmail: string, department: string)
    requires Trim(rawUsername) == DEMO_USERNAME
    ensures Registration([DEFAULT_ADMIN], rawUsername, rawPassword, rawConfirm, rawEmail, department).RegisterRejected?
  {
    assert [DEFAULT_ADMIN][0].username == Trim(rawUsername);
  }

  /** A stored admin matching the trimmed credentials is logged in as itself, whatever the demo fallback would give. */
  lemma StoredMatchWins(admins: seq<Admin>, rawUsername: string, rawPassword: string, department: string, k: nat)
    requires Trim(rawUsername) != "" && Trim(rawPassword) != "" && department != ""
    requires FindAdmin(admins, Trim(rawUsername), Trim(rawPassword), department) == Some(k)
    ensures k < |admins| && Authenticate(admins, rawUsername, rawPassword, department) == LoggedIn(SessionOf(admins[k]))
  {
  }

  /** An admin appended under a new username is the first match for its own credentials. */
  lemma FindAppendedAdmin(admins: seq<Admin>, a: Admin)
    requires forall j :: 0 <= j < |admins| ==> admins[j].username != a.username
    ensures FindAdmin(admins + [a], a.username, a.password, a.department) == Some(|admins|)
  {
    var all := admins + [a];
    assert Matches(all[|admins|], a.username, a.password, a.department);
    assert forall j :: 0 <= j < |admins| ==> all[j] == admins[j];
  }

  /** Whoever has just registered can log in with the same form values and gets their own account. */
  lemma RegisterThenLogin(admins: seq<Admin>, rawUsername: string, rawPassword: string, rawConfirm: string,
                          rawEmail: string, department: string)
    requires Registration(admins, rawUsername, rawPassword, rawConfirm, rawEmail, department).Registered?
    ensures var a := Registration(admins, rawUsername, rawPassword, rawConfirm, rawEmail, department).admin;
            Authenticate(admins + [a], rawUsername, rawPassword, department) == LoggedIn(SessionOf(a))
  {
    var a := Registration(admins, rawUsername, rawPassword, rawConfirm, rawEmail, department).admin;
    assert a.username == Trim(rawUsername) && a.password == Trim(rawPassword) && a.department == department;
    assert a.username != "" && a.password != "" && department != "";
    FindAppendedAdmin(admins, a);
    StoredMatchWins(admins + [a], rawUsername, rawPassword, department, |admins|);
  }

  /**
   * On a fresh directory the demo credentials find the seeded admin before
   * the demo fallback is tried, so the session keeps the seeded e-mail.
   */
  lemma DefaultAdminFoundFirst(rawUsername: string, rawPassword: string)
    requires Trim(rawUsername) == DEMO_USERNAME && Trim(rawPassword) == DEMO_PASSWORD
    ensures Authenticate([DEFAULT_ADMIN], rawUsername, rawPassword, "All")
         == LoggedIn(SessionAdmin("admin", "admin123", "All", "All", "admin@gov.in"))
  {
    assert FindAdmin([DEFAULT_ADMIN], Trim(rawUsername), Trim(rawPassword), "All") == Some(0);
    StoredMatchWins([DEFAULT_ADMIN], rawUsername, rawPassword, "All", 0);
  }
}
