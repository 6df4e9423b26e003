/** The sign-in page: the password-strength meter shown while signing up,
    and what a submission does (the fixture roster is the only directory;
    passwords are never checked). */
module AuthPage {
  import opened Common
  import opened Text
  import opened HrTypes

  predicate HasUpper(p: string) { exists i :: 0 <= i < |p| && IsUpper(p[i]) }

  predicate HasDigit(p: string) { exists i :: 0 <= i < |p| && IsDigit(p[i]) }

  predicate IsAsciiAlnum(c: char) { 'a' <= c <= 'z' || IsUpper(c) || IsDigit(c) }

  /** `/[^A-Za-z0-9]/`: some character that is not an ASCII letter or
      digit. */
  predicate HasSymbol(p: string) { exists i :: 0 <= i < |p| && !IsAsciiAlnum(p[i]) }

  /** How many of the four rules a password meets: longer than 7, an
      upper-case letter, a digit, a symbol. */
  function RulesMet(p: string): (n: nat)
    ensures n <= 4
    ensures n == 0 <==> |p| <= 7 && !HasUpper(p) && !HasDigit(p) && !HasSymbol(p)
    ensures n == 4 <==> |p| > 7 && HasUpper(p) && HasDigit(p) && HasSymbol(p)
  {
    (if |p| > 7 then 1 else 0) + (if HasUpper(p) then 1 else 0) +
    (if HasDigit(p) then 1 else 0) + (if HasSymbol(p) then 1 else 0)
  }

  /** `getPasswordStrength`: 0 for an empty password, else 25 points per
      rule met. */
  method PasswordStrength(password: string) returns (strength: nat)
    ensures strength == 25 * RulesMet(password)
    ensures strength <= 100 && strength % 25 == 0
    ensures strength == 100 <==> |password| > 7 && HasUpper(password) && HasDigit(password) && HasSymbol(password)
  {
    if password == "" {
      return 0;
    }
    strength := 0;
    if |password| > 7 {
      strength := strength + 25;
    }
    if HasUpper(password) {
      strength := strength + 25;
    }
    if HasDigit(password) {
      strength := strength + 25;
    }
    if HasSymbol(password) {
      strength := strength + 25;
    }
  }

  /** The empty password scores like any password that meets no rule. */
  lemma EmptyMeetsNoRule()
    ensures RulesMet("") == 0
  {
  }

  /** One character of a kind adds its rule: a password made only of
      lower-case letters scores 0 until it is longer than 7. */
  lemma LowerCaseOnly(p: string)
    requires forall i :: 0 <= i < |p| ==> 'a' <= p[i] <= 'z'
    ensures RulesMet(p) == if |p| > 7 then 1 else 0
  {
  }

  datatype Colour = Rose | Amber | Blue | Emerald

  /** The bar's colour: up to 25 rose, up to 50 amber, up to 75 blue,
      beyond that emerald. */
  function StrengthColour(strength: nat): (c: Colour)
    ensures c == Rose <==> strength <= 25
    ensures c == Amber <==> 25 < strength <= 50
    ensures c == Blue <==> 50 < strength <= 75
    ensures c == Emerald <==> 75 < strength
  {
    if strength <= 25 then Rose
    else if strength <= 50 then Amber
    else if strength <= 75 then Blue
    else Emerald
  }

  function ColourClass(c: Colour): string
  {
    match c
    case Rose => "bg-rose-500"
    case Amber => "bg-amber-500"
    case Blue => "bg-blue-500"
    case Emerald => "bg-emerald-500"
  }

  /** The "Security:" label: below 50 Weak, below 100 Moderate, else
      Strong. */
  function StrengthLabel(strength: nat): (s: string)
    ensures s == "Weak" <==> strength < 50
    ensures s == "Moderate" <==> 50 <= strength < 100
    ensures s == "Strong" <==> 100 <= strength
  {
    if strength < 50 then "Weak" else if strength < 100 then "Moderate" else "Strong"
  }

  /** On the scores the meter produces, Strong and emerald both mean all
      four rules, Weak means at most one, and a blue bar is labelled
      Moderate. */
  lemma LabelAndColourOnScores(p: string)
    ensures StrengthLabel(25 * RulesMet(p)) == "Strong" <==> RulesMet(p) == 4
    ensures StrengthColour(25 * RulesMet(p)) == Emerald <==> RulesMet(p) == 4
    ensures StrengthLabel(25 * RulesMet(p)) == "Weak" <==> RulesMet(p) <= 1
    ensures StrengthColour(25 * RulesMet(p)) == Blue ==> StrengthLabel(25 * RulesMet(p)) == "Moderate"
  {
  }

  datatype Mode = SignIn | SignUp

  /** The signed-in user handed to the application. */
  datatype AuthUser = AuthUser(id: string, email: string, role: UserRole, profile: EmployeeProfile)

  datatype AuthNotice = Mismatch | BadCredentials | ApplicationReceived

  function AuthNoticeText(n: AuthNotice): string
  {
    match n
    case Mismatch => "Passwords do not match."
    case BadCredentials => "The corporate credentials provided are incorrect."
    case ApplicationReceived => "Your application has been received. Admin approval is required for new corporate domains."
  }

  datatype Submission = LoggedIn(user: AuthUser) | Refused(notice: AuthNotice)

  /** Where the roster lookup stops: the first position whose lower-cased
      email is `key`. */
  function KeyIndex(roster: seq<EmployeeProfile>, key: string): (r: Option<nat>)
    ensures r.Some? ==> r.value < |roster| && Lower(roster[r.value].email) == key &&
                        forall j :: 0 <= j < r.value ==> Lower(roster[j].email) != key
    ensures r.None? <==> forall j :: 0 <= j < |roster| ==> Lower(roster[j].email) != key
  {
    if roster == [] then None
    else if Lower(roster[0].email) == key then Some(0)
    else match KeyIndex(roster[1..], key)
      case None => None
      case Some(i) => Some(i + 1)
  }

  /** The roster lookup (`find`): the first profile whose lower-cased email
      is `key`. */
  function FindByKey(roster: seq<EmployeeProfile>, key: string): (r: Option<EmployeeProfile>)
    ensures r.Some? ==> exists i :: 0 <= i < |roster| && roster[i] == r.value && Lower(roster[i].email) == key &&
                                    forall j :: 0 <= j < i ==> Lower(roster[j].email) != key
    ensures r.Some? ==> r.value in roster && Lower(r.value.email) == key
    ensures r.None? <==> forall e :: e in roster ==> Lower(e.email) != key
  {
    match KeyIndex(roster, key)
    case None => None
    case Some(i) => Some(roster[i])
  }

  /** `handleSubmit`, after the simulated delay, against a roster. */
  function Submit(roster: seq<EmployeeProfile>, mode: Mode, email: string, password: string, confirm: string)
    : (r: Submission)
    ensures mode == SignUp && password != confirm ==> r == Refused(Mismatch)
    ensures mode == SignUp && password == confirm ==> r == Refused(ApplicationReceived)
    ensures mode == SignIn ==>
      (r.LoggedIn? <==> exists e :: e in roster && Lower(e.email) == Lower(email))
    ensures r.LoggedIn? ==>
      r.user.profile in roster && Lower(r.user.email) == Lower(email) &&
      r.user.id == r.user.profile.id && r.user.email == r.user.profile.email &&
      r.user.role == r.user.profile.role
    ensures r.LoggedIn? ==> exists i :: 0 <= i < |roster| && r.user.profile == roster[i] &&
                                        forall j :: 0 <= j < i ==> Lower(roster[j].email) != Lower(email)
    ensures mode == SignIn && r.Refused? ==> r.notice == BadCredentials
  {
    if mode == SignUp && password != confirm then Refused(Mismatch)
    else if mode == SignIn then
      match FindByKey(roster, Lower(email))
      case Some(e) => LoggedIn(AuthUser(e.id, e.email, e.role, e))
      case None => Refused(BadCredentials)
    else Refused(ApplicationReceived)
  }

  /** The page signs in against the fixture roster. */
  function HandleSubmit(mode: Mode, email: string, password: string, confirm: string): (r: Submission)
    ensures SubmissionAgainst(MOCK_EMPLOYEES, mode, email, r)
  {
    SubmitByIndex(MOCK_EMPLOYEES, mode, email, password, confirm);
    Submit(MOCK_EMPLOYEES, mode, email, password, confirm)
  }

  /** What a submission against `roster` answers: sign-in succeeds exactly
      when some position of the roster holds the address, ignoring case,
      and then signs in the first such profile; sign-up never signs in. */
  predicate SubmissionAgainst(roster: seq<EmployeeProfile>, mode: Mode, email: string, r: Submission)
  {
    (mode == SignIn ==> (r.LoggedIn? <==> exists i :: 0 <= i < |roster| && Lower(roster[i].email) == Lower(email))) &&
    (r.LoggedIn? ==> exists i :: 0 <= i < |roster| && r.user.profile == roster[i] &&
                                 forall j :: 0 <= j < i ==> Lower(roster[j].email) != Lower(email)) &&
    (mode == SignUp ==> r.Refused?)
  }

  /** `Submit` answers every roster that way. */
  lemma SubmitByIndex(roster: seq<EmployeeProfile>, mode: Mode, email: string, password: string, confirm: string)
    ensures SubmissionAgainst(roster, mode, email, Submit(roster, mode, email, password, confirm))
  {
    var r := Submit(roster, mode, email, password, confirm);
    if mode == SignIn && !r.LoggedIn? {
      forall i | 0 <= i < |roster| ensures Lower(roster[i].email) != Lower(email) {
        assert roster[i] in roster;
      }
    }
  }

  /** Signing in never looks at the password. */
  lemma PasswordIgnored(roster: seq<EmployeeProfile>, email: string, p1: string, c1: string, p2: string, c2: string)
    ensures Submit(roster, SignIn, email, p1, c1) == Submit(roster, SignIn, email, p2, c2)
  {
  }

  /** Signing up never logs anybody in. */
  lemma SignUpNeverLogsIn(roster: seq<EmployeeProfile>, email: string, password: string, confirm: string)
    ensures Submit(roster, SignUp, email, password, confirm).Refused?
  {
  }

  /** The case of the typed email does not matter. */
  lemma EmailCaseIgnored(roster: seq<EmployeeProfile>, email: string, password: string, confirm: string)
    ensures Submit(roster, SignIn, Lower(email), password, confirm) == Submit(roster, SignIn, email, password, confirm)
  {
    LowerIdempotent(email);
  }

  /** The first profile whose address matches is the one signed in. */
  lemma FirstMatchSignsIn(roster: seq<EmployeeProfile>, i: nat, email: string, password: string, confirm: string)
    requires i < |roster| && Lower(roster[i].email) == Lower(email)
    requires forall j :: 0 <= j < i ==> Lower(roster[j].email) != Lower(email)
    ensures Submit(roster, SignIn, email, password, confirm) == LoggedIn(AuthUser(roster[i].id, roster[i].email, roster[i].role, roster[i]))
  {
    assert KeyIndex(roster, Lower(email)) == Some(i);
  }

  /** Priya's address signs her in as an administrator, whatever password
      is typed. */
  lemma PriyaSignsIn(password: string)
    ensures var r := HandleSubmit(SignIn, "priya.verma@aligna.io", password, "");
      r.LoggedIn? && r.user.id == "1" && r.user.role == Admin
  {
    var priya := MOCK_EMPLOYEES[0];
    assert priya.email == "priya.verma@aligna.io" && priya.id == "1" && priya.role == Admin;
    HeadSignsIn(MOCK_EMPLOYEES, password);
  }

  /** The sign-in above, for any roster that starts with Priya's profile. */
  lemma HeadSignsIn(roster: seq<EmployeeProfile>, password: string)
    requires |roster| > 0 && roster[0].email == "priya.verma@aligna.io"
    requires roster[0].id == "1" && roster[0].role == Admin
    ensures var r := Submit(roster, SignIn, "priya.verma@aligna.io", password, "");
      r.LoggedIn? && r.user.id == "1" && r.user.role == Admin
  {
    FirstMatchSignsIn(roster, 0, "priya.verma@aligna.io", password, "");
  }
}
