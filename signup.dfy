/**
 * Self-service registration: the ordered checks run on the sign-up form
 * before a new, unapproved employee is stored.
 */
module Signup {
  import opened Wrappers
  import opened Strings
  import opened EmsTypes
  import opened LocalStore

  /** The eight text fields of the sign-up form. */
  datatype SignupForm = SignupForm(
    fullName: string,
    email: string,
    password: string,
    confirmPassword: string,
    contactNumber: string,
    accountNumber: string,
    parentName: string,
    parentContact: string)

  /** The form's values in declaration order (`Object.values(formData)`). */
  function Fields(f: SignupForm): (r: seq<string>)
    ensures |r| == 8
  {
    [f.fullName, f.email, f.password, f.confirmPassword,
     f.contactNumber, f.accountNumber, f.parentName, f.parentContact]
  }

  datatype SignupError = MissingField | PasswordMismatch | PasswordTooShort | InvalidEmail | EmailTaken

  /** The message the form shows for each failure. */
  function ErrorText(e: SignupError): string {
    match e
    case MissingField => "Please fill in all fields"
    case PasswordMismatch => "Passwords do not match"
    case PasswordTooShort => "Password must be at least 6 characters long"
    case InvalidEmail => "Please enter a valid email address"
    case EmailTaken => "An account with this email already exists"
  }

  // ---------------------------------------------------------------------
  // the e-mail pattern ^[^\s@]+@[^\s@]+\.[^\s@]+$
  // ---------------------------------------------------------------------

  /** A character of the class `[^\s@]`. */
  predicate Plain(c: char) {
    !IsWhitespace(c) && c != '@'
  }

  predicate AllPlain(t: string) {
    forall i :: 0 <= i < |t| ==> Plain(t[i])
  }

  /**
   * The regular expression's test, read off its structure: a non-empty
   * run of plain characters, `@`, a non-empty run, `.`, a non-empty run.
   */
  predicate EmailPattern(s: string) {
    exists a, d :: 0 < a && a + 1 < d && d + 1 < |s| && s[a] == '@' && s[d] == '.' &&
      AllPlain(s[..a]) && AllPlain(s[a + 1..d]) && AllPlain(s[d + 1..])
  }

  /** `t` has a `.` that is neither its first nor its last character. */
  predicate InnerDot(t: string) {
    exists k :: 0 < k < |t| - 1 && t[k] == '.'
  }

  /**
   * The rule stated directly: no white space, exactly one `@`, something
   * before it, and a `.` inside the domain after it.
   */
  predicate EmailRule(s: string) {
    !HasWhitespace(s) &&
    exists a :: 0 < a < |s| && s[a] == '@' &&
      (forall i :: 0 <= i < |s| && s[i] == '@' ==> i == a) &&
      InnerDot(s[a + 1..])
  }

  /** The pattern accepts exactly the addresses the rule describes. */
  lemma EmailPatternIffRule(s: string)
    ensures EmailPattern(s) <==> EmailRule(s)
  {
    if EmailPattern(s) {
      PatternGivesRule(s);
    }
    if EmailRule(s) {
      RuleGivesPattern(s);
    }
  }

  lemma PatternGivesRule(s: string)
    requires EmailPattern(s)
    ensures EmailRule(s)
  {
    var a, d :| 0 < a && a + 1 < d && d + 1 < |s| && s[a] == '@' && s[d] == '.' &&
      AllPlain(s[..a]) && AllPlain(s[a + 1..d]) && AllPlain(s[d + 1..]);
    var local, mid, tail := s[..a], s[a + 1..d], s[d + 1..];
    forall i | 0 <= i < |s| && i != a && i != d
      ensures Plain(s[i])
    {
      if i < a {
        assert local[i] == s[i];
      } else if i < d {
        assert mid[i - a - 1] == s[i];
      } else {
        assert tail[i - d - 1] == s[i];
      }
    }
    var t := s[a + 1..];
    assert t[d - a - 1] == '.';
    assert InnerDot(t);
  }

  lemma RuleGivesPattern(s: string)
    requires EmailRule(s)
    ensures EmailPattern(s)
  {
    var a :| 0 < a < |s| && s[a] == '@' &&
      (forall i :: 0 <= i < |s| && s[i] == '@' ==> i == a) &&
      InnerDot(s[a + 1..]);
    var t := s[a + 1..];
    var k :| 0 < k < |t| - 1 && t[k] == '.';
    var d := a + 1 + k;
    assert s[d] == '.';
    var local, mid, tail := s[..a], s[a + 1..d], s[d + 1..];
    forall i | 0 <= i < |local| ensures Plain(local[i]) {
      assert local[i] == s[i];
    }
    forall i | 0 <= i < |mid| ensures Plain(mid[i]) {
      assert mid[i] == s[a + 1 + i];
    }
    forall i | 0 <= i < |tail| ensures Plain(tail[i]) {
      assert tail[i] == s[d + 1 + i];
    }
    assert 0 < a && a + 1 < d && d + 1 < |s| && s[a] == '@' && s[d] == '.' &&
      AllPlain(local) && AllPlain(mid) && AllPlain(tail);
  }

  lemma EmailAccepted()
    ensures EmailPattern("jane@example.com")
  {
    var s := "jane@example.com";
    assert s[4] == '@' && s[12] == '.';
    assert AllPlain(s[..4]) && AllPlain(s[5..12]) && AllPlain(s[13..]);
  }

  /** Two `@` signs are refused. */
  lemma DoubleAtRefused()
    ensures !EmailPattern("jane@@example.com")
  {
    var s := "jane@@example.com";
    assert s[4] == '@' && s[5] == '@';
    EmailPatternIffRule(s);
  }

  // ---------------------------------------------------------------------
  // the checks in the order the form runs them
  // ---------------------------------------------------------------------

  /** Some stored employee already uses the address, compared exactly. */
  predicate EmailInUse(employees: seq<Employee>, email: string) {
    exists i :: 0 <= i < |employees| && employees[i].email == email
  }

  /**
   * `handleSubmit`'s validation: the first failing check, or `None` when
   * the form may be stored. A field counts as missing when it trims to the
   * empty string, that is when it is all white space.
   */
  function CheckSignup(f: SignupForm, employees: seq<Employee>): (r: Option<SignupError>)
    ensures r == Some(MissingField) <==> exists i :: 0 <= i < 8 && Blank(Fields(f)[i])
    ensures r == Some(PasswordMismatch) <==>
      (forall i :: 0 <= i < 8 ==> !Blank(Fields(f)[i])) && f.password != f.confirmPassword
    ensures r == Some(PasswordTooShort) <==>
      (forall i :: 0 <= i < 8 ==> !Blank(Fields(f)[i])) && f.password == f.confirmPassword && |f.password| < 6
    ensures r == Some(InvalidEmail) <==>
      (forall i :: 0 <= i < 8 ==> !Blank(Fields(f)[i])) && f.password == f.confirmPassword && |f.password| >= 6 &&
      !EmailRule(f.email)
    ensures r == Some(EmailTaken) <==>
      (forall i :: 0 <= i < 8 ==> !Blank(Fields(f)[i])) && f.password == f.confirmPassword && |f.password| >= 6 &&
      EmailRule(f.email) && EmailInUse(employees, f.email)
    ensures r == None <==>
      (forall i :: 0 <= i < 8 ==> !Blank(Fields(f)[i])) && f.password == f.confirmPassword && |f.password| >= 6 &&
      EmailRule(f.email) && !EmailInUse(employees, f.email)
  {
    forall i | 0 <= i < 8 ensures Trim(Fields(f)[i]) == [] <==> Blank(Fields(f)[i]) {
      TrimEmptyIffBlank(Fields(f)[i]);
    }
    EmailPatternIffRule(f.email);
    var fields := Fields(f);
    if exists i :: 0 <= i < |fields| && Trim(fields[i]) == [] then Some(MissingField)
    else if f.password != f.confirmPassword then Some(PasswordMismatch)
    else if |f.password| < 6 then Some(PasswordTooShort)
    else if !EmailPattern(f.email) then Some(InvalidEmail)
    else if EmailInUse(employees, f.email) then Some(EmailTaken)
    else None
  }

  /** The record stored for an accepted form: unapproved, no salary data yet. */
  function NewEmployee(f: SignupForm, id: string, now: int): (e: Employee)
    ensures e.id == id && e.fullName == f.fullName && e.email == f.email && e.password == f.password
    ensures e.contactNumber == f.contactNumber && e.accountNumber == f.accountNumber
    ensures e.parentName == f.parentName && e.parentContact == f.parentContact
    ensures !e.isApproved && e.basicSalary.None? && e.leaveBalance.None?
    ensures e.esicNumber.None? && e.pfNumber.None? && e.createdAt == now
  {
    Employee(id, f.fullName, f.email, f.password, f.contactNumber, f.accountNumber,
      f.parentName, f.parentContact, None, None, false, now, None, None)
  }

  /** An accepted address is never taken afterwards by a second sign-up with the same address. */
  lemma SignupBlocksDuplicate(f: SignupForm, g: SignupForm, employees: seq<Employee>, id: string, now: int)
    requires CheckSignup(f, employees) == None
    requires g.email == f.email
    ensures CheckSignup(g, employees + [NewEmployee(f, id, now)]).Some?
  {
    var es := employees + [NewEmployee(f, id, now)];
    assert es[|employees|].email == g.email;
  }

  /** The duplicate check is case-sensitive: an address differing in case is not in use. */
  lemma EmailCaseSensitive()
    ensures !EmailInUse([NewEmployee(SignupForm("A", "a@b.co", "secret", "secret", "1", "2", "P", "3"), "x", 0)], "A@b.co")
  {
    var e := NewEmployee(SignupForm("A", "a@b.co", "secret", "secret", "1", "2", "P", "3"), "x", 0);
    assert e.email[0] != "A@b.co"[0];
  }

  /**
   * `handleSubmit`: on the first failing check the store is untouched and
   * the error is reported; otherwise the new employee is appended at the
   * end of the list and the administrator is told about the request.
   */
  method Submit(store: Store, f: SignupForm, employeeId: string, notificationId: string, now: int)
    returns (error: Option<SignupError>)
    modifies store`employees, store`notifications
    ensures store.Valid() == old(store.Valid())
    ensures error == CheckSignup(f, old(store.employees))
    ensures error.Some? ==> store.employees == old(store.employees) && store.notifications == old(store.notifications)
    ensures error.None? ==>
      store.employees == old(store.employees) + [NewEmployee(f, employeeId, now)] &&
      store.notifications ==
        [Notification(notificationId, "admin", "New Employee Registration",
                      f.fullName + " has requested to join the company", Info, false, now)]
        + old(store.notifications)
  {
    error := CheckSignup(f, store.employees);
    if error.Some? {
      return;
    }
    store.employees := store.employees + [NewEmployee(f, employeeId, now)];
    store.AddNotification(notificationId, "admin", "New Employee Registration",
                          f.fullName + " has requested to join the company", now, Info);
  }
}
