/**
 * Signing in and out: the fixed administrator credentials and the lookup of
 * an approved employee by e-mail and password.
 */
module Auth {
  import opened Wrappers
  import opened Seqs
  import opened EmsTypes
  import opened LocalStore

  /** The user the administrator signs in as. */
  const AdminUser := User("admin", AdminParty, "Administrator", "admin@company.com")

  /** The user an employee signs in as. */
  function EmployeeUser(e: Employee): (u: User)
    ensures u.kind == EmployeeParty && u.id == e.id && u.name == e.fullName && u.email == e.email
  {
    User(e.id, EmployeeParty, e.fullName, e.email)
  }

  /** The employee matches the credentials and has been approved. */
  predicate CanSignIn(e: Employee, email: string, password: string) {
    e.email == email && e.password == password && e.isApproved
  }

  /**
   * `login`: the user to sign in as, or `None` when the credentials are
   * refused. The administrator's branch never looks at the employees; an
   * employee signs in as the first approved employee with those credentials.
   */
  function Login(employees: seq<Employee>, email: string, password: string, kind: Party): (r: Option<User>)
    ensures kind == AdminParty ==> (r.Some? <==> email == "admin" && password == "admin123")
    ensures kind == AdminParty && r.Some? ==> r.value == AdminUser
    ensures kind == EmployeeParty ==>
      (r.Some? <==> exists i :: 0 <= i < |employees| && CanSignIn(employees[i], email, password))
    ensures kind == EmployeeParty && r.Some? ==>
      exists i :: 0 <= i < |employees| && CanSignIn(employees[i], email, password) &&
        (forall j :: 0 <= j < i ==> !CanSignIn(employees[j], email, password)) &&
        r.value == EmployeeUser(employees[i])
  {
    match kind
    case AdminParty =>
      if email == "admin" && password == "admin123" then Some(AdminUser) else None
    case EmployeeParty =>
      match FirstIndex(employees, e => CanSignIn(e, email, password))
      case None => None
      case Some(i) => Some(EmployeeUser(employees[i]))
  }

  /** The administrator's login gives the same answer whatever employees are stored. */
  lemma AdminLoginIgnoresEmployees(a: seq<Employee>, b: seq<Employee>, email: string, password: string)
    ensures Login(a, email, password, AdminParty) == Login(b, email, password, AdminParty)
  {
  }

  /** An employee who has not been approved cannot sign in, whatever the password. */
  lemma UnapprovedCannotSignIn(employees: seq<Employee>, email: string, password: string)
    requires forall i :: 0 <= i < |employees| && employees[i].email == email ==> !employees[i].isApproved
    ensures Login(employees, email, password, EmployeeParty) == None
  {
  }

  /** Approving the only account with an address lets its owner sign in with the stored password. */
  lemma ApprovedCanSignIn(employees: seq<Employee>, k: nat)
    requires k < |employees| && employees[k].isApproved
    requires forall i :: 0 <= i < |employees| && i != k ==> employees[i].email != employees[k].email
    ensures Login(employees, employees[k].email, employees[k].password, EmployeeParty) == Some(EmployeeUser(employees[k]))
  {
  }

  /**
   * `login`: on success the user is signed in (and persisted); on failure
   * the signed-in user stays as it was.
   */
  method SignIn(store: Store, email: string, password: string, kind: Party) returns (ok: bool)
    modifies store`currentUser
    ensures store.Valid() == old(store.Valid())
    ensures var r := Login(store.employees, email, password, kind);
      ok == r.Some? && store.currentUser == (if ok then r else old(store.currentUser))
  {
    var r := Login(store.employees, email, password, kind);
    ok := r.Some?;
    if ok {
      store.currentUser := r;
    }
  }

  /** `logout`: nobody is signed in afterwards. */
  method SignOut(store: Store)
    modifies store`currentUser
    ensures store.Valid() == old(store.Valid())
    ensures store.currentUser.None?
  {
    store.currentUser := None;
  }
}
