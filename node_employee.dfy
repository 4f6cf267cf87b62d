/**
 * The Sequelize model of the Node backend: the employee row, the
 * constraints the model itself checks when a row is created or updated,
 * and the JSON form with the computed full name.
 *
 * The e-mail syntax check of the validator library is a parameter
 * (`isEmail`); times are integer milliseconds and the clock is a parameter.
 */
module NodeEmployee {
  import opened Wrappers
  import Strings

  /** The ten department names both the model and the request validators accept. */
  const Departments: seq<string> := ["HR", "Engineering", "Marketing", "Sales", "Finance", "Operations", "IT",
                                     "Legal", "Customer Service", "Research & Development"]

  /** One row of the `employees` table. */
  datatype Row = Row(
    id: int,
    firstName: string,
    lastName: string,
    email: string,
    department: string,
    position: string,
    hireDate: int,
    salary: Option<real>,
    isActive: bool,
    createdAt: int,
    updatedAt: int)

  // ---------------------------------------------------------------------
  // column constraints
  // ---------------------------------------------------------------------

  /**
   * The validator `notEmpty`: the text is not made of white space alone, so
   * both the empty text and one of only blanks are refused.
   */
  predicate NotEmpty(s: string) {
    !Strings.Blank(s)
  }

  /** `notEmpty` and `len: [2, 50]` on the name columns; there is no letters-only rule here. */
  predicate NameOk(s: string) {
    NotEmpty(s) && 2 <= |s| <= 50
  }

  /** `isEmail` and `notEmpty`. */
  predicate EmailOk(s: string, isEmail: string -> bool) {
    isEmail(s) && NotEmpty(s)
  }

  /** `notEmpty` and `isIn` the ten names. */
  predicate DepartmentOk(s: string) {
    NotEmpty(s) && s in Departments
  }

  /** `notEmpty` and `len: [2, 100]`. */
  predicate PositionOk(s: string) {
    NotEmpty(s) && 2 <= |s| <= 100
  }

  /** Text that passes `notEmpty` is not empty, and text of blanks alone fails it. */
  lemma NotEmptyMeaning(s: string)
    ensures NotEmpty(s) ==> s != []
    ensures NotEmpty(s) <==> exists i :: 0 <= i < |s| && !Strings.IsWhitespace(s[i])
  {
  }

  /** Text that starts with a character other than white space passes `notEmpty`. */
  lemma LeadingCharNotEmpty(s: string)
    requires s != [] && !Strings.IsWhitespace(s[0])
    ensures NotEmpty(s)
  {
  }

  /** `isNotFuture`: not after the current instant. */
  predicate HireDateOk(hireDate: int, now: int) {
    hireDate <= now
  }

  /** `allowNull: true` and `min: 0`. */
  predicate SalaryOk(salary: Option<real>) {
    salary.None? || salary.value >= 0.0
  }

  /**
   * Every constraint the model checks on a whole row. A valid row has a
   * listed department, was hired no later than now, and has a first name
   * of 2 to 50 characters.
   */
  function RowValid(r: Row, isEmail: string -> bool, now: int): (ok: bool)
    ensures ok ==> r.department in Departments && r.hireDate <= now && 2 <= |r.firstName| <= 50
  {
    NameOk(r.firstName) && NameOk(r.lastName) && EmailOk(r.email, isEmail) && DepartmentOk(r.department) &&
    PositionOk(r.position) && HireDateOk(r.hireDate, now) && SalaryOk(r.salary)
  }

  /** No department name is blank, so `notEmpty` adds nothing to the list check. */
  lemma DepartmentListExcludesEmpty()
    ensures !DepartmentOk("")
    ensures forall d :: d in Departments ==> DepartmentOk(d)
  {
    forall d | d in Departments
      ensures DepartmentOk(d)
    {
      LeadingCharNotEmpty(d);
    }
  }

  /** A name made of letters and digits meets the model's rules. */
  lemma ModelAcceptsDigitsInNames()
    ensures NameOk("Jo3")
  {
    LeadingCharNotEmpty("Jo3");
  }

  /** A name of blanks alone is refused, however long. */
  lemma BlankNameRefused()
    ensures !NameOk("   ")
    ensures !PositionOk("   ")
  {
    assert Strings.Blank("   ") by {
      assert forall i :: 0 <= i < 3 ==> "   "[i] == ' ';
    }
  }

  // ---------------------------------------------------------------------
  // create and update
  // ---------------------------------------------------------------------

  /** The attributes a create or update call passes; `None` is an attribute left out. */
  datatype Attrs = Attrs(
    firstName: Option<string>,
    lastName: Option<string>,
    email: Option<string>,
    department: Option<string>,
    position: Option<string>,
    hireDate: Option<int>,
    salary: Option<real>,
    isActive: Option<bool>)

  /** The required columns are all given (`allowNull: false`). */
  predicate HasRequired(a: Attrs) {
    a.firstName.Some? && a.lastName.Some? && a.email.Some? && a.department.Some? && a.position.Some? &&
    a.hireDate.Some?
  }

  /**
   * `Employee.create`: the row built from the attributes, with `isActive`
   * defaulting to true, or `None` when a required column is missing or a
   * constraint fails (a `SequelizeValidationError`).
   */
  function Create(a: Attrs, id: int, now: int, isEmail: string -> bool): (r: Option<Row>)
    ensures r.Some? <==>
      (HasRequired(a) &&
       RowValid(Row(id, a.firstName.value, a.lastName.value, a.email.value, a.department.value, a.position.value,
                    a.hireDate.value, a.salary, true, now, now), isEmail, now))
    ensures r.Some? ==> r.value.isActive == a.isActive.GetOr(true) && r.value.id == id
    ensures r.Some? ==> RowValid(r.value, isEmail, now)
  {
    if !HasRequired(a) then None
    else
      var row := Row(id, a.firstName.value, a.lastName.value, a.email.value, a.department.value, a.position.value,
                     a.hireDate.value, a.salary, a.isActive.GetOr(true), now, now);
      if RowValid(row, isEmail, now) then Some(row) else None
  }

  /** The given attributes meet their constraints; attributes left out are not checked. */
  predicate GivenValid(a: Attrs, isEmail: string -> bool, now: int) {
    (a.firstName.Some? ==> NameOk(a.firstName.value)) &&
    (a.lastName.Some? ==> NameOk(a.lastName.value)) &&
    (a.email.Some? ==> EmailOk(a.email.value, isEmail)) &&
    (a.department.Some? ==> DepartmentOk(a.department.value)) &&
    (a.position.Some? ==> PositionOk(a.position.value)) &&
    (a.hireDate.Some? ==> HireDateOk(a.hireDate.value, now)) &&
    SalaryOk(a.salary)
  }

  /**
   * The row with the given attributes written over it. The update time moves
   * only when some column changes: `save` issues no query otherwise.
   */
  function Apply(r: Row, a: Attrs, now: int): (u: Row)
    ensures u.id == r.id && u.createdAt == r.createdAt
    ensures u.firstName == a.firstName.GetOr(r.firstName) && u.lastName == a.lastName.GetOr(r.lastName)
    ensures u.email == a.email.GetOr(r.email) && u.department == a.department.GetOr(r.department)
    ensures u.position == a.position.GetOr(r.position) && u.hireDate == a.hireDate.GetOr(r.hireDate)
    ensures u.salary == (if a.salary.Some? then a.salary else r.salary)
    ensures u.isActive == a.isActive.GetOr(r.isActive)
    ensures u.updatedAt == (if u.(updatedAt := r.updatedAt) == r then r.updatedAt else now)
  {
    var w := r.(firstName := a.firstName.GetOr(r.firstName), lastName := a.lastName.GetOr(r.lastName),
                email := a.email.GetOr(r.email), department := a.department.GetOr(r.department),
                position := a.position.GetOr(r.position), hireDate := a.hireDate.GetOr(r.hireDate),
                salary := if a.salary.Some? then a.salary else r.salary, isActive := a.isActive.GetOr(r.isActive));
    if w == r then r else w.(updatedAt := now)
  }

  /** `employee.update(values)`: only the given attributes are validated and written. */
  function Update(r: Row, a: Attrs, now: int, isEmail: string -> bool): (u: Option<Row>)
    ensures u.Some? <==> GivenValid(a, isEmail, now)
    ensures u.Some? ==> u.value == Apply(r, a, now)
  {
    if GivenValid(a, isEmail, now) then Some(Apply(r, a, now)) else None
  }

  /** The attributes of the soft delete. */
  const Deactivate := Attrs(None, None, None, None, None, None, None, Some(false))

  /**
   * Deactivating always passes validation and changes nothing but the flag
   * and the update time; an inactive row is left exactly as it is.
   */
  lemma DeactivateOnlyClearsFlag(r: Row, now: int, isEmail: string -> bool)
    ensures Update(r, Deactivate, now, isEmail) ==
      Some(if r.isActive then r.(isActive := false, updatedAt := now) else r)
  {
  }

  /** A valid row updated with valid attributes is still valid. */
  lemma UpdateKeepsRowValid(r: Row, a: Attrs, now: int, isEmail: string -> bool)
    requires RowValid(r, isEmail, now)
    requires Update(r, a, now, isEmail).Some?
    ensures RowValid(Update(r, a, now, isEmail).value, isEmail, now)
  {
  }

  // ---------------------------------------------------------------------
  // the JSON form
  // ---------------------------------------------------------------------

  /** `getFullName`. */
  function GetFullName(r: Row): (s: string)
    ensures |s| == |r.firstName| + 1 + |r.lastName|
    ensures s[..|r.firstName|] == r.firstName && s[|r.firstName|] == ' ' && s[|r.firstName| + 1..] == r.lastName
  {
    r.firstName + " " + r.lastName
  }

  datatype Json = JStr(s: string) | JInt(i: int) | JReal(x: real) | JBool(b: bool) | JNull

  /**
   * `toJSON`: every stored column, plus `fullName`. The only `null` in it
   * is the salary of a row without one.
   */
  function ToJson(r: Row): (m: map<string, Json>)
    ensures forall k :: k in m ==> (m[k].JNull? <==> k == "salary" && r.salary.None?)
    ensures "fullName" in m && m["fullName"] == JStr(GetFullName(r))
  {
    map[
      "id" := JInt(r.id),
      "firstName" := JStr(r.firstName),
      "lastName" := JStr(r.lastName),
      "email" := JStr(r.email),
      "department" := JStr(r.department),
      "position" := JStr(r.position),
      "hireDate" := JInt(r.hireDate),
      "salary" := (if r.salary.Some? then JReal(r.salary.value) else JNull),
      "isActive" := JBool(r.isActive),
      "createdAt" := JInt(r.createdAt),
      "updatedAt" := JInt(r.updatedAt),
      "fullName" := JStr(GetFullName(r))
    ]
  }

  function Str(m: map<string, Json>, k: string): Option<string> {
    if k in m && m[k].JStr? then Some(m[k].s) else None
  }

  function Int(m: map<string, Json>, k: string): Option<int> {
    if k in m && m[k].JInt? then Some(m[k].i) else None
  }

  /**
   * Reads a row back from its JSON form; `fullName` is ignored. A row is
   * found only in a map holding its id, its flag and its salary under
   * their keys, a `null` salary reading as none.
   */
  function FromJson(m: map<string, Json>): (r: Option<Row>)
    ensures "id" !in m || "isActive" !in m || "salary" !in m ==> r.None?
    ensures r.Some? ==> "id" in m && m["id"] == JInt(r.value.id)
    ensures r.Some? ==> "isActive" in m && m["isActive"] == JBool(r.value.isActive)
    ensures r.Some? ==> "salary" in m && (m["salary"].JNull? <==> r.value.salary.None?)
  {
    var id := Int(m, "id");
    var first := Str(m, "firstName");
    var last := Str(m, "lastName");
    var email := Str(m, "email");
    var dept := Str(m, "department");
    var pos := Str(m, "position");
    var hired := Int(m, "hireDate");
    var created := Int(m, "createdAt");
    var updated := Int(m, "updatedAt");
    if id.None? || first.None? || last.None? || email.None? || dept.None? || pos.None? || hired.None? ||
       created.None? || updated.None? || "salary" !in m || "isActive" !in m || !m["isActive"].JBool? ||
       !(m["salary"].JReal? || m["salary"].JNull?)
    then None
    else
      var salary := if m["salary"].JReal? then Some(m["salary"].x) else None;
      Some(Row(id.value, first.value, last.value, email.value, dept.value, pos.value, hired.value, salary,
               m["isActive"].b, created.value, updated.value))
  }

  /** The JSON form loses nothing: reading it back gives the row. */
  lemma JsonRoundTrip(r: Row)
    ensures FromJson(ToJson(r)) == Some(r)
  {
    JsonIntFields(r);
    JsonTextFields(r);
    JsonOtherFields(r);
  }

  /** Each stored column reads back from its key with its own kind of value. */
  lemma JsonIntFields(r: Row)
    ensures Int(ToJson(r), "id") == Some(r.id) && Int(ToJson(r), "hireDate") == Some(r.hireDate)
    ensures Int(ToJson(r), "createdAt") == Some(r.createdAt) && Int(ToJson(r), "updatedAt") == Some(r.updatedAt)
  {
  }

  lemma JsonTextFields(r: Row)
    ensures Str(ToJson(r), "firstName") == Some(r.firstName) && Str(ToJson(r), "lastName") == Some(r.lastName)
    ensures Str(ToJson(r), "email") == Some(r.email) && Str(ToJson(r), "department") == Some(r.department)
    ensures Str(ToJson(r), "position") == Some(r.position)
  {
  }

  lemma JsonOtherFields(r: Row)
    ensures "isActive" in ToJson(r) && ToJson(r)["isActive"] == JBool(r.isActive)
    ensures "salary" in ToJson(r) && ToJson(r)["salary"] == if r.salary.Some? then JReal(r.salary.value) else JNull
  {
  }

  /** The JSON form holds the stored columns and exactly one extra key, the full name. */
  lemma JsonAddsFullName(r: Row)
    ensures ToJson(r).Keys == {"id", "firstName", "lastName", "email", "department", "position", "hireDate",
                               "salary", "isActive", "createdAt", "updatedAt", "fullName"}
    ensures ToJson(r)["fullName"] == JStr(GetFullName(r))
  {
  }
}
