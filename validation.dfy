/**
 * The request validators of the Node backend, as predicates on the raw
 * request: the chains for creating and updating an employee, for the id
 * parameter and for the list query, and the sanitised attributes the
 * handlers then pass to the model.
 *
 * Body values are text as the validators see them. A hire date is either
 * missing, not ISO 8601, or an instant; a salary is missing, not a number,
 * or a number. The e-mail syntax check is the parameter `isEmail`; the end
 * of the current day is the parameter `endOfToday`.
 */
module Validation {
  import opened Wrappers
  import opened Strings
  import NodeEmployee

  datatype DateField = NoDate | NotIso | Instant(at: int)

  datatype NumberField = NoNumber | NotANumber | Num(value: real)

  /** The JSON body of a create or update request; `None` is a key left out. */
  datatype Body = Body(
    firstName: Option<string>,
    lastName: Option<string>,
    email: Option<string>,
    department: Option<string>,
    position: Option<string>,
    hireDate: DateField,
    salary: NumberField,
    isActive: Option<string>)

  // ---------------------------------------------------------------------
  // single fields
  // ---------------------------------------------------------------------

  /** `/^[a-zA-Z\s]+$/`. */
  predicate LettersAndSpaces(s: string) {
    s != [] && forall i :: 0 <= i < |s| ==> 'a' <= s[i] <= 'z' || 'A' <= s[i] <= 'Z' || IsWhitespace(s[i])
  }

  /** A present name after `trim`: 2 to 50 characters, letters and white space only. */
  predicate NameText(v: string) {
    var t := Trim(v);
    t != [] && 2 <= |t| <= 50 && LettersAndSpaces(t)
  }

  predicate EmailText(v: string, isEmail: string -> bool) {
    Trim(v) != [] && isEmail(Trim(v))
  }

  predicate DepartmentText(v: string) {
    Trim(v) != [] && Trim(v) in NodeEmployee.Departments
  }

  predicate PositionText(v: string) {
    Trim(v) != [] && 2 <= |Trim(v)| <= 100
  }

  /** An ISO 8601 instant no later than the end of the current day. */
  predicate HireDateGiven(d: DateField, endOfToday: int) {
    d.Instant? && d.at <= endOfToday
  }

  /** `optional().isFloat({ min: 0 })`. */
  predicate SalaryField(x: NumberField) {
    x.NoNumber? || (x.Num? && x.value >= 0.0)
  }

  /** `isBoolean()`: the four strings the validator library accepts. */
  predicate BooleanText(v: string) {
    v == "true" || v == "false" || v == "1" || v == "0"
  }

  // ---------------------------------------------------------------------
  // the body chains
  // ---------------------------------------------------------------------

  /**
   * `validateCreateEmployee`: every field but salary and the flag is
   * required, and the hire date no later than the end of the day.
   */
  function CreateValid(b: Body, isEmail: string -> bool, endOfToday: int): (ok: bool)
    ensures ok ==> b.firstName.Some? && b.lastName.Some? && b.email.Some? && b.department.Some? &&
                   b.position.Some? && b.hireDate.Instant? && b.hireDate.at <= endOfToday
  {
    b.firstName.Some? && NameText(b.firstName.value) &&
    b.lastName.Some? && NameText(b.lastName.value) &&
    b.email.Some? && EmailText(b.email.value, isEmail) &&
    b.department.Some? && DepartmentText(b.department.value) &&
    b.position.Some? && PositionText(b.position.value) &&
    HireDateGiven(b.hireDate, endOfToday) &&
    SalaryField(b.salary) &&
    (b.isActive.Some? ==> BooleanText(b.isActive.value))
  }

  /**
   * `validateUpdateEmployee`: every field is optional, so the empty body
   * passes; a given one obeys the create rule.
   */
  function UpdateValid(b: Body, isEmail: string -> bool, endOfToday: int): (ok: bool)
    ensures b == Body(None, None, None, None, None, NoDate, NoNumber, None) ==> ok
    ensures ok && b.firstName.Some? ==> 2 <= |Trim(b.firstName.value)| <= 50
    ensures ok && b.salary.Num? ==> b.salary.value >= 0.0
  {
    (b.firstName.Some? ==> NameText(b.firstName.value)) &&
    (b.lastName.Some? ==> NameText(b.lastName.value)) &&
    (b.email.Some? ==> EmailText(b.email.value, isEmail)) &&
    (b.department.Some? ==> DepartmentText(b.department.value)) &&
    (b.position.Some? ==> PositionText(b.position.value)) &&
    (!b.hireDate.NoDate? ==> HireDateGiven(b.hireDate, endOfToday)) &&
    SalaryField(b.salary) &&
    (b.isActive.Some? ==> BooleanText(b.isActive.value))
  }

  /** Whatever passes the create chain passes the update chain. */
  lemma CreateImpliesUpdate(b: Body, isEmail: string -> bool, endOfToday: int)
    requires CreateValid(b, isEmail, endOfToday)
    ensures UpdateValid(b, isEmail, endOfToday)
  {
  }

  /** The update chain accepts the empty body, which the create chain refuses. */
  lemma EmptyBodyOnlyUpdates(isEmail: string -> bool, endOfToday: int)
    ensures UpdateValid(Body(None, None, None, None, None, NoDate, NoNumber, None), isEmail, endOfToday)
    ensures !CreateValid(Body(None, None, None, None, None, NoDate, NoNumber, None), isEmail, endOfToday)
  {
  }

  /**
   * `toBoolean()`: everything but `0`, `false` in any case and the empty
   * string is true; on the four texts `isBoolean()` lets through it is
   * true exactly for `true` and `1`.
   */
  function ToBoolean(v: string): (b: bool)
    ensures !b ==> |v| == 0 || |v| == 1 || |v| == 5
    ensures BooleanText(v) ==> (b <==> v == "true" || v == "1")
  {
    assert ToLower("true") == "true" && ToLower("1") == "1";
    !(v == "0" || ToLower(v) == "false" || v == "")
  }

  /**
   * The attributes the handlers pass to the model once the sanitisers have
   * run: text trimmed, the date and the salary converted, the flag made
   * a boolean. A date or salary that is not one is dropped (the request is
   * refused before this matters).
   */
  function Sanitize(b: Body): (a: NodeEmployee.Attrs)
    ensures a.firstName.Some? <==> b.firstName.Some?
    ensures b.firstName.Some? ==> a.firstName.value == Trim(b.firstName.value)
    ensures a.isActive.Some? <==> b.isActive.Some?
  {
    NodeEmployee.Attrs(
      if b.firstName.Some? then Some(Trim(b.firstName.value)) else None,
      if b.lastName.Some? then Some(Trim(b.lastName.value)) else None,
      if b.email.Some? then Some(Trim(b.email.value)) else None,
      if b.department.Some? then Some(Trim(b.department.value)) else None,
      if b.position.Some? then Some(Trim(b.position.value)) else None,
      if b.hireDate.Instant? then Some(b.hireDate.at) else None,
      if b.salary.Num? then Some(b.salary.value) else None,
      if b.isActive.Some? then Some(ToBoolean(b.isActive.value)) else None)
  }

  /** The flag a valid body carries reaches the model as the boolean it spells. */
  lemma SanitizedFlag(v: string)
    requires BooleanText(v)
    ensures ToBoolean(v) <==> v == "true" || v == "1"
  {
    assert ToLower("true") == "true";
    assert ToLower("1") == "1";
  }

  /**
   * A body that passes the create chain also meets every model constraint
   * once sanitised, provided its hire date is not after the instant the
   * model checks against (the chain allows the rest of the current day).
   */
  lemma CreateChainMeetsModel(b: Body, isEmail: string -> bool, endOfToday: int, id: int, now: int)
    requires CreateValid(b, isEmail, endOfToday)
    requires b.hireDate.at <= now
    ensures NodeEmployee.Create(Sanitize(b), id, now, isEmail).Some?
  {
    var a := Sanitize(b);
    assert a.firstName == Some(Trim(b.firstName.value)) && a.lastName == Some(Trim(b.lastName.value));
    assert a.email == Some(Trim(b.email.value)) && a.department == Some(Trim(b.department.value));
    assert a.position == Some(Trim(b.position.value)) && a.hireDate == Some(b.hireDate.at);
    var row := NodeEmployee.Row(id, a.firstName.value, a.lastName.value, a.email.value, a.department.value,
                                a.position.value, a.hireDate.value, a.salary, true, now, now);
    assert NodeEmployee.NameOk(row.firstName) && NodeEmployee.NameOk(row.lastName);
    assert NodeEmployee.EmailOk(row.email, isEmail);
    assert NodeEmployee.DepartmentOk(row.department) && NodeEmployee.PositionOk(row.position);
    assert NodeEmployee.SalaryOk(row.salary);
    assert NodeEmployee.RowValid(row, isEmail, now);
  }

  /** The same for the update chain and the attributes the model checks on update. */
  lemma UpdateChainMeetsModel(b: Body, isEmail: string -> bool, endOfToday: int, now: int)
    requires UpdateValid(b, isEmail, endOfToday)
    requires b.hireDate.Instant? ==> b.hireDate.at <= now
    ensures NodeEmployee.GivenValid(Sanitize(b), isEmail, now)
  {
  }

  /** The model alone is weaker: it accepts a name with a digit, which the chain refuses. */
  lemma ChainStricterThanModel()
    ensures NodeEmployee.NameOk("Jo3")
    ensures !NameText("Jo3")
  {
    assert Trim("Jo3") == "Jo3" by {
      assert !IsWhitespace('J') && !IsWhitespace('3');
      TrimShape("Jo3");
    }
    assert "Jo3"[2] == '3';
  }

  // ---------------------------------------------------------------------
  // the id parameter and the list query
  // ---------------------------------------------------------------------

  predicate AllDigits(s: string) {
    forall i :: 0 <= i < |s| ==> IsDigit(s[i])
  }

  /** `isInt()`: an optional sign and one or more decimal digits, nothing else. */
  function IntText(s: string): (r: Option<int>)
    ensures r.Some? ==> s != [] && !IsWhitespace(s[0])
  {
    var neg := s != [] && s[0] == '-';
    var u := if s != [] && (s[0] == '-' || s[0] == '+') then s[1..] else s;
    if u != [] && AllDigits(u) then Some(if neg then -(DigitsValue(u) as int) else DigitsValue(u)) else None
  }

  /** `isInt()` text reads back to the same value under `toInt()`, that is `parseInt`. */
  lemma IntTextParses(s: string)
    requires IntText(s).Some?
    ensures ParseInt(s) == IntText(s)
  {
    assert WhitespaceRun(s) == 0;
    assert s[0..] == s;
    var u := if s[0] == '-' || s[0] == '+' then s[1..] else s;
    DigitRunAll(u);
    assert u[..|u|] == u;
  }

  /** Every natural number printed in decimal is `isInt()` text of that value. */
  lemma NatTextIsInt(n: nat)
    ensures IntText(NatToString(n)) == Some(n)
  {
    var s := NatToString(n);
    assert IsDigit(s[0]);
  }

  /** `isInt()` text reads back under `parseInt`, stated for any text. */
  lemma IntTextParsesIfInt(s: string)
    ensures IntText(s).Some? ==> ParseInt(s) == IntText(s)
  {
    if IntText(s).Some? {
      IntTextParses(s);
    }
  }

  /**
   * `validateEmployeeId`: an integer of at least 1, with no white space in
   * front, which `toInt()` turns into that positive id.
   */
  function IdParamValid(s: string): (ok: bool)
    ensures ok ==> s != [] && !IsWhitespace(s[0])
    ensures ok ==> ParseInt(s).Some? && ParseInt(s).value >= 1
  {
    IntTextParsesIfInt(s);
    IntText(s).Some? && IntText(s).value >= 1
  }

  /** Some ids the route accepts and some it refuses: a sign and leading zeros are allowed, white space is not. */
  lemma IdParamExamples()
    ensures IdParamValid("1") && IdParamValid("+7") && IdParamValid("007")
    ensures !IdParamValid("0") && !IdParamValid("-3") && !IdParamValid(" 5") && !IdParamValid("")
  {
    assert IntText("007") == Some(7) by {
      assert DigitsValue("007") == DigitsValue("00") * 10 + 7 by { assert "007"[..2] == "00"; }
      assert DigitsValue("00") == 0 by { assert "00"[..1] == "0"; }
    }
    assert IntText("+7") == Some(7) by {
      assert "+7"[1..] == "7" && AllDigits("7") && DigitsValue("7") == 7 by { assert "7"[..0] == []; }
    }
    assert IntText("-3") == Some(-3) by {
      assert "-3"[1..] == "3" && AllDigits("3") && DigitsValue("3") == 3 by { assert "3"[..0] == []; }
    }
  }

  /** The query parameters of the list route, as text; `None` is a parameter left out. */
  datatype Query = Query(
    page: Option<string>,
    limit: Option<string>,
    department: Option<string>,
    isActive: Option<string>,
    search: Option<string>,
    sortBy: Option<string>,
    sortOrder: Option<string>)

  const SortFields: seq<string> := ["firstName", "lastName", "email", "department", "position", "hireDate",
                                    "salary", "createdAt"]

  const SortOrders: seq<string> := ["ASC", "DESC", "asc", "desc"]

  /**
   * `validateQueryParams`: a query without parameters passes; a page or a
   * page size that passes reads back under `toInt()` in its range.
   */
  function QueryValid(q: Query): (ok: bool)
    ensures q == Query(None, None, None, None, None, None, None) ==> ok
    ensures ok && q.page.Some? ==> ParseInt(q.page.value).Some? && ParseInt(q.page.value).value >= 1
    ensures ok && q.limit.Some? ==> ParseInt(q.limit.value).Some? && 1 <= ParseInt(q.limit.value).value <= 100
  {
    IntTextParsesIfInt(if q.page.Some? then q.page.value else "");
    IntTextParsesIfInt(if q.limit.Some? then q.limit.value else "");
    (q.page.Some? ==> IntText(q.page.value).Some? && IntText(q.page.value).value >= 1) &&
    (q.limit.Some? ==> IntText(q.limit.value).Some? && 1 <= IntText(q.limit.value).value <= 100) &&
    (q.department.Some? ==> Trim(q.department.value) in NodeEmployee.Departments) &&
    (q.isActive.Some? ==> q.isActive.value == "true" || q.isActive.value == "false") &&
    (q.search.Some? ==> 1 <= |Trim(q.search.value)| <= 100) &&
    (q.sortBy.Some? ==> q.sortBy.value in SortFields) &&
    (q.sortOrder.Some? ==> q.sortOrder.value in SortOrders)
  }

  /** A valid page number, as `toInt()` leaves it. */
  function PageOf(q: Query): (p: nat)
    requires QueryValid(q)
    ensures p >= 1
    ensures q.page.None? ==> p == 1
  {
    if q.page.Some? then IntText(q.page.value).value else 1
  }

  /** A valid page size, as `toInt()` leaves it. */
  function LimitOf(q: Query): (l: nat)
    requires QueryValid(q)
    ensures 1 <= l <= 100
    ensures q.limit.None? ==> l == 10
  {
    if q.limit.Some? then IntText(q.limit.value).value else 10
  }
}
