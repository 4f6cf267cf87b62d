/**
 * The request handlers of the Node backend: the list query with its
 * where-clause and pagination, read by id, create, update, soft delete and
 * the statistics, over the `employees` table.
 *
 * The table is a map from id to row. The e-mail syntax check, the end of
 * the current day the validators compare against and the instant the model
 * checks against are parameters. The database's unique index on `email`
 * is the `UniqueEmails` invariant; a write that would break it is the
 * `SequelizeUniqueConstraintError` path.
 */
module NodeController {
  import opened Wrappers
  import opened Strings
  import opened Validation
  import NodeEmployee

  type Rows = map<int, NodeEmployee.Row>

  /** Every row is stored under its own id. */
  predicate WellKeyed(t: Rows) {
    forall k :: k in t ==> t[k].id == k
  }

  /** The unique index on `email`. */
  predicate UniqueEmails(t: Rows) {
    forall j, k :: j in t && k in t && t[j].email == t[k].email ==> j == k
  }

  /** A row other than `id` already holds the address. */
  predicate EmailHeldByOther(t: Rows, id: int, email: string) {
    exists k :: k in t && k != id && t[k].email == email
  }

  // ---------------------------------------------------------------------
  // pagination
  // ---------------------------------------------------------------------

  /** `(page - 1) * limit`: the rows the requested page skips. */
  function Offset(page: nat, limit: nat): (o: nat)
    requires page >= 1
    ensures page == 1 ==> o == 0
    ensures page > 1 && limit >= 1 ==> o >= limit
  {
    (page - 1) * limit
  }

  /** `Math.ceil(count / limit)`: the fewest pages of `limit` rows that hold `count` rows. */
  function TotalPages(count: nat, limit: nat): (n: nat)
    requires limit >= 1
    ensures n * limit >= count
    ensures n == 0 || (n - 1) * limit < count
  {
    var n := (count + limit - 1) / limit;
    CeilingBounds(count, limit, n);
    n
  }

  lemma CeilingBounds(count: nat, limit: nat, n: int)
    requires limit >= 1 && n == (count + limit - 1) / limit
    ensures n >= 0 && n * limit >= count && (n == 0 || (n - 1) * limit < count)
  {
    var x := count + limit - 1;
    assert x == n * limit + x % limit && 0 <= x % limit < limit;
    assert n * limit > x - limit;
    assert n * limit <= x;
  }

  /** Beyond page `p` there is another page exactly when `p` full pages do not hold every row. */
  lemma BelowTotalPages(count: nat, limit: nat, p: int)
    requires limit >= 1
    ensures p < TotalPages(count, limit) <==> p * limit < count
  {
    var n: int := TotalPages(count, limit);
    if p < n {
      MulMonotone(p, n - 1, limit);
    } else {
      MulMonotone(n, p, limit);
    }
  }

  lemma MulMonotone(a: int, b: int, c: nat)
    requires a <= b
    ensures a * c <= b * c
  {
    assert b * c - a * c == (b - a) * c;
  }

  datatype Pagination = Pagination(
    currentPage: nat,
    totalPages: nat,
    totalEmployees: nat,
    hasNextPage: bool,
    hasPrevPage: bool)

  /** The `pagination` block of the list response. */
  function Paginate(page: nat, limit: nat, count: nat): (p: Pagination)
    requires page >= 1 && limit >= 1
    ensures p.currentPage == page && p.totalEmployees == count
    ensures p.totalPages * limit >= count
  {
    var total := TotalPages(count, limit);
    Pagination(page, total, count, page < total, page > 1)
  }

  /**
   * A next page is reported exactly when rows remain after this one, and a
   * previous page exactly when this one skips some rows.
   */
  lemma PaginationMeaning(page: nat, limit: nat, count: nat)
    requires page >= 1 && limit >= 1
    ensures Paginate(page, limit, count).hasNextPage <==> Offset(page, limit) + limit < count
    ensures Paginate(page, limit, count).hasPrevPage <==> Offset(page, limit) > 0
  {
    BelowTotalPages(count, limit, page);
    assert Offset(page, limit) + limit == page * limit;
  }

  // ---------------------------------------------------------------------
  // the where-clause
  // ---------------------------------------------------------------------

  /** The where-clause of the list query; the active flag is always set. */
  datatype Where = Where(department: Option<string>, isActive: bool, search: Option<string>)

  /**
   * The clause built from the query once the sanitisers have trimmed the
   * department and the search term: each is used only when non-empty, and
   * the flag compares the parameter with the text `true`, so the boolean
   * default of an absent parameter makes it false.
   */
  function BuildWhere(q: Query): (w: Where)
    ensures w.isActive <==> q.isActive == Some("true")
    ensures w.department.Some? ==> q.department.Some? && w.department.value == Trim(q.department.value)
    ensures w.search.Some? ==> q.search.Some? && w.search.value == Trim(q.search.value)
  {
    var department := if q.department.Some? && Trim(q.department.value) != [] then
                        Some(Trim(q.department.value)) else None;
    var isActive := q.isActive.Some? && q.isActive.value == "true";
    var search := if q.search.Some? && Trim(q.search.value) != [] then Some(Trim(q.search.value)) else None;
    Where(department, isActive, search)
  }

  /** The `Op.or` of `iLike '%term%'` over the four searched columns; the department is not one. */
  predicate SearchHit(r: NodeEmployee.Row, term: string) {
    var p := "%" + term + "%";
    ILike(r.firstName, p) || ILike(r.lastName, p) || ILike(r.email, p) || ILike(r.position, p)
  }

  predicate Matches(r: NodeEmployee.Row, w: Where) {
    (w.department.Some? ==> r.department == w.department.value) &&
    r.isActive == w.isActive &&
    (w.search.Some? ==> SearchHit(r, w.search.value))
  }

  /** The ids of the rows the clause selects. */
  function MatchingIds(t: Rows, w: Where): (ids: set<int>)
    ensures forall k :: k in ids <==> k in t && Matches(t[k], w)
  {
    set k | k in t && Matches(t[k], w)
  }

  /** Leaving out the flag lists the inactive rows only. */
  lemma AbsentFlagListsInactive(t: Rows, q: Query, k: int)
    requires q.isActive.None? && k in MatchingIds(t, BuildWhere(q))
    ensures !t[k].isActive
  {
  }

  /** The search never looks at the department. */
  lemma SearchIgnoresDepartment(r: NodeEmployee.Row, term: string, d: string)
    ensures SearchHit(r.(department := d), term) <==> SearchHit(r, term)
  {
  }

  /**
   * For a valid query whose search term holds no wildcard, a row is listed
   * exactly when it is in the named department (if any), its flag equals
   * the parameter spelling `true`, and the term occurs, ignoring case, in
   * its first name, last name, e-mail or position (if a term is given).
   */
  lemma ListedMeaning(r: NodeEmployee.Row, q: Query)
    requires QueryValid(q)
    requires q.search.Some? ==> NoWildcards(Trim(q.search.value))
    ensures Matches(r, BuildWhere(q)) <==>
      ((q.department.Some? ==> r.department == Trim(q.department.value)) &&
       (r.isActive <==> q.isActive == Some("true")) &&
       (q.search.Some? ==>
          (var term := ToLower(Trim(q.search.value));
           Contains(ToLower(r.firstName), term) || Contains(ToLower(r.lastName), term) ||
           Contains(ToLower(r.email), term) || Contains(ToLower(r.position), term))))
  {
    if q.department.Some? {
      assert Trim(q.department.value) != [] by {
        NodeEmployee.DepartmentListExcludesEmpty();
      }
    }
    if q.search.Some? {
      var term := Trim(q.search.value);
      assert term != [];
      ILikeContains(r.firstName, term);
      ILikeContains(r.lastName, term);
      ILikeContains(r.email, term);
      ILikeContains(r.position, term);
    }
  }

  // ---------------------------------------------------------------------
  // responses and error mapping
  // ---------------------------------------------------------------------

  datatype Response = Response(status: int, message: string)

  /** What the model or the database can throw inside a handler's `try`. */
  datatype Failure = UniqueConstraint | ModelValidation | OtherFailure

  const ValidationFailed := "Validation failed"
  const NotFound := "Employee not found"

  /**
   * The `catch` of the create and update handlers: both named Sequelize
   * errors are the client's fault (400), anything else is a 500 naming the
   * action (`creating` or `updating`).
   */
  function ErrorResponse(f: Failure, action: string): (r: Response)
    ensures r.status == 400 <==> !f.OtherFailure?
    ensures r.status == 500 <==> f.OtherFailure?
    ensures f.UniqueConstraint? ==> r.message == "Email address already exists"
    ensures f.ModelValidation? ==> r.message == ValidationFailed
    ensures f.OtherFailure? ==> r.message == "Error " + action + " employee"
  {
    match f
    case UniqueConstraint => Response(400, "Email address already exists")
    case ModelValidation => Response(400, ValidationFailed)
    case OtherFailure => Response(500, "Error " + action + " employee")
  }

  /** The messages of the two catches differ only on the 500 path. */
  lemma ErrorResponsesAgree(f: Failure)
    ensures f.OtherFailure? <==> ErrorResponse(f, "creating") != ErrorResponse(f, "updating")
  {
    if f.OtherFailure? {
      assert ErrorResponse(f, "creating").message[6] == 'c';
      assert ErrorResponse(f, "updating").message[6] == 'u';
    }
  }

  /** The response body of a read: the JSON form without `updatedAt`. */
  function Visible(r: NodeEmployee.Row): (m: map<string, NodeEmployee.Json>)
    ensures "updatedAt" !in m && "fullName" in m
    ensures forall k :: k in m <==> k in NodeEmployee.ToJson(r) && k != "updatedAt"
  {
    NodeEmployee.ToJson(r) - {"updatedAt"}
  }

  // ---------------------------------------------------------------------
  // creating
  // ---------------------------------------------------------------------

  /** What a create request comes to. */
  datatype CreateOutcome =
    | Refused                          // the validator chain failed
    | ModelRefused                     // `SequelizeValidationError`
    | Duplicate(row: NodeEmployee.Row) // `SequelizeUniqueConstraintError`
    | Inserted(row: NodeEmployee.Row)

  /**
   * The decision `createEmployee` takes on table `t` with `id` the next
   * sequence value: the chain first, then the model's constraints, then the
   * unique index.
   */
  function CreateStep(t: Rows, id: int, b: Body, isEmail: string -> bool, endOfToday: int, now: int)
    : (o: CreateOutcome)
    ensures o.Inserted? ==> o.row.id == id && !EmailHeldByOther(t, id, o.row.email)
  {
    if !CreateValid(b, isEmail, endOfToday) then Refused
    else
      match NodeEmployee.Create(Sanitize(b), id, now, isEmail)
      case None => ModelRefused
      case Some(row) => if EmailHeldByOther(t, id, row.email) then Duplicate(row) else Inserted(row)
  }

  /** The chain is checked first, the model's constraints next and the unique index last. */
  lemma CreateStepOrder(t: Rows, id: int, b: Body, isEmail: string -> bool, endOfToday: int, now: int)
    ensures CreateStep(t, id, b, isEmail, endOfToday, now).Refused? <==> !CreateValid(b, isEmail, endOfToday)
    ensures CreateStep(t, id, b, isEmail, endOfToday, now).ModelRefused? <==>
      CreateValid(b, isEmail, endOfToday) && NodeEmployee.Create(Sanitize(b), id, now, isEmail).None?
    ensures CreateStep(t, id, b, isEmail, endOfToday, now).Duplicate? <==>
      CreateValid(b, isEmail, endOfToday) && NodeEmployee.Create(Sanitize(b), id, now, isEmail).Some? &&
      EmailHeldByOther(t, id, NodeEmployee.Create(Sanitize(b), id, now, isEmail).value.email)
  {
    if CreateValid(b, isEmail, endOfToday) {
      var made := NodeEmployee.Create(Sanitize(b), id, now, isEmail);
      assert CreateStep(t, id, b, isEmail, endOfToday, now) ==
        (if made.None? then ModelRefused
         else if EmailHeldByOther(t, id, made.value.email) then Duplicate(made.value) else Inserted(made.value));
    }
  }

  /** A row that gets past the model meets all its constraints and is active unless the body says otherwise. */
  lemma CreateStepRow(t: Rows, id: int, b: Body, isEmail: string -> bool, endOfToday: int, now: int)
    requires CreateValid(b, isEmail, endOfToday)
    requires NodeEmployee.Create(Sanitize(b), id, now, isEmail).Some?
    ensures (var row := NodeEmployee.Create(Sanitize(b), id, now, isEmail).value;
             CreateStep(t, id, b, isEmail, endOfToday, now) ==
               (if EmailHeldByOther(t, id, row.email) then Duplicate(row) else Inserted(row)) &&
             NodeEmployee.RowValid(row, isEmail, now) && row.id == id &&
             row.isActive == Sanitize(b).isActive.GetOr(true))
  {
  }

  /** The status and message each outcome is answered with. */
  function CreateResponse(o: CreateOutcome): (r: Response)
    ensures r.status == 201 <==> o.Inserted?
    ensures r.status == 400 <==> !o.Inserted?
    ensures o.Refused? || o.ModelRefused? ==> r.message == ValidationFailed
    ensures o.Duplicate? ==> r.message == "Email address already exists"
  {
    match o
    case Refused => Response(400, ValidationFailed)
    case ModelRefused => ErrorResponse(ModelValidation, "creating")
    case Duplicate(_) => ErrorResponse(UniqueConstraint, "creating")
    case Inserted(_) => Response(201, "Employee created successfully")
  }

  /**
   * A body the chain accepts, with its hire date not after the model's
   * instant and an address no row holds, is always inserted.
   */
  lemma CreateSucceeds(t: Rows, id: int, b: Body, isEmail: string -> bool, endOfToday: int, now: int)
    requires CreateValid(b, isEmail, endOfToday) && b.hireDate.at <= now
    requires !EmailHeldByOther(t, id, Trim(b.email.value))
    ensures CreateStep(t, id, b, isEmail, endOfToday, now).Inserted?
  {
    CreateChainMeetsModel(b, isEmail, endOfToday, id, now);
    assert Sanitize(b).email == Some(Trim(b.email.value));
  }

  /** Inserting a row under a fresh id whose address no row holds keeps the table valid. */
  lemma InsertKeepsValid(t: Rows, id: int, row: NodeEmployee.Row)
    requires WellKeyed(t) && UniqueEmails(t) && id !in t
    requires row.id == id && !EmailHeldByOther(t, id, row.email)
    ensures WellKeyed(t[id := row]) && UniqueEmails(t[id := row])
  {
  }

  // ---------------------------------------------------------------------
  // the table and the handlers
  // ---------------------------------------------------------------------

  class Table {
    var rows: Rows
    /** The next value of the id sequence. */
    var nextId: int

    ghost predicate Valid()
      reads this
    {
      WellKeyed(rows) && UniqueEmails(rows) && forall k :: k in rows ==> k < nextId
    }

    constructor ()
      ensures Valid() && rows == map[] && nextId == 1
    {
      rows := map[];
      nextId := 1;
    }

    /** `getAllEmployees` on a query that passed its validators: the selected rows and the pagination block. */
    method GetAll(q: Query) returns (listed: set<NodeEmployee.Row>, page: Pagination)
      requires QueryValid(q)
      ensures forall r :: r in listed <==> exists k :: k in rows && rows[k] == r && Matches(r, BuildWhere(q))
      ensures page == Paginate(PageOf(q), LimitOf(q), |MatchingIds(rows, BuildWhere(q))|)
    {
      var w := BuildWhere(q);
      var ids := MatchingIds(rows, w);
      listed := set k | k in ids :: rows[k];
      page := Paginate(PageOf(q), LimitOf(q), |ids|);
    }

    /** `getEmployeeById`. */
    method GetById(id: int) returns (resp: Response, data: Option<map<string, NodeEmployee.Json>>)
      ensures id in rows ==> resp == Response(200, "") && data == Some(Visible(rows[id]))
      ensures id !in rows ==> resp == Response(404, NotFound) && data.None?
    {
      if id !in rows {
        return Response(404, NotFound), None;
      }
      resp, data := Response(200, ""), Some(Visible(rows[id]));
    }

    /**
     * `createEmployee`: the outcome of `CreateStep` on the current table and
     * the next sequence value. Only an insert changes the table; the sequence
     * moves on with every insert attempt, including the one the unique index
     * refuses.
     */
    method Create(b: Body, isEmail: string -> bool, endOfToday: int, now: int)
      returns (outcome: CreateOutcome, resp: Response)
      requires Valid()
      modifies this
      ensures Valid()
      ensures outcome == CreateStep(old(rows), old(nextId), b, isEmail, endOfToday, now)
      ensures resp == CreateResponse(outcome)
      ensures rows == (if outcome.Inserted? then old(rows)[old(nextId) := outcome.row] else old(rows))
      ensures nextId == (if outcome.Inserted? || outcome.Duplicate? then old(nextId) + 1 else old(nextId))
    {
      outcome := CreateStep(rows, nextId, b, isEmail, endOfToday, now);
      resp := CreateResponse(outcome);
      if outcome.Inserted? {
        InsertKeepsValid(rows, nextId, outcome.row);
        rows := rows[nextId := outcome.row];
        nextId := nextId + 1;
      } else if outcome.Duplicate? {
        nextId := nextId + 1;
      }
    }

    /**
     * `updateEmployee`. A body the chain refuses is a 400, an unknown id a
     * 404, a value the model refuses a 400 and an address held by another
     * row the unique-index 400; in each case nothing changes. Otherwise
     * only that row changes, to the model's update of it.
     */
    method Update(id: int, b: Body, isEmail: string -> bool, endOfToday: int, now: int)
      returns (resp: Response, updated: Option<NodeEmployee.Row>)
      requires Valid()
      modifies this`rows
      ensures Valid()
      ensures !UpdateValid(b, isEmail, endOfToday) ==> resp == Response(400, ValidationFailed) && rows == old(rows)
      ensures UpdateValid(b, isEmail, endOfToday) && id !in old(rows) ==>
        resp == Response(404, NotFound) && rows == old(rows)
      ensures UpdateValid(b, isEmail, endOfToday) && id in old(rows) ==>
        (var u := NodeEmployee.Update(old(rows)[id], Sanitize(b), now, isEmail);
         if u.None? then
           resp == ErrorResponse(ModelValidation, "updating") && rows == old(rows)
         else if EmailHeldByOther(old(rows), id, u.value.email) then
           resp == ErrorResponse(UniqueConstraint, "updating") && rows == old(rows)
         else
           resp == Response(200, "Employee updated successfully") && updated == Some(u.value) &&
           rows == old(rows)[id := u.value])
      ensures UpdateValid(b, isEmail, endOfToday) && id in old(rows) && b.email.None? &&
              (b.hireDate.Instant? ==> b.hireDate.at <= now) ==>
        resp.status == 200
      ensures resp.status == 200 <==> updated.Some?
    {
      if !UpdateValid(b, isEmail, endOfToday) {
        return Response(400, ValidationFailed), None;
      }
      if id !in rows {
        return Response(404, NotFound), None;
      }
      if b.hireDate.Instant? ==> b.hireDate.at <= now {
        UpdateChainMeetsModel(b, isEmail, endOfToday, now);
      }
      var u := NodeEmployee.Update(rows[id], Sanitize(b), now, isEmail);
      if u.None? {
        return ErrorResponse(ModelValidation, "updating"), None;
      }
      if EmailHeldByOther(rows, id, u.value.email) {
        return ErrorResponse(UniqueConstraint, "updating"), None;
      }
      rows := rows[id := u.value];
      resp, updated := Response(200, "Employee updated successfully"), u;
    }

    /**
     * `deleteEmployee`: an unknown id is a 404 and nothing changes;
     * otherwise the row stays and becomes inactive.
     */
    method Delete(id: int, isEmail: string -> bool, now: int) returns (resp: Response)
      requires Valid()
      modifies this`rows
      ensures Valid()
      ensures id !in old(rows) ==> resp == Response(404, NotFound) && rows == old(rows)
      ensures id in old(rows) ==>
        resp == Response(200, "Employee deleted successfully") && rows.Keys == old(rows).Keys &&
        rows == old(rows)[id := if old(rows)[id].isActive then old(rows)[id].(isActive := false, updatedAt := now)
                                else old(rows)[id]]
    {
      if id !in rows {
        return Response(404, NotFound);
      }
      NodeEmployee.DeactivateOnlyClearsFlag(rows[id], now, isEmail);
      var u := NodeEmployee.Update(rows[id], NodeEmployee.Deactivate, now, isEmail);
      rows := rows[id := u.value];
      resp := Response(200, "Employee deleted successfully");
    }

    /**
     * `getEmployeeStats`: the counts of active and inactive rows, which
     * together count every row, and per department the active rows in it.
     */
    method Stats() returns (totalEmployees: nat, totalInactive: nat, departments: map<string, nat>)
      ensures totalEmployees == |set k | k in rows && rows[k].isActive|
      ensures totalInactive == |set k | k in rows && !rows[k].isActive|
      ensures totalEmployees + totalInactive == |rows|
      ensures forall d :: d in departments <==> exists k :: k in rows && rows[k].isActive && rows[k].department == d
      ensures forall d :: d in departments ==> departments[d] == |ActiveIn(rows, d)| && departments[d] >= 1
    {
      var active := set k | k in rows && rows[k].isActive;
      var inactive := set k | k in rows && !rows[k].isActive;
      assert active + inactive == rows.Keys;
      assert active * inactive == {};
      totalEmployees, totalInactive := |active|, |inactive|;
      departments := DepartmentCounts(rows);
    }
  }

  /** The ids of the active rows in department `d`. */
  function ActiveIn(t: Rows, d: string): set<int> {
    set k | k in t && t[k].isActive && t[k].department == d
  }

  /** The departments that have an active row. */
  function ActiveDepartments(t: Rows): set<string> {
    set k | k in t && t[k].isActive :: t[k].department
  }

  /** The `GROUP BY department` of the active rows with `COUNT(id)`. */
  function DepartmentCounts(t: Rows): (m: map<string, nat>)
    ensures forall d :: d in m <==> exists k :: k in t && t[k].isActive && t[k].department == d
    ensures forall d :: d in m ==> m[d] == |ActiveIn(t, d)| && m[d] >= 1
  {
    var m := map d | d in ActiveDepartments(t) :: |ActiveIn(t, d)|;
    forall d | d in m ensures m[d] >= 1 {
      var k :| k in t && t[k].isActive && t[k].department == d;
      assert k in ActiveIn(t, d);
    }
    m
  }

  /** A soft delete drops the row from the active count and adds it to the inactive one. */
  lemma SoftDeleteMovesCount(t: Rows, id: int, now: int)
    requires id in t && t[id].isActive
    ensures (var t' := t[id := t[id].(isActive := false, updatedAt := now)];
             (set k | k in t' && t'[k].isActive) == (set k | k in t && t[k].isActive) - {id} &&
             (set k | k in t' && !t'[k].isActive) == (set k | k in t && !t[k].isActive) + {id})
  {
  }
}
