/**
 * The Spring service over the employee repository: create with an e-mail
 * check, update with an e-mail check against the other rows, soft and hard
 * delete. A thrown `RuntimeException` is an `Err` carrying its message;
 * the table is unchanged on every error path. The `employees` table
 * declares its e-mail column `UNIQUE`, so the database refuses any write
 * that would give two rows one address.
 */
module EmployeeService {
  import opened Wrappers
  import opened Strings
  import opened EmployeeRepository

  /**
   * An employee as it reaches `saveEmployee` or `updateEmployee`: a detached
   * entity whose id is `null` (`None`) for a new one.
   */
  datatype Details = Details(
    id: Option<int>,
    firstName: string,
    lastName: string,
    email: string,
    department: string,
    position: string,
    hireDate: int,
    salary: Option<real>,
    isActive: bool)

  /** The row a detached entity becomes once stored under `id`. */
  function RowOf(d: Details, id: int): (e: Employee)
    ensures e.id == id && e.email == d.email && e.isActive == d.isActive
  {
    Employee(id, d.firstName, d.lastName, d.email, d.department, d.position, d.hireDate, d.salary, d.isActive)
  }

  /** No two rows share an e-mail address. */
  predicate UniqueEmails(t: Table) {
    forall j, k :: j in t && k in t && t[j].email == t[k].email ==> j == k
  }

  const EmailTaken := "Email already exists"

  /**
   * Stands for the `DataIntegrityViolationException` the unique e-mail
   * column raises; the driver's own wording is not modelled.
   */
  const DuplicateEmail := "Duplicate entry for key 'email'"

  function NotFound(id: int): string {
    "Employee not found with id: " + IntToString(id)
  }

  // ---------------------------------------------------------------------
  // saving
  // ---------------------------------------------------------------------

  /** `validateEmployee`: only a new entity is checked, against every row. */
  function Validate(t: Table, d: Details): (r: Option<string>)
    ensures r.Some? <==> d.id.None? && ExistsByEmail(t, d.email)
    ensures r.Some? ==> r.value == EmailTaken
  {
    if d.id.None? && ExistsByEmail(t, d.email) then Some(EmailTaken) else None
  }

  /**
   * The id `save` stores under. An entity without an id, or with an id the
   * table does not hold, is inserted under the next generated id (the merge
   * of an entity whose id is unknown inserts a new row); an id the table
   * holds is updated in place.
   */
  function SaveId(d: Details, t: Table, nextId: int): (id: int)
    ensures d.id.Some? && d.id.value in t ==> id == d.id.value
    ensures (d.id.None? || d.id.value !in t) ==> id == nextId
  {
    if d.id.Some? && d.id.value in t then d.id.value else nextId
  }

  /** The unique e-mail column refuses the write: a row other than `id` holds the address. */
  predicate IndexConflict(t: Table, d: Details, id: int) {
    exists k :: k in t && k != id && t[k].email == d.email
  }

  /**
   * Writing a row whose address no other row holds keeps the addresses
   * unique, and a write the unique column refuses would have broken them.
   */
  lemma WriteKeepsEmailsUnique(t: Table, d: Details, id: int)
    requires UniqueEmails(t)
    ensures UniqueEmails(t[id := RowOf(d, id)]) <==> !IndexConflict(t, d, id)
  {
    var t' := t[id := RowOf(d, id)];
    if IndexConflict(t, d, id) {
      var k :| k in t && k != id && t[k].email == d.email;
      assert k in t' && t'[k].email == t'[id].email;
    }
  }

  /** A new entity with a fresh address keeps the addresses unique. */
  lemma SaveNewKeepsEmailsUnique(t: Table, d: Details, nextId: int)
    requires UniqueEmails(t) && WellKeyed(t) && nextId !in t
    requires Validate(t, d).None? && d.id.None?
    ensures UniqueEmails(t[nextId := RowOf(d, nextId)])
    ensures WellKeyed(t[nextId := RowOf(d, nextId)])
  {
  }

  /**
   * The service's own check does not refuse an entity that carries an id,
   * even one whose address another row holds: only the unique column stops
   * that write, which would otherwise break uniqueness.
   */
  lemma SaveWithIdSkipsCheck(t: Table, d: Details, nextId: int)
    requires d.id.Some?
    requires IndexConflict(t, d, SaveId(d, t, nextId))
    ensures Validate(t, d).None?
    ensures !UniqueEmails(t[SaveId(d, t, nextId) := RowOf(d, SaveId(d, t, nextId))])
  {
    var id := SaveId(d, t, nextId);
    var k :| k in t && k != id && t[k].email == d.email;
    var t' := t[id := RowOf(d, id)];
    assert k in t' && t'[k].email == t'[id].email;
  }

  // ---------------------------------------------------------------------
  // updating
  // ---------------------------------------------------------------------

  /** The managed row after the seven setters: id and the active flag are kept. */
  function Updated(e: Employee, d: Details): (r: Employee)
    ensures r.id == e.id && r.isActive == e.isActive
    ensures r.firstName == d.firstName && r.lastName == d.lastName && r.email == d.email
    ensures r.department == d.department && r.position == d.position
    ensures r.hireDate == d.hireDate && r.salary == d.salary
  {
    e.(firstName := d.firstName, lastName := d.lastName, email := d.email, department := d.department,
       position := d.position, hireDate := d.hireDate, salary := d.salary)
  }

  /** What `updateEmployee` does: the error it throws, or the row it saves. */
  function UpdateOutcome(t: Table, id: int, d: Details): (r: Result<Employee, string>)
    ensures id !in t ==> r == Err(NotFound(id))
    ensures id in t && t[id].email != d.email && ExistsByEmailAndIdNot(t, d.email, id) ==> r == Err(EmailTaken)
    ensures id in t && !(t[id].email != d.email && ExistsByEmailAndIdNot(t, d.email, id)) ==>
      r == Ok(Updated(t[id], d))
  {
    if id !in t then Err(NotFound(id))
    else if t[id].email != d.email && ExistsByEmailAndIdNot(t, d.email, id) then Err(EmailTaken)
    else Ok(Updated(t[id], d))
  }

  /** A successful update keeps every address unique and every row under its id. */
  lemma UpdateKeepsEmailsUnique(t: Table, id: int, d: Details)
    requires UniqueEmails(t) && WellKeyed(t)
    requires UpdateOutcome(t, id, d).Ok?
    ensures UniqueEmails(t[id := UpdateOutcome(t, id, d).value])
    ensures WellKeyed(t[id := UpdateOutcome(t, id, d).value])
  {
  }

  /** Keeping one's own address is never refused. */
  lemma SameEmailAlwaysUpdates(t: Table, id: int, d: Details)
    requires id in t && d.email == t[id].email
    ensures UpdateOutcome(t, id, d) == Ok(Updated(t[id], d))
  {
  }

  // ---------------------------------------------------------------------
  // the service's state
  // ---------------------------------------------------------------------

  class Service {
    /** The employee table. */
    var table: Table
    /** The next value the identity column hands out. */
    var nextId: int

    ghost predicate Valid()
      reads this
    {
      WellKeyed(table) && UniqueEmails(table) && forall k :: k in table ==> k < nextId
    }

    constructor (initial: Table, next: int)
      requires WellKeyed(initial) && UniqueEmails(initial) && forall k :: k in initial ==> k < next
      ensures Valid() && table == initial && nextId == next
    {
      table := initial;
      nextId := next;
    }

    /** `getEmployeeById`. */
    method GetById(id: int) returns (r: Option<Employee>)
      ensures r.Some? <==> id in table
      ensures r.Some? ==> r.value == table[id]
    {
      if id in table {
        r := Some(table[id]);
      } else {
        r := None;
      }
    }

    /** `getAllActiveEmployees`. */
    method GetAllActive() returns (r: set<Employee>)
      ensures forall e :: e in r <==> (exists k :: k in table && table[k] == e) && e.isActive
    {
      r := FindByIsActiveTrue(table);
    }

    /**
     * `saveEmployee`: a new entity whose address is already stored is
     * refused by the service; an entity with an id whose address another
     * row holds is refused by the unique column. Otherwise the row replaces
     * the stored row with its id, or is inserted under a generated id. An
     * insert takes a value from the identity column even when the unique
     * column then refuses it.
     */
    method Save(d: Details) returns (r: Result<Employee, string>)
      requires Valid()
      modifies this
      ensures Valid()
      ensures Validate(old(table), d).Some? ==>
        r == Err(EmailTaken) && table == old(table) && nextId == old(nextId)
      ensures Validate(old(table), d).None? && IndexConflict(old(table), d, SaveId(d, old(table), old(nextId))) ==>
        r == Err(DuplicateEmail) && table == old(table)
      ensures Validate(old(table), d).None? && !IndexConflict(old(table), d, SaveId(d, old(table), old(nextId))) ==>
        r == Ok(RowOf(d, SaveId(d, old(table), old(nextId)))) &&
        table == old(table)[SaveId(d, old(table), old(nextId)) := r.value]
      ensures Validate(old(table), d).None? ==>
        nextId == (if SaveId(d, old(table), old(nextId)) in old(table) then old(nextId) else old(nextId) + 1)
      ensures UniqueEmails(table)
    {
      var error := Validate(table, d);
      if error.Some? {
        return Err(error.value);
      }
      var id := SaveId(d, table, nextId);
      var inserted := id !in table;
      if inserted {
        nextId := nextId + 1;
      }
      if IndexConflict(table, d, id) {
        return Err(DuplicateEmail);
      }
      var row := RowOf(d, id);
      WriteKeepsEmailsUnique(table, d, id);
      table := table[id := row];
      r := Ok(row);
    }

    /**
     * `updateEmployee`: an unknown id or an address held by another row is
     * refused and nothing changes; otherwise only that row changes.
     */
    method Update(id: int, d: Details) returns (r: Result<Employee, string>)
      requires Valid()
      modifies this`table
      ensures Valid()
      ensures r == UpdateOutcome(old(table), id, d)
      ensures r.Err? ==> table == old(table)
      ensures r.Ok? ==> table == old(table)[id := r.value]
      ensures UniqueEmails(table)
    {
      r := UpdateOutcome(table, id, d);
      if r.Ok? {
        UpdateKeepsEmailsUnique(table, id, d);
        table := table[id := r.value];
      }
    }

    /** `deleteEmployee`: a soft delete; the row stays and becomes inactive. */
    method Delete(id: int) returns (r: Result<(), string>)
      requires Valid()
      modifies this`table
      ensures Valid()
      ensures id !in old(table) ==> r == Err(NotFound(id)) && table == old(table)
      ensures id in old(table) ==> r.Ok? && table == old(table)[id := old(table)[id].(isActive := false)]
    {
      if id !in table {
        return Err(NotFound(id));
      }
      table := table[id := table[id].(isActive := false)];
      r := Ok(());
    }

    /** `hardDeleteEmployee`: the row is removed. */
    method HardDelete(id: int)
      requires Valid()
      modifies this`table
      ensures Valid()
      ensures table == old(table) - {id}
    {
      table := table - {id};
    }

    /** `existsById`. */
    method ExistsById(id: int) returns (b: bool)
      ensures b <==> id in table
    {
      b := EmployeeRepository.ExistsById(table, id);
    }
  }

  /** After a soft delete the row no longer appears among the active ones. */
  lemma SoftDeleteHidesRow(t: Table, id: int)
    requires WellKeyed(t) && id in t
    ensures FindByIsActiveTrue(t[id := t[id].(isActive := false)]) == FindByIsActiveTrue(t) - {t[id]}
    ensures ExistsById(t[id := t[id].(isActive := false)], id)
  {
    var t' := t[id := t[id].(isActive := false)];
    forall e | e in FindByIsActiveTrue(t) - {t[id]} ensures e in FindByIsActiveTrue(t') {
      var k :| k in t && t[k] == e;
      assert k != id;
      assert t'[k] == e;
    }
  }

  /**
   * The soft-deleted row drops out of the other active queries too: the
   * department, e-mail and search results lose exactly that row.
   */
  lemma SoftDeleteHidesRowFromQueries(t: Table, id: int, department: string, email: string, term: string)
    requires WellKeyed(t) && id in t
    ensures var t' := t[id := t[id].(isActive := false)];
      FindByDepartmentAndIsActiveTrue(t', department) == FindByDepartmentAndIsActiveTrue(t, department) - {t[id]}
    ensures var t' := t[id := t[id].(isActive := false)];
      FindByEmailAndIsActiveTrue(t', email) == FindByEmailAndIsActiveTrue(t, email) - {t[id]}
    ensures var t' := t[id := t[id].(isActive := false)];
      SearchActiveEmployees(t', term) == SearchActiveEmployees(t, term) - {t[id]}
  {
    var t' := t[id := t[id].(isActive := false)];
    forall e | e in FindByDepartmentAndIsActiveTrue(t, department) - {t[id]}
      ensures e in FindByDepartmentAndIsActiveTrue(t', department)
    {
      var k :| k in t && t[k] == e;
      assert k != id && t'[k] == e;
    }
    forall e | e in FindByEmailAndIsActiveTrue(t, email) - {t[id]}
      ensures e in FindByEmailAndIsActiveTrue(t', email)
    {
      var k :| k in t && t[k] == e;
      assert k != id && t'[k] == e;
    }
    forall e | e in SearchActiveEmployees(t, term) - {t[id]}
      ensures e in SearchActiveEmployees(t', term)
    {
      var k :| k in t && t[k] == e;
      assert k != id && t'[k] == e;
    }
  }
}
