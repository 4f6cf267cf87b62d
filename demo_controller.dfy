/**
 * The demo REST controller of the Java backend: employees held in memory as
 * a list of string-keyed maps, with a counter that hands out ids.
 *
 * A request body is a map from field name to value, where a key may be
 * absent and a present key may hold JSON `null`; values are modelled as
 * text (`None` for `null`). Java's `+` renders `null` as "null".
 */
module DemoController {
  import opened Wrappers
  import opened Seqs

  /** One stored entry. `fullName` is computed once, when the entry is written. */
  datatype DemoEmployee = DemoEmployee(
    id: int,
    firstName: Option<string>,
    lastName: Option<string>,
    fullName: string,
    email: Option<string>,
    department: Option<string>,
    position: Option<string>,
    salary: Option<string>,
    hireDate: Option<string>,
    isActive: bool)

  type Body = map<string, Option<string>>

  /** `String.valueOf(x)` as string concatenation applies it. */
  function Render(x: Option<string>): string {
    match x
    case None => "null"
    case Some(s) => s
  }

  /** `map.get(key)`: `null` both for an absent key and for a `null` value. */
  function Get(body: Body, key: string): Option<string> {
    if key in body then body[key] else None
  }

  /** `firstName + " " + lastName`: the first name, one space, the last name. */
  function FullName(first: Option<string>, last: Option<string>): (r: string)
    ensures |r| == |Render(first)| + 1 + |Render(last)|
    ensures r[..|Render(first)|] == Render(first) && r[|Render(first)|] == ' '
    ensures r[|Render(first)| + 1..] == Render(last)
  {
    Render(first) + " " + Render(last)
  }

  /** `getOrDefault("hireDate", "2024-01-01")`: only an absent key takes the default. */
  function HireDate(body: Body): (r: Option<string>)
    ensures "hireDate" !in body ==> r == Some("2024-01-01")
    ensures "hireDate" in body ==> r == body["hireDate"]
  {
    if "hireDate" in body then body["hireDate"] else Some("2024-01-01")
  }

  /** The entry `createEmployee` stores under the given id. */
  function NewEntry(id: int, body: Body): (e: DemoEmployee)
    ensures e.id == id && e.isActive && e.hireDate == HireDate(body)
    ensures e.firstName == Get(body, "firstName") && e.lastName == Get(body, "lastName")
    ensures e.fullName == FullName(Get(body, "firstName"), Get(body, "lastName"))
    ensures e.email == Get(body, "email") && e.department == Get(body, "department")
    ensures e.position == Get(body, "position") && e.salary == Get(body, "salary")
  {
    DemoEmployee(id, Get(body, "firstName"), Get(body, "lastName"),
      FullName(Get(body, "firstName"), Get(body, "lastName")),
      Get(body, "email"), Get(body, "department"), Get(body, "position"), Get(body, "salary"),
      HireDate(body), true)
  }

  /**
   * The entry after `updateEmployee`: names, e-mail, department, position
   * and salary are overwritten (with `null` when missing from the body);
   * id, hire date and the active flag are kept.
   */
  function Updated(e: DemoEmployee, body: Body): (r: DemoEmployee)
    ensures r.id == e.id && r.hireDate == e.hireDate && r.isActive == e.isActive
    ensures r.firstName == Get(body, "firstName") && r.lastName == Get(body, "lastName")
    ensures r.fullName == FullName(Get(body, "firstName"), Get(body, "lastName"))
    ensures r.email == Get(body, "email") && r.department == Get(body, "department")
    ensures r.position == Get(body, "position") && r.salary == Get(body, "salary")
  {
    e.(firstName := Get(body, "firstName"), lastName := Get(body, "lastName"),
       fullName := FullName(Get(body, "firstName"), Get(body, "lastName")),
       email := Get(body, "email"), department := Get(body, "department"),
       position := Get(body, "position"), salary := Get(body, "salary"))
  }

  /** Updating with the same body twice is updating once. */
  lemma UpdatedIdempotent(e: DemoEmployee, body: Body)
    ensures Updated(Updated(e, body), body) == Updated(e, body)
  {
  }

  /** Ids strictly increase along the list (so no id occurs twice). */
  predicate IdsIncreasing(s: seq<DemoEmployee>) {
    forall i, j :: 0 <= i < j < |s| ==> s[i].id < s[j].id
  }

  function IdIsNot(id: int): DemoEmployee -> bool { (e: DemoEmployee) => e.id != id }

  /** Removing entries keeps the remaining ids in increasing order. */
  lemma {:induction false} FilterKeepsIncreasing(s: seq<DemoEmployee>, id: int)
    requires IdsIncreasing(s)
    ensures IdsIncreasing(Filter(s, IdIsNot(id)))
    decreases |s|
  {
    if s != [] {
      FilterKeepsIncreasing(s[1..], id);
      var rest := Filter(s[1..], IdIsNot(id));
      forall x | x in rest ensures s[0].id < x.id {
        var j :| 0 <= j < |s[1..]| && s[1..][j] == x;
        assert s[j + 1] == x;
      }
    }
  }

  /**
   * The loop behind `removeIf`: the entries whose id differs, in order,
   * and whether any entry had the id.
   */
  method RemoveId(es: seq<DemoEmployee>, id: int) returns (kept: seq<DemoEmployee>, removed: bool)
    ensures kept == Filter(es, IdIsNot(id))
    ensures removed <==> HasId(es, id)
  {
    kept := [];
    var i := 0;
    removed := false;
    while i < |es|
      invariant 0 <= i <= |es|
      invariant kept == Filter(es[..i], IdIsNot(id))
      invariant removed <==> HasId(es[..i], id)
    {
      var x := es[i];
      RemoveIdStep(es, i, id);
      if x.id != id {
        kept := kept + [x];
      } else {
        removed := true;
      }
      i := i + 1;
    }
    assert es[..i] == es;
  }

  /** What one more entry of the list adds to the kept entries and to the removal flag. */
  lemma RemoveIdStep(es: seq<DemoEmployee>, i: nat, id: int)
    requires i < |es|
    ensures Filter(es[..i + 1], IdIsNot(id)) == Filter(es[..i], IdIsNot(id)) + (if es[i].id != id then [es[i]] else [])
    ensures HasId(es[..i + 1], id) <==> HasId(es[..i], id) || es[i].id == id
  {
    assert es[..i + 1] == es[..i] + [es[i]];
    FilterSnoc(es[..i], es[i], IdIsNot(id));
    HasIdSnoc(es[..i], es[i], id);
  }

  /** Some entry carries the id. */
  predicate HasId(s: seq<DemoEmployee>, id: int) {
    exists j :: 0 <= j < |s| && s[j].id == id
  }

  lemma HasIdSnoc(s: seq<DemoEmployee>, x: DemoEmployee, id: int)
    ensures HasId(s + [x], id) <==> HasId(s, id) || x.id == id
  {
    if HasId(s + [x], id) {
      var j :| 0 <= j < |s + [x]| && (s + [x])[j].id == id;
      if j < |s| {
        assert s[j] == (s + [x])[j];
      }
    }
    if HasId(s, id) {
      var j :| 0 <= j < |s| && s[j].id == id;
      assert (s + [x])[j] == s[j];
    }
    assert (s + [x])[|s|] == x;
  }

  // ---------------------------------------------------------------------
  // department statistics
  // ---------------------------------------------------------------------

  /** The per-department counts of a list, as the statistics loop builds them. */
  ghost function DeptCounts(s: seq<DemoEmployee>): map<Option<string>, int>
    decreases |s|
  {
    if s == [] then map[] else Bump(DeptCounts(s[..|s| - 1]), s[|s| - 1].department)
  }

  function InDepartment(d: Option<string>): DemoEmployee -> bool { (e: DemoEmployee) => e.department == d }

  /** Each department's count is the number of entries in it. */
  lemma DeptCountsCount(s: seq<DemoEmployee>, d: Option<string>)
    ensures MapCount(DeptCounts(s), d) == Count(s, InDepartment(d))
    ensures d in DeptCounts(s) <==> exists i :: 0 <= i < |s| && s[i].department == d
  {
    DeptCountsValue(s, d);
    DeptCountsKeys(s, d);
  }

  lemma {:induction false} DeptCountsValue(s: seq<DemoEmployee>, d: Option<string>)
    ensures MapCount(DeptCounts(s), d) == Count(s, InDepartment(d))
    decreases |s|
  {
    if s != [] {
      var init, last := s[..|s| - 1], s[|s| - 1];
      DeptCountsValue(init, d);
      assert s == init + [last];
      CountSnoc(init, last, InDepartment(d));
    }
  }

  lemma {:induction false} DeptCountsKeys(s: seq<DemoEmployee>, d: Option<string>)
    ensures d in DeptCounts(s) <==> exists i :: 0 <= i < |s| && s[i].department == d
    decreases |s|
  {
    if s != [] {
      var init := s[..|s| - 1];
      DeptCountsKeys(init, d);
      if exists i :: 0 <= i < |init| && init[i].department == d {
        var i :| 0 <= i < |init| && init[i].department == d;
        assert s[i] == init[i];
      }
      if exists i :: 0 <= i < |s| && s[i].department == d {
        var i :| 0 <= i < |s| && s[i].department == d;
        if i < |init| {
          assert init[i] == s[i];
        }
      }
    }
  }

  /** The counts add up to the number of entries. */
  lemma {:induction false} DeptCountsTotal(s: seq<DemoEmployee>)
    ensures MapSum(DeptCounts(s)) == |s|
    decreases |s|
  {
    if s != [] {
      DeptCountsTotal(s[..|s| - 1]);
      MapSumIncrement(DeptCounts(s[..|s| - 1]), s[|s| - 1].department);
    }
  }

  /** A seed entry: every field present, hired on 2022-01-15, active. */
  function SampleEntry(id: int, first: string, last: string, email: string, department: string, position: string,
                       salary: string): (e: DemoEmployee)
    ensures e.id == id && e.isActive && e.hireDate == Some("2022-01-15")
    ensures e.fullName == FullName(Some(first), Some(last))
    ensures e.email == Some(email) && e.department == Some(department) && e.salary == Some(salary)
  {
    DemoEmployee(id, Some(first), Some(last), FullName(Some(first), Some(last)), Some(email), Some(department),
                 Some(position), Some(salary), Some("2022-01-15"), true)
  }

  datatype SeedRow = SeedRow(first: string, last: string, email: string, department: string, position: string,
                             salary: string)

  /** The sample employees of the static initialiser, in order. */
  const Seed: seq<SeedRow> := [
    SeedRow("John", "Doe", "john.doe@company.com", "Engineering", "Software Engineer", "75000"),
    SeedRow("Jane", "Smith", "jane.smith@company.com", "HR", "HR Manager", "65000"),
    SeedRow("Mike", "Johnson", "mike.johnson@company.com", "Sales", "Sales Rep", "55000"),
    SeedRow("Sarah", "Williams", "sarah.williams@company.com", "Marketing", "Marketing Specialist", "60000"),
    SeedRow("David", "Brown", "david.brown@company.com", "Finance", "Financial Analyst", "70000")
  ]

  /** The entry the initialiser stores for seed row `i`: id `i + 1`. */
  function SeedEntry(i: nat): (e: DemoEmployee)
    requires i < |Seed|
    ensures e.id == i + 1 && e.isActive && e.hireDate == Some("2022-01-15")
  {
    var row := Seed[i];
    SampleEntry(i + 1, row.first, row.last, row.email, row.department, row.position, row.salary)
  }

  // ---------------------------------------------------------------------
  // the controller's state
  // ---------------------------------------------------------------------

  class DemoStore {
    var employees: seq<DemoEmployee>
    var nextId: int
    /** Every id handed out so far, including those of deleted entries. */
    ghost var issued: set<int>

    /**
     * Ids are handed out in increasing order: every id issued so far is
     * below the counter, and the entries are the ones issued, in order.
     */
    ghost predicate Valid()
      reads this
    {
      nextId >= 1 &&
      (forall x :: x in issued ==> x < nextId) &&
      (forall e :: e in employees ==> e.id in issued) &&
      IdsIncreasing(employees)
    }

    /** `addSampleEmployee`: one seed entry with the next id. */
    method AddSample(first: string, last: string, email: string, department: string, position: string,
                     salary: string)
      requires Valid()
      modifies this
      ensures Valid()
      ensures employees == old(employees) + [SampleEntry(old(nextId), first, last, email, department, position, salary)]
      ensures nextId == old(nextId) + 1 && issued == old(issued) + {old(nextId)}
    {
      var e := SampleEntry(nextId, first, last, email, department, position, salary);
      employees := employees + [e];
      issued := issued + {nextId};
      nextId := nextId + 1;
    }

    /** The static initialiser: one `addSampleEmployee` per seed row, with ids 1 to 5. */
    constructor ()
      ensures Valid()
      ensures nextId == |Seed| + 1
      ensures |employees| == |Seed|
      ensures forall i :: 0 <= i < |Seed| ==> employees[i] == SeedEntry(i)
    {
      employees := [];
      nextId := 1;
      issued := {};
      new;
      var i := 0;
      while i < |Seed|
        invariant 0 <= i <= |Seed|
        invariant Valid() && nextId == i + 1 && |employees| == i
        invariant forall j :: 0 <= j < i ==> employees[j] == SeedEntry(j)
      {
        var row := Seed[i];
        AddSample(row.first, row.last, row.email, row.department, row.position, row.salary);
        i := i + 1;
      }
    }

    /** `getAllEmployees`: the list and its size. */
    method GetAll() returns (data: seq<DemoEmployee>, total: nat)
      ensures data == employees && total == |employees|
    {
      data := employees;
      total := |employees|;
    }

    /** `getEmployeeById`: the first entry with the id, or `None` ("Employee not found"). */
    method GetById(id: int) returns (r: Option<DemoEmployee>)
      ensures r.None? <==> forall i :: 0 <= i < |employees| ==> employees[i].id != id
      ensures r.Some? ==>
        (exists k :: 0 <= k < |employees| && employees[k] == r.value && r.value.id == id &&
           forall j :: 0 <= j < k ==> employees[j].id != id)
    {
      var i := 0;
      while i < |employees|
        invariant 0 <= i <= |employees|
        invariant forall j :: 0 <= j < i ==> employees[j].id != id
      {
        if employees[i].id == id {
          return Some(employees[i]);
        }
        i := i + 1;
      }
      return None;
    }

    /**
     * `createEmployee`: the entry takes the counter's value as its id and
     * goes at the end. The id was never handed out before, so it differs
     * from every stored id and from every deleted one.
     */
    method Create(body: Body) returns (e: DemoEmployee)
      requires Valid()
      modifies this
      ensures Valid()
      ensures e == NewEntry(old(nextId), body)
      ensures employees == old(employees) + [e]
      ensures nextId == old(nextId) + 1 && issued == old(issued) + {e.id}
      ensures e.id !in old(issued)
    {
      e := NewEntry(nextId, body);
      issued := issued + {nextId};
      nextId := nextId + 1;
      employees := employees + [e];
    }

    /**
     * `updateEmployee`: on a missing id nothing changes; otherwise the first
     * entry with the id is overwritten in place and returned.
     */
    method Update(id: int, body: Body) returns (r: Option<DemoEmployee>)
      requires Valid()
      modifies this`employees
      ensures Valid()
      ensures (forall i :: 0 <= i < |old(employees)| ==> old(employees)[i].id != id) ==>
        r.None? && employees == old(employees)
      ensures r.Some? ==>
        (exists k :: 0 <= k < |old(employees)| && old(employees)[k].id == id &&
           (forall j :: 0 <= j < k ==> old(employees)[j].id != id) &&
           r.value == Updated(old(employees)[k], body) && employees == old(employees)[k := r.value])
      ensures (exists i :: 0 <= i < |old(employees)| && old(employees)[i].id == id) ==> r.Some?
    {
      var i := 0;
      while i < |employees|
        invariant 0 <= i <= |employees|
        invariant forall j :: 0 <= j < i ==> employees[j].id != id
      {
        if employees[i].id == id {
          var updated := Updated(employees[i], body);
          employees := employees[i := updated];
          return Some(updated);
        }
        i := i + 1;
      }
      return None;
    }

    /**
     * `deleteEmployee`: `removeIf` drops every entry with the id and keeps
     * the others in order; it reports whether anything was removed.
     */
    method Delete(id: int) returns (removed: bool)
      requires Valid()
      modifies this`employees
      ensures Valid()
      ensures employees == Filter(old(employees), IdIsNot(id))
      ensures removed <==> HasId(old(employees), id)
    {
      var kept;
      kept, removed := RemoveId(employees, id);
      FilterKeepsIncreasing(employees, id);
      employees := kept;
    }

    /**
     * `getStatistics`: the number of entries and, per department, how many
     * entries are in it. The counts add up to the total.
     */
    method Statistics() returns (total: nat, stats: map<Option<string>, int>)
      ensures total == |employees|
      ensures stats == DeptCounts(employees)
      ensures MapSum(stats) == total
      ensures forall d :: MapCount(stats, d) == Count(employees, InDepartment(d))
    {
      stats := map[];
      var i := 0;
      while i < |employees|
        invariant 0 <= i <= |employees|
        invariant stats == DeptCounts(employees[..i])
      {
        assert employees[..i + 1][..i] == employees[..i];
        var dept := employees[i].department;
        stats := stats[dept := (if dept in stats then stats[dept] else 0) + 1];
        i := i + 1;
      }
      assert employees[..i] == employees;
      total := |employees|;
      DeptCountsTotal(employees);
      forall d ensures MapCount(stats, d) == Count(employees, InDepartment(d)) {
        DeptCountsCount(employees, d);
      }
    }

    /** `healthCheck`: always up, with the number of entries. */
    method Health() returns (status: string, employeeCount: nat)
      ensures status == "UP" && employeeCount == |employees|
    {
      status := "UP";
      employeeCount := |employees|;
    }
  }
}
