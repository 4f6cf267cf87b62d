/**
 * The Spring Data repository of the Java backend: the derived and
 * annotated queries over the employee table. The table is a map from id to
 * row; a query that returns a list in database order is modelled as the
 * set of rows it returns, and a count as the size of that set.
 */
module EmployeeRepository {
  import opened Wrappers
  import opened Strings
  import opened Seqs

  /**
   * One row of the employee table. The hire date is a day number; the
   * salary column is nullable.
   */
  datatype Employee = Employee(
    id: int,
    firstName: string,
    lastName: string,
    email: string,
    department: string,
    position: string,
    hireDate: int,
    salary: Option<real>,
    isActive: bool)

  type Table = map<int, Employee>

  /** Every row is stored under its own id. */
  predicate WellKeyed(t: Table) {
    forall k :: k in t ==> t[k].id == k
  }

  /** The ids of the active rows. */
  function ActiveIds(t: Table): (r: set<int>)
    ensures forall k :: k in r <==> k in t && t[k].isActive
  {
    set k | k in t && t[k].isActive
  }

  /** `findByIsActiveTrue`: exactly the active rows. */
  function FindByIsActiveTrue(t: Table): (r: set<Employee>)
    ensures forall e :: e in r <==> (exists k :: k in t && t[k] == e) && e.isActive
  {
    set k | k in t && t[k].isActive :: t[k]
  }

  /** `findByDepartmentAndIsActiveTrue`: exactly the active rows of one department. */
  function FindByDepartmentAndIsActiveTrue(t: Table, department: string): (r: set<Employee>)
    ensures forall e :: e in r <==> (exists k :: k in t && t[k] == e) && e.isActive && e.department == department
  {
    set k | k in t && t[k].isActive && t[k].department == department :: t[k]
  }

  /** The department query is the active query narrowed to one department. */
  lemma DepartmentNarrowsActive(t: Table, department: string)
    ensures FindByDepartmentAndIsActiveTrue(t, department) <= FindByIsActiveTrue(t)
    ensures forall e :: e in FindByIsActiveTrue(t) && e.department == department ==>
      e in FindByDepartmentAndIsActiveTrue(t, department)
  {
  }

  /**
   * `findByEmailAndIsActiveTrue`: the active rows with the e-mail. The
   * source returns an `Optional`, which is only well defined when at most
   * one active row has the address; the set is that optional's contents.
   */
  function FindByEmailAndIsActiveTrue(t: Table, email: string): (r: set<Employee>)
    ensures forall e :: e in r <==> (exists k :: k in t && t[k] == e) && e.isActive && e.email == email
  {
    set k | k in t && t[k].isActive && t[k].email == email :: t[k]
  }

  /**
   * `existsByEmail`: some row, active or not, has the e-mail; never in an
   * empty table, and always when an active row with the address exists.
   */
  function ExistsByEmail(t: Table, email: string): (b: bool)
    ensures t == map[] ==> !b
    ensures FindByEmailAndIsActiveTrue(t, email) != {} ==> b
  {
    exists k :: k in t && t[k].email == email
  }

  /**
   * `existsByEmailAndIdNot`: some row with a different id has the e-mail,
   * so the address is in use at all.
   */
  function ExistsByEmailAndIdNot(t: Table, email: string, id: int): (b: bool)
    ensures b ==> ExistsByEmail(t, email)
    ensures (forall k :: k in t ==> t[k].id != id) ==> (b <==> ExistsByEmail(t, email))
  {
    exists k :: k in t && t[k].email == email && t[k].id != id
  }

  /**
   * Excluding one id only ever loses the row with that id: when the id is
   * absent, or its row has another address, the two questions agree.
   */
  lemma ExistsByEmailAndIdNotAgrees(t: Table, email: string, id: int)
    requires WellKeyed(t)
    ensures ExistsByEmailAndIdNot(t, email, id) ==> ExistsByEmail(t, email)
    ensures (id !in t || t[id].email != email) ==>
      (ExistsByEmailAndIdNot(t, email, id) <==> ExistsByEmail(t, email))
  {
  }

  /** `existsById`. */
  predicate ExistsById(t: Table, id: int) {
    id in t
  }

  // ---------------------------------------------------------------------
  // search
  // ---------------------------------------------------------------------

  /** `LOWER(field) LIKE LOWER(CONCAT('%', term, '%'))`. */
  predicate FieldMatches(field: string, term: string) {
    ILike(field, "%" + term + "%")
  }

  /** The search condition on one row: active, and one of five columns matches. */
  predicate SearchHit(e: Employee, term: string) {
    e.isActive &&
    (FieldMatches(e.firstName, term) || FieldMatches(e.lastName, term) || FieldMatches(e.email, term) ||
     FieldMatches(e.department, term) || FieldMatches(e.position, term))
  }

  /** `searchActiveEmployees`. */
  function SearchActiveEmployees(t: Table, term: string): (r: set<Employee>)
    ensures forall e :: e in r <==> (exists k :: k in t && t[k] == e) && SearchHit(e, term)
  {
    set k | k in t && SearchHit(t[k], term) :: t[k]
  }

  /**
   * For a term without `%`, `_` or `\` the search returns exactly the active rows one of
   * whose five text columns contains it, ignoring case.
   */
  lemma SearchIsCaseInsensitiveContains(t: Table, term: string, e: Employee)
    requires NoWildcards(term)
    ensures e in SearchActiveEmployees(t, term) <==>
      (exists k :: k in t && t[k] == e) && e.isActive &&
      (Contains(ToLower(e.firstName), ToLower(term)) || Contains(ToLower(e.lastName), ToLower(term)) ||
       Contains(ToLower(e.email), ToLower(term)) || Contains(ToLower(e.department), ToLower(term)) ||
       Contains(ToLower(e.position), ToLower(term)))
  {
    ILikeContains(e.firstName, term);
    ILikeContains(e.lastName, term);
    ILikeContains(e.email, term);
    ILikeContains(e.department, term);
    ILikeContains(e.position, term);
  }

  /** The empty term matches every active row. */
  lemma EmptySearchIsActive(t: Table)
    ensures SearchActiveEmployees(t, "") == FindByIsActiveTrue(t)
  {
    forall e: Employee ensures FieldMatches(e.firstName, "") {
      assert ToLower("%" + "" + "%") == "%%";
      assert "%%"[1..] == "%";
      LikeAnything(ToLower(e.firstName));
    }
  }

  // ---------------------------------------------------------------------
  // counts per department
  // ---------------------------------------------------------------------

  /** The departments of the rows with the given ids. */
  function DepartmentsOf(t: Table, ids: set<int>): set<string>
    requires ids <= t.Keys
  {
    set k | k in ids :: t[k].department
  }

  /** The rows among `ids` in one department. */
  function InDepartment(t: Table, ids: set<int>, d: string): set<int>
    requires ids <= t.Keys
  {
    set k | k in ids && t[k].department == d
  }

  /** `GROUP BY department` with `COUNT(e)` over the rows with the given ids. */
  function GroupCount(t: Table, ids: set<int>): map<string, int>
    requires ids <= t.Keys
  {
    map d | d in DepartmentsOf(t, ids) :: |InDepartment(t, ids, d)|
  }

  /** `countEmployeesByDepartment`: the grouped counts over the active rows only. */
  function CountEmployeesByDepartment(t: Table): (r: map<string, int>)
    ensures forall d :: d in r <==> exists k :: k in t && t[k].isActive && t[k].department == d
    ensures forall d :: d in r ==> r[d] == |set k | k in t && t[k].isActive && t[k].department == d| && r[d] >= 1
  {
    var ids := ActiveIds(t);
    forall d | d in DepartmentsOf(t, ids) ensures |InDepartment(t, ids, d)| >= 1 {
      var k :| k in ids && t[k].department == d;
      assert k in InDepartment(t, ids, d);
    }
    assert forall d :: InDepartment(t, ids, d) == set k | k in t && t[k].isActive && t[k].department == d;
    GroupCount(t, ids)
  }

  /** `countByIsActiveTrue`. */
  function CountByIsActiveTrue(t: Table): (n: nat)
    ensures WellKeyed(t) ==> n == |FindByIsActiveTrue(t)|
  {
    ActiveRowsCount(t);
    |ActiveIds(t)|
  }

  /** On a well-keyed table rows and ids correspond one to one. */
  lemma ActiveRowsCount(t: Table)
    ensures WellKeyed(t) ==> |FindByIsActiveTrue(t)| == |ActiveIds(t)|
  {
    if WellKeyed(t) {
      var ids := ActiveIds(t);
      var rows := FindByIsActiveTrue(t);
      assert rows == set k | k in ids :: t[k];
      IdsOfRows(t, ids);
    }
  }

  lemma {:induction false} IdsOfRows(t: Table, ids: set<int>)
    requires WellKeyed(t) && ids <= t.Keys
    ensures |set k | k in ids :: t[k]| == |ids|
    decreases |ids|
  {
    if ids != {} {
      var k := Pick(ids);
      var rest := ids - {k};
      IdsOfRows(t, rest);
      var rows := set j | j in ids :: t[j];
      var restRows := set j | j in rest :: t[j];
      assert rows == restRows + {t[k]};
      assert t[k] !in restRows;
    }
  }

  /** A department with rows among `ids` is one of their departments. */
  lemma GroupedOnlyIfPresent(t: Table, ids: set<int>, d: string)
    requires ids <= t.Keys
    ensures InDepartment(t, ids, d) != {} ==> d in DepartmentsOf(t, ids)
  {
    if InDepartment(t, ids, d) != {} {
      var j := Pick(InDepartment(t, ids, d));
      assert t[j].department == d;
    }
  }

  /** Taking one row out of the grouped counts lowers its department's count by one. */
  lemma GroupCountStep(t: Table, ids: set<int>, k: int)
    requires ids <= t.Keys && k in ids
    ensures GroupCount(t, ids) == Bump(GroupCount(t, ids - {k}), t[k].department)
  {
    var rest := ids - {k};
    var d := t[k].department;
    var g := GroupCount(t, ids);
    var b := Bump(GroupCount(t, rest), d);
    assert DepartmentsOf(t, ids) == DepartmentsOf(t, rest) + {d};
    assert g.Keys == b.Keys;
    forall x | x in g ensures g[x] == b[x] {
      InDepartmentStep(t, ids, k, x);
      if x == d {
        GroupedOnlyIfPresent(t, rest, x);
      }
    }
  }

  /** Counting one department over `ids` splits off row `k`. */
  lemma InDepartmentStep(t: Table, ids: set<int>, k: int, x: string)
    requires ids <= t.Keys && k in ids
    ensures x == t[k].department ==> |InDepartment(t, ids, x)| == |InDepartment(t, ids - {k}, x)| + 1
    ensures x != t[k].department ==> InDepartment(t, ids, x) == InDepartment(t, ids - {k}, x)
  {
    if x == t[k].department {
      assert InDepartment(t, ids, x) == InDepartment(t, ids - {k}, x) + {k};
    }
  }

  /** The grouped counts add up to the number of rows grouped. */
  lemma {:induction false} GroupCountTotal(t: Table, ids: set<int>)
    requires ids <= t.Keys
    ensures MapSum(GroupCount(t, ids)) == |ids|
    decreases |ids|
  {
    if ids == {} {
      assert GroupCount(t, ids) == map[];
    } else {
      var k := Pick(ids);
      GroupCountTotal(t, ids - {k});
      GroupCountStep(t, ids, k);
      MapSumIncrement(GroupCount(t, ids - {k}), t[k].department);
    }
  }

  /** The per-department counts add up to `countByIsActiveTrue`. */
  lemma DepartmentCountsSumToActive(t: Table)
    ensures MapSum(CountEmployeesByDepartment(t)) == CountByIsActiveTrue(t)
  {
    GroupCountTotal(t, ActiveIds(t));
  }

  // ---------------------------------------------------------------------
  // distinct departments, in order
  // ---------------------------------------------------------------------

  /** The code-point order on strings: a proper prefix comes first. */
  predicate StrLess(a: string, b: string)
    decreases |a|
  {
    if a == [] then b != []
    else if b == [] then false
    else if a[0] != b[0] then a[0] < b[0]
    else StrLess(a[1..], b[1..])
  }

  /** Two different strings are ordered one way or the other, never both. */
  lemma {:induction false} StrLessTotal(a: string, b: string)
    ensures a != b ==> StrLess(a, b) || StrLess(b, a)
    ensures !(StrLess(a, b) && StrLess(b, a))
    decreases |a|
  {
    if a != [] && b != [] && a[0] == b[0] {
      StrLessTotal(a[1..], b[1..]);
      if a != b {
        assert a == [a[0]] + a[1..] && b == [b[0]] + b[1..];
      }
    }
  }

  lemma StrLessIrreflexive(a: string)
    ensures !StrLess(a, a)
  {
    StrLessTotal(a, a);
  }

  /** Ascending and free of repeats. */
  predicate Ascending(s: seq<string>) {
    (forall i :: 0 < i < |s| ==> StrLess(s[i - 1], s[i])) &&
    (forall i, j :: 0 <= i < j < |s| ==> s[i] != s[j])
  }

  /** Puts `x` into an ascending sequence before the first larger element. */
  function InsertAscending(x: string, s: seq<string>): (r: seq<string>)
    ensures multiset(r) == multiset(s) + multiset{x}
    ensures |r| == |s| + 1
    ensures forall y :: y in r <==> y == x || y in s
  {
    if s == [] then [x]
    else if StrLess(x, s[0]) then [x] + s
    else assert s == [s[0]] + s[1..]; [s[0]] + InsertAscending(x, s[1..])
  }

  /** `x` before an ascending sequence whose head is larger stays ascending. */
  lemma ConsAscending(x: string, s: seq<string>)
    requires Ascending(s) && x !in s
    requires s != [] ==> StrLess(x, s[0])
    ensures Ascending([x] + s)
  {
    var r := [x] + s;
    forall i | 0 < i < |r| ensures StrLess(r[i - 1], r[i]) {
      if i > 1 {
        assert r[i - 1] == s[i - 2] && r[i] == s[i - 1];
      }
    }
    forall i, j | 0 <= i < j < |r| ensures r[i] != r[j] {
      assert r[j] == s[j - 1];
      if i > 0 {
        assert r[i] == s[i - 1];
      }
    }
  }

  lemma {:induction false} InsertAscendingKeeps(x: string, s: seq<string>)
    requires Ascending(s) && x !in s
    ensures Ascending(InsertAscending(x, s))
    ensures s != [] ==> InsertAscending(x, s)[0] == x || InsertAscending(x, s)[0] == s[0]
  {
    if s == [] {
    } else if StrLess(x, s[0]) {
      ConsAscending(x, s);
    } else {
      var rest := s[1..];
      assert Ascending(rest) by {
        forall i | 0 < i < |rest| ensures StrLess(rest[i - 1], rest[i]) {
          assert rest[i - 1] == s[i] && rest[i] == s[i + 1];
        }
        forall i, j | 0 <= i < j < |rest| ensures rest[i] != rest[j] {
          assert rest[i] == s[i + 1] && rest[j] == s[j + 1];
        }
      }
      InsertAscendingKeeps(x, rest);
      StrLessTotal(x, s[0]);
      var tail := InsertAscending(x, rest);
      assert s[0] !in rest by {
        forall j | 0 <= j < |rest| ensures rest[j] != s[0] {
          assert rest[j] == s[j + 1];
        }
      }
      assert s[0] !in tail by {
        assert multiset(rest)[s[0]] == 0 && s[0] != x;
        assert multiset(tail) == multiset(rest) + multiset{x};
        assert multiset(tail)[s[0]] == 0;
      }
      assert tail[0] == x || tail[0] == rest[0] by {
        if rest == [] {
          assert tail == [x];
        }
      }
      if rest != [] {
        assert StrLess(s[0], rest[0]) by {
          assert rest[0] == s[1];
        }
      }
      ConsAscending(s[0], tail);
    }
  }

  /** The elements of a set in ascending order. */
  ghost function SortedElements(s: set<string>): (r: seq<string>)
    ensures forall x :: x in r <==> x in s
    ensures |r| == |s|
    decreases |s|
  {
    if s == {} then []
    else
      var x :| x in s;
      var rest := SortedElements(s - {x});
      InsertAscending(x, rest)
  }

  lemma {:induction false} SortedElementsAscending(s: set<string>)
    ensures Ascending(SortedElements(s))
    decreases |s|
  {
    if s != {} {
      var x :| x in s && SortedElements(s) == InsertAscending(x, SortedElements(s - {x}));
      SortedElementsAscending(s - {x});
      InsertAscendingKeeps(x, SortedElements(s - {x}));
    }
  }

  /** `findAllDepartments`: `SELECT DISTINCT department ... ORDER BY department`. */
  ghost function FindAllDepartments(t: Table): (r: seq<string>)
    ensures forall d :: d in r <==> exists k :: k in t && t[k].isActive && t[k].department == d
  {
    SortedElements(DepartmentsOf(t, ActiveIds(t)))
  }

  /** The list is ascending, without repeats, and names every grouped department. */
  lemma AllDepartmentsAscending(t: Table)
    ensures Ascending(FindAllDepartments(t))
    ensures forall d :: d in FindAllDepartments(t) <==> d in CountEmployeesByDepartment(t)
    ensures |FindAllDepartments(t)| == |CountEmployeesByDepartment(t)|
  {
    SortedElementsAscending(DepartmentsOf(t, ActiveIds(t)));
    assert CountEmployeesByDepartment(t).Keys == DepartmentsOf(t, ActiveIds(t));
  }
}
