/** The employee directory: the search and filter over the roster, the
    department list, and adding, updating and removing an employee. */
module EmployeesPage {
  import opened Common
  import opened Text
  import opened HrTypes

  /** The add/manage form. */
  datatype EmployeeForm = EmployeeForm(
    fullName: string, email: string, position: string, department: string,
    role: UserRole, joinDate: string, salary: int, phone: string, address: string)

  /** The case-insensitive search on name, email, position and
      department. */
  predicate MatchesSearch(e: EmployeeProfile, term: string)
  {
    var t := Lower(term);
    Includes(Lower(e.fullName), t) || Includes(Lower(e.email), t) ||
    Includes(Lower(e.position), t) || Includes(Lower(e.department), t)
  }

  /** An empty department or role filter lets everything through; otherwise
      the value must be equal. */
  predicate MatchesFilters(e: EmployeeProfile, dept: string, role: string)
  {
    (dept == "" || e.department == dept) && (role == "" || RoleName(e.role) == role)
  }

  /** `filteredEmployees`. */
  function Filtered(employees: seq<EmployeeProfile>, term: string, dept: string, role: string)
    : (r: seq<EmployeeProfile>)
    ensures forall e :: e in r <==> e in employees && MatchesSearch(e, term) && MatchesFilters(e, dept, role)
    ensures IsSubsequence(r, employees)
    ensures forall e :: multiset(r)[e] == if MatchesSearch(e, term) && MatchesFilters(e, dept, role)
                                          then multiset(employees)[e] else 0
  {
    FilterSubsequence(employees, (e: EmployeeProfile) => MatchesSearch(e, term) && MatchesFilters(e, dept, role));
    FilterMultiset(employees, (e: EmployeeProfile) => MatchesSearch(e, term) && MatchesFilters(e, dept, role));
    Filter(employees, (e: EmployeeProfile) => MatchesSearch(e, term) && MatchesFilters(e, dept, role))
  }

  /** With no search text and no filters the directory lists everyone, in
      roster order. */
  lemma FilteredEmptyIsAll(employees: seq<EmployeeProfile>)
    ensures Filtered(employees, "", "", "") == employees
  {
    forall e | e in employees ensures MatchesSearch(e, "") {
      IncludesEmpty(Lower(e.fullName));
    }
    FilterAll(employees, (e: EmployeeProfile) => MatchesSearch(e, "") && MatchesFilters(e, "", ""));
  }

  /** The search ignores the case of what is typed. */
  lemma SearchIgnoresCase(employees: seq<EmployeeProfile>, term: string, dept: string, role: string)
    ensures Filtered(employees, Lower(term), dept, role) == Filtered(employees, term, dept, role)
  {
    LowerIdempotent(term);
    FilterCongruent(employees,
      (e: EmployeeProfile) => MatchesSearch(e, Lower(term)) && MatchesFilters(e, dept, role),
      (e: EmployeeProfile) => MatchesSearch(e, term) && MatchesFilters(e, dept, role));
  }

  /** Choosing a department only narrows the list. */
  lemma DeptFilterNarrows(employees: seq<EmployeeProfile>, term: string, dept: string, role: string)
    ensures forall e :: e in Filtered(employees, term, dept, role) ==> e in Filtered(employees, term, "", role)
  {
  }

  function Departments(employees: seq<EmployeeProfile>): seq<string>
  {
    seq(|employees|, i requires 0 <= i < |employees| => employees[i].department)
  }

  /** `Array.from(new Set(employees.map(e => e.department)))`: each
      department of the roster exactly once, in the order each first
      appears. */
  function DepartmentList(employees: seq<EmployeeProfile>): (r: seq<string>)
    ensures forall d :: d in r <==> exists e :: e in employees && e.department == d
    ensures Distinct(r)
    ensures forall i, j :: 0 <= i < j < |r| ==>
      IndexOf(Departments(employees), r[i]) < IndexOf(Departments(employees), r[j])
  {
    var ds := Departments(employees);
    assert forall d :: d in ds ==> exists e :: e in employees && e.department == d;
    assert forall e :: e in employees ==> e.department in ds by {
      forall e | e in employees ensures e.department in ds {
        var i :| 0 <= i < |employees| && employees[i] == e;
        assert ds[i] == e.department;
      }
    }
    DedupFirstOccurrence(ds);
    Dedup(ds)
  }

  const AVATAR_PREFIX := "https://images.unsplash.com/photo-"
  const AVATAR_SUFFIX := "?auto=format&fit=crop&q=80&w=200"

  /** The profile `handleAddEmployee` builds when the roster has `n`
      entries. */
  function NewEmployee(form: EmployeeForm, n: nat): EmployeeProfile
  {
    EmployeeProfile(NatToString(n + 1), "EMP-" + NatToString(100 + n + 1), form.fullName, form.email,
                    form.role, form.position, form.department, form.joinDate, form.salary,
                    form.phone, form.address,
                    AVATAR_PREFIX + NatToString(1500000000000 + n) + AVATAR_SUFFIX,
                    None, None)
  }

  /** `handleAddEmployee`: the new profile, numbered after the roster's
      length, goes in front. */
  function AddEmployee(employees: seq<EmployeeProfile>, form: EmployeeForm): (r: seq<EmployeeProfile>)
    ensures |r| == |employees| + 1 && r[1..] == employees
    ensures r[0].id == NatToString(|employees| + 1)
    ensures r[0].employeeId == "EMP-" + NatToString(|employees| + 101)
    ensures r[0].fullName == form.fullName && r[0].email == form.email && r[0].role == form.role &&
            r[0].position == form.position && r[0].department == form.department &&
            r[0].joinDate == form.joinDate && r[0].salary == form.salary &&
            r[0].phone == form.phone && r[0].address == form.address
    ensures r[0].salaryStructure.None? && r[0].managerName.None?
  {
    [NewEmployee(form, |employees|)] + employees
  }

  /** Ids are the decimal numbers 1 to n, as on the fixture roster when
      nobody has been removed. */
  ghost predicate NumberedUpTo(employees: seq<EmployeeProfile>, n: nat)
  {
    forall e :: e in employees ==> exists k: nat :: 1 <= k <= n && e.id == NatToString(k)
  }

  /** While every id is a number no greater than the roster's length, the
      new id is not yet taken, and the property holds again afterwards. */
  lemma AddIdFresh(employees: seq<EmployeeProfile>, form: EmployeeForm)
    requires NumberedUpTo(employees, |employees|)
    ensures forall e :: e in employees ==> e.id != NatToString(|employees| + 1)
    ensures NumberedUpTo(AddEmployee(employees, form), |employees| + 1)
  {
    forall e | e in employees ensures e.id != NatToString(|employees| + 1) {
      var k: nat :| 1 <= k <= |employees| && e.id == NatToString(k);
    }
    var r := AddEmployee(employees, form);
    forall e | e in r ensures exists k: nat :: 1 <= k <= |employees| + 1 && e.id == NatToString(k) {
      if e == r[0] {
        assert e.id == NatToString(|employees| + 1);
      } else {
        assert e in r[1..];
      }
    }
  }

  /** The fixture roster is numbered 1 to 6. */
  lemma FixtureNumbered()
    ensures NumberedUpTo(MOCK_EMPLOYEES, |MOCK_EMPLOYEES|)
  {
    assert NatToString(1) == "1" && NatToString(2) == "2" && NatToString(3) == "3";
    assert NatToString(4) == "4" && NatToString(5) == "5" && NatToString(6) == "6";
  }

  /** Numbering by length lets an id come back: when the roster holds the
      id `n` for its length `n`, removing any other profile and then adding
      one gives the newcomer that same id. */
  lemma AddAfterDeleteReusesId(employees: seq<EmployeeProfile>, k: nat, j: nat, form: EmployeeForm)
    requires k < |employees| && j < |employees| && j != k
    requires employees[j].id == NatToString(|employees|)
    requires forall i :: 0 <= i < |employees| && i != k ==> employees[i].id != employees[k].id
    ensures var r := AddEmployee(DeleteEmployee(employees, employees[k].id, true), form);
      r[0].id == employees[j].id && employees[j] in r[1..]
  {
    var rest := DeleteEmployee(employees, employees[k].id, true);
    DeleteOne(employees, k);
    assert employees[j] in rest by {
      assert employees[j] in employees;
    }
    NewIdAfter(rest, form, |employees|);
  }

  lemma NewIdAfter(rest: seq<EmployeeProfile>, form: EmployeeForm, n: nat)
    requires |rest| + 1 == n
    ensures AddEmployee(rest, form)[0].id == NatToString(n) && AddEmployee(rest, form)[1..] == rest
  {
  }

  /** Removing an id that only one profile has shortens the roster by
      one. */
  lemma DeleteOne(employees: seq<EmployeeProfile>, k: nat)
    requires k < |employees|
    requires forall i :: 0 <= i < |employees| && i != k ==> employees[i].id != employees[k].id
    ensures |DeleteEmployee(employees, employees[k].id, true)| == |employees| - 1
  {
    FilterDropsOne(employees, (e: EmployeeProfile) => e.id != employees[k].id, k);
  }

  /** On the fixture roster: removing Rahul ("2") and adding someone gives
      the newcomer id "6", which Rohan keeps. */
  lemma FixtureReusesId(form: EmployeeForm)
    ensures var r := AddEmployee(DeleteEmployee(MOCK_EMPLOYEES, "2", true), form);
      r[0].id == "6" && MOCK_EMPLOYEES[5] in r[1..]
  {
    assert NatToString(6) == "6";
    AddAfterDeleteReusesId(MOCK_EMPLOYEES, 1, 5, form);
  }

  /** `{ ...emp, ...formData }`: the form's fields over the profile's. */
  function ApplyForm(e: EmployeeProfile, form: EmployeeForm): EmployeeProfile
  {
    e.(fullName := form.fullName, email := form.email, position := form.position,
       department := form.department, role := form.role, joinDate := form.joinDate,
       salary := form.salary, phone := form.phone, address := form.address)
  }

  function ReplaceMatching(employees: seq<EmployeeProfile>, id: string, form: EmployeeForm)
    : (r: seq<EmployeeProfile>)
    ensures |r| == |employees|
    ensures forall i :: 0 <= i < |employees| ==>
      r[i] == if employees[i].id == id then ApplyForm(employees[i], form) else employees[i]
  {
    if employees == [] then []
    else [if employees[0].id == id then ApplyForm(employees[0], form) else employees[0]]
         + ReplaceMatching(employees[1..], id, form)
  }

  /** `handleUpdateEmployee`: without a selection nothing changes; otherwise
      the profiles with the selected id take the form's nine fields and keep
      their id, employee id, avatar, salary structure and manager. */
  function UpdateEmployee(employees: seq<EmployeeProfile>, selected: Option<EmployeeProfile>,
                          form: EmployeeForm): (r: seq<EmployeeProfile>)
    ensures selected.None? ==> r == employees
    ensures |r| == |employees|
    ensures forall i :: 0 <= i < |employees| ==>
      r[i].id == employees[i].id && r[i].employeeId == employees[i].employeeId &&
      r[i].avatar == employees[i].avatar && r[i].salaryStructure == employees[i].salaryStructure &&
      r[i].managerName == employees[i].managerName
    ensures forall i :: 0 <= i < |employees| && (selected.None? || employees[i].id != selected.value.id) ==>
      r[i] == employees[i]
    ensures selected.Some? ==> forall i :: 0 <= i < |employees| && employees[i].id == selected.value.id ==>
      r[i].fullName == form.fullName && r[i].email == form.email && r[i].position == form.position &&
      r[i].department == form.department && r[i].role == form.role && r[i].joinDate == form.joinDate &&
      r[i].salary == form.salary && r[i].phone == form.phone && r[i].address == form.address
  {
    if selected.None? then employees else ReplaceMatching(employees, selected.value.id, form)
  }

  /** Saving the same form twice is the same as saving it once. */
  lemma UpdateIdempotent(employees: seq<EmployeeProfile>, selected: Option<EmployeeProfile>, form: EmployeeForm)
    ensures UpdateEmployee(UpdateEmployee(employees, selected, form), selected, form)
            == UpdateEmployee(employees, selected, form)
  {
  }

  /** An update keeps every id, so the numbering stays as it was. */
  lemma UpdateKeepsNumbering(employees: seq<EmployeeProfile>, selected: Option<EmployeeProfile>,
                             form: EmployeeForm, n: nat)
    requires NumberedUpTo(employees, n)
    ensures NumberedUpTo(UpdateEmployee(employees, selected, form), n)
  {
    var r := UpdateEmployee(employees, selected, form);
    forall e | e in r ensures exists k: nat :: 1 <= k <= n && e.id == NatToString(k) {
      var i :| 0 <= i < |r| && r[i] == e;
      assert employees[i] in employees;
    }
  }

  /** `handleDeleteEmployee`: once confirmed, every profile with that id
      goes and every other one stays, in order. */
  function DeleteEmployee(employees: seq<EmployeeProfile>, id: string, confirmed: bool)
    : (r: seq<EmployeeProfile>)
    ensures !confirmed ==> r == employees
    ensures confirmed ==> forall e :: e in r <==> e in employees && e.id != id
    ensures IsSubsequence(r, employees)
    ensures confirmed ==> forall e :: multiset(r)[e] == if e.id != id then multiset(employees)[e] else 0
  {
    if confirmed then
      FilterSubsequence(employees, (e: EmployeeProfile) => e.id != id);
      FilterMultiset(employees, (e: EmployeeProfile) => e.id != id);
      Filter(employees, (e: EmployeeProfile) => e.id != id)
    else
      assert IsSubsequence(employees, employees) by { SubsequenceReflexive(employees); }
      employees
  }

  lemma DeleteIdempotent(employees: seq<EmployeeProfile>, id: string)
    ensures DeleteEmployee(DeleteEmployee(employees, id, true), id, true) == DeleteEmployee(employees, id, true)
  {
    var r := DeleteEmployee(employees, id, true);
    FilterAll(r, (e: EmployeeProfile) => e.id != id);
  }
}
