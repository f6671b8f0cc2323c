/** The employee store the service consults (`EmployeeRepository`): records
    keyed by their EmployeeId, which the database keeps unique. */
module Repository {
  import opened Text

  /** A stored employee; the surrogate key and the creation time the database
      adds are not modelled. */
  datatype Employee = Employee(
    employeeId: string,
    firstName: string,
    middleName: Option<string>,
    lastName: string)

  /** The display name typed into the claim page's typeahead: the names in
      order, separated by single spaces, the middle name only when present. */
  function FullName(e: Employee): (name: string)
    ensures |name| > |e.firstName| + |e.lastName|
    ensures name[..|e.firstName| + 1] == e.firstName + " "
    ensures name[|name| - |e.lastName| - 1..] == " " + e.lastName
    ensures IsNullOrEmpty(e.middleName) <==> |name| == |e.firstName| + |e.lastName| + 1
  {
    if IsNullOrEmpty(e.middleName) then e.firstName + " " + e.lastName
    else e.firstName + " " + e.middleName.value + " " + e.lastName
  }

  /** The exact match GetByNameAsync asks the database for: equal first and
      last names, and an equal middle name, where a missing middle name only
      equals a missing one. */
  predicate SameName(e: Employee, firstName: string, middleName: Option<string>, lastName: string) {
    e.firstName == firstName && e.middleName == middleName && e.lastName == lastName
  }

  /** Each record is filed under its own EmployeeId. */
  predicate FiledById(employees: map<string, Employee>) {
    forall id :: id in employees ==> employees[id].employeeId == id
  }

  /** The lookup GetByEmployeeIdAsync performs: the record whose EmployeeId
      is `employeeId`, if any; the unique index makes it the only one. */
  function FindById(employees: map<string, Employee>, employeeId: string): (r: Option<Employee>)
    requires FiledById(employees)
    ensures r.Some? <==> exists e :: e in employees.Values && e.employeeId == employeeId
    ensures r.Some? ==> r.value in employees.Values && r.value.employeeId == employeeId
  {
    if employeeId in employees then
      assert employees[employeeId] in employees.Values;
      Some(employees[employeeId])
    else
      None
  }

  /** Whether GetByNameAsync finds a record; which one it returns when several
      match is left to the database, and only its existence is used. */
  predicate NameTaken(employees: map<string, Employee>, firstName: string, middleName: Option<string>, lastName: string) {
    exists id :: id in employees && SameName(employees[id], firstName, middleName, lastName)
  }

  class EmployeeRepository {
    var employees: map<string, Employee>

    predicate Valid()
      reads this
    {
      FiledById(employees)
    }

    constructor ()
      ensures Valid() && employees == map[]
    {
      employees := map[];
    }

    /** GetByEmployeeIdAsync. */
    function GetByEmployeeId(employeeId: string): (r: Option<Employee>)
      requires Valid()
      reads this
      ensures r.Some? <==> exists e :: e in employees.Values && e.employeeId == employeeId
      ensures r.Some? ==> r.value in employees.Values && r.value.employeeId == employeeId
    {
      FindById(employees, employeeId)
    }

    /** GetByNameAsync, reduced to whether it finds a record: some stored
        record carries exactly these names. */
    function HasEmployeeNamed(firstName: string, middleName: Option<string>, lastName: string): (found: bool)
      reads this
      ensures found <==> exists e :: e in employees.Values && SameName(e, firstName, middleName, lastName)
    {
      if NameTaken(employees, firstName, middleName, lastName) then
        var id :| id in employees && SameName(employees[id], firstName, middleName, lastName);
        assert employees[id] in employees.Values;
        true
      else
        false
    }

    /** AddAsync: the record is stored, unless its EmployeeId is already taken,
        in which case the unique index makes the save throw and nothing is
        stored. */
    method Add(e: Employee) returns (saved: bool)
      requires Valid()
      modifies this
      ensures Valid()
      ensures saved <==> FindById(old(employees), e.employeeId).None?
      ensures saved ==> employees == old(employees)[e.employeeId := e]
      ensures !saved ==> employees == old(employees)
    {
      if e.employeeId in employees {
        return false;
      }
      employees := employees[e.employeeId := e];
      saved := true;
    }
  }
}
