/**
 * `Manager` (employee/manager.py): an employee with a role, who may assign
 * roles and add, update, delete and look up employees in the user store.
 */
module Managers {

  import opened Wrappers
  import opened Sequences
  import opened Values
  import opened UsersDatabase
  import opened Employees

  datatype Manager = Manager(employee: Employee, role: string)

  /** The role that lets a manager assign roles, and the default of the constructor. */
  const ManagerRole: string := "Manager"

  /** `Manager(user_data, hiring_date, salary, db_manager, role="Manager")`. */
  function NewManager(userData: Record, hiringDate: Value, salary: Value, role: string := ManagerRole): (r: Result<Manager, Exception>)
    ensures r.Failure? <==> NewEmployee(userData, hiringDate, salary).Failure?
    ensures r.Success? ==> r.value.employee == NewEmployee(userData, hiringDate, salary).value && r.value.role == role
  {
    match NewEmployee(userData, hiringDate, salary)
    case Failure(e) => Failure(e)
    case Success(employee) => Success(Manager(employee, role))
  }

  /** Without a role argument the manager's role is "Manager". */
  lemma DefaultRoleIsManager(userData: Record, hiringDate: Value, salary: Value)
    requires HasRequiredFields(userData)
    ensures NewManager(userData, hiringDate, salary).Success?
    ensures NewManager(userData, hiringDate, salary).value.role == "Manager"
  {
  }

  /**
   * The employee `add_employee` and `update_employee` build from a record:
   * `employee_data["hiring_date"]` and `employee_data["salary"]` are read
   * first, then the constructor's own fields; any missing one is a KeyError.
   */
  function EmployeeFrom(data: Record): (r: Result<Employee, Exception>)
    ensures r.Failure? <==> !("hiring_date" in data && "salary" in data && HasRequiredFields(data))
    ensures r.Failure? ==> r.error == KeyError
    ensures r.Success? ==> ToDict(r.value).Keys == EmployeeFields
    ensures r.Success? ==> forall k :: k in EmployeeFields ==> ToDict(r.value)[k] == Get(data, k)
  {
    if "hiring_date" !in data || "salary" !in data then Failure(KeyError)
    else NewEmployee(data, data["hiring_date"], data["salary"])
  }

  /** The table with `role` written into the record at `i`. */
  function WithRole(table: seq<Record>, i: nat, role: string): (r: seq<Record>)
    requires i < |table|
    ensures |r| == |table|
    ensures forall j :: 0 <= j < |table| && j != i ==> r[j] == table[j]
    ensures r[i] == table[i]["role" := Str(role)]
  {
    table[i := table[i]["role" := Str(role)]]
  }

  /**
   * `assign_role(employee_email, role)`: False when the acting manager's role
   * is not "Manager" or no user has the email; otherwise the first user with
   * the email gets the role in the store, and True is returned.
   */
  method AssignRole(m: Manager, db: UserManager, email: Value, role: string) returns (r: bool)
    modifies db
    ensures m.role != ManagerRole ==> !r && db.table == old(db.table)
    ensures m.role == ManagerRole && Find(old(db.table), email).None? ==> !r && db.table == old(db.table)
    ensures m.role == ManagerRole && Find(old(db.table), email).Some? ==>
      && r
      && forall i :: FirstWithEmail(old(db.table), email, i) ==> db.table == WithRole(old(db.table), i, role)
  {
    if m.role != ManagerRole {
      return false;
    }
    var employee := db.FindUser(email);
    if employee.None? {
      return false;
    }
    var at := FirstIndex(db.table, WithEmail(email));
    var i := at.value;
    assert forall k :: FirstWithEmail(db.table, email, k) ==> !(k < i) && !(i < k);
    db.table := WithRole(db.table, i, role);
    return true;
  }

  /** After a role is assigned, the lookup by email returns the user's record with that role and all else as it was. */
  lemma AssignedRoleIsFound(table: seq<Record>, email: Value, i: nat, role: string)
    requires FirstWithEmail(table, email, i)
    ensures Find(WithRole(table, i, role), email) == Some(table[i]["role" := Str(role)])
  {
    var t := WithRole(table, i, role);
    assert t[i]["email"] == table[i]["email"];
    assert FirstWithEmail(t, email, i);
  }

  /**
   * `add_employee(employee_data)`: a record missing hiring date, salary,
   * first name, last name or email raises KeyError; otherwise the employee is
   * saved, a duplicate email being swallowed by the save.
   */
  method AddEmployee(db: UserManager, data: Record) returns (r: Outcome<Exception>)
    modifies db
    ensures EmployeeFrom(data).Failure? ==> r == Fail(KeyError) && db.table == old(db.table)
    ensures EmployeeFrom(data).Success? ==>
      var e := EmployeeFrom(data).value;
      && r == Pass
      && (Find(old(db.table), e.email).Some? ==> db.table == old(db.table))
      && (Find(old(db.table), e.email).None? ==> db.table == old(db.table) + [ToDict(e)])
  {
    var employee := EmployeeFrom(data);
    if employee.Failure? {
      return Fail(employee.error);
    }
    var saved := SaveToDatabase(employee.value, db);
    return Pass;
  }

  /**
   * `update_employee(email, updated_data)`: nothing happens for an unknown
   * email; otherwise the found record merged with `updated_data` must yield an
   * employee (KeyError if not), whose dictionary is then written to every
   * record with the employee's email.
   */
  method UpdateEmployee(db: UserManager, email: Value, updated: Record) returns (r: Outcome<Exception>)
    modifies db
    ensures Find(old(db.table), email).None? ==> r == Pass && db.table == old(db.table)
    ensures Find(old(db.table), email).Some? && EmployeeFrom(Find(old(db.table), email).value + updated).Failure? ==>
      r == Fail(KeyError) && db.table == old(db.table)
    ensures Find(old(db.table), email).Some? && EmployeeFrom(Find(old(db.table), email).value + updated).Success? ==>
      var e := EmployeeFrom(Find(old(db.table), email).value + updated).value;
      && r == Pass
      && (Find(old(db.table), e.email).None? ==> db.table == old(db.table))
      && (Find(old(db.table), e.email).Some? ==> db.table == MergeMatching(old(db.table), e.email, ToDict(e)))
  {
    var found := db.FindUser(email);
    if found.None? {
      return Pass;
    }
    var employee := EmployeeFrom(found.value + updated);
    if employee.Failure? {
      return Fail(employee.error);
    }
    var saved := UpdateToDatabase(employee.value, db);
    return Pass;
  }

  /**
   * When `updated_data` leaves the email alone, the stored record afterwards
   * is the old one with the eight employee fields taken from the merge:
   * `updated_data` wins among those, and it cannot add or change any other field.
   */
  lemma UpdateEmployeeStoresMerge(table: seq<Record>, email: Value, updated: Record)
    requires Find(table, email).Some?
    requires "email" !in updated
    requires EmployeeFrom(Find(table, email).value + updated).Success?
    ensures var before := Find(table, email).value;
      var e := EmployeeFrom(before + updated).value;
      && Find(table, e.email) == Some(before)
      && Find(MergeMatching(table, e.email, ToDict(e)), e.email) == Some(before + ToDict(e))
      && (forall k :: k in EmployeeFields && k in updated ==> (before + ToDict(e))[k] == updated[k])
      && (forall k :: k !in EmployeeFields ==> (k in before + ToDict(e) <==> k in before))
      && (forall k :: k !in EmployeeFields && k in before ==> (before + ToDict(e))[k] == before[k])
  {
    var before := Find(table, email).value;
    var e := EmployeeFrom(before + updated).value;
    assert e.email == before["email"];
    forall j | 0 <= j < |table|
      ensures HasEmail(table[j], e.email) <==> HasEmail(table[j], email)
    {
      if HasEmail(table[j], e.email) {
        EqualIsTransitive(table[j]["email"], e.email, email);
      }
      if HasEmail(table[j], email) {
        EqualIsSymmetric(before["email"], email);
        EqualIsTransitive(table[j]["email"], email, e.email);
      }
    }
    var i := FindIndex(table, email);
    assert FirstWithEmail(table, e.email, i);
    UpdatedEmployeeIsFound(table, e);
  }

  /**
   * `delete_employee(email)`, as evidently intended: the first record with the
   * email is removed from the store and the others keep their order; an
   * unknown email changes nothing.
   */
  method DeleteEmployee(db: UserManager, email: Value)
    modifies db
    ensures Find(old(db.table), email).None? ==> db.table == old(db.table)
    ensures forall i :: FirstWithEmail(old(db.table), email, i) ==>
      db.table == old(db.table)[..i] + old(db.table)[i + 1..]
  {
    var found := db.FindUser(email);
    if found.None? {
      return;
    }
    var i := FirstIndex(db.table, WithEmail(email)).value;
    assert forall k :: FirstWithEmail(db.table, email, k) ==> !(k < i) && !(i < k);
    forall j | 0 <= j < i
      ensures db.table[j] != db.table[i]
    {
      assert !HasEmail(db.table[j], email);
    }
    RemoveFirstAt(db.table, i);
    db.table := RemoveFirst(db.table, found.value);
  }

  /** `find_employee(email)`: reports the first user with the email, and changes nothing. */
  method FindEmployee(db: UserManager, email: Value) returns (r: Option<Record>)
    ensures r == Find(db.table, email)
  {
    r := db.FindUser(email);
  }
}
