/**
 * `Employee` (employee/employee.py): the fields taken from a user record plus
 * hiring date and salary, their eight-key dictionary, and the save and update
 * calls into the user store, whose errors are swallowed.
 */
module Employees {

  import opened Wrappers
  import opened Values
  import opened UsersDatabase

  datatype Employee = Employee(
    firstName: Value,
    lastName: Value,
    email: Value,
    phoneNumber: Value,
    address: Value,
    birthday: Value,
    hiringDate: Value,
    salary: Value)

  /** The keys of `to_dict()`. */
  const EmployeeFields: set<string> :=
    {"first_name", "last_name", "email", "phone_number", "address", "birthday", "hiring_date", "salary"}

  /** The fields `__init__` reads with `user_data[...]`: a missing one raises KeyError. */
  predicate HasRequiredFields(userData: Record) {
    "first_name" in userData && "last_name" in userData && "email" in userData
  }

  /** `to_dict()`: the eight fields under their Python names. */
  function ToDict(e: Employee): (r: Record)
    ensures r.Keys == EmployeeFields
    ensures r["email"] == e.email && r["hiring_date"] == e.hiringDate && r["salary"] == e.salary
  {
    map[
      "first_name" := e.firstName, "last_name" := e.lastName, "email" := e.email,
      "phone_number" := e.phoneNumber, "address" := e.address, "birthday" := e.birthday,
      "hiring_date" := e.hiringDate, "salary" := e.salary]
  }

  /**
   * `Employee(user_data, hiring_date, salary, db_manager)`: KeyError without a
   * first name, last name or email; phone number, address and birthday are
   * None when absent; hiring date and salary come from the arguments.
   */
  function NewEmployee(userData: Record, hiringDate: Value, salary: Value): (r: Result<Employee, Exception>)
    ensures r.Failure? <==> !HasRequiredFields(userData)
    ensures r.Failure? ==> r.error == KeyError
    ensures r.Success? ==>
      forall k :: k in EmployeeFields && k != "hiring_date" && k != "salary" ==> ToDict(r.value)[k] == Get(userData, k)
    ensures r.Success? ==> r.value.hiringDate == hiringDate && r.value.salary == salary
  {
    if !HasRequiredFields(userData) then Failure(KeyError)
    else Success(Employee(
      userData["first_name"], userData["last_name"], userData["email"],
      Get(userData, "phone_number"), Get(userData, "address"), Get(userData, "birthday"),
      hiringDate, salary))
  }

  /** Building an employee from its own dictionary gives the same employee back. */
  lemma NewEmployeeFromDict(e: Employee)
    ensures NewEmployee(ToDict(e), e.hiringDate, e.salary) == Success(e)
  {
  }

  /** `save_to_database()`: `add_user(to_dict())`, with None in place of the duplicate error. */
  method SaveToDatabase(e: Employee, db: UserManager) returns (r: Option<string>)
    modifies db
    ensures Find(old(db.table), e.email).Some? ==> r == None && db.table == old(db.table)
    ensures Find(old(db.table), e.email).None? ==> r == Some(AddedMessage) && db.table == old(db.table) + [ToDict(e)]
  {
    var added := db.AddUser(ToDict(e));
    if added.Failure? {
      return None;
    }
    return Some(added.value);
  }

  /** Once saved into a store that lacks its email, the lookup by email returns the employee's dictionary. */
  lemma SavedEmployeeIsFound(table: seq<Record>, e: Employee)
    requires Find(table, e.email).None?
    ensures Find(table + [ToDict(e)], e.email) == Some(ToDict(e))
  {
    FindAfterAdd(table, ToDict(e));
  }

  /** `update_to_database()`: `update_user(email, to_dict())`, with None in place of the not-found error. */
  method UpdateToDatabase(e: Employee, db: UserManager) returns (r: Option<string>)
    modifies db
    ensures Find(old(db.table), e.email).None? ==> r == None && db.table == old(db.table)
    ensures Find(old(db.table), e.email).Some? ==>
      r == Some(UpdatedMessage) && db.table == MergeMatching(old(db.table), e.email, ToDict(e))
  {
    var updated := db.UpdateUser(e.email, ToDict(e));
    if updated.Failure? {
      return None;
    }
    return Some(updated.value);
  }

  /**
   * After an update the lookup by email returns the old record overlaid with
   * the eight fields: those take the employee's values and every other field
   * keeps the value it had.
   */
  lemma UpdatedEmployeeIsFound(table: seq<Record>, e: Employee)
    requires Find(table, e.email).Some?
    ensures Find(MergeMatching(table, e.email, ToDict(e)), e.email) == Some(Find(table, e.email).value + ToDict(e))
    ensures var found := Find(table, e.email).value + ToDict(e);
      && (forall k :: k in EmployeeFields ==> found[k] == ToDict(e)[k])
      && (forall k :: k !in EmployeeFields ==> (k in found <==> k in Find(table, e.email).value))
      && (forall k :: k !in EmployeeFields && k in found ==> found[k] == Find(table, e.email).value[k])
  {
    FindAfterUpdate(table, e.email, ToDict(e));
  }
}
