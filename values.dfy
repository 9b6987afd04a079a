/**
 * The JSON-shaped dictionaries that the user stores keep, and Python's `==`
 * and `dict.get` over them.
 */
module Values {

  import opened Wrappers
  import opened Sequences

  /** A value a user record can hold after a JSON round trip (`None`, booleans, numbers, strings, lists, dicts). */
  datatype Value =
    | Null
    | Bool(b: bool)
    | Int(i: int)
    | Float(f: real)
    | Str(s: string)
    | List(items: seq<Value>)
    | Dict(fields: map<string, Value>)

  /** A user record: a dictionary from field name to value. */
  type Record = map<string, Value>

  predicate IsNumber(v: Value) { v.Bool? || v.Int? || v.Float? }

  function NumericValue(v: Value): real
    requires IsNumber(v)
  {
    match v
    case Bool(b) => if b then 1.0 else 0.0
    case Int(i) => i as real
    case Float(f) => f
  }

  /**
   * Python's `a == b` at the top level: numbers of different types compare by
   * value (`1 == 1.0`, `True == 1`); every other pair compares structurally.
   */
  predicate Equal(a: Value, b: Value) {
    if IsNumber(a) && IsNumber(b) then NumericValue(a) == NumericValue(b) else a == b
  }

  lemma EqualIsSymmetric(a: Value, b: Value)
    ensures Equal(a, b) == Equal(b, a)
  {
  }

  /** Python's `==` on these values is transitive: numbers compare by value, the rest structurally. */
  lemma EqualIsTransitive(a: Value, b: Value, c: Value)
    requires Equal(a, b) && Equal(b, c)
    ensures Equal(a, c)
  {
  }

  /** `record.get(key)`: the stored value, or `None` for a missing key. */
  function Get(r: Record, key: string): Value {
    if key in r then r[key] else Null
  }

  /** The test that TinyDB's `Query().email == email` and the stores' `user["email"] == email` apply to one record. */
  predicate HasEmail(r: Record, email: Value) {
    "email" in r && Equal(r["email"], email)
  }

  /** `all(user.get(key) == value for key, value in criteria.items())`. */
  predicate MatchesCriteria(user: Record, criteria: Record) {
    forall key :: key in criteria ==> Equal(Get(user, key), criteria[key])
  }

  /** No two records share an email: the invariant `add_user` keeps. */
  predicate UniqueEmails(users: seq<Record>) {
    forall i, j :: 0 <= i < j < |users| && "email" in users[i] ==> !HasEmail(users[j], users[i]["email"])
  }

  /** The query `email == e` as a test on one record. */
  function WithEmail(email: Value): Record -> bool {
    (r: Record) => HasEmail(r, email)
  }

  /** The criteria query of `search_users` as a test on one record. */
  function MeetsCriteria(criteria: Record): Record -> bool {
    (r: Record) => MatchesCriteria(r, criteria)
  }

  /** `users[i]` has this email and no record before it does. */
  predicate FirstWithEmail(users: seq<Record>, email: Value, i: int) {
    && 0 <= i < |users|
    && HasEmail(users[i], email)
    && forall j :: 0 <= j < i ==> !HasEmail(users[j], email)
  }

  /** The first record of `users` with this email, or None. */
  function Find(users: seq<Record>, email: Value): (r: Option<Record>)
    ensures r.None? <==> forall i :: 0 <= i < |users| ==> !HasEmail(users[i], email)
    ensures r.Some? ==> r.value in users && HasEmail(r.value, email)
    ensures forall i :: FirstWithEmail(users, email, i) ==> r == Some(users[i])
  {
    match FirstIndex(users, WithEmail(email))
    case None => None
    case Some(i) =>
      assert forall k :: FirstWithEmail(users, email, k) ==> !(k < i) && !(i < k);
      Some(users[i])
  }

  /** When the lookup finds a record, it is the one at the first index with the email. */
  lemma FindIndex(users: seq<Record>, email: Value) returns (i: nat)
    requires Find(users, email).Some?
    ensures FirstWithEmail(users, email, i)
    ensures Find(users, email) == Some(users[i])
  {
    i := FirstIndex(users, WithEmail(email)).value;
  }
}
