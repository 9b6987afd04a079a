/**
 * `MockUserManager` (tests/test_users_database.py): the same user store over a
 * plain list that is loaded from and saved to a JSON file. It reads
 * `user["email"]` directly, so a stored user without that field raises
 * KeyError, and its update skips None values.
 */
module MockUsers {

  import opened Wrappers
  import opened Sequences
  import opened Values

  /** The JSON file at `db_path`. */
  datatype UsersFile = Missing | Corrupt | Stored(users: seq<Record>)

  /** `load_data()`: the stored list, or an empty one when the file is missing or not valid JSON. */
  function LoadedUsers(f: UsersFile): (r: seq<Record>)
    ensures f.Stored? ==> r == f.users
    ensures !f.Stored? ==> r == []
  {
    if f.Stored? then f.users else []
  }

  /** The first `n` users all carry an email, and none of those emails equals `email`. */
  predicate ScannedPast(users: seq<Record>, email: Value, n: int) {
    forall j :: 0 <= j < n && j < |users| ==> "email" in users[j] && !Equal(users[j]["email"], email)
  }

  /**
   * The loop of `find_user`: the index of the first user whose email equals
   * `email`, None when every user has a different email, and KeyError when a
   * user without an email is reached first.
   */
  function ScanEmail(users: seq<Record>, email: Value): (r: Result<Option<nat>, Exception>)
    ensures r == Success(None) <==> ScannedPast(users, email, |users|)
    ensures r.Success? && r.value.Some? ==>
      var i := r.value.value;
      i < |users| && ScannedPast(users, email, i) && HasEmail(users[i], email)
    ensures r.Failure? ==>
      && r.error == KeyError
      && exists i :: 0 <= i < |users| && ScannedPast(users, email, i) && "email" !in users[i]
    decreases |users|
  {
    if users == [] then Success(None)
    else if "email" !in users[0] then Failure(KeyError)
    else if Equal(users[0]["email"], email) then Success(Some(0))
    else
      var rest := ScanEmail(users[1..], email);
      assert forall j :: 1 <= j < |users| ==> users[j] == users[1..][j - 1];
      match rest
      case Success(Some(i)) => Success(Some(i + 1))
      case Success(None) => Success(None)
      case Failure(e) =>
        ghost var i :| 0 <= i < |users| - 1 && ScannedPast(users[1..], email, i) && "email" !in users[1..][i];
        assert ScannedPast(users, email, i + 1);
        Failure(e)
  }

  /** Where the scan stands after `i` users have been passed over. */
  lemma ScanAt(users: seq<Record>, email: Value, i: nat)
    requires i <= |users| && ScannedPast(users, email, i)
    ensures i == |users| ==> ScanEmail(users, email) == Success(None)
    ensures i < |users| && "email" !in users[i] ==> ScanEmail(users, email) == Failure(KeyError)
    ensures i < |users| && HasEmail(users[i], email) ==> ScanEmail(users, email) == Success(Some(i))
  {
    var r := ScanEmail(users, email);
    if r.Success? && r.value.Some? {
      var k := r.value.value;
      assert HasEmail(users[k], email);
      assert i < k ==> "email" in users[i] && !Equal(users[i]["email"], email);
      assert !(k < i);
    } else if r.Failure? {
      var k :| 0 <= k < |users| && ScannedPast(users, email, k) && "email" !in users[k];
      assert !(k < i);
      assert i < k ==> "email" in users[i] && !Equal(users[i]["email"], email);
    }
  }

  /** When every user carries an email, the scan never raises and agrees with the query lookup. */
  lemma ScanAgreesWithFind(users: seq<Record>, email: Value)
    requires forall i :: 0 <= i < |users| ==> "email" in users[i]
    ensures ScanEmail(users, email).Success?
    ensures ScanEmail(users, email) == Success(None) <==> Find(users, email).None?
    ensures ScanEmail(users, email).Success? && ScanEmail(users, email).value.Some? ==>
      Find(users, email) == Some(users[ScanEmail(users, email).value.value])
  {
    var r := ScanEmail(users, email);
    if r.Success? && r.value.Some? {
      assert FirstWithEmail(users, email, r.value.value);
    }
  }

  /** The fields of `update_data` whose value is not None: what `update_user` writes. */
  function NonNull(update: Record, keys: set<string>): (r: Record)
    ensures forall k :: k in r <==> k in keys && k in update && update[k] != Null
    ensures forall k :: k in r ==> r[k] == update[k]
  {
    map k | k in keys && k in update && update[k] != Null :: update[k]
  }

  /**
   * The `for key, value in update_data.items()` loop of `update_user`: each
   * value that is not None overwrites the user's field, the other fields stay.
   */
  method Overwrite(user: Record, updateData: Record) returns (r: Record)
    ensures r == user + NonNull(updateData, updateData.Keys)
  {
    r := user;
    var pending := updateData.Keys;
    ghost var done: set<string> := {};
    while pending != {}
      invariant done + pending == updateData.Keys && done !! pending
      invariant r == user + NonNull(updateData, done)
      decreases |pending|
    {
      var key :| key in pending;
      NonNullStep(user, updateData, done, key);
      if updateData[key] != Null {
        r := r[key := updateData[key]];
      }
      pending := pending - {key};
      done := done + {key};
    }
  }

  /** Taking one more key of the update into account writes that field, unless its value is None. */
  lemma NonNullStep(user: Record, update: Record, done: set<string>, key: string)
    requires key in update
    ensures update[key] != Null ==>
      user + NonNull(update, done + {key}) == (user + NonNull(update, done))[key := update[key]]
    ensures update[key] == Null ==>
      user + NonNull(update, done + {key}) == user + NonNull(update, done)
  {
    if update[key] != Null {
      var a := user + NonNull(update, done + {key});
      var b := (user + NonNull(update, done))[key := update[key]];
      assert forall k :: k in a <==> k in b;
      assert forall k :: k in a ==> a[k] == b[k];
    } else {
      assert NonNull(update, done + {key}) == NonNull(update, done);
    }
  }

  /** A None in the update never erases a field, and every other value of the update is written. */
  lemma OverwriteSkipsNone(user: Record, updateData: Record, key: string)
    ensures key in updateData && updateData[key] == Null ==>
      (key in user + NonNull(updateData, updateData.Keys) <==> key in user)
    ensures key in updateData && updateData[key] == Null && key in user ==>
      (user + NonNull(updateData, updateData.Keys))[key] == user[key]
    ensures key in updateData && updateData[key] != Null ==>
      (user + NonNull(updateData, updateData.Keys))[key] == updateData[key]
  {
  }

  class MockUserManager {
    /** `self.users`. */
    var users: seq<Record>
    /** The JSON file at `self.db_path`. */
    var file: UsersFile

    /** `__init__`: records the path and loads the file. */
    constructor (file: UsersFile)
      ensures this.file == file && users == LoadedUsers(file)
    {
      this.file := file;
      this.users := LoadedUsers(file);
    }

    method LoadData()
      modifies this`users
      ensures users == LoadedUsers(file)
    {
      users := LoadedUsers(file);
    }

    /** `save_data()`: the file now holds the list. */
    method SaveData()
      modifies this`file
      ensures file == Stored(users)
    {
      file := Stored(users);
    }

    method GetAllUsers() returns (r: seq<Record>)
      ensures r == users
    {
      return users;
    }

    /** The `for user in self.users` loop of `find_user`, reporting the position it stops at. */
    method IndexOfEmail(email: Value) returns (r: Result<Option<nat>, Exception>)
      ensures r == ScanEmail(users, email)
    {
      var i := 0;
      while i < |users|
        invariant 0 <= i <= |users|
        invariant ScannedPast(users, email, i)
      {
        if "email" !in users[i] {
          ScanAt(users, email, i);
          return Failure(KeyError);
        }
        if Equal(users[i]["email"], email) {
          ScanAt(users, email, i);
          return Success(Some(i));
        }
        i := i + 1;
      }
      ScanAt(users, email, i);
      return Success(None);
    }

    /** `find_user(email)`: the first user with that email, None, or KeyError. */
    method FindUser(email: Value) returns (r: Result<Option<Record>, Exception>)
      ensures ScanEmail(users, email).Failure? ==> r == Failure(KeyError)
      ensures ScanEmail(users, email) == Success(None) ==> r == Success(None)
      ensures ScanEmail(users, email).Success? && ScanEmail(users, email).value.Some? ==>
        r == Success(Some(users[ScanEmail(users, email).value.value]))
    {
      var at := IndexOfEmail(email);
      match at
      case Failure(e) => return Failure(e);
      case Success(None) => return Success(None);
      case Success(Some(i)) => return Success(Some(users[i]));
    }

    /** `add_user(user_data)`: appends a user whose email is new and saves; a known email raises UserExistsError. */
    method AddUser(userData: Record) returns (r: Outcome<Exception>)
      modifies this`users, this`file
      ensures "email" !in userData ==> r == Fail(KeyError) && users == old(users) && file == old(file)
      ensures "email" in userData && ScanEmail(old(users), userData["email"]).Failure? ==>
        r == Fail(KeyError) && users == old(users) && file == old(file)
      ensures "email" in userData && ScanEmail(old(users), userData["email"]).Success? ==>
        if ScanEmail(old(users), userData["email"]).value.Some? then
          r == Fail(UserExistsError) && users == old(users) && file == old(file)
        else
          r == Pass && users == old(users) + [userData] && file == Stored(users)
    {
      if "email" !in userData {
        return Fail(KeyError);
      }
      var found := FindUser(userData["email"]);
      if found.Failure? {
        return Fail(found.error);
      }
      if found.value.Some? {
        return Fail(UserExistsError);
      }
      users := users + [userData];
      SaveData();
      return Pass;
    }

    /**
     * `search_users(criteria)`: exactly the users that agree with every
     * criterion, in list order; an empty result raises UsersNotFoundError.
     */
    method SearchUsers(criteria: Record) returns (r: Result<seq<Record>, Exception>)
      ensures r.Failure? <==> forall i :: 0 <= i < |users| ==> !MatchesCriteria(users[i], criteria)
      ensures r.Failure? ==> r.error == UsersNotFoundError
      ensures r.Success? ==> forall i :: 0 <= i < |r.value| ==> r.value[i] in users && MatchesCriteria(r.value[i], criteria)
      ensures r.Success? ==> forall i :: 0 <= i < |users| && MatchesCriteria(users[i], criteria) ==> users[i] in r.value
      ensures r.Success? ==> IsSubsequence(r.value, users)
      ensures r.Success? ==> r.value == Filter(users, MeetsCriteria(criteria))
    {
      var results := Filter(users, MeetsCriteria(criteria));
      FilterIsSubsequence(users, MeetsCriteria(criteria));
      if results == [] {
        return Failure(UsersNotFoundError);
      }
      return Success(results);
    }

    /**
     * `update_user(email, update_data)`: the found user's fields are
     * overwritten one key at a time, None values skipped, and the list is saved.
     */
    method UpdateUser(email: Value, updateData: Record) returns (r: Outcome<Exception>)
      modifies this`users, this`file
      ensures ScanEmail(old(users), email).Failure? ==> r == Fail(KeyError) && users == old(users) && file == old(file)
      ensures ScanEmail(old(users), email) == Success(None) ==>
        r == Fail(UserNotFoundError) && users == old(users) && file == old(file)
      ensures ScanEmail(old(users), email).Success? && ScanEmail(old(users), email).value.Some? ==>
        var i := ScanEmail(old(users), email).value.value;
        && r == Pass
        && users == old(users)[i := old(users)[i] + NonNull(updateData, updateData.Keys)]
        && file == Stored(users)
    {
      var at := IndexOfEmail(email);
      if at.Failure? {
        return Fail(at.error);
      }
      if at.value.None? {
        return Fail(UserNotFoundError);
      }
      var i := at.value.value;
      var user := Overwrite(users[i], updateData);
      users := users[i := user];
      SaveData();
      return Pass;
    }

    /** `delete_user(email)`: removes the found user, keeping the others in order, and saves. */
    method DeleteUser(email: Value) returns (r: Outcome<Exception>)
      modifies this`users, this`file
      ensures ScanEmail(old(users), email).Failure? ==> r == Fail(KeyError) && users == old(users) && file == old(file)
      ensures ScanEmail(old(users), email) == Success(None) ==>
        r == Fail(UserNotFoundError) && users == old(users) && file == old(file)
      ensures ScanEmail(old(users), email).Success? && ScanEmail(old(users), email).value.Some? ==>
        var i := ScanEmail(old(users), email).value.value;
        && r == Pass
        && users == old(users)[..i] + old(users)[i + 1..]
        && |users| == |old(users)| - 1
        && file == Stored(users)
    {
      var at := IndexOfEmail(email);
      if at.Failure? {
        return Fail(at.error);
      }
      if at.value.None? {
        return Fail(UserNotFoundError);
      }
      var i := at.value.value;
      var user := users[i];
      forall j | 0 <= j < i
        ensures users[j] != users[i]
      {
        assert "email" in users[j] && !Equal(users[j]["email"], email);
      }
      RemoveFirstAt(users, i);
      users := RemoveFirst(users, user);
      SaveData();
      return Pass;
    }
  }

  /** The first example user of the script. */
  const Carla: Record := map[
    "first_name" := Str("Carla"), "last_name" := Str("Estrada"), "birthday" := Str("01.01.1990"),
    "email" := Str("carla@example.com"), "password" := Str("mypassword123"),
    "phone_number" := Str("+1 1234567890"),
    "address" := Dict(map[
      "street" := Str("123 Main St"), "house_number" := Str("123"), "city" := Str("New York"),
      "zip_code" := Str("10001"), "country" := Str("USA")])]

  /** The second example user of the script. */
  const Pedro: Record := map[
    "first_name" := Str("Pedro"), "last_name" := Str("Canales"), "birthday" := Str("01.01.1994"),
    "email" := Str("canales@example.com"), "password" := Str("mypassword1111"),
    "phone_number" := Str("+1 1234567890"),
    "address" := Dict(map[
      "street" := Str("124 Main St"), "house_number" := Str("173"), "city" := Str("New York"),
      "zip_code" := Str("10001"), "country" := Str("USA")])]

  /** The lookups the script makes, position by position. */
  lemma ScenarioLookups()
    ensures ScanEmail([Carla], Pedro["email"]) == Success(None)
    ensures ScanEmail([Carla, Pedro], Carla["email"]) == Success(Some(0))
    ensures ScanEmail([Carla["first_name" := Str("Karla")], Pedro], Carla["email"]) == Success(Some(0))
    ensures ScanEmail([Pedro], Pedro["email"]) == Success(Some(0))
  {
    assert !Equal(Carla["email"], Pedro["email"]);
    ScanAt([Carla], Pedro["email"], 1);
    ScanAt([Carla, Pedro], Carla["email"], 0);
    ScanAt([Carla["first_name" := Str("Karla")], Pedro], Carla["email"], 0);
    ScanAt([Pedro], Pedro["email"], 0);
  }

  /** Renaming Carla touches only her first name, and the search by the new name finds only her. */
  lemma ScenarioRenameAndSearch()
    ensures var update := map["first_name" := Str("Karla"), "last_name" := Str("Estrada")];
      Carla + NonNull(update, update.Keys) == Carla["first_name" := Str("Karla")]
    ensures Filter([Carla["first_name" := Str("Karla")], Pedro], MeetsCriteria(map["first_name" := Str("Karla")]))
      == [Carla["first_name" := Str("Karla")]]
  {
    var update := map["first_name" := Str("Karla"), "last_name" := Str("Estrada")];
    var karla := Carla["first_name" := Str("Karla")];
    assert NonNull(update, update.Keys) == update;
    var criteria := map["first_name" := Str("Karla")];
    assert MatchesCriteria(karla, criteria);
    assert !Equal(Get(Pedro, "first_name"), criteria["first_name"]);
    assert !MatchesCriteria(Pedro, criteria);
    assert [karla, Pedro][1..] == [Pedro];
    assert [Pedro][1..] == [];
  }

  /** The two inserts of the script, into an empty store. */
  method ScenarioAdd(store: MockUserManager) returns (first: Outcome<Exception>, second: Outcome<Exception>)
    requires store.users == []
    modifies store
    ensures first == Pass && second == Pass
    ensures store.users == [Carla, Pedro]
  {
    ScenarioLookups();
    first := store.AddUser(Carla);
    second := store.AddUser(Pedro);
  }

  /** The rename of the first user and the search by the new first name. */
  method ScenarioUpdate(store: MockUserManager) returns (updated: Outcome<Exception>, found: Result<seq<Record>, Exception>)
    requires store.users == [Carla, Pedro]
    modifies store
    ensures updated == Pass
    ensures found == Success([Carla["first_name" := Str("Karla")]])
    ensures store.users == [Carla["first_name" := Str("Karla")], Pedro]
  {
    ScenarioLookups();
    ScenarioRenameAndSearch();
    updated := store.UpdateUser(Carla["email"], map["first_name" := Str("Karla"), "last_name" := Str("Estrada")]);
    assert store.users == [Carla["first_name" := Str("Karla")], Pedro];
    assert MatchesCriteria(store.users[0], map["first_name" := Str("Karla")]);
    found := store.SearchUsers(map["first_name" := Str("Karla")]);
  }

  /** The two deletes of the script. */
  method ScenarioDelete(store: MockUserManager)
    requires store.users == [Carla["first_name" := Str("Karla")], Pedro]
    modifies store
    ensures store.users == []
  {
    ScenarioLookups();
    var gone := store.DeleteUser(Carla["email"]);
    assert store.users == [Pedro];
    gone := store.DeleteUser(Pedro["email"]);
  }

  /**
   * The script at the end of the test module, from a store with no file: two
   * users are added, the first is renamed Karla, a search by first name
   * finds exactly that user, and deleting both leaves the store empty.
   */
  method Scenario() returns (outcomes: seq<Outcome<Exception>>, found: Result<seq<Record>, Exception>, remaining: seq<Record>)
    ensures outcomes == [Pass, Pass, Pass]
    ensures found == Success([Carla["first_name" := Str("Karla")]])
    ensures remaining == []
  {
    var store := new MockUserManager(Missing);
    var first, second := ScenarioAdd(store);
    var updated;
    updated, found := ScenarioUpdate(store);
    ScenarioDelete(store);
    outcomes := [first, second, updated];
    remaining := store.users;
  }
}
