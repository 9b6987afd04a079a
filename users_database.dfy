/**
 * `UserManager` (employee/users_database.py): a TinyDB table of user records,
 * kept here as the sequence of its documents in insertion order. Every query
 * is `Query().email == email`, which a document without an `email` field
 * never satisfies.
 */
module UsersDatabase {

  import opened Wrappers
  import opened Sequences
  import opened Values

  const AddedMessage: string := "User added successfully."
  const UpdatedMessage: string := "User updated successfully."
  const DeletedMessage: string := "User deleted successfully."

  /** The negated query that `remove` leaves standing. */
  function WithoutEmail(email: Value): Record -> bool {
    (r: Record) => !HasEmail(r, email)
  }

  /**
   * `table.update(update_data, Query().email == email)`: every matching
   * document gets the fields of `update_data`, which win on conflicts; the
   * other documents and every field `update_data` does not name keep their values.
   */
  function MergeMatching(users: seq<Record>, email: Value, update: Record): (r: seq<Record>)
    ensures |r| == |users|
    ensures forall i :: 0 <= i < |users| && !HasEmail(users[i], email) ==> r[i] == users[i]
    ensures forall i, k :: 0 <= i < |users| && HasEmail(users[i], email) && k in update ==>
      k in r[i] && r[i][k] == update[k]
    ensures forall i, k :: 0 <= i < |users| && HasEmail(users[i], email) && k !in update ==>
      (k in r[i] <==> k in users[i]) && (k in users[i] ==> r[i][k] == users[i][k])
  {
    seq(|users|, i requires 0 <= i < |users| => if HasEmail(users[i], email) then users[i] + update else users[i])
  }

  class UserManager {
    /** The documents of the TinyDB table, in insertion order. */
    var table: seq<Record>

    constructor (table: seq<Record>)
      ensures this.table == table
    {
      this.table := table;
    }

    /** `get_all_users()`. */
    method GetAllUsers() returns (r: seq<Record>)
      ensures r == table
    {
      return table;
    }

    /** `find_user(email)`: the first document of the search result, or None when it is empty. */
    method FindUser(email: Value) returns (r: Option<Record>)
      ensures r == Find(table, email)
    {
      var result := Filter(table, WithEmail(email));
      FilterHead(table, WithEmail(email));
      r := if result != [] then Some(result[0]) else None;
    }

    /**
     * `add_user(user_data)`: a record without `email` raises KeyError, a known
     * email raises UserExistsError, and a new one is inserted at the end.
     */
    method AddUser(userData: Record) returns (r: Result<string, Exception>)
      modifies this`table
      ensures "email" !in userData ==> r == Failure(KeyError) && table == old(table)
      ensures "email" in userData && Find(old(table), userData["email"]).Some? ==>
        r == Failure(UserExistsError) && table == old(table)
      ensures "email" in userData && Find(old(table), userData["email"]).None? ==>
        r == Success(AddedMessage) && table == old(table) + [userData]
    {
      if "email" !in userData {
        return Failure(KeyError);
      }
      var existing := FindUser(userData["email"]);
      if existing.Some? {
        return Failure(UserExistsError);
      }
      table := table + [userData];
      return Success(AddedMessage);
    }

    /** `update_user(email, update_data)`: UserNotFoundError for an unknown email, otherwise every match is merged. */
    method UpdateUser(email: Value, updateData: Record) returns (r: Result<string, Exception>)
      modifies this`table
      ensures Find(old(table), email).None? ==> r == Failure(UserNotFoundError) && table == old(table)
      ensures Find(old(table), email).Some? ==>
        r == Success(UpdatedMessage) && table == MergeMatching(old(table), email, updateData)
    {
      var existing := FindUser(email);
      if existing.None? {
        return Failure(UserNotFoundError);
      }
      table := MergeMatching(table, email, updateData);
      return Success(UpdatedMessage);
    }

    /** `delete_user(email)`: UserNotFoundError for an unknown email, otherwise every match is removed. */
    method DeleteUser(email: Value) returns (r: Result<string, Exception>)
      modifies this`table
      ensures Find(old(table), email).None? ==> r == Failure(UserNotFoundError) && table == old(table)
      ensures Find(old(table), email).Some? ==>
        r == Success(DeletedMessage) && table == Filter(old(table), WithoutEmail(email))
    {
      var existing := FindUser(email);
      if existing.None? {
        return Failure(UserNotFoundError);
      }
      table := Filter(table, WithoutEmail(email));
      return Success(DeletedMessage);
    }

    /**
     * `search_users(criteria)`: exactly the documents that agree with every
     * criterion (a missing field reads as None), in table order; an empty
     * result raises UserNotFoundError.
     */
    method SearchUsers(criteria: Record) returns (r: Result<seq<Record>, Exception>)
      ensures r.Failure? <==> forall i :: 0 <= i < |table| ==> !MatchesCriteria(table[i], criteria)
      ensures r.Failure? ==> r.error == UserNotFoundError
      ensures r.Success? ==> forall i :: 0 <= i < |r.value| ==> r.value[i] in table && MatchesCriteria(r.value[i], criteria)
      ensures r.Success? ==> forall i :: 0 <= i < |table| && MatchesCriteria(table[i], criteria) ==> table[i] in r.value
      ensures r.Success? ==> IsSubsequence(r.value, table)
      ensures r.Success? ==> r.value == Filter(table, MeetsCriteria(criteria))
    {
      var results := Filter(table, MeetsCriteria(criteria));
      FilterIsSubsequence(table, MeetsCriteria(criteria));
      if results == [] {
        return Failure(UserNotFoundError);
      }
      return Success(results);
    }
  }

  /** Inserting only records whose email is not yet present keeps emails unique. */
  lemma AddKeepsEmailsUnique(users: seq<Record>, user: Record)
    requires UniqueEmails(users)
    requires "email" in user && Find(users, user["email"]).None?
    ensures UniqueEmails(users + [user])
  {
    var t := users + [user];
    forall i, j | 0 <= i < j < |t| && "email" in t[i]
      ensures !HasEmail(t[j], t[i]["email"])
    {
      if j == |users| {
        assert !HasEmail(users[i], user["email"]);
        EqualIsSymmetric(users[i]["email"], user["email"]);
      } else {
        assert t[i] == users[i] && t[j] == users[j];
      }
    }
  }

  /** After a successful insert, looking the email up finds the inserted record. */
  lemma FindAfterAdd(users: seq<Record>, user: Record)
    requires "email" in user && Find(users, user["email"]).None?
    ensures Find(users + [user], user["email"]) == Some(user)
  {
    var t := users + [user];
    assert FirstWithEmail(t, user["email"], |users|);
  }

  /** An update that does not name `email` keeps the emails of the table unique. */
  lemma UpdateWithoutEmailKeepsUnique(users: seq<Record>, email: Value, update: Record)
    requires UniqueEmails(users)
    requires "email" !in update
    ensures UniqueEmails(MergeMatching(users, email, update))
  {
    var t := MergeMatching(users, email, update);
    forall i, j | 0 <= i < j < |t| && "email" in t[i]
      ensures !HasEmail(t[j], t[i]["email"])
    {
      assert "email" in users[i] && t[i]["email"] == users[i]["email"];
      assert HasEmail(t[j], t[i]["email"]) <==> HasEmail(users[j], users[i]["email"]);
    }
  }

  /** A record with the email still has it after merging an update that keeps the email. */
  lemma MergeKeepsEmail(r: Record, email: Value, update: Record)
    requires HasEmail(r, email)
    requires "email" in update ==> Equal(update["email"], email)
    ensures HasEmail(r + update, email)
  {
    if "email" !in update {
      assert (r + update)["email"] == r["email"];
    }
  }

  /** After an update that keeps the email, the lookup finds the first match, merged. */
  lemma FindAfterUpdate(users: seq<Record>, email: Value, update: Record)
    requires Find(users, email).Some?
    requires "email" in update ==> Equal(update["email"], email)
    ensures Find(MergeMatching(users, email, update), email) == Some(Find(users, email).value + update)
  {
    var i := FindIndex(users, email);
    var t := MergeMatching(users, email, update);
    assert t[i] == users[i] + update;
    MergeKeepsEmail(users[i], email, update);
    forall j | 0 <= j < i
      ensures !HasEmail(t[j], email)
    {
      assert t[j] == users[j];
    }
    assert FirstWithEmail(t, email, i);
  }

  /** An update whose data carries another user's email leaves two records with that email. */
  lemma UpdateCanBreakUniqueness()
    ensures var users := [map["email" := Str("a")], map["email" := Str("b")]];
      && UniqueEmails(users)
      && !UniqueEmails(MergeMatching(users, Str("a"), map["email" := Str("b")]))
  {
    var users := [map["email" := Str("a")], map["email" := Str("b")]];
    var t := MergeMatching(users, Str("a"), map["email" := Str("b")]);
    assert HasEmail(users[0], Str("a"));
    assert t[0]["email"] == Str("b") && t[1]["email"] == Str("b");
    assert HasEmail(t[1], t[0]["email"]);
  }

  /** After a delete, no record with the email is left, and every other record stays in order. */
  lemma DeleteRemovesEveryMatch(users: seq<Record>, email: Value)
    ensures Find(Filter(users, WithoutEmail(email)), email).None?
    ensures IsSubsequence(Filter(users, WithoutEmail(email)), users)
    ensures forall i :: 0 <= i < |users| && !HasEmail(users[i], email) ==> users[i] in Filter(users, WithoutEmail(email))
  {
    FilterIsSubsequence(users, WithoutEmail(email));
  }
}
