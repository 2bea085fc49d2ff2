/**
 * The user entity and the user store.
 *
 * `Users` is the JPA entity that registration and login requests bind to; its
 * password is overwritten in place during registration, so it is a class.
 * `UserRecord` is one stored row, the value the store hands back.
 * `UserRepo` is the table behind the repository interface, keyed by username.
 */
module Accounts {
  import opened Wrappers

  /** One stored user: the username and the (encoded) password. */
  datatype UserRecord = UserRecord(username: string, password: string)

  /** The mutable `Users` entity. */
  class Users {
    var username: string
    var password: string

    constructor (username: string, password: string)
      ensures this.username == username && this.password == password
    {
      this.username := username;
      this.password := password;
    }

    /** The row this entity is saved as. */
    function Record(): UserRecord
      reads this
    {
      UserRecord(username, password)
    }

    method SetPassword(password: string)
      modifies this
      ensures this.password == password && username == old(username)
    {
      this.password := password;
    }
  }

  /** The users table, looked up by username. */
  class UserRepo {
    var rows: map<string, UserRecord>

    /** Every row is filed under its own username. */
    ghost predicate Valid()
      reads this
    {
      forall name :: name in rows ==> rows[name].username == name
    }

    constructor ()
      ensures rows == map[] && Valid()
    {
      rows := map[];
    }

    /** The row for `username`, or `None` where the repository returns null. */
    function FindByUsername(username: string): (r: Option<UserRecord>)
      reads this
      ensures r.Some? <==> username in rows
      ensures r.Some? ==> r.value == rows[username]
      ensures r.Some? && Valid() ==> r.value.username == username
    {
      if username in rows then Some(rows[username]) else None
    }

    /** Writes `user` under its username, replacing any row already there, and returns it. */
    method Save(user: UserRecord) returns (saved: UserRecord)
      modifies this
      ensures rows == old(rows)[user.username := user]
      ensures saved == user
      ensures old(Valid()) ==> Valid()
    {
      rows := rows[user.username := user];
      saved := user;
    }
  }
}
