/**
 * userController.js: the Users table as the account handlers see it. Users
 * are created by the sign-up handler, which is not part of this model, so
 * the table starts from a given set of rows. The password column holds a
 * bcrypt hash; `bcrypt.hash` is a function passed in. The `if (err)`
 * branches of the database callbacks are not modelled.
 */
module UserController {
  import opened Js

  /** A row of Users. */
  datatype User = User(username: string, email: string, password: string)

  /** What the read handlers select: `id, username, email`, never the password. */
  datatype PublicUser = PublicUser(id: nat, username: string, email: string)

  const IdRequired := "ID parameter is required"
  const NotFound := "User not found"
  const ForbiddenUpdate := "Forbidden: you can only update your own account"
  const ForbiddenDelete := "Forbidden: you can only delete your own account"
  const Updated := "User updated successfully"
  const Deleted := "User deleted successfully"

  /** The selected columns of one row. */
  function Public(id: nat, u: User): (r: PublicUser)
    ensures r.id == id && r.username == u.username && r.email == u.email
  {
    PublicUser(id, u.username, u.email)
  }

  /** Two rows that differ only in the password read the same. */
  lemma PublicIgnoresPassword(id: nat, u: User, password: string)
    ensures Public(id, u.(password := password)) == Public(id, u)
  {
  }

  /**
   * The row `updateUser` writes: the username when truthy, and the hash of
   * a truthy new password; otherwise the stored values. The email never
   * changes.
   */
  function Apply(u: User, username: Option<string>, password: Option<string>, hash: string -> string): (r: User)
    ensures r.username == (if Given(username) then username.value else u.username)
    ensures r.password == (if Given(password) then hash(password.value) else u.password)
    ensures r.email == u.email
    ensures u.username != "" ==> r.username != ""
  {
    User(OrElse(username, u.username), u.email, if Given(password) then hash(password.value) else u.password)
  }

  /** A request without a username or a password leaves the row as it is. */
  lemma ApplyNothing(u: User, hash: string -> string)
    ensures Apply(u, None, None, hash) == u && Apply(u, Some(""), Some(""), hash) == u
  {
  }

  class UserTable {
    var rows: map<nat, User>

    constructor (initial: map<nat, User>)
      ensures rows == initial
    {
      rows := initial;
    }

    /** `getUsers`: every user, without passwords. */
    method GetUsers() returns (reply: Reply<map<nat, PublicUser>>)
      ensures reply.Json? && reply.status == 200
      ensures reply.value.Keys == rows.Keys
      ensures forall id :: id in reply.value ==> reply.value[id] == Public(id, rows[id])
    {
      reply := Json(200, map id | id in rows :: Public(id, rows[id]));
    }

    /** `getUserById`: 400 without an id, 404 for an absent one, else the row without its password. */
    method GetUserById(id: Option<int>) returns (reply: Reply<PublicUser>)
      ensures id.None? ==> reply == Text(400, IdRequired)
      ensures id.Some? && (id.value < 0 || id.value !in rows) ==> reply == Text(404, NotFound)
      ensures id.Some? && id.value >= 0 && id.value in rows ==>
        reply == Json(200, Public(id.value as nat, rows[id.value]))
    {
      if id.None? {
        return Text(400, IdRequired);
      }
      if id.value < 0 || id.value !in rows {
        return Text(404, NotFound);
      }
      reply := Json(200, Public(id.value as nat, rows[id.value]));
    }

    /**
     * `updateUser`: 403 and no change unless the path id is the
     * authenticated user's; 404 for an absent row; otherwise only that row
     * is rewritten.
     */
    method UpdateUser(id: int, authId: int, username: Option<string>, password: Option<string>, hash: string -> string)
      returns (reply: Reply<()>)
      modifies this
      ensures id != authId ==> reply == Text(403, ForbiddenUpdate) && rows == old(rows)
      ensures id == authId && (id < 0 || id !in old(rows)) ==> reply == Text(404, NotFound) && rows == old(rows)
      ensures id == authId && id >= 0 && id in old(rows) ==>
        reply == Text(200, Updated)
        && rows == old(rows)[id as nat := Apply(old(rows)[id], username, password, hash)]
    {
      if id != authId {
        return Text(403, ForbiddenUpdate);
      }
      if id < 0 || id !in rows {
        return Text(404, NotFound);
      }
      rows := rows[id as nat := Apply(rows[id], username, password, hash)];
      reply := Text(200, Updated);
    }

    /**
     * `deleteUser`: 403 and no change unless deleting one's own id; 404 when
     * no row was removed; otherwise only that row goes.
     */
    method DeleteUser(id: int, authId: int) returns (reply: Reply<()>)
      modifies this
      ensures id != authId ==> reply == Text(403, ForbiddenDelete) && rows == old(rows)
      ensures id == authId && (id < 0 || id !in old(rows)) ==> reply == Text(404, NotFound) && rows == old(rows)
      ensures id == authId && id >= 0 && id in old(rows) ==>
        reply == Text(200, Deleted) && rows == old(rows) - {id as nat}
    {
      if id != authId {
        return Text(403, ForbiddenDelete);
      }
      if id < 0 || id !in rows {
        return Text(404, NotFound);
      }
      rows := rows - {id as nat};
      reply := Text(200, Deleted);
    }
  }
}
