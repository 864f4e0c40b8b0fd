/**
 * The single entity of the system: a row of the `users` table, together
 * with the password hasher and the two table-wide invariants the account
 * rules are meant to keep (every role is ADMIN or NORMAL, emails are unique).
 */
module Accounts {

  /**
   * A password digest. The hasher is abstract: a digest is determined by
   * its plaintext and distinct plaintexts give distinct digests. Nothing
   * outside `HashCheck` looks inside a digest.
   */
  datatype PasswordHash = Digest(plain: string)

  function Hash(plain: string): PasswordHash
  {
    Digest(plain)
  }

  /** `Hash::check`: does the plaintext match the stored digest? */
  predicate HashCheck(plain: string, h: PasswordHash)
  {
    h == Hash(plain)
  }

  /** A digest verifies against its own plaintext and against no other one. */
  lemma HashCheckAgreesWithHash(plain: string, other: string)
    ensures HashCheck(plain, Hash(plain))
    ensures plain != other ==> !HashCheck(plain, Hash(other))
  {
  }

  const Admin: string := "ADMIN"
  const Normal: string := "NORMAL"

  /** The role enumeration `in:ADMIN,NORMAL`. */
  predicate IsRole(role: string)
  {
    role == Admin || role == Normal
  }

  /** A stored account. `password` holds the digest, never the plaintext. */
  datatype User = User(id: int, name: string, lastName: string, email: string, password: PasswordHash, role: string)

  /** The validated payload of an admin create: every column but the id, password in clear. */
  datatype NewUser = NewUser(email: string, password: string, name: string, lastName: string, role: string)

  /** `User::create($data)`: the row stored under a fresh id; the model's cast hashes the password. */
  function RowOf(id: int, data: NewUser): User
  {
    User(id, data.name, data.lastName, data.email, Hash(data.password), data.role)
  }

  /** Is some row already using this email (`unique:users`)? */
  predicate EmailTaken(email: string, rows: map<int, User>)
  {
    exists k :: k in rows && rows[k].email == email
  }

  predicate AllRolesValid(rows: map<int, User>)
  {
    forall k :: k in rows ==> IsRole(rows[k].role)
  }

  predicate EmailsUnique(rows: map<int, User>)
  {
    forall a, b :: a in rows && b in rows && a != b ==> rows[a].email != rows[b].email
  }

  /** Adding a row with an unused email and a valid role keeps both table invariants. */
  lemma InsertKeepsInvariants(rows: map<int, User>, id: int, u: User)
    requires id !in rows
    requires !EmailTaken(u.email, rows) && IsRole(u.role)
    ensures AllRolesValid(rows) ==> AllRolesValid(rows[id := u])
    ensures EmailsUnique(rows) ==> EmailsUnique(rows[id := u])
  {
    var rows' := rows[id := u];
    if EmailsUnique(rows) {
      forall a, b | a in rows' && b in rows' && a != b
        ensures rows'[a].email != rows'[b].email
      {
        if a == id {
          assert rows'[b].email == rows[b].email;
        } else if b == id {
          assert rows'[a].email == rows[a].email;
        }
      }
    }
  }

  /** Replacing a row by one with an email no row uses and a valid role keeps both invariants. */
  lemma ReplaceKeepsInvariants(rows: map<int, User>, id: int, u: User)
    requires id in rows
    requires u.email == rows[id].email || !EmailTaken(u.email, rows)
    requires IsRole(rows[id].role) ==> IsRole(u.role)
    ensures AllRolesValid(rows) ==> AllRolesValid(rows[id := u])
    ensures EmailsUnique(rows) ==> EmailsUnique(rows[id := u])
  {
    var rows' := rows[id := u];
    if EmailsUnique(rows) {
      forall a, b | a in rows' && b in rows' && a != b
        ensures rows'[a].email != rows'[b].email
      {
        if a == id {
          assert rows'[b].email == rows[b].email;
          assert rows[b].email != rows[id].email;
        } else if b == id {
          assert rows'[a].email == rows[a].email;
          assert rows[a].email != rows[id].email;
        }
      }
    }
  }
}
