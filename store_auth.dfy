/** The `auth` table, keyed by account. */
module AuthStore {
  import opened Common
  import opened AuthModel

  class AuthRepository {
    /** The table: account ↦ session record. */
    var rows: map<string, AuthRow>

    /** Every record is stored under its own account (the primary key). */
    ghost predicate Valid()
      reads this
    {
      forall a :: a in rows ==> rows[a].account == a
    }

    constructor ()
      ensures Valid() && rows == map[]
    {
      rows := map[];
    }

    /** INSERT of all seven columns; refused when the account already has a record. */
    method Create(e: AuthRow) returns (r: Result<AuthRow>)
      requires Valid()
      modifies this
      ensures Valid()
      ensures e.account in old(rows) ==> r == Err(UniqueViolation) && rows == old(rows)
      ensures e.account !in old(rows) ==> r == Ok(e) && rows == old(rows)[e.account := e]
      ensures r.Ok? ==> Find(e.account) == Some(e)
    {
      if e.account in rows {
        return Err(UniqueViolation);
      }
      rows := rows[e.account := e];
      r := Ok(e);
    }

    /** The record of `account`, if any; a record found is that account's. */
    function Find(account: string): (r: Option<AuthRow>)
      reads this
      requires Valid()
      ensures r.Some? <==> account in rows
      ensures r.Some? ==> r.value == rows[account] && r.value.account == account
    {
      if account in rows then Some(rows[account]) else None
    }

    /**
     * UPDATE of every column but the key, for the record whose account is
     * `e.account`; the updated row is returned, and no other record changes.
     */
    method Update(e: AuthRow) returns (r: Option<AuthRow>)
      requires Valid()
      modifies this
      ensures Valid()
      ensures e.account in old(rows) ==> r == Some(e) && rows == old(rows)[e.account := e]
      ensures e.account !in old(rows) ==> r == None && rows == old(rows)
      ensures forall a :: a != e.account ==> Find(a) == old(Find(a))
    {
      if e.account !in rows {
        return None;
      }
      rows := rows[e.account := e];
      r := Some(e);
    }

    /** DELETE by account; the number of rows removed is 1 or 0. */
    method Delete(account: string) returns (n: nat)
      requires Valid()
      modifies this
      ensures Valid()
      ensures n == (if account in old(rows) then 1 else 0)
      ensures rows == old(rows) - {account}
      ensures Find(account) == None
    {
      n := if account in rows then 1 else 0;
      rows := rows - {account};
    }
  }
}
