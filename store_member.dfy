/** The `member` table, keyed by account. */
module MemberStore {
  import opened Common
  import opened Entities

  class MemberRepository {
    /** The table: account ↦ member record. */
    var rows: map<string, MemberEntity>

    /** Every record is stored under its own account (the primary key). */
    ghost predicate Valid()
      reads this
    {
      forall a :: a in rows ==> rows[a].account == a
    }

    constructor ()
      ensures Valid() && rows == map[]
    {
      rows := map[];
    }

    /**
     * INSERT of account, password, name and email; both timestamps take the
     * column default, the current time.  Refused when the account exists.
     */
    method Create(e: MemberEntity, now: Timestamp) returns (r: Result<MemberEntity>)
      requires Valid()
      modifies this
      ensures Valid()
      ensures e.account in old(rows) ==> r == Err(UniqueViolation) && rows == old(rows)
      ensures e.account !in old(rows) ==>
        && r == Ok(e.(createdAt := Some(now), updatedAt := Some(now)))
        && rows == old(rows)[e.account := r.value]
      ensures r.Ok? ==> Find(e.account) == Some(r.value)
      ensures r.Ok? ==> r.value.account == e.account && r.value.password == e.password
    {
      if e.account in rows {
        return Err(UniqueViolation);
      }
      var row := e.(createdAt := Some(now), updatedAt := Some(now));
      rows := rows[e.account := row];
      r := Ok(row);
    }

    /** The record of `account`, if any; a record found is that account's. */
    function Find(account: string): (r: Option<MemberEntity>)
      reads this
      requires Valid()
      ensures r.Some? <==> account in rows
      ensures r.Some? ==> r.value == rows[account] && r.value.account == account
    {
      if account in rows then Some(rows[account]) else None
    }

    /**
     * UPDATE of password, name and email, stamping `updatedAt` with the
     * current time; the key and `createdAt` are kept.
     */
    method Update(e: MemberEntity, now: Timestamp) returns (r: Option<MemberEntity>)
      requires Valid()
      modifies this
      ensures Valid()
      ensures e.account !in old(rows) ==> r == None && rows == old(rows)
      ensures e.account in old(rows) ==>
        && r.Some?
        && r.value.account == e.account && r.value.createdAt == old(rows)[e.account].createdAt
        && r.value.password == e.password && r.value.name == e.name && r.value.email == e.email
        && r.value.updatedAt == Some(now)
        && rows == old(rows)[e.account := r.value]
    {
      if e.account !in rows {
        return None;
      }
      var row := rows[e.account].(password := e.password, name := e.name, email := e.email,
                                  updatedAt := Some(now));
      rows := rows[e.account := row];
      r := Some(row);
    }

    /** DELETE by account; the number of rows removed is 1 or 0. */
    method Delete(account: string) returns (n: nat)
      requires Valid()
      modifies this
      ensures Valid()
      ensures n == (if account in old(rows) then 1 else 0)
      ensures rows == old(rows) - {account}
      ensures Find(account) == None
    {
      n := if account in rows then 1 else 0;
      rows := rows - {account};
    }
  }
}
