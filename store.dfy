/**
 * The account table as the views see it: an insert that enforces the columns' uniqueness and
 * length constraints, and a save that rewrites one existing row.
 */
module Store {
  import opened Wrappers
  import opened Accounts

  datatype Column = UsernameColumn | EmailColumn | PhoneColumn

  /** Why the store refused an insert; the text of the database's message is not modelled. */
  datatype StoreError = NotUnique(column: Column) | TooLong(column: Column)

  /** The constraint, if any, that inserting `a` next to `accounts` would violate. */
  function InsertError(a: Account, accounts: seq<Account>): (e: Option<StoreError>)
    ensures e.None? <==> FitsColumns(a) && forall i :: 0 <= i < |accounts| ==> !Clash(a, accounts[i])
  {
    if exists i :: 0 <= i < |accounts| && accounts[i].username == a.username then Some(NotUnique(UsernameColumn))
    else if a.email.Some? && exists i :: 0 <= i < |accounts| && accounts[i].email == a.email then Some(NotUnique(EmailColumn))
    else if a.phone.Some? && exists i :: 0 <= i < |accounts| && accounts[i].phone == a.phone then Some(NotUnique(PhoneColumn))
    else if |a.username| > MaxUsernameLength then Some(TooLong(UsernameColumn))
    else if a.email.Some? && |a.email.value| > MaxEmailLength then Some(TooLong(EmailColumn))
    else if a.phone.Some? && |a.phone.value| > MaxPhoneLength then Some(TooLong(PhoneColumn))
    else None
  }

  /** The insert the store accepts keeps every constraint of the table. */
  lemma InsertKeepsConstraints(a: Account, s: seq<Account>)
    requires ConstraintsHold(s) && InsertError(a, s).None?
    ensures ConstraintsHold(s + [a.(id := |s| + 1)])
  {
    var t := s + [a.(id := |s| + 1)];
    forall i, j | 0 <= i < j < |t| ensures !Clash(t[i], t[j]) {
      if j < |s| {
        assert !Clash(s[i], s[j]);
      } else {
        assert !Clash(a, s[i]);
      }
    }
  }

  /** The rows of `s` and `t` agree on their key columns, row by row. */
  predicate SameKeysEverywhere(s: seq<Account>, t: seq<Account>)
  {
    |s| == |t| && forall i :: 0 <= i < |s| ==> SameKeys(s[i], t[i])
  }

  /** The store's verdict on an insert depends only on the key columns of the rows present. */
  lemma InsertErrorOnlyReadsKeys(a: Account, s: seq<Account>, t: seq<Account>)
    requires SameKeysEverywhere(s, t)
    ensures InsertError(a, s) == InsertError(a, t)
  {
    assert forall i :: 0 <= i < |s| ==> s[i].username == t[i].username && s[i].email == t[i].email && s[i].phone == t[i].phone;
  }

  class AccountStore {
    var accounts: seq<Account>

    ghost predicate Valid()
      reads this
    {
      ConstraintsHold(accounts)
    }

    constructor ()
      ensures Valid() && accounts == []
    {
      accounts := [];
    }

    /** `Model.objects.create` / the first `save()` of a record: numbered and appended, or refused. */
    method Insert(a: Account) returns (r: Result<Account, StoreError>)
      requires Valid()
      modifies this
      ensures Valid()
      ensures InsertError(a, old(accounts)).Some? ==>
                r == Failure(InsertError(a, old(accounts)).value) && accounts == old(accounts)
      ensures InsertError(a, old(accounts)).None? ==>
                r == Success(a.(id := |old(accounts)| + 1)) && accounts == old(accounts) + [r.value]
    {
      var e := InsertError(a, accounts);
      if e.Some? {
        return Failure(e.value);
      }
      InsertKeepsConstraints(a, accounts);
      var row := a.(id := |accounts| + 1);
      accounts := accounts + [row];
      return Success(row);
    }

    /** `save()` of a record already stored, changing none of its key columns. */
    method Save(a: Account)
      requires Valid() && 1 <= a.id <= |accounts| && SameKeys(a, accounts[a.id - 1])
      modifies this
      ensures Valid()
      ensures accounts == old(accounts)[a.id - 1 := a]
    {
      ReplaceKeepsConstraints(accounts, a.id - 1, a);
      accounts := accounts[a.id - 1 := a];
    }
  }
}
