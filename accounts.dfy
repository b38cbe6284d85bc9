/**
 * The account record (`User` in accounts/models/users.py): its columns, their declared defaults
 * and limits, and the uniqueness rule between two records.
 */
module Accounts {
  import opened Wrappers

  /**
   * What the password column holds. `Plain(t)` is text stored verbatim (the column's empty
   * default is `Plain("")`); `Hashed(r)` stands for the salted digest that `set_password(r)`
   * computes, never the text `r` itself; `Unusable` is what `set_password(None)` stores.
   */
  datatype Secret = Plain(text: string) | Hashed(raw: string) | Unusable

  /** `set_password`, with the hashing left abstract. */
  function SetPassword(raw: Option<string>): (s: Secret)
    ensures !s.Plain?
    ensures s.Hashed? <==> raw.Some?
    ensures s.Hashed? ==> s.raw == raw.value
  {
    match raw
    case None => Unusable
    case Some(r) => Hashed(r)
  }

  /** Timestamps are opaque instants. */
  type Instant = int

  /**
   * A row of the account table. `id` 0 means "not saved yet"; the store numbers saved rows
   * from 1. `email` and `phone` are nullable columns.
   */
  datatype Account = Account(
    id: nat,
    username: string,
    email: Option<string>,
    phone: Option<string>,
    password: Secret,
    isStaff: bool,
    isAdmin: bool,
    isSuperuser: bool,
    isActive: bool,
    lastLogin: Option<Instant>,
    lastLogout: Option<Instant>)

  const MaxUsernameLength: nat := 19
  const MaxEmailLength: nat := 254
  const MaxPhoneLength: nat := 16

  /** An unsaved record built from the given columns, every other column at its declared default. */
  function NewAccount(username: string, email: Option<string>, phone: Option<string>): (a: Account)
    ensures a.id == 0
    ensures a.username == username && a.email == email && a.phone == phone
    ensures a.password == Plain("")
    ensures !a.isStaff && !a.isAdmin && !a.isSuperuser && !a.isActive
    ensures a.lastLogin.None? && a.lastLogout.None?
  {
    Account(0, username, email, phone, Plain(""), false, false, false, false, None, None)
  }

  /** The record respects the `max_length` of its character columns. */
  predicate FitsColumns(a: Account)
  {
    && |a.username| <= MaxUsernameLength
    && (a.email.Some? ==> |a.email.value| <= MaxEmailLength)
    && (a.phone.Some? ==> |a.phone.value| <= MaxPhoneLength)
  }

  /** Two records that may not both be stored: same username, or same non-null email or phone. */
  predicate Clash(a: Account, b: Account)
  {
    || a.username == b.username
    || (a.email.Some? && a.email == b.email)
    || (a.phone.Some? && a.phone == b.phone)
  }

  /** The columns the store's constraints look at. */
  predicate SameKeys(a: Account, b: Account)
  {
    a.id == b.id && a.username == b.username && a.email == b.email && a.phone == b.phone
  }

  /** The table's constraints: rows numbered in insertion order, within limits, pairwise unique. */
  ghost predicate ConstraintsHold(s: seq<Account>)
  {
    && (forall i :: 0 <= i < |s| ==> s[i].id == i + 1 && FitsColumns(s[i]))
    && (forall i, j :: 0 <= i < j < |s| ==> !Clash(s[i], s[j]))
  }

  /** Changing anything but the key columns of one row keeps the constraints. */
  lemma ReplaceKeepsConstraints(s: seq<Account>, k: nat, a: Account)
    requires ConstraintsHold(s) && k < |s| && SameKeys(a, s[k])
    ensures ConstraintsHold(s[k := a])
  {
    var t := s[k := a];
    forall i, j | 0 <= i < j < |t| ensures !Clash(t[i], t[j]) {
      assert !Clash(s[i], s[j]);
    }
  }
}
