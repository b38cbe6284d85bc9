/**
 * `CustomUserManager` of accounts/models/users.py: `create_user` builds a record, hashes the
 * password into it and saves it; `create_superuser` fills in the four privilege flags the caller
 * left out and delegates to `create_user`.
 */
module UserManager {
  import opened Wrappers
  import opened Accounts
  import opened Store

  /**
   * The keyword arguments `**extra_fields` that the manager passes on to the model: each one is
   * either supplied by the caller or absent.
   */
  datatype ExtraFields = ExtraFields(
    phone: Option<string>,
    isActive: Option<bool>,
    isStaff: Option<bool>,
    isAdmin: Option<bool>,
    isSuperuser: Option<bool>)

  const NoExtras: ExtraFields := ExtraFields(None, None, None, None, None)

  /** `dict.setdefault` on one key. */
  function SetDefault(field: Option<bool>, default: bool): Option<bool>
  {
    if field.Some? then field else Some(default)
  }

  /** The four `setdefault` calls of `create_superuser`. */
  function SuperuserExtras(extras: ExtraFields): (e: ExtraFields)
    ensures e.phone == extras.phone
    ensures e.isActive.Some? && e.isStaff.Some? && e.isAdmin.Some? && e.isSuperuser.Some?
  {
    extras.(isActive := SetDefault(extras.isActive, true),
            isStaff := SetDefault(extras.isStaff, true),
            isAdmin := SetDefault(extras.isAdmin, true),
            isSuperuser := SetDefault(extras.isSuperuser, true))
  }

  /** A flag passed to the model, or the column's declared default `False`. */
  function FlagOrDefault(field: Option<bool>): bool
  {
    if field.Some? then field.value else false
  }

  /** `self.model(email=email, username=username, **extra_fields)`: an unsaved record. */
  function ModelInstance(username: string, email: string, extras: ExtraFields): (a: Account)
    ensures a.id == 0 && a.password == Plain("")
    ensures a.username == username && a.email == Some(email) && a.phone == extras.phone
    ensures extras.isActive.Some? ==> a.isActive == extras.isActive.value
    ensures extras.isStaff.Some? ==> a.isStaff == extras.isStaff.value
    ensures extras.isAdmin.Some? ==> a.isAdmin == extras.isAdmin.value
    ensures extras.isSuperuser.Some? ==> a.isSuperuser == extras.isSuperuser.value
    ensures extras == NoExtras ==> !a.isActive && !a.isStaff && !a.isAdmin && !a.isSuperuser
  {
    NewAccount(username, Some(email), extras.phone).(
      isActive := FlagOrDefault(extras.isActive),
      isStaff := FlagOrDefault(extras.isStaff),
      isAdmin := FlagOrDefault(extras.isAdmin),
      isSuperuser := FlagOrDefault(extras.isSuperuser))
  }

  /**
   * The record `create_user` saves: `normalize` stands for `normalize_email`, the password column
   * gets what `set_password(password)` computes.
   */
  function UserToSave(username: string, email: Option<string>, password: Option<string>,
                      extras: ExtraFields, normalize: Option<string> -> string): (a: Account)
    ensures a.id == 0 && !a.password.Plain?
    ensures a.password.Hashed? <==> password.Some?
  {
    ModelInstance(username, normalize(email), extras).(password := SetPassword(password))
  }

  method CreateUser(store: AccountStore, username: string, email: Option<string>, password: Option<string>,
                    extras: ExtraFields, normalize: Option<string> -> string)
    returns (r: Result<Account, StoreError>)
    requires store.Valid()
    modifies store
    ensures store.Valid()
    ensures var u := UserToSave(username, email, password, extras, normalize);
            match InsertError(u, old(store.accounts))
            case Some(e) => r == Failure(e) && store.accounts == old(store.accounts)
            case None => r == Success(u.(id := |old(store.accounts)| + 1)) && store.accounts == old(store.accounts) + [r.value]
  {
    var user := ModelInstance(username, normalize(email), extras);
    user := user.(password := SetPassword(password));
    r := store.Insert(user);
  }

  method CreateSuperuser(store: AccountStore, username: string, email: Option<string>, password: Option<string>,
                         extras: ExtraFields, normalize: Option<string> -> string)
    returns (r: Result<Account, StoreError>)
    requires store.Valid()
    modifies store
    ensures store.Valid()
    ensures var u := UserToSave(username, email, password, SuperuserExtras(extras), normalize);
            match InsertError(u, old(store.accounts))
            case Some(e) => r == Failure(e) && store.accounts == old(store.accounts)
            case None => r == Success(u.(id := |old(store.accounts)| + 1)) && store.accounts == old(store.accounts) + [r.value]
  {
    var augmented := SuperuserExtras(extras);
    r := CreateUser(store, username, email, password, augmented, normalize);
  }

  /**
   * `setdefault` keeps every flag the caller supplied and sets only the missing ones to true;
   * applying it twice changes nothing more.
   */
  lemma SuperuserExtrasKeepSupplied(extras: ExtraFields)
    ensures var e := SuperuserExtras(extras);
            && e.phone == extras.phone
            && (extras.isActive.Some? ==> e.isActive == extras.isActive)
            && (extras.isStaff.Some? ==> e.isStaff == extras.isStaff)
            && (extras.isAdmin.Some? ==> e.isAdmin == extras.isAdmin)
            && (extras.isSuperuser.Some? ==> e.isSuperuser == extras.isSuperuser)
            && (extras.isActive.None? ==> e.isActive == Some(true))
            && (extras.isStaff.None? ==> e.isStaff == Some(true))
            && (extras.isAdmin.None? ==> e.isAdmin == Some(true))
            && (extras.isSuperuser.None? ==> e.isSuperuser == Some(true))
            && SuperuserExtras(e) == e
  {
  }

  /** Without extras a superuser is active, staff, admin and superuser; a plain user is none of these. */
  lemma DefaultPrivileges(username: string, email: Option<string>, password: Option<string>,
                          normalize: Option<string> -> string)
    ensures var su := UserToSave(username, email, password, SuperuserExtras(NoExtras), normalize);
            su.isActive && su.isStaff && su.isAdmin && su.isSuperuser
    ensures var u := UserToSave(username, email, password, NoExtras, normalize);
            !u.isActive && !u.isStaff && !u.isAdmin && !u.isSuperuser
  {
  }

  /**
   * The saved record carries the digest of the given password (or the unusable marker when there
   * is none), never the text itself, and starts with no login or logout time.
   */
  lemma SavedUserPassword(username: string, email: Option<string>, password: Option<string>,
                          extras: ExtraFields, normalize: Option<string> -> string)
    ensures var u := UserToSave(username, email, password, extras, normalize);
            && u.password == (if password.Some? then Hashed(password.value) else Unusable)
            && !u.password.Plain?
            && u.username == username && u.email == Some(normalize(email)) && u.phone == extras.phone
            && u.lastLogin.None? && u.lastLogout.None?
  {
  }
}
