/**
 * The checks and creation routine written inside `UserSerializer.Meta` in
 * accounts/serializers/users.py. Because they sit in the nested `Meta` class the framework never
 * calls them; they are modelled here as standalone routines.
 */
module UserSerializer {
  import opened Wrappers
  import opened Accounts
  import opened Store
  import opened Validate
  import opened Patterns

  /** `serializers.ValidationError`: a message (or list), or the text of a store exception. */
  datatype ValidationError = FieldError(message: Message) | StoreFailure(error: StoreError)

  const PhoneExistsSerializerText: string := "A user with this phone already exists. Proceed to login."
  const PasswordRequiredText: string := "Password is a required field."

  /** `validate_username`: returns the value itself, or raises one message. */
  function ValidateUsername(value: string): (r: Result<string, ValidationError>)
    ensures r.Success? ==> r.value == value
    ensures r.Failure? ==> r.error.FieldError? && r.error.message.Text?
  {
    if StartsWithNonWordOrDigit(value) then Failure(FieldError(Text(UsernameStartText)))
    else if HasDigitsBetweenLetters(value) then Failure(FieldError(Text(UsernameDigitsText)))
    else if HasForbiddenChar(value) then Failure(FieldError(Text(UsernameCharsText)))
    else if MatchesEndsInDigit(value) && MatchesSeparatedPattern(value) then Success(value)
    else Failure(FieldError(Text(UsernameSeparatorText)))
  }

  /** `validate_phone`: returns the value itself, or raises one message; "" is always refused. */
  function ValidatePhone(value: string, accounts: seq<Account>): (r: Result<string, ValidationError>)
    ensures r.Success? ==> r.value == value
    ensures r.Failure? ==> r.error.FieldError? && r.error.message.Text?
    ensures value == "" ==> r.Failure?
  {
    if PhoneTaken(value, accounts) then Failure(FieldError(Text(PhoneExistsSerializerText)))
    else if !MatchesPhonePattern(value) then Failure(FieldError(Text(WrongPhoneText)))
    else Success(value)
  }

  /**
   * `validate_password`: returns the value itself, from 12 characters on, or raises the length
   * message or a list of one to five criterion messages.
   */
  function ValidatePassword(value: string): (r: Result<string, ValidationError>)
    ensures r.Success? ==> r.value == value && |value| >= 12
    ensures r.Failure? ==> r.error.FieldError?
    ensures r.Failure? ==> r.error.message == Text(PasswordShortText)
                           || (r.error.message.Texts? && 1 <= |r.error.message.texts| <= 5)
  {
    if |value| < 11 then Failure(FieldError(Text(PasswordShortText)))
    else
      var failed := FailedCriteria(Criteria(value));
      if failed != [] then Failure(FieldError(Texts(MessagesOf(failed))))
      else Success(value)
  }

  /**
   * `validate_username` accepts exactly what the view's `username_field` accepts, raises the same
   * message in the same order of rules, and returns the value unchanged.
   */
  lemma ValidateUsernameMatchesView(value: string)
    ensures ValidateUsername(value).Success? <==> UsernameField(value).success
    ensures ValidateUsername(value).Success? ==> ValidateUsername(value).value == value
    ensures ValidateUsername(value).Failure? ==> ValidateUsername(value).error == FieldError(UsernameField(value).message)
    ensures ValidateUsername(value).Success? <==> WellFormedUsername(value)
  {
    UsernameAcceptedIff(value);
  }

  /**
   * `validate_phone` refuses a stored phone with its own message before looking at the pattern;
   * otherwise it agrees with the view's `phone_field` and returns the value unchanged.
   */
  lemma ValidatePhoneMatchesView(value: string, accounts: seq<Account>)
    ensures PhoneTaken(value, accounts) ==> ValidatePhone(value, accounts) == Failure(FieldError(Text(PhoneExistsSerializerText)))
    ensures ValidatePhone(value, accounts).Success? <==> PhoneField(value, accounts).success
    ensures ValidatePhone(value, accounts).Success? ==> ValidatePhone(value, accounts).value == value
    ensures !PhoneTaken(value, accounts) && ValidatePhone(value, accounts).Failure? ==>
              ValidatePhone(value, accounts).error == FieldError(PhoneField(value, accounts).message)
  {
  }

  /**
   * `validate_password` raises the short-length message below 11 characters, otherwise the list
   * of failed criteria in their fixed order, and returns the value unchanged when none fails.
   */
  lemma ValidatePasswordMessages(value: string)
    ensures |value| < 11 ==> ValidatePassword(value) == Failure(FieldError(Text(PasswordShortText)))
    ensures |value| >= 11 && ExpectedPasswordMessages(value) != [] ==>
              ValidatePassword(value) == Failure(FieldError(Texts(ExpectedPasswordMessages(value))))
    ensures ValidatePassword(value).Success? <==> PasswordField(value).success
    ensures ValidatePassword(value).Success? ==> ValidatePassword(value).value == value && |value| >= 12
  {
    PasswordAcceptedIff(value);
    if |value| >= 11 {
      PasswordMessagesInOrder(value);
    }
  }

  // --------------------------------------------------------------- creation

  /** The `validated_data` dictionary, which `_create_user_with_password` edits in place. */
  class ValidatedData {
    var fields: map<string, string>

    constructor (fields: map<string, string>)
      ensures this.fields == fields
    {
      this.fields := fields;
    }

    /** `dict.pop(key, None)` */
    method Pop(key: string) returns (v: Option<string>)
      modifies this
      ensures v == (if key in old(fields) then Some(old(fields)[key]) else None)
      ensures fields == old(fields) - {key}
    {
      v := if key in fields then Some(fields[key]) else None;
      fields := fields - {key};
    }
  }

  function Get(fields: map<string, string>, key: string): Option<string>
  {
    if key in fields then Some(fields[key]) else None
  }

  /**
   * The record `User.objects.create(**fields)` inserts. A `password` keyword would be written to
   * the column verbatim, as the model's constructor does with any column.
   */
  function FromFields(fields: map<string, string>): (a: Account)
    ensures a.id == 0
    ensures a.email == Get(fields, "email") && a.phone == Get(fields, "phone")
    ensures a.password == (if "password" in fields then Plain(fields["password"]) else Plain(""))
    ensures !a.isStaff && !a.isAdmin && !a.isSuperuser && !a.isActive
  {
    var username := if "username" in fields then fields["username"] else "";
    var a := NewAccount(username, Get(fields, "email"), Get(fields, "phone"));
    if "password" in fields then a.(password := Plain(fields["password"])) else a
  }

  /** What `_create_user_with_password(validated_data)` answers, and the table after it. */
  function CreateOutcome(fields: map<string, string>, accounts: seq<Account>): (out: (Result<Account, ValidationError>, seq<Account>))
    ensures |accounts| <= |out.1| <= |accounts| + 1 && out.1[..|accounts|] == accounts
    ensures out.0.Success? ==> out.1 == accounts + [out.0.value]
    ensures out.0.Failure? && out.0.error.StoreFailure? ==> out.1 == accounts
  {
    var password := Get(fields, "password");
    var candidate := FromFields(fields - {"password"});
    match InsertError(candidate, accounts)
    case Some(e) => (Failure(StoreFailure(e)), accounts)
    case None =>
      var row := candidate.(id := |accounts| + 1);
      if password.Some? && password.value != "" then
        var saved := row.(password := SetPassword(password));
        (Success(saved), accounts + [saved])
      else
        (Failure(FieldError(Text(PasswordRequiredText))), accounts + [row])
  }

  method CreateUserWithPassword(store: AccountStore, data: ValidatedData) returns (r: Result<Account, ValidationError>)
    requires store.Valid()
    modifies store, data
    ensures store.Valid()
    ensures data.fields == old(data.fields) - {"password"}
    ensures (r, store.accounts) == CreateOutcome(old(data.fields), old(store.accounts))
  {
    var password := data.Pop("password");
    var created := store.Insert(FromFields(data.fields));
    if created.Failure? {
      return Failure(StoreFailure(created.error));
    }
    var user := created.value;
    if password.Some? && password.value != "" {
      user := user.(password := SetPassword(password));
      store.Save(user);
      ghost var before := old(store.accounts);
      assert (before + [created.value])[|before| := user] == before + [user];
    } else {
      return Failure(FieldError(Text(PasswordRequiredText)));
    }
    return Success(user);
  }

  /** `create` hands back exactly what `_create_user_with_password` produced. */
  method Create(store: AccountStore, data: ValidatedData) returns (r: Result<Account, ValidationError>)
    requires store.Valid()
    modifies store, data
    ensures store.Valid()
    ensures data.fields == old(data.fields) - {"password"}
    ensures (r, store.accounts) == CreateOutcome(old(data.fields), old(store.accounts))
  {
    r := CreateUserWithPassword(store, data);
  }

  // --------------------------------------------------------------- properties of creation

  /** Inserting the dictionary unpopped would have written the raw password to the column. */
  lemma UnpoppedPasswordWouldBeStoredVerbatim(fields: map<string, string>)
    requires "password" in fields
    ensures FromFields(fields).password == Plain(fields["password"])
    ensures FromFields(fields - {"password"}).password == Plain("")
  {
  }

  /**
   * The raw password never reaches the table: a row the routine adds holds the digest of the given
   * password, or the column's empty default when none was given.
   */
  lemma CreateNeverStoresRawPassword(fields: map<string, string>, accounts: seq<Account>)
    ensures var (r, after) := CreateOutcome(fields, accounts);
            && |accounts| <= |after| <= |accounts| + 1
            && after[..|accounts|] == accounts
            && (|after| == |accounts| + 1 ==>
                  after[|accounts|].password == Plain("")
                  || ("password" in fields && after[|accounts|].password == Hashed(fields["password"])))
  {
    var (r, after) := CreateOutcome(fields, accounts);
    assert after[..|accounts|] == accounts;
  }

  /** A store refusal is raised as a validation error carrying the store's error, and adds no row. */
  lemma StoreRefusalWrapped(fields: map<string, string>, accounts: seq<Account>)
    requires InsertError(FromFields(fields - {"password"}), accounts).Some?
    ensures CreateOutcome(fields, accounts) ==
              (Failure(StoreFailure(InsertError(FromFields(fields - {"password"}), accounts).value)), accounts)
  {
  }

  /**
   * A missing or empty password is noticed only after the insert: the error is raised and the
   * new row, with no password, stays in the table.
   */
  lemma MissingPasswordLeavesRecord(fields: map<string, string>, accounts: seq<Account>)
    requires "password" !in fields || fields["password"] == ""
    requires InsertError(FromFields(fields - {"password"}), accounts).None?
    ensures var (r, after) := CreateOutcome(fields, accounts);
            && r == Failure(FieldError(Text(PasswordRequiredText)))
            && |after| == |accounts| + 1
            && after[|accounts|] == FromFields(fields - {"password"}).(id := |accounts| + 1)
            && after[|accounts|].password == Plain("")
  {
  }

  /** A successful creation adds one row, with the digest of the given non-empty password, and returns it. */
  lemma CreateSucceeds(fields: map<string, string>, accounts: seq<Account>)
    requires CreateOutcome(fields, accounts).0.Success?
    ensures "password" in fields && fields["password"] != ""
    ensures var (r, after) := CreateOutcome(fields, accounts);
            && after == accounts + [r.value]
            && r.value.id == |accounts| + 1
            && r.value.password == Hashed(fields["password"])
            && r.value.username == (if "username" in fields then fields["username"] else "")
            && r.value.email == Get(fields, "email") && r.value.phone == Get(fields, "phone")
  {
  }
}
