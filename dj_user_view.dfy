/**
 * `DjUserView.post` of accounts/views/dj_user_view.py: validate phone, username and password in
 * that order, each read with `data.get(key, "")`; collect every result; answer with the first
 * failure in that order; otherwise create the account, hash its password into it and answer with
 * the saved record minus its `password` key.
 */
module DjUserView {
  import opened Wrappers
  import opened Accounts
  import opened Store
  import opened Validate
  import opened Patterns

  datatype Field = PhoneKey | UsernameKey | PasswordKey

  /** `keys_to_validate` */
  const KeysToValidate: seq<Field> := [PhoneKey, UsernameKey, PasswordKey]

  function KeyName(key: Field): string
  {
    match key
    case PhoneKey => "phone"
    case UsernameKey => "username"
    case PasswordKey => "password"
  }

  /** `data.get(key, "")` */
  function Lookup(data: map<string, string>, key: Field): string
  {
    if KeyName(key) in data then data[KeyName(key)] else ""
  }

  /**
   * The fixed table that stands for `getattr(validate, f"{key}_field")`. Every check refuses the
   * missing-key default "".
   */
  function ValidateKey(key: Field, value: string, accounts: seq<Account>): (r: FieldResult)
    ensures r.success ==> r == Accept()
    ensures value == "" ==> !r.success
  {
    match key
    case PhoneKey => PhoneField(value, accounts)
    case UsernameKey => UsernameField(value)
    case PasswordKey => PasswordField(value)
  }

  /** One entry of `validation_results`, which keeps its keys in insertion order. */
  datatype Entry = Entry(key: Field, result: FieldResult)

  function EntryFor(key: Field, data: map<string, string>, accounts: seq<Account>): Entry
  {
    Entry(key, ValidateKey(key, Lookup(data, key), accounts))
  }

  /** What the first loop leaves in `validation_results`. */
  function ExpectedResults(data: map<string, string>, accounts: seq<Account>): seq<Entry>
  {
    seq(|KeysToValidate|, i requires 0 <= i < |KeysToValidate| => EntryFor(KeysToValidate[i], data, accounts))
  }

  /** The message of the first failing entry, if any. */
  function FirstFailure(results: seq<Entry>): Option<Message>
  {
    if results == [] then None
    else if !results[0].result.success then Some(results[0].result.message)
    else FirstFailure(results[1..])
  }

  lemma {:induction false} FirstFailureIsFirst(results: seq<Entry>)
    ensures FirstFailure(results).None? <==> forall i :: 0 <= i < |results| ==> results[i].result.success
    ensures FirstFailure(results).Some? ==>
              exists i :: && 0 <= i < |results|
                          && !results[i].result.success
                          && FirstFailure(results) == Some(results[i].result.message)
                          && forall j :: 0 <= j < i ==> results[j].result.success
  {
    if results != [] {
      FirstFailureIsFirst(results[1..]);
      assert forall i :: 1 <= i < |results| ==> results[i] == results[1..][i - 1];
      if results[0].result.success && FirstFailure(results).Some? {
        var k :| && 0 <= k < |results[1..]|
                 && !results[1..][k].result.success
                 && FirstFailure(results[1..]) == Some(results[1..][k].result.message)
                 && forall j :: 0 <= j < k ==> results[1..][j].result.success;
        assert !results[k + 1].result.success;
        assert forall j :: 0 <= j < k + 1 ==> results[j].result.success by {
          forall j | 0 <= j < k + 1 ensures results[j].result.success {
            if j > 0 {
              assert results[j] == results[1..][j - 1];
            }
          }
        }
      }
    }
  }

  /** The first loop: every key is validated, in the order of `keys_to_validate`. */
  method CollectResults(data: map<string, string>, accounts: seq<Account>) returns (results: seq<Entry>)
    ensures results == ExpectedResults(data, accounts)
  {
    results := [];
    var i := 0;
    while i < |KeysToValidate|
      invariant 0 <= i <= |KeysToValidate|
      invariant results == ExpectedResults(data, accounts)[..i]
    {
      var key := KeysToValidate[i];
      var value := Lookup(data, key);
      var result := ValidateKey(key, value, accounts);
      results := results + [Entry(key, result)];
      i := i + 1;
    }
  }

  /** The second loop: the first entry whose `success` is false decides the answer. */
  method FindFirstFailure(results: seq<Entry>) returns (failure: Option<Message>)
    ensures failure == FirstFailure(results)
  {
    var i := 0;
    while i < |results|
      invariant 0 <= i <= |results|
      invariant FirstFailure(results[i..]) == FirstFailure(results)
    {
      assert results[i..][1..] == results[i + 1..];
      if !results[i].result.success {
        return Some(results[i].result.message);
      }
      i := i + 1;
    }
    assert results[i..] == [];
    return None;
  }

  /** The failure reported is the phone's, else the username's, else the password's. */
  lemma ReportedInOrder(data: map<string, string>, accounts: seq<Account>)
    ensures var p := PhoneField(Lookup(data, PhoneKey), accounts);
            var u := UsernameField(Lookup(data, UsernameKey));
            var w := PasswordField(Lookup(data, PasswordKey));
            FirstFailure(ExpectedResults(data, accounts)) ==
              if !p.success then Some(p.message)
              else if !u.success then Some(u.message)
              else if !w.success then Some(w.message)
              else None
  {
    var r := ExpectedResults(data, accounts);
    var e0, e1, e2 := EntryFor(PhoneKey, data, accounts), EntryFor(UsernameKey, data, accounts), EntryFor(PasswordKey, data, accounts);
    assert r == [e0, e1, e2];
    assert r[1..] == [e1, e2] && r[1..][1..] == [e2] && r[1..][1..][1..] == [];
    assert FirstFailure([e2]) == if !e2.result.success then Some(e2.result.message) else None by {
      assert FirstFailure([e2][1..]) == None;
    }
    assert FirstFailure([e1, e2]) == if !e1.result.success then Some(e1.result.message) else FirstFailure([e2]);
  }

  /** A request that passes validation carries all three keys: `""` fails every check. */
  lemma ValidatedKeysPresent(data: map<string, string>, accounts: seq<Account>)
    requires FirstFailure(ExpectedResults(data, accounts)).None?
    ensures "phone" in data && "username" in data && "password" in data
  {
    ReportedInOrder(data, accounts);
  }

  // ------------------------------------------------------------- response

  /** A value of the dictionary `model_to_dict` builds. */
  datatype FieldValue = Str(s: string) | Null | Flag(b: bool) | Number(n: int) | PasswordValue(secret: Secret)

  function OptionalText(v: Option<string>): FieldValue { if v.Some? then Str(v.value) else Null }

  function OptionalInstant(v: Option<Instant>): FieldValue { if v.Some? then Number(v.value) else Null }

  /** `model_to_dict(user)`: the editable columns of the record, keyed by column name. */
  function ModelToDict(a: Account): (d: map<string, FieldValue>)
    ensures d.Keys == {"id", "password", "last_login", "is_superuser", "username", "email", "phone",
                       "is_staff", "is_admin", "is_active", "last_logout"}
    ensures d["password"] == PasswordValue(a.password)
    ensures forall k :: k in d && k != "password" ==> !d[k].PasswordValue?
  {
    map[
      "id" := Number(a.id),
      "password" := PasswordValue(a.password),
      "last_login" := OptionalInstant(a.lastLogin),
      "is_superuser" := Flag(a.isSuperuser),
      "username" := Str(a.username),
      "email" := OptionalText(a.email),
      "phone" := OptionalText(a.phone),
      "is_staff" := Flag(a.isStaff),
      "is_admin" := Flag(a.isAdmin),
      "is_active" := Flag(a.isActive),
      "last_logout" := OptionalInstant(a.lastLogout)]
  }

  /** An exception the view does not catch. */
  datatype Crash = MissingKey(key: string) | Integrity(error: StoreError)

  const ProcessedText: string := "User successfully validated and processed"

  datatype DjResponse =
    | Rejected(message: Message)                  // {"success": False, "message": ...}
    | Processed(user: map<string, FieldValue>)    // {"success": True, "message": ProcessedText, "user": ...}
    | Crashed(cause: Crash)

  function Status(r: DjResponse): int
  {
    match r
    case Rejected(_) => 400
    case Processed(_) => 200
    case Crashed(_) => 500
  }

  /** The record `User.objects.create(username=..., email=..., phone=...)` inserts. */
  function Candidate(data: map<string, string>): Account
    requires "username" in data && "email" in data && "phone" in data
  {
    NewAccount(data["username"], Some(data["email"]), Some(data["phone"]))
  }

  /**
   * The answer of `post` and the table after it. No answer but success changes the table;
   * success adds exactly one row at the end.
   */
  function PostOutcome(data: map<string, string>, accounts: seq<Account>): (out: (DjResponse, seq<Account>))
    ensures !out.0.Processed? ==> out.1 == accounts
    ensures out.0.Processed? ==> |out.1| == |accounts| + 1 && out.1[..|accounts|] == accounts
  {
    var failure := FirstFailure(ExpectedResults(data, accounts));
    if failure.Some? then (Rejected(failure.value), accounts)
    else
      ValidatedKeysPresent(data, accounts);
      if "email" !in data then (Crashed(MissingKey("email")), accounts)
      else
        match InsertError(Candidate(data), accounts)
        case Some(e) => (Crashed(Integrity(e)), accounts)
        case None =>
          var user := Candidate(data).(id := |accounts| + 1, password := SetPassword(Some(data["password"])));
          (Processed(ModelToDict(user) - {"password"}), accounts + [user])
  }

  method Post(store: AccountStore, data: map<string, string>) returns (resp: DjResponse)
    requires store.Valid()
    modifies store
    ensures store.Valid()
    ensures (resp, store.accounts) == PostOutcome(data, old(store.accounts))
  {
    var results := CollectResults(data, store.accounts);
    var failure := FindFirstFailure(results);
    if failure.Some? {
      return Rejected(failure.value);
    }
    ValidatedKeysPresent(data, store.accounts);
    if "email" !in data {
      return Crashed(MissingKey("email"));
    }
    var created := store.Insert(NewAccount(data["username"], Some(data["email"]), Some(data["phone"])));
    if created.Failure? {
      return Crashed(Integrity(created.error));
    }
    var user := created.value;
    user := user.(password := SetPassword(Some(data["password"])));
    store.Save(user);
    ghost var before := old(store.accounts);
    assert (before + [created.value])[|before| := user] == before + [user];
    var userDict := ModelToDict(user);
    userDict := userDict - {"password"};
    resp := Processed(userDict);
  }

  // ------------------------------------------------------------- properties of post

  /**
   * Validation failures: the answer is the first failing field's message in the order phone,
   * username, password, and the table is unchanged.
   */
  lemma PostReportsFirstFailingField(data: map<string, string>, accounts: seq<Account>)
    ensures var (resp, after) := PostOutcome(data, accounts);
            var p := PhoneField(Lookup(data, PhoneKey), accounts);
            var u := UsernameField(Lookup(data, UsernameKey));
            var w := PasswordField(Lookup(data, PasswordKey));
            && (!p.success ==> resp == Rejected(p.message))
            && (p.success && !u.success ==> resp == Rejected(u.message))
            && (p.success && u.success && !w.success ==> resp == Rejected(w.message))
            && (resp.Rejected? <==> !(p.success && u.success && w.success))
            && (resp.Rejected? ==> after == accounts && Status(resp) == 400)
  {
    ReportedInOrder(data, accounts);
  }

  /**
   * On success the new row holds the submitted username, email and phone, the digest of the
   * submitted password and the declared defaults, and the answer shows that row without any
   * password value.
   */
  lemma PostCreatesSubmittedAccount(data: map<string, string>, accounts: seq<Account>)
    requires PostOutcome(data, accounts).0.Processed?
    ensures "username" in data && "email" in data && "phone" in data && "password" in data
    ensures var (resp, after) := PostOutcome(data, accounts);
            var a := after[|accounts|];
            && |after| == |accounts| + 1
            && a.id == |accounts| + 1
            && a.username == data["username"] && a.email == Some(data["email"]) && a.phone == Some(data["phone"])
            && a.password == Hashed(data["password"])
            && !a.isStaff && !a.isAdmin && !a.isSuperuser && !a.isActive
            && a.lastLogin.None? && a.lastLogout.None?
            && "password" !in resp.user
            && (forall k :: k in resp.user ==> !resp.user[k].PasswordValue?)
            && resp.user["username"] == Str(a.username) && resp.user["id"] == Number(a.id)
            && Status(resp) == 200
  {
    ProcessedOutcome(data, accounts);
    var user := Candidate(data).(id := |accounts| + 1, password := SetPassword(Some(data["password"])));
    var d := ModelToDict(user);
    assert d["username"] == Str(user.username) && d["id"] == Number(user.id);
  }

  /** A processed request answers with the new row's dictionary and appends that row. */
  lemma ProcessedOutcome(data: map<string, string>, accounts: seq<Account>)
    requires PostOutcome(data, accounts).0.Processed?
    ensures "username" in data && "email" in data && "phone" in data && "password" in data
    ensures var user := Candidate(data).(id := |accounts| + 1, password := SetPassword(Some(data["password"])));
            PostOutcome(data, accounts) == (Processed(ModelToDict(user) - {"password"}), accounts + [user])
  {
    ValidatedKeysPresent(data, accounts);
  }

  /**
   * Every row `post` adds passed all three checks: its username is well formed, its phone was
   * new and has the required shape, and its password meets the five criteria.
   */
  lemma PostStoresOnlyValidatedValues(data: map<string, string>, accounts: seq<Account>)
    requires PostOutcome(data, accounts).0.Processed?
    ensures "username" in data && "phone" in data && "password" in data
    ensures WellFormedUsername(data["username"])
    ensures !PhoneTaken(data["phone"], accounts) && MatchesPhonePattern(data["phone"])
    ensures |data["password"]| >= 12 && HasUpper(data["password"]) && HasLower(data["password"])
    ensures HasDigit(data["password"]) && HasSpecial(data["password"])
  {
    ValidatedKeysPresent(data, accounts);
    ReportedInOrder(data, accounts);
    UsernameAcceptedIff(data["username"]);
    PasswordAcceptedIff(data["password"]);
  }

  /** `post` keeps the table's uniqueness and length constraints. */
  lemma PostKeepsConstraints(data: map<string, string>, accounts: seq<Account>)
    requires ConstraintsHold(accounts)
    ensures ConstraintsHold(PostOutcome(data, accounts).1)
  {
    if PostOutcome(data, accounts).0.Processed? {
      ValidatedKeysPresent(data, accounts);
      var c := Candidate(data);
      InsertKeepsConstraints(c, accounts);
      ReplaceKeepsConstraints(accounts + [c.(id := |accounts| + 1)], |accounts|,
                              c.(id := |accounts| + 1, password := SetPassword(Some(data["password"]))));
      assert (accounts + [c.(id := |accounts| + 1)])[|accounts| := c.(id := |accounts| + 1, password := SetPassword(Some(data["password"])))]
             == PostOutcome(data, accounts).1;
    }
  }
}
