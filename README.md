# Django-Group registration core, modelled in Dafny

This project models the account-registration logic of the Django-Group `accounts` application:

- the three field checks used by the plain Django view `DjUserView.post`;
- the same checks written a second time, together with a creation routine, inside
  `UserSerializer.Meta`;
- the `User` model's column constraints and its `CustomUserManager`;
- the REST framework view `UserView.post`, which activates every stored account and then creates one.

The regular expressions of the checks are restated as predicates on characters. The lemmas relate
each check to a plain description of the values it accepts, and the messages to the order in which
the code tests them. The database table is an `AccountStore` object holding a sequence of rows. It
enforces the model's `unique` and `max_length` column settings and numbers rows from 1. Every method
that changes the table is proved equal to a pure outcome function of the old table. The lemmas
about each request are stated on that function.

Modules and files:

| file | module | what it holds |
|---|---|---|
| `wrappers.dfy` | `Wrappers` | `Option` and `Result` |
| `ascii.dfy` | `Ascii` | the character classes `\d`, `\w`, `\s`, `[a-zA-Z]` for ASCII text |
| `patterns.dfy` | `Patterns` | every regular expression of the checks, as a predicate; the automaton of the separator pattern and its proof against a flat reading |
| `accounts.dfy` | `Accounts` | the `User` record, its password column, column lengths and the table's uniqueness invariant |
| `store.dfy` | `Store` | the table as a class: `Insert` (`objects.create`) and `Save` (`save()` of an existing row) |
| `validate.dfy` | `Validate` | `phone_field`, `username_field`, `password_field` and their properties |
| `dj_user_view.dfy` | `DjUserView` | `DjUserView.post`: the two loops, the creation and the JSON answer |
| `serializer.dfy` | `UserSerializer` | `validate_username`, `validate_phone`, `validate_password`, `_create_user_with_password`, `create` |
| `user_manager.dfy` | `UserManager` | `create_user`, `create_superuser` |
| `drf_user_view.dfy` | `DrfUserView` | `UserView.post` |
| `scenarios.dfy` | `Scenarios` | concrete usernames, passwords, phones and one full registration worked through the model |

Behaviour of the code that the model keeps, including where it differs from what the code's own
comments and messages say:

- **Phone.** The pattern `^\+[0-9]{7,15}$` (`accounts/views/dj_user_view.py:21`) makes the leading
  `+` mandatory. "12345678" is refused.
- **Final newline.** Python's `$` also matches just before a final newline, so every anchored
  pattern is modelled with that second case. A phone of 17 characters, "+" plus 15 digits plus
  "\n", is accepted. That is one character more than the 16-character phone column. A username
  with a final newline never gets that far, because the check for white space refuses it first.
- **Username.** As the comment at `accounts/views/dj_user_view.py:44` says, the check accepts a
  letter first, a digit last, letters and digits in runs joined by single underscores, and no
  digits between two letters. So "bob_99" is accepted and "bob_smith" is
  refused with "Username can only be separated by _".
- **Password.** The first gate (`accounts/views/dj_user_view.py:51-52`) refuses only passwords
  shorter than 11 characters, although its message asks for more than 11. An 11-character password
  passes that gate and is then refused by the first criterion (at least 12 characters), which
  agrees with the message. So no 11-character password is accepted, and it gets the criteria list
  instead of the gate's message.
- **Order of checks in `DjUserView.post`.** The view validates all three fields first and then
  reports the first failure, in the order phone, username, password. A missing field is
  validated as "". A missing `email` is noticed only after validation succeeds, when the code
  indexes `data["email"]`.
- **Activation in `UserView.post`.** Before the request is validated, every account already stored
  is set active and saved. This happens whatever the outcome, and it does not touch the account
  the request creates.
- **Serializer routines.** The check and creation routines are written inside the nested `Meta`
  class, so the framework never calls them. They are modelled as standalone routines. If the
  password is missing, `_create_user_with_password` raises an error only after the row has been
  inserted, and the row stays in the table.

Text is treated as ASCII. Within ASCII, `\s` is Python's class: the space, tab to carriage
return, and the four separators U+001C to U+001F. The Unicode-aware classes beyond ASCII are not
modelled (see Left out).

## Model

| member | source | states |
|---|---|---|
| Patterns.MatchesPhonePattern | accounts/views/dj_user_view.py:21-26 | `re.compile(r"^\+[0-9]{7,15}$").match`: `+` and 7 to 15 digits, with or without one final newline (no contract of its own; characterised by Validate.PhoneFieldAccepts) |
| Patterns.StartsWithNonWordOrDigit | accounts/views/dj_user_view.py:33 | `re.match(r'^[\W\d]', s)`: the first character is a digit or outside `\w` (no contract of its own; used by Validate.UsernameAcceptedIff) |
| Patterns.HasDigitsBetweenLetters | accounts/views/dj_user_view.py:37 | `re.search(r'[a-zA-Z]+\d+[a-zA-Z]+', s)`: some run of digits lies between two letters (no contract of its own; used by Validate.UsernameAcceptedIff) |
| Patterns.HasForbiddenChar | accounts/views/dj_user_view.py:41 | `re.search` of the white-space-and-punctuation class: some character is white space or listed punctuation (no contract of its own; see Validate.ForbiddenIsNotWordChar) |
| Patterns.MatchesEndsInDigit | accounts/views/dj_user_view.py:45 | `re.match(r'.*\d$', s)`: a digit ends the first line, which is the whole string or it minus one final newline (no contract of its own; used by Validate.UsernameAcceptedIff) |
| Patterns.MatchesSeparatedPattern | accounts/views/dj_user_view.py:45 | `re.match(r'^[a-zA-Z0-9]+(_[a-zA-Z0-9]+)*$', s)`, with or without one final newline (no contract of its own; characterised by Patterns.AlnumRunsIsUnderscoreSeparated) |
| Patterns.HasUpper | accounts/views/dj_user_view.py:57 | `re.search(r'[A-Z]', s)` (no contract of its own; used by Validate.PasswordAcceptedIff) |
| Patterns.HasLower | accounts/views/dj_user_view.py:58 | `re.search(r'[a-z]', s)` (no contract of its own; used by Validate.PasswordAcceptedIff) |
| Patterns.HasDigit | accounts/views/dj_user_view.py:59 | `re.search(r'\d', s)` (no contract of its own; used by Validate.PasswordAcceptedIff) |
| Patterns.HasSpecial | accounts/views/dj_user_view.py:60 | `re.search` of the listed special characters (no contract of its own; used by Validate.PasswordAcceptedIff) |
| Patterns.AfterAlnumIsSeparatedTail | accounts/views/dj_user_view.py:45 | after one alphanumeric, the automaton of `(_[a-zA-Z0-9]+)*` with `[a-zA-Z0-9]*` accepts exactly the empty tail or a tail of letters, digits and single underscores ending in an alphanumeric |
| Patterns.AlnumRunsIsUnderscoreSeparated | accounts/views/dj_user_view.py:45 | `[a-zA-Z0-9]+(_[a-zA-Z0-9]+)*` matches exactly the non-empty strings that start and end with an alphanumeric, hold only alphanumerics and underscores, and have no two underscores in a row |
| Accounts.SetPassword | accounts/models/users.py:12 | `set_password` never stores the text: a given password becomes its digest, a missing one the unusable marker |
| Accounts.NewAccount | accounts/models/users.py:29-43 | an unsaved record with the given username, email and phone and every other column at its declared default: empty password, the four flags false, no login or logout time |
| Accounts.ReplaceKeepsConstraints | accounts/models/users.py:29-43 | replacing one row by a record with the same username, email and phone keeps ids, uniqueness and column lengths valid |
| Store.InsertError | accounts/models/users.py:30-32 | the table refuses a row exactly when a column is too long or its username, email or phone (when set) equals that of a stored row |
| Store.InsertKeepsConstraints | accounts/models/users.py:29-43 | a row the table accepts, numbered next, keeps the table's invariant |
| Store.InsertErrorOnlyReadsKeys | accounts/models/users.py:30-32 | the verdict on an insert depends only on the username, email and phone columns of the stored rows |
| Store.AccountStore.constructor | accounts/models/users.py:29-48 | the table starts empty and valid |
| Store.AccountStore.Insert | accounts/views/dj_user_view.py:105 | `objects.create`: a refused row leaves the table unchanged and answers the error; an accepted row gets the next id of the dense numbering (number of rows + 1) and is appended |
| Store.AccountStore.Save | accounts/views/dj_user_view.py:108 | `save()` of a stored row replaces exactly that row and keeps the invariant |
| Validate.PhoneField | accounts/views/dj_user_view.py:16-29 | `phone_field` answers "Success" or one of its two refusals, and always refuses "" |
| Validate.PhoneTakenWins | accounts/views/dj_user_view.py:16-18 | a phone already stored is refused with "Phone Number Already Exists", before the pattern is looked at |
| Validate.PhoneFieldAccepts | accounts/views/dj_user_view.py:16-29 | a new phone is accepted iff, after dropping one final newline, it is `+` followed by 7 to 15 digits; otherwise the message is "Wrong Phone Number Pattern" |
| Validate.AcceptedPhoneLength | accounts/views/dj_user_view.py:21-26 | an accepted phone starts with `+` and has 8 to 17 characters, at most 16 when it holds no newline |
| Validate.PhoneWithFinalNewlineAccepted | accounts/views/dj_user_view.py:21-26 | "+" with 15 digits and a final newline, 17 characters, is accepted |
| Validate.UsernameField | accounts/views/dj_user_view.py:31-48 | `username_field` answers "Success" only for a non-empty value, otherwise one of its four refusals; "" gets "Username can only be separated by _" |
| Validate.ForbiddenIsNotWordChar | accounts/views/dj_user_view.py:41 | every character the third rule forbids is outside `\w` |
| Validate.UsernameAcceptedIff | accounts/views/dj_user_view.py:31-48 | a username is accepted iff it starts with a letter, ends with a digit, is alphanumeric runs joined by single underscores and has no digits between two letters; an accepted username gets "Success" |
| Validate.UsernameEndingInLetterRejected | accounts/views/dj_user_view.py:45-48 | a username ending in a letter is refused, and with "Username can only be separated by _" when the first three rules pass |
| Validate.UsernameLeadingDigitFirst | accounts/views/dj_user_view.py:33-34 | a leading digit is refused by the first rule, with its message |
| Validate.Criteria | accounts/views/dj_user_view.py:55-61 | there are five criteria, each with status 400 |
| Validate.FailedCriteria | accounts/views/dj_user_view.py:63 | the comprehension keeps at most as many criteria as it is given, and keeps none exactly when every criterion holds |
| Validate.PasswordField | accounts/views/dj_user_view.py:50-70 | `password_field` answers "Success" only from 12 characters on; otherwise the single length message or a list of one to five criterion messages |
| Validate.MessagesOfFailedCriteria | accounts/views/dj_user_view.py:63-66 | the messages of the failed criteria are the messages of the criteria that fail, in their order; the list is empty iff none fails |
| Validate.FailedMessagesOfFive | accounts/views/dj_user_view.py:55-66 | for the five criteria, the failed messages are each criterion's message if it fails, concatenated in order |
| Validate.ShortPasswordRejected | accounts/views/dj_user_view.py:51-52 | below 11 characters the answer is the single length message |
| Validate.PasswordMessagesInOrder | accounts/views/dj_user_view.py:50-70 | from 11 characters on, the answer is "Success" if no criterion fails, else the list of failed criteria's messages in the order length, uppercase, lowercase, digit, special |
| Validate.PasswordAcceptedIff | accounts/views/dj_user_view.py:50-70 | a password is accepted iff it has at least 12 characters, an uppercase and a lowercase letter, a digit and one of the listed special characters |
| Validate.ElevenCharacterPasswordRejected | accounts/views/dj_user_view.py:51-56 | an 11-character password passes the first test and is refused with the 12-character message first |
| DjUserView.ValidateKey | accounts/views/dj_user_view.py:88-98 | the `getattr` dispatch: each key gets its own check, a success is "Success", and the missing-key default "" is always refused |
| DjUserView.FirstFailureIsFirst | accounts/views/dj_user_view.py:101-103 | the loop over the results finds nothing iff every result succeeded; otherwise it reports the message of a failed result preceded only by successes |
| DjUserView.CollectResults | accounts/views/dj_user_view.py:82-98 | the first loop validates `data.get(key, "")` for phone, username and password, in that order, each with its own check |
| DjUserView.FindFirstFailure | accounts/views/dj_user_view.py:101-103 | the second loop returns the first failed result's message, or nothing |
| DjUserView.ReportedInOrder | accounts/views/dj_user_view.py:82-103 | the failure reported is the phone's, else the username's, else the password's |
| DjUserView.ValidatedKeysPresent | accounts/views/dj_user_view.py:87-105 | when all three checks pass, the phone, username and password keys were all present |
| DjUserView.Post | accounts/views/dj_user_view.py:75-113 | `post` answers and changes the table exactly as the outcome function says, and keeps the table valid |
| DjUserView.ModelToDict | accounts/views/dj_user_view.py:110-111 | `model_to_dict` gives the eleven editable columns; only the `password` entry holds a password value, so popping it leaves none |
| DjUserView.PostOutcome | accounts/views/dj_user_view.py:75-113 | no answer but success changes the table; success appends exactly one row after the unchanged old rows |
| DjUserView.PostReportsFirstFailingField | accounts/views/dj_user_view.py:100-103 | a failed check answers 400 with the first failing field's message and leaves the table unchanged; the request is refused iff some check fails |
| DjUserView.ProcessedOutcome | accounts/views/dj_user_view.py:105-113 | a processed request had all four keys, answers with the dictionary of the new row minus `password`, and appends that row |
| DjUserView.PostCreatesSubmittedAccount | accounts/views/dj_user_view.py:105-113 | on success the new row holds the submitted username, email and phone, the digest of the submitted password, false privilege flags and no login times; the answer (200) shows that row's columns, its username and id, and no password value |
| DjUserView.PostStoresOnlyValidatedValues | accounts/views/dj_user_view.py:82-105 | every row `post` adds has a well-formed username, a new phone of the required shape and a password meeting all five criteria |
| DjUserView.PostKeepsConstraints | accounts/views/dj_user_view.py:105-108 | `post` keeps the table's uniqueness, id and length invariant |
| UserSerializer.ValidateUsername | accounts/serializers/users.py:25-42 | `validate_username` returns the value itself or raises a single message |
| UserSerializer.ValidatePhone | accounts/serializers/users.py:44-57 | `validate_phone` returns the value itself or raises a single message, and always refuses "" |
| UserSerializer.ValidatePassword | accounts/serializers/users.py:59-78 | `validate_password` returns the value itself, from 12 characters on, or raises the length message or a list of one to five messages |
| UserSerializer.ValidateUsernameMatchesView | accounts/serializers/users.py:25-42 | `validate_username` accepts exactly what the view's check accepts, raises the same message for the same rule, and returns the value unchanged |
| UserSerializer.ValidatePhoneMatchesView | accounts/serializers/users.py:44-57 | `validate_phone` refuses a stored phone with "A user with this phone already exists. Proceed to login."; otherwise it agrees with the view's check and returns the value unchanged |
| UserSerializer.ValidatePasswordMessages | accounts/serializers/users.py:59-78 | `validate_password` raises the length message below 11 characters, else the ordered list of failed criteria; it returns the value unchanged exactly when the view's check accepts it |
| UserSerializer.FromFields | accounts/serializers/users.py:84 | `objects.create(**fields)`: email and phone from the dictionary or null, the password column verbatim from a `password` key or empty, the flags at their defaults |
| UserSerializer.CreateOutcome | accounts/serializers/users.py:80-94 | the routine adds at most one row after the unchanged old rows; a success appends the returned row; a store refusal adds none |
| UserSerializer.ValidatedData.constructor | accounts/serializers/users.py:80 | the dictionary holds the given entries |
| UserSerializer.ValidatedData.Pop | accounts/serializers/users.py:81 | `pop(key, None)` returns the value under the key, or nothing, and removes the key |
| UserSerializer.CreateUserWithPassword | accounts/serializers/users.py:80-94 | the routine removes `password` from the dictionary and answers and changes the table exactly as the outcome function says |
| UserSerializer.Create | accounts/serializers/users.py:96-99 | `create` has the same effect and answer as `_create_user_with_password` |
| UserSerializer.UnpoppedPasswordWouldBeStoredVerbatim | accounts/serializers/users.py:81-84 | a `password` entry passed to `objects.create` would land in the column verbatim; without it the column keeps its empty default |
| UserSerializer.CreateNeverStoresRawPassword | accounts/serializers/users.py:80-94 | at most one row is added after the unchanged old rows, and it holds the digest of the given password or the empty default |
| UserSerializer.StoreRefusalWrapped | accounts/serializers/users.py:83-86 | a store refusal is raised as a validation error carrying that error, and no row is added |
| UserSerializer.MissingPasswordLeavesRecord | accounts/serializers/users.py:88-92 | with no or an empty password the error "Password is a required field." is raised after the insert, and the new row stays with no password |
| UserSerializer.CreateSucceeds | accounts/serializers/users.py:80-94 | success means a non-empty password was given; the returned row is appended with the next id, the submitted username, email and phone, and the password's digest |
| UserManager.SuperuserExtras | accounts/models/users.py:20-23 | after the four `setdefault` calls every flag is set, and the phone is kept |
| UserManager.ModelInstance | accounts/models/users.py:11 | `self.model(...)`: an unsaved record with the given username, email and phone, each supplied flag as given and the missing ones false, and an empty password |
| UserManager.UserToSave | accounts/models/users.py:10-12 | the record `create_user` saves is unsaved and never holds a plain password; it holds a digest exactly when a password is given |
| UserManager.CreateUser | accounts/models/users.py:6-14 | `create_user` inserts the record with the normalised email, the given extras and `set_password(password)` applied, or leaves the table unchanged with the store's error |
| UserManager.CreateSuperuser | accounts/models/users.py:16-25 | `create_superuser` does what `create_user` does with the extras after the four `setdefault` calls |
| UserManager.SuperuserExtrasKeepSupplied | accounts/models/users.py:20-23 | the `setdefault` calls keep every flag the caller gave, set each missing one to true, and applying them again changes nothing |
| UserManager.DefaultPrivileges | accounts/models/users.py:16-38 | without extras a superuser is active, staff, admin and superuser; a plain user is none of these |
| UserManager.SavedUserPassword | accounts/models/users.py:10-12 | the saved record holds the password's digest, or the unusable marker when none is given, never the text; it has the given username and phone, the normalised email and no login times |
| DrfUserView.Activated | accounts/views/drf_user_view.py:11-13 | the activation loop's table: as many rows as before, every one active |
| DrfUserView.PostOutcome | accounts/views/drf_user_view.py:11-22 | the table after `post` is the activated table, plus the created account when there is one; an invalid request answers 400 |
| DrfUserView.Post | accounts/views/drf_user_view.py:8-22 | the activation loop followed by validation and creation answers and changes the table exactly as the outcome function says |
| DrfUserView.ActivatedChangesOnlyActiveFlag | accounts/views/drf_user_view.py:11-13 | the loop keeps the rows and their order and changes no column but `is_active` |
| DrfUserView.ActivationKeepsConstraints | accounts/views/drf_user_view.py:11-18 | activation keeps the table's invariant and cannot change whether a later insert is refused |
| DrfUserView.ActivationPrecedesValidation | accounts/views/drf_user_view.py:11-22 | every old account is activated whatever the verdict; an invalid request answers 400 and adds nothing; a row is created, with 201, iff the request is valid and the store accepts it |
| DrfUserView.CreatedAccountNotActivated | accounts/views/drf_user_view.py:11-20 | the created account is appended after the activated rows with its own `is_active` value |
| Scenarios.PasswordMissingUpperAndSpecial | accounts/views/dj_user_view.py:50-70 | "abcdefgh1234" gets exactly the uppercase and special-character messages |
| Scenarios.ShortPassword | accounts/views/dj_user_view.py:51-52 | "short" gets the short-length message |
| Scenarios.UnderscoreAndTrailingDigitsAccepted | accounts/views/dj_user_view.py:31-46 | "bob_99" is accepted |
| Scenarios.TrailingLetterRefused | accounts/views/dj_user_view.py:31-48 | "bob_smith" is refused with "Username can only be separated by _" |
| Scenarios.InformationSeparatorIsSpace | accounts/views/dj_user_view.py:40-42 | "a" followed by U+001C and "1" is refused for white space, since Python's `\s` includes U+001C |
| Scenarios.PhoneWithoutPlusRefused | accounts/views/dj_user_view.py:21-27 | "12345678" is refused with "Wrong Phone Number Pattern" |
| Scenarios.ShortPhoneAccepted | accounts/views/dj_user_view.py:16-29 | "+12345678" is accepted on an empty table |
| Scenarios.SeparatedUsernameAccepted | accounts/views/dj_user_view.py:31-46 | "valid_user1" is accepted |
| Scenarios.StrongPasswordAccepted | accounts/views/dj_user_view.py:50-70 | "Abcdefgh123!" is accepted |
| Scenarios.ChecksPassedAndStored | accounts/views/dj_user_view.py:100-113 | when all three checks pass and the store takes the row, `post` is processed and appends the row with the password's digest |
| Scenarios.RegistrationProcessed | accounts/views/dj_user_view.py:75-113 | a complete valid registration against an empty table is processed and stores one row holding the password's digest |

## Left out

- HTTP, URL routing (`accounts/urls/users.py` is not part of this model), CSRF handling, JSON
  decoding of the request body and the rendering of `JsonResponse` and `Response` bodies. A request
  is a map from keys to strings. The Django view's answer is a datatype with its status code. The
  response's `success` and `message` fields are represented by that datatype's case.
- String values only: request values of a JSON body that are numbers, lists or null are not
  modelled. Most of them make a check raise. A null phone does not: `filter(phone=None)` looks
  for stored rows without a phone, so `phone_field` answers "Phone Number Already Exists" when
  one exists, and raises in the pattern match otherwise.
- The `getattr` dispatch of `DjUserView.post` is a fixed table from key to check. Its "Invalid key"
  branch cannot be reached with the fixed key list, so it is not modelled.
- `set_password` and `check_password`: hashing is symbolic. A digest records which text it was
  computed from, and a missing password gives the unusable marker.
- `normalize_email` is a function parameter of the manager's methods. Its lower-casing of the
  domain is not modelled.
- The framework's `is_valid()` and its `ModelSerializer.create`, which `UserView.post` actually
  calls: the verdict and the record to insert are parameters of `DrfUserView.Post`. The
  framework's own field validation (email format, the serializer's `required` settings) is not
  modelled. The error dictionary of the 400 answer is not modelled either.
- `date_joined`, `date_updated` and the clock. `last_login` and `last_logout` are kept as optional
  timestamps that every modelled operation leaves unset.
- The `print` of the password in `UserView.post` (console output). It exposes the password in the
  server log; this is a security concern rather than behaviour the model can state.
- The `groups` and `user_permissions` relations inherited from `PermissionsMixin`, and `__str__`.
- The nullable `is_staff`, `is_admin` and `is_superuser` columns are plain booleans. The model
  never stores a null in them.
- Unknown keys in the serializer's validated data, which would make `objects.create` raise a type
  error: the creation routine reads only `username`, `email`, `phone` and `password`.
- The text of database errors: a refused insert carries the column and the reason (not unique,
  too long) instead of the driver's message.
- Concurrency: two requests racing between the uniqueness checks and the insert are not modelled.
  Every request runs alone against the table.
- Unicode: `\d`, `\w` and `\s` are restricted to ASCII characters. Python's Unicode-aware classes
  also accept other scripts' digits and letters and non-ASCII white space (U+0085, U+00A0 and
  others).
- Store.AccountStore.Insert: the store enforces `max_length` on insert. That is the behaviour of a
  database that checks column lengths (PostgreSQL, for instance); SQLite would store the longer
  value.
- Store.AccountStore.Insert: ids are dense, so the n-th stored row has id n. A database sequence
  may skip values, for instance after a refused insert, so the source promises only a fresh id.
  The same holds for the `id` stated by DjUserView.PostCreatesSubmittedAccount,
  UserSerializer.CreateSucceeds, UserManager.CreateUser and DrfUserView.CreatedAccountNotActivated.
- UserManager.CreateUser: `**extra_fields` is narrowed to `phone` and the four flags `is_active`,
  `is_staff`, `is_admin` and `is_superuser`. Other columns passed as keywords (`last_login`,
  `last_logout`, an explicit `id`) and unknown keywords (a type error in the source) are not
  modelled. The same holds for UserManager.CreateSuperuser.
- Store.AccountStore.Save: only saves that keep a row's username, email and phone are modelled,
  because those are the only saves the code performs (setting the password, setting `is_active`).
- DjUserView.Post: a missing `email` key and a refused insert both become a "crashed" answer with
  status 500 that leaves the table unchanged. The framework's exception pages are not modelled.
