/**
 * `UserView.post` of accounts/views/drf_user_view.py: first every stored account is set active and
 * saved, one by one; then the request is answered 201 with a new account if the framework's
 * serializer finds the data valid, and 400 otherwise. The framework's `is_valid()` and its
 * `ModelSerializer.create` are outside this model: the verdict is a parameter, and `candidate` is the
 * record the framework's `create` would insert.
 */
module DrfUserView {
  import opened Wrappers
  import opened Accounts
  import opened Store

  /** The table after the activation loop: the same rows, every one of them active. */
  function Activated(s: seq<Account>): (t: seq<Account>)
    ensures |t| == |s|
    ensures forall i :: 0 <= i < |s| ==> t[i].isActive
  {
    seq(|s|, i requires 0 <= i < |s| => s[i].(isActive := true))
  }

  datatype DrfResponse = Created(user: Account) | BadRequest | ServerError(error: StoreError)

  function Status(r: DrfResponse): int
  {
    match r
    case Created(_) => 201
    case BadRequest => 400
    case ServerError(_) => 500
  }

  /**
   * The answer of `post` and the table after it: the activated table, with the created account
   * appended when there is one.
   */
  function PostOutcome(accounts: seq<Account>, isValid: bool, candidate: Account): (out: (DrfResponse, seq<Account>))
    ensures out.0.Created? ==> out.1 == Activated(accounts) + [out.0.user]
    ensures !out.0.Created? ==> out.1 == Activated(accounts)
    ensures !isValid ==> out.0 == BadRequest
  {
    var active := Activated(accounts);
    if !isValid then (BadRequest, active)
    else match InsertError(candidate, active)
      case Some(e) => (ServerError(e), active)
      case None =>
        var user := candidate.(id := |active| + 1);
        (Created(user), active + [user])
  }

  method Post(store: AccountStore, isValid: bool, candidate: Account) returns (resp: DrfResponse)
    requires store.Valid()
    modifies store
    ensures store.Valid()
    ensures (resp, store.accounts) == PostOutcome(old(store.accounts), isValid, candidate)
  {
    // `User.objects.all()` is read once; each row is then updated and saved in turn.
    var users := store.accounts;
    var i := 0;
    while i < |users|
      invariant 0 <= i <= |users|
      invariant store.Valid()
      invariant store.accounts == Activated(users[..i]) + users[i..]
    {
      var user := users[i];
      user := user.(isActive := true);
      assert store.accounts[i] == users[i];
      store.Save(user);
      assert store.accounts == Activated(users[..i + 1]) + users[i + 1..];
      i := i + 1;
    }
    assert users[..i] == users && users[i..] == [];
    assert store.accounts == Activated(users);
    if isValid {
      var created := store.Insert(candidate);
      if created.Failure? {
        return ServerError(created.error);
      }
      return Created(created.value);
    }
    return BadRequest;
  }

  // ------------------------------------------------------------- properties of post

  /** The loop changes only `is_active`: the same rows in the same order, every other column kept. */
  lemma ActivatedChangesOnlyActiveFlag(s: seq<Account>)
    ensures |Activated(s)| == |s|
    ensures forall i :: 0 <= i < |s| ==> Activated(s)[i].(isActive := s[i].isActive) == s[i]
    ensures SameKeysEverywhere(s, Activated(s))
  {
  }

  /** Activation keeps the table's constraints and cannot change the verdict on a later insert. */
  lemma ActivationKeepsConstraints(s: seq<Account>, candidate: Account)
    ensures ConstraintsHold(s) ==> ConstraintsHold(Activated(s))
    ensures InsertError(candidate, Activated(s)) == InsertError(candidate, s)
  {
    ActivatedChangesOnlyActiveFlag(s);
    InsertErrorOnlyReadsKeys(candidate, s, Activated(s));
    if ConstraintsHold(s) {
      var t := Activated(s);
      forall i, j | 0 <= i < j < |t| ensures !Clash(t[i], t[j]) {
        assert !Clash(s[i], s[j]);
      }
    }
  }

  /**
   * Activation happens whatever the verdict: a rejected request answers 400 and leaves every old
   * account active and nothing added; an account is added only for a valid request, answered 201.
   */
  lemma ActivationPrecedesValidation(accounts: seq<Account>, isValid: bool, candidate: Account)
    ensures var (resp, after) := PostOutcome(accounts, isValid, candidate);
            && |accounts| <= |after|
            && (forall i :: 0 <= i < |accounts| ==> after[i] == accounts[i].(isActive := true))
            && (!isValid ==> resp == BadRequest && Status(resp) == 400 && |after| == |accounts|)
            && (resp.Created? <==> isValid && InsertError(candidate, accounts).None?)
            && (resp.Created? ==> Status(resp) == 201 && |after| == |accounts| + 1)
            && (!resp.Created? ==> |after| == |accounts|)
  {
    ActivationKeepsConstraints(accounts, candidate);
  }

  /** The account created by the request is not touched by the loop that ran before it. */
  lemma CreatedAccountNotActivated(accounts: seq<Account>, isValid: bool, candidate: Account)
    requires PostOutcome(accounts, isValid, candidate).0.Created?
    ensures var (resp, after) := PostOutcome(accounts, isValid, candidate);
            && after[|accounts|] == resp.user
            && resp.user == candidate.(id := |accounts| + 1)
            && resp.user.isActive == candidate.isActive
  {
  }
}
