/**
 * The three field checks of the `Validate` class in accounts/views/dj_user_view.py. Each returns a
 * success flag and a message; the password check's message is a list when criteria fail.
 */
module Validate {
  import opened Wrappers
  import opened Ascii
  import opened Patterns
  import opened Accounts

  datatype Message = Text(text: string) | Texts(texts: seq<string>)

  datatype FieldResult = FieldResult(success: bool, message: Message)

  const SuccessText: string := "Success"
  const PhoneExistsText: string := "Phone Number Already Exists"
  const WrongPhoneText: string := "Wrong Phone Number Pattern"
  const UsernameStartText: string := "Username cannot start with a number or special character."
  const UsernameDigitsText: string := "Username cannot have numbers in between letters."
  const UsernameCharsText: string := "Username cannot contain spaces or special characters other than _"
  const UsernameSeparatorText: string := "Username can only be separated by _"
  const PasswordShortText: string := "Password Length Should Be Greater Than 11 Character."
  const PasswordLengthText: string := "Password must be at least 12 characters long"
  const PasswordUpperText: string := "Password must contain at least one uppercase letter"
  const PasswordLowerText: string := "Password must contain at least one lowercase letter"
  const PasswordDigitText: string := "Password must contain at least one digit"
  const PasswordSpecialText: string := "Password must contain at least one special character"

  function Accept(): FieldResult { FieldResult(true, Text(SuccessText)) }

  function Reject(text: string): FieldResult { FieldResult(false, Text(text)) }

  // ---------------------------------------------------------------- phone

  /** `User.objects.filter(phone=value).exists()` */
  predicate PhoneTaken(value: string, accounts: seq<Account>)
  {
    exists i :: 0 <= i < |accounts| && accounts[i].phone == Some(value)
  }

  /** `phone_field`: the answer is "Success" or one of its two refusals; "" is always refused. */
  function PhoneField(value: string, accounts: seq<Account>): (r: FieldResult)
    ensures r.success ==> r == Accept()
    ensures !r.success ==> r == Reject(PhoneExistsText) || r == Reject(WrongPhoneText)
    ensures value == "" ==> !r.success
  {
    if PhoneTaken(value, accounts) then Reject(PhoneExistsText)
    else if !MatchesPhonePattern(value) then Reject(WrongPhoneText)
    else Accept()
  }

  /** The existence check comes first: a stored phone is refused whatever its shape. */
  lemma PhoneTakenWins(value: string, accounts: seq<Account>)
    requires PhoneTaken(value, accounts)
    ensures PhoneField(value, accounts) == Reject(PhoneExistsText)
  {
  }

  /**
   * A new phone is accepted iff it is `+` and 7 to 15 digits, optionally followed by one final
   * newline (which Python's `$` lets through); otherwise the pattern message is returned.
   */
  lemma PhoneFieldAccepts(value: string, accounts: seq<Account>)
    requires !PhoneTaken(value, accounts)
    ensures var body := if EndsWithNewline(value) then DropLast(value) else value;
            PhoneField(value, accounts).success <==>
              |body| > 0 && body[0] == '+' && 7 <= |body| - 1 <= 15 && forall i :: 1 <= i < |body| ==> IsDigit(body[i])
    ensures !PhoneField(value, accounts).success ==> PhoneField(value, accounts) == Reject(WrongPhoneText)
  {
    var body := if EndsWithNewline(value) then DropLast(value) else value;
    assert PlusThenDigits(body) <==>
      |body| > 0 && body[0] == '+' && 7 <= |body| - 1 <= 15 && forall i :: 1 <= i < |body| ==> IsDigit(body[i]) by {
      if |body| > 0 {
        assert forall i :: 1 <= i < |body| ==> body[i] == body[1..][i - 1];
      }
    }
  }

  /** Every accepted phone fits the 16-character column, unless it carries the final newline. */
  lemma AcceptedPhoneLength(value: string, accounts: seq<Account>)
    requires PhoneField(value, accounts).success
    ensures 8 <= |value| <= 17 && value[0] == '+'
    ensures NoNewline(value) ==> |value| <= MaxPhoneLength
  {
    if EndsWithNewline(value) && !PlusThenDigits(value) {
      assert value[0] == DropLast(value)[0];
    }
  }

  /** The final-newline case: a 17-character value passes the check. */
  lemma PhoneWithFinalNewlineAccepted()
    ensures PhoneField("+123456789012345\n", []).success
    ensures |"+123456789012345\n"| == MaxPhoneLength + 1
  {
    var s := "+123456789012345\n";
    assert DropLast(s) == "+123456789012345";
    assert AllDigits(DropLast(s)[1..]) by {
      assert DropLast(s)[1..] == "123456789012345";
    }
  }

  // ------------------------------------------------------------- username

  /**
   * `username_field`: the answer is "Success" or one of its four refusals; "" falls through the
   * first three rules and gets the separator message.
   */
  function UsernameField(value: string): (r: FieldResult)
    ensures r.success ==> r == Accept() && |value| > 0
    ensures !r.success ==> || r == Reject(UsernameStartText) || r == Reject(UsernameDigitsText)
                           || r == Reject(UsernameCharsText) || r == Reject(UsernameSeparatorText)
    ensures value == "" ==> r == Reject(UsernameSeparatorText)
  {
    if StartsWithNonWordOrDigit(value) then Reject(UsernameStartText)
    else if HasDigitsBetweenLetters(value) then Reject(UsernameDigitsText)
    else if HasForbiddenChar(value) then Reject(UsernameCharsText)
    else if MatchesEndsInDigit(value) && MatchesSeparatedPattern(value) then Accept()
    else Reject(UsernameSeparatorText)
  }

  /**
   * The usernames the check accepts, stated on characters: a letter first, a digit last, only
   * letters, digits and single interior underscores, and no digits between two letters.
   */
  predicate WellFormedUsername(s: string)
  {
    && |s| > 0
    && IsLetter(s[0])
    && IsDigit(s[|s| - 1])
    && UnderscoreSeparated(s)
    && !HasDigitsBetweenLetters(s)
  }

  lemma ForbiddenIsNotWordChar(c: char)
    requires IsForbiddenInUsername(c)
    ensures !IsWordChar(c)
  {
  }

  lemma UsernameAcceptedIff(s: string)
    ensures UsernameField(s).success <==> WellFormedUsername(s)
    ensures UsernameField(s).success ==> UsernameField(s) == Accept()
  {
    AlnumRunsIsUnderscoreSeparated(s);
    if WellFormedUsername(s) {
      assert !HasForbiddenChar(s) by {
        forall i | 0 <= i < |s| ensures !IsForbiddenInUsername(s[i]) {
          if IsForbiddenInUsername(s[i]) {
            ForbiddenIsNotWordChar(s[i]);
          }
        }
      }
      assert NoNewline(s);
    }
  }

  /** A username ending in a letter is never accepted, even when every earlier rule passes. */
  lemma UsernameEndingInLetterRejected(s: string)
    requires |s| > 0 && IsLetter(s[|s| - 1])
    ensures !UsernameField(s).success
    ensures !StartsWithNonWordOrDigit(s) && !HasDigitsBetweenLetters(s) && !HasForbiddenChar(s) ==>
              UsernameField(s) == Reject(UsernameSeparatorText)
  {
    UsernameAcceptedIff(s);
  }

  /** A leading digit is reported as such, whatever the later rules would say. */
  lemma UsernameLeadingDigitFirst(s: string)
    requires |s| > 0 && IsDigit(s[0])
    ensures UsernameField(s) == Reject(UsernameStartText)
  {
  }

  // ------------------------------------------------------------- password

  datatype Criterion = Criterion(holds: bool, message: string, status: int)

  /** The five strength criteria, in the order they are listed. */
  function Criteria(value: string): (cs: seq<Criterion>)
    ensures |cs| == 5
    ensures forall i :: 0 <= i < |cs| ==> cs[i].status == 400
  {
    [ Criterion(|value| >= 12, PasswordLengthText, 400),
      Criterion(HasUpper(value), PasswordUpperText, 400),
      Criterion(HasLower(value), PasswordLowerText, 400),
      Criterion(HasDigit(value), PasswordDigitText, 400),
      Criterion(HasSpecial(value), PasswordSpecialText, 400) ]
  }

  /** `[(message, status_code) for condition, message, status_code in criteria if not condition]` */
  function FailedCriteria(cs: seq<Criterion>): (failed: seq<Criterion>)
    ensures |failed| <= |cs|
    ensures failed == [] <==> forall i :: 0 <= i < |cs| ==> cs[i].holds
  {
    if cs == [] then []
    else (if cs[0].holds then [] else [cs[0]]) + FailedCriteria(cs[1..])
  }

  /** `[message for message, _ in failed_criteria]` */
  function MessagesOf(cs: seq<Criterion>): seq<string>
  {
    seq(|cs|, i requires 0 <= i < |cs| => cs[i].message)
  }

  /**
   * `password_field`: "Success" only from 12 characters on; otherwise the single length message,
   * or a list of one to five criterion messages.
   */
  function PasswordField(value: string): (r: FieldResult)
    ensures r.success ==> r == Accept() && |value| >= 12
    ensures !r.success ==> r == Reject(PasswordShortText) || (r.message.Texts? && 1 <= |r.message.texts| <= 5)
  {
    if |value| < 11 then Reject(PasswordShortText)
    else
      var failed := FailedCriteria(Criteria(value));
      if failed != [] then FieldResult(false, Texts(MessagesOf(failed)))
      else Accept()
  }

  /** The messages of the failed criteria, written out criterion by criterion. */
  function ExpectedPasswordMessages(value: string): seq<string>
  {
    (if |value| >= 12 then [] else [PasswordLengthText])
    + (if HasUpper(value) then [] else [PasswordUpperText])
    + (if HasLower(value) then [] else [PasswordLowerText])
    + (if HasDigit(value) then [] else [PasswordDigitText])
    + (if HasSpecial(value) then [] else [PasswordSpecialText])
  }

  /** The messages the two comprehensions keep from `cs`, one criterion at a time. */
  function FailedMessages(cs: seq<Criterion>): seq<string>
  {
    if cs == [] then [] else Kept(cs[0]) + FailedMessages(cs[1..])
  }

  function Kept(c: Criterion): seq<string> { if c.holds then [] else [c.message] }

  lemma {:induction false} MessagesOfFailedCriteria(cs: seq<Criterion>)
    ensures MessagesOf(FailedCriteria(cs)) == FailedMessages(cs)
    ensures FailedCriteria(cs) == [] <==> FailedMessages(cs) == []
  {
    if cs != [] {
      MessagesOfFailedCriteria(cs[1..]);
      var head := if cs[0].holds then [] else [cs[0]];
      assert FailedCriteria(cs) == head + FailedCriteria(cs[1..]);
      assert MessagesOf(head + FailedCriteria(cs[1..])) == MessagesOf(head) + MessagesOf(FailedCriteria(cs[1..]));
    }
  }

  lemma FailedMessagesOfFive(c0: Criterion, c1: Criterion, c2: Criterion, c3: Criterion, c4: Criterion)
    ensures FailedMessages([c0, c1, c2, c3, c4]) == Kept(c0) + Kept(c1) + Kept(c2) + Kept(c3) + Kept(c4)
  {
    assert FailedMessages([c4]) == Kept(c4) by { assert [c4][1..] == []; }
    assert FailedMessages([c3, c4]) == Kept(c3) + Kept(c4) by { assert [c3, c4][1..] == [c4]; }
    assert FailedMessages([c2, c3, c4]) == Kept(c2) + Kept(c3) + Kept(c4) by { assert [c2, c3, c4][1..] == [c3, c4]; }
    assert FailedMessages([c1, c2, c3, c4]) == Kept(c1) + Kept(c2) + Kept(c3) + Kept(c4) by {
      assert [c1, c2, c3, c4][1..] == [c2, c3, c4];
    }
    assert [c0, c1, c2, c3, c4][1..] == [c1, c2, c3, c4];
  }

  /** Below 11 characters only the length message is returned, with no criteria list. */
  lemma ShortPasswordRejected(value: string)
    requires |value| < 11
    ensures PasswordField(value) == FieldResult(false, Text(PasswordShortText))
  {
  }

  /**
   * From 11 characters on, the result lists exactly the failed criteria's messages in the order
   * length, uppercase, lowercase, digit, special, and succeeds iff that list is empty.
   */
  lemma PasswordMessagesInOrder(value: string)
    requires |value| >= 11
    ensures PasswordField(value) ==
              if ExpectedPasswordMessages(value) == [] then Accept()
              else FieldResult(false, Texts(ExpectedPasswordMessages(value)))
  {
    var cs := Criteria(value);
    MessagesOfFailedCriteria(cs);
    FailedMessagesOfFive(cs[0], cs[1], cs[2], cs[3], cs[4]);
    assert cs == [cs[0], cs[1], cs[2], cs[3], cs[4]];
    assert FailedMessages(cs) == ExpectedPasswordMessages(value);
  }

  /** A password is accepted iff it meets all five criteria; so every accepted one has 12 characters. */
  lemma PasswordAcceptedIff(value: string)
    ensures PasswordField(value).success <==>
              |value| >= 12 && HasUpper(value) && HasLower(value) && HasDigit(value) && HasSpecial(value)
  {
    if |value| >= 11 {
      PasswordMessagesInOrder(value);
    }
  }

  /** Eleven characters pass the first gate and then always fail the twelve-character criterion. */
  lemma ElevenCharacterPasswordRejected(value: string)
    requires |value| == 11
    ensures !PasswordField(value).success
    ensures PasswordField(value).message.Texts? && PasswordField(value).message.texts[0] == PasswordLengthText
  {
    PasswordMessagesInOrder(value);
  }
}
