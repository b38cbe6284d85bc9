/**
 * Concrete requests and field values worked through the model: the password and username cases a
 * reader is most likely to try, and one complete registration.
 */
module Scenarios {
  import opened Wrappers
  import opened Ascii
  import opened Patterns
  import opened Accounts
  import opened Store
  import opened Validate
  import opened DjUserView

  lemma LowerAndDigitsOnly(v: string)
    requires forall i :: 0 <= i < |v| ==> IsLower(v[i]) || IsDigit(v[i])
    ensures !HasUpper(v) && !HasSpecial(v)
  {
  }

  /** "abcdefgh1234" fails exactly the uppercase and the special-character criteria. */
  lemma PasswordMissingUpperAndSpecial()
    ensures PasswordField("abcdefgh1234") == FieldResult(false, Texts([PasswordUpperText, PasswordSpecialText]))
  {
    var v := "abcdefgh1234";
    forall i | 0 <= i < |v| ensures IsLower(v[i]) || IsDigit(v[i]) {
      assert i in {0, 1, 2, 3, 4, 5, 6, 7, 8, 9, 10, 11};
    }
    assert IsLower(v[0]) && IsDigit(v[8]);
    LowerAndDigitsOnly(v);
    PasswordMessagesInOrder(v);
    assert ExpectedPasswordMessages(v) == [PasswordUpperText, PasswordSpecialText];
  }

  /** "short" gets the length message alone. */
  lemma ShortPassword()
    ensures PasswordField("short") == FieldResult(false, Text(PasswordShortText))
  {
  }

  /** "bob_99" passes all four username rules. */
  lemma UnderscoreAndTrailingDigitsAccepted()
    ensures UsernameField("bob_99") == Accept()
  {
    var s := "bob_99";
    assert !HasDigitsBetweenLetters(s) by {
      forall i, j | 0 <= i < j < |s| && i + 1 < j && IsLetter(s[i]) && IsLetter(s[j]) ensures !AllDigits(s[i + 1..j]) {
        assert j in {2, 3, 4, 5};
        assert s[i + 1..j][0] == s[1];
      }
    }
    assert OnlyAlnumOrUnderscore(s) && NoDoubleUnderscore(s) by {
      forall i | 0 <= i < |s| ensures IsAlnum(s[i]) || s[i] == '_' { assert i in {0, 1, 2, 3, 4, 5}; }
      forall i | 0 <= i < |s| - 1 ensures !(s[i] == '_' && s[i + 1] == '_') { assert i in {0, 1, 2, 3, 4}; }
    }
    UsernameAcceptedIff(s);
  }

  /** "bob_smith" passes the first three rules and is refused for not ending in a digit. */
  lemma TrailingLetterRefused()
    ensures UsernameField("bob_smith") == Reject(UsernameSeparatorText)
  {
    var s := "bob_smith";
    forall i | 0 <= i < |s| ensures IsLetter(s[i]) || s[i] == '_' {
      assert i in {0, 1, 2, 3, 4, 5, 6, 7, 8};
    }
    assert !HasDigitsBetweenLetters(s) by {
      forall i, j | 0 <= i < j < |s| && i + 1 < j && IsLetter(s[i]) && IsLetter(s[j]) ensures !AllDigits(s[i + 1..j]) {
        assert s[i + 1..j][0] == s[i + 1];
      }
    }
    assert !HasForbiddenChar(s) by {
      forall i | 0 <= i < |s| ensures !IsForbiddenInUsername(s[i]) {
        if IsForbiddenInUsername(s[i]) {
          ForbiddenIsNotWordChar(s[i]);
        }
      }
    }
    UsernameEndingInLetterRejected(s);
  }

  /** U+001C is white space to Python, so the third rule refuses it with the spaces message. */
  lemma InformationSeparatorIsSpace()
    ensures UsernameField("a\U{1C}1") == Reject(UsernameCharsText)
  {
    var s := "a\U{1C}1";
    assert !IsLetter(s[1]) && !IsLetter(s[2]);
    assert IsForbiddenInUsername(s[1]);
  }

  /** The leading `+` is mandatory. */
  lemma PhoneWithoutPlusRefused()
    ensures PhoneField("12345678", []) == Reject(WrongPhoneText)
  {
  }

  lemma ShortPhoneAccepted()
    ensures PhoneField("+12345678", []) == Accept()
  {
    var p := "+12345678";
    assert p[1..] == "12345678";
    forall i | 0 <= i < |p[1..]| ensures IsDigit(p[1..][i]) {
      assert i in {0, 1, 2, 3, 4, 5, 6, 7};
    }
  }

  lemma SeparatedUsernameAccepted()
    ensures UsernameField("valid_user1") == Accept()
  {
    var u := "valid_user1";
    assert OnlyAlnumOrUnderscore(u) && NoDoubleUnderscore(u) by {
      forall i | 0 <= i < |u| ensures IsAlnum(u[i]) || u[i] == '_' { assert i in {0, 1, 2, 3, 4, 5, 6, 7, 8, 9, 10}; }
      forall i | 0 <= i < |u| - 1 ensures !(u[i] == '_' && u[i + 1] == '_') { assert i in {0, 1, 2, 3, 4, 5, 6, 7, 8, 9}; }
    }
    assert !HasDigitsBetweenLetters(u) by {
      forall i, j | 0 <= i < j < |u| && i + 1 < j && IsLetter(u[i]) && IsLetter(u[j]) ensures !AllDigits(u[i + 1..j]) {
        assert u[i + 1..j][0] == u[i + 1];
        assert i in {0, 1, 2, 3, 4, 5, 6, 7, 8, 9};
      }
    }
    UsernameAcceptedIff(u);
  }

  lemma StrongPasswordAccepted()
    ensures PasswordField("Abcdefgh123!") == Accept()
  {
    var w := "Abcdefgh123!";
    assert IsUpper(w[0]) && IsLower(w[1]) && IsDigit(w[8]) && w[11] in PasswordSpecials;
    PasswordAcceptedIff(w);
  }

  /** When the three checks pass and the store takes the row, `post` answers "processed". */
  lemma ChecksPassedAndStored(data: map<string, string>, accounts: seq<Account>)
    requires "phone" in data && "username" in data && "password" in data && "email" in data
    requires PhoneField(data["phone"], accounts).success && UsernameField(data["username"]).success
    requires PasswordField(data["password"]).success
    requires InsertError(Candidate(data), accounts).None?
    ensures PostOutcome(data, accounts).0.Processed?
    ensures PostOutcome(data, accounts).1 == accounts + [Candidate(data).(id := |accounts| + 1, password := Hashed(data["password"]))]
  {
    ReportedInOrder(data, accounts);
  }

  const Registration: map<string, string> :=
    map["phone" := "+12345678", "username" := "valid_user1", "password" := "Abcdefgh123!", "email" := "a@b.com"]

  /** A complete registration against an empty table is processed and stores one account. */
  lemma RegistrationProcessed()
    ensures PostOutcome(Registration, []).0.Processed?
    ensures |PostOutcome(Registration, []).1| == 1
    ensures PostOutcome(Registration, []).1[0].password == Hashed("Abcdefgh123!")
  {
    var data := Registration;
    assert data["phone"] == "+12345678" && data["username"] == "valid_user1";
    assert data["password"] == "Abcdefgh123!" && data["email"] == "a@b.com";
    ShortPhoneAccepted();
    SeparatedUsernameAccepted();
    StrongPasswordAccepted();
    ChecksPassedAndStored(data, []);
  }
}
