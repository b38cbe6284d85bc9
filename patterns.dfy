/**
 * One predicate per regular expression of the registration validators, written out as a test on
 * characters. `re.match` anchors at the start, `re.search` tries every start position, and `$`
 * (outside MULTILINE mode) matches at the end of the string or just before a newline that is the
 * string's last character; each `...$` pattern below therefore has two disjuncts.
 */
module Patterns {
  import opened Ascii

  predicate EndsWithNewline(s: string) { |s| > 0 && s[|s| - 1] == '\n' }

  function DropLast(s: string): string
    requires |s| > 0
  {
    s[..|s| - 1]
  }

  predicate AllDigits(s: string) { forall i :: 0 <= i < |s| ==> IsDigit(s[i]) }

  // ---------------------------------------------------------------- phone

  /** `\+[0-9]{7,15}` consuming all of `t`. */
  predicate PlusThenDigits(t: string)
  {
    8 <= |t| <= 16 && t[0] == '+' && AllDigits(t[1..])
  }

  /** `re.compile(r"^\+[0-9]{7,15}$").match(s)` */
  predicate MatchesPhonePattern(s: string)
  {
    PlusThenDigits(s) || (EndsWithNewline(s) && PlusThenDigits(DropLast(s)))
  }

  // ------------------------------------------------------------- username

  /** `re.match(r'^[\W\d]', s)`: the first character is not a word character, or is a digit. */
  predicate StartsWithNonWordOrDigit(s: string)
  {
    |s| > 0 && (!IsWordChar(s[0]) || IsDigit(s[0]))
  }

  /**
   * `re.search(r'[a-zA-Z]+\d+[a-zA-Z]+', s)`. A match of the letter runs can always be shortened
   * to their innermost letters, so the search succeeds iff some letter is followed by one or more
   * digits and then another letter.
   */
  predicate HasDigitsBetweenLetters(s: string)
  {
    exists i, j :: 0 <= i < j < |s| && i + 1 < j && IsLetter(s[i]) && IsLetter(s[j]) && AllDigits(s[i + 1..j])
  }

  /** The punctuation listed in `[\s!@#$%^&*()+\-=\[\]{};\\:"|<,./<>?]`. */
  const ForbiddenPunctuation: string := "!@#$%^&*()+-=[]{};\\:\"|<,./>?"

  predicate IsForbiddenInUsername(c: char) { IsSpace(c) || c in ForbiddenPunctuation }

  /** `re.search(r'[\s!@#$%^&*()+\-=\[\]{};\\:"|<,./<>?]', s)` */
  predicate HasForbiddenChar(s: string)
  {
    exists i :: 0 <= i < |s| && IsForbiddenInUsername(s[i])
  }

  /** `.*\d` consuming all of `t` (`.` does not match a newline). */
  predicate LineEndingInDigit(t: string)
  {
    |t| > 0 && IsDigit(t[|t| - 1]) && NoNewline(t)
  }

  /** `re.match(r'.*\d$', s)` */
  predicate MatchesEndsInDigit(s: string)
  {
    LineEndingInDigit(s) || (EndsWithNewline(s) && LineEndingInDigit(DropLast(s)))
  }

  /** `[a-zA-Z0-9]+(_[a-zA-Z0-9]+)*` consuming all of `t`, read as the automaton of the regex. */
  predicate AlnumRuns(t: string)
    decreases |t|
  {
    |t| > 0 && IsAlnum(t[0]) && AfterAlnum(t[1..])
  }

  /** What the same pattern accepts after an alphanumeric character: `[a-zA-Z0-9]*(_[a-zA-Z0-9]+)*`. */
  predicate AfterAlnum(t: string)
    decreases |t|
  {
    t == [] || (IsAlnum(t[0]) && AfterAlnum(t[1..])) || (t[0] == '_' && AlnumRuns(t[1..]))
  }

  /** `re.match(r'^[a-zA-Z0-9]+(_[a-zA-Z0-9]+)*$', s)` */
  predicate MatchesSeparatedPattern(s: string)
  {
    AlnumRuns(s) || (EndsWithNewline(s) && AlnumRuns(DropLast(s)))
  }

  // ------------------------------------------------------------- password

  predicate HasUpper(s: string) { exists i :: 0 <= i < |s| && IsUpper(s[i]) }

  predicate HasLower(s: string) { exists i :: 0 <= i < |s| && IsLower(s[i]) }

  predicate HasDigit(s: string) { exists i :: 0 <= i < |s| && IsDigit(s[i]) }

  /** The characters of `[!@#$%^&*()_+{}\":<>?]`. */
  const PasswordSpecials: string := "!@#$%^&*()_+{}\":<>?"

  predicate HasSpecial(s: string) { exists i :: 0 <= i < |s| && s[i] in PasswordSpecials }

  // ------------------------------------------- flat reading of the separator pattern

  predicate OnlyAlnumOrUnderscore(t: string) { forall i :: 0 <= i < |t| ==> IsAlnum(t[i]) || t[i] == '_' }

  predicate NoDoubleUnderscore(t: string) { forall i :: 0 <= i < |t| - 1 ==> !(t[i] == '_' && t[i + 1] == '_') }

  /** Alphanumeric runs separated by single underscores, stated on characters. */
  predicate UnderscoreSeparated(t: string)
  {
    && |t| > 0
    && IsAlnum(t[0])
    && IsAlnum(t[|t| - 1])
    && OnlyAlnumOrUnderscore(t)
    && NoDoubleUnderscore(t)
  }

  /** The tail reading: empty, or letters, digits and single underscores ending in an alphanumeric. */
  predicate SeparatedTail(t: string)
  {
    t == [] || (IsAlnum(t[|t| - 1]) && OnlyAlnumOrUnderscore(t) && NoDoubleUnderscore(t))
  }

  lemma {:induction false} AfterAlnumIsSeparatedTail(t: string)
    ensures AfterAlnum(t) <==> SeparatedTail(t)
    decreases |t|
  {
    if t != [] {
      AfterAlnumIsSeparatedTail(t[1..]);
      if |t| > 1 {
        AfterAlnumIsSeparatedTail(t[2..]);
        assert t[1..][1..] == t[2..];
      }
      // Every character property of t is a property of t[0] and of t[1..].
      assert OnlyAlnumOrUnderscore(t) <==> (IsAlnum(t[0]) || t[0] == '_') && OnlyAlnumOrUnderscore(t[1..]) by {
        assert forall i :: 1 <= i < |t| ==> t[i] == t[1..][i - 1];
      }
      assert NoDoubleUnderscore(t) <==> (|t| > 1 ==> !(t[0] == '_' && t[1] == '_')) && NoDoubleUnderscore(t[1..]) by {
        assert forall i :: 1 <= i < |t| ==> t[i] == t[1..][i - 1];
      }
    }
  }

  /** The automaton of `[a-zA-Z0-9]+(_[a-zA-Z0-9]+)*` accepts exactly the underscore-separated runs. */
  lemma AlnumRunsIsUnderscoreSeparated(t: string)
    ensures AlnumRuns(t) <==> UnderscoreSeparated(t)
  {
    if |t| > 0 {
      AfterAlnumIsSeparatedTail(t[1..]);
      assert forall i :: 1 <= i < |t| ==> t[i] == t[1..][i - 1];
    }
  }
}
