/** The client-side validators of front/src/pages/Login.tsx: the four
    ordered password rules and the email regular expression, as predicates
    on a string of Unicode code points. */
module LoginRules {
  import opened Common

  // --------------------------------------------------------- password rules

  /** The four rule regexes, in order: /^.{8,}$/, /[A-Z]/, /[0-9]/ and the
      special-character class. */
  datatype Pattern = AtLeastEight | Uppercase | Digit | Special

  datatype PasswordRule = PasswordRule(number: nat, pattern: Pattern, message: string, color: string)

  const PasswordRules: seq<PasswordRule> := [
    PasswordRule(1, AtLeastEight, "Au moins 8 caractères", "danger"),
    PasswordRule(2, Uppercase, "Au moins une majuscule", "danger"),
    PasswordRule(3, Digit, "Au moins un chiffre", "warning"),
    PasswordRule(4, Special, "Au moins un caractère spécial", "warning")
  ]

  /** The characters of /[!@#$%^&*(),.?":{}|<>_\-=/\\[\]~`';]/. */
  const SpecialChars: set<char> := {
    '!', '@', '#', '$', '%', '^', '&', '*', '(', ')', ',', '.', '?', '"', ':', '{', '}',
    '|', '<', '>', '_', '-', '=', '/', '\\', '[', ']', '~', '`', '\'', ';'
  }

  /** The line terminators that `.` does not match. */
  predicate IsLineTerminator(c: char) {
    c == '\n' || c == '\r' || c == '\U{2028}' || c == '\U{2029}'
  }

  /** RegExp.prototype.test of each rule's pattern (none has a flag). */
  predicate Test(pattern: Pattern, s: string) {
    match pattern
    case AtLeastEight => |s| >= 8 && forall i :: 0 <= i < |s| ==> !IsLineTerminator(s[i])
    case Uppercase => exists i :: 0 <= i < |s| && 'A' <= s[i] <= 'Z'
    case Digit => exists i :: 0 <= i < |s| && '0' <= s[i] <= '9'
    case Special => exists i :: 0 <= i < |s| && s[i] in SpecialChars
  }

  /** The first rule, in list order, whose pattern the password fails. */
  function FirstFailing(rules: seq<PasswordRule>, s: string): Option<PasswordRule> {
    if rules == [] then None
    else if !Test(rules[0].pattern, s) then Some(rules[0])
    else FirstFailing(rules[1..], s)
  }

  /** The strength error checkPasswordStrength leaves behind: none for an
      empty password, otherwise the first failing rule. */
  function StrengthError(password: string): Option<PasswordRule> {
    if |password| == 0 then None else FirstFailing(PasswordRules, password)
  }

  lemma {:induction false} FirstFailingIsLowest(rules: seq<PasswordRule>, s: string)
    ensures FirstFailing(rules, s).None? <==> forall j :: 0 <= j < |rules| ==> Test(rules[j].pattern, s)
    ensures forall k :: 0 <= k < |rules| ==>
              (!Test(rules[k].pattern, s) && (forall j :: 0 <= j < k ==> Test(rules[j].pattern, s))
               ==> FirstFailing(rules, s) == Some(rules[k]))
    ensures FirstFailing(rules, s).Some? ==>
              exists k :: 0 <= k < |rules| && FirstFailing(rules, s) == Some(rules[k])
                          && !Test(rules[k].pattern, s) && forall j :: 0 <= j < k ==> Test(rules[j].pattern, s)
  {
    if rules != [] {
      FirstFailingIsLowest(rules[1..], s);
      if Test(rules[0].pattern, s) {
        forall k | 1 <= k < |rules| && !Test(rules[k].pattern, s) && forall j :: 0 <= j < k ==> Test(rules[j].pattern, s)
          ensures FirstFailing(rules, s) == Some(rules[k])
        {
          assert rules[1..][k - 1] == rules[k];
          assert forall j :: 0 <= j < k - 1 ==> rules[1..][j] == rules[j + 1];
        }
        if FirstFailing(rules, s).Some? {
          var k :| 0 <= k < |rules[1..]| && FirstFailing(rules[1..], s) == Some(rules[1..][k])
                   && !Test(rules[1..][k].pattern, s) && forall j :: 0 <= j < k ==> Test(rules[1..][j].pattern, s);
          assert forall j :: 0 <= j < k + 1 ==> Test(rules[j].pattern, s) by {
            forall j | 0 <= j < k + 1 ensures Test(rules[j].pattern, s) {
              if j > 0 { assert rules[j] == rules[1..][j - 1]; }
            }
          }
          assert rules[k + 1] == rules[1..][k];
        }
        assert (forall j :: 0 <= j < |rules[1..]| ==> Test(rules[1..][j].pattern, s)) ==>
               (forall j :: 0 <= j < |rules| ==> Test(rules[j].pattern, s)) by {
          if forall j :: 0 <= j < |rules[1..]| ==> Test(rules[1..][j].pattern, s) {
            forall j | 0 <= j < |rules| ensures Test(rules[j].pattern, s) {
              if j > 0 { assert rules[j] == rules[1..][j - 1]; }
            }
          }
        }
      }
    }
  }

  /** The rule numbers are 1 to 4 in list order, so the lowest failing
      position is also the lowest failing number. */
  lemma RuleNumbers()
    ensures |PasswordRules| == 4
    ensures forall k :: 0 <= k < 4 ==> PasswordRules[k].number == k + 1
  {
  }

  /** An empty password has no strength error; for a non-empty one, rule
      k is reported exactly when it fails and every earlier rule passes,
      and no error is reported exactly when all four rules pass. */
  lemma StrengthErrorIsFirstFailure(password: string)
    ensures |password| == 0 ==> StrengthError(password).None?
    ensures |password| > 0 ==>
              (StrengthError(password).None? <==> forall k :: 0 <= k < 4 ==> Test(PasswordRules[k].pattern, password))
    ensures |password| > 0 ==> forall k :: 0 <= k < 4 ==>
              (StrengthError(password) == Some(PasswordRules[k]) <==>
                 !Test(PasswordRules[k].pattern, password)
                 && forall j :: 0 <= j < k ==> Test(PasswordRules[j].pattern, password))
  {
    FirstFailingIsLowest(PasswordRules, password);
    if |password| > 0 {
      forall k | 0 <= k < 4 && StrengthError(password) == Some(PasswordRules[k])
        ensures !Test(PasswordRules[k].pattern, password)
                && forall j :: 0 <= j < k ==> Test(PasswordRules[j].pattern, password)
      {
        var k' :| 0 <= k' < 4 && StrengthError(password) == Some(PasswordRules[k'])
                  && !Test(PasswordRules[k'].pattern, password)
                  && forall j :: 0 <= j < k' ==> Test(PasswordRules[j].pattern, password);
        assert PasswordRules[k] == PasswordRules[k'];
        assert PasswordRules[k].number == k + 1 && PasswordRules[k'].number == k' + 1;
      }
    }
  }

  /** '+' is not in the special set: "Abcdefg1+" is reported under rule 4. */
  lemma PlusIsNotSpecial()
    ensures '+' !in SpecialChars
    ensures StrengthError("Abcdefg1+") == Some(PasswordRules[3])
  {
    var s := "Abcdefg1+";
    assert 'A' <= s[0] <= 'Z';
    assert '0' <= s[7] <= '9';
    assert forall i :: 0 <= i < |s| ==> s[i] !in SpecialChars;
  }

  /** Any non-empty password that passes all four rules has no strength
      error. */
  lemma StrongPassword(password: string)
    requires |password| > 0
    requires forall k :: 0 <= k < 4 ==> Test(PasswordRules[k].pattern, password)
    ensures StrengthError(password).None?
  {
    StrengthErrorIsFirstFailure(password);
  }

  /** "Passw0rd!" passes all four rules, so it leaves no strength error. */
  lemma StrongPasswordExample()
    ensures StrengthError("Passw0rd!").None?
  {
    var s := "Passw0rd!";
    assert 'P' == s[0] && '0' == s[5] && s[8] == '!';
    assert s[8] in SpecialChars;
  }

  // ------------------------------------------------------------- email shape

  /** \s of a JavaScript regular expression: the WhiteSpace and
      LineTerminator code points. */
  predicate IsJsSpace(c: char) {
    var n := c as int;
    n == 0x09 || n == 0x0A || n == 0x0B || n == 0x0C || n == 0x0D || n == 0x20
    || n == 0xA0 || n == 0x1680 || (0x2000 <= n <= 0x200A) || n == 0x2028 || n == 0x2029
    || n == 0x202F || n == 0x205F || n == 0x3000 || n == 0xFEFF
  }

  /** The class [^\s@]. */
  predicate EmailChar(c: char) {
    !IsJsSpace(c) && c != '@'
  }

  /** /^[^\s@]+@[^\s@]+\.[^\s@]+$/.test(s): an '@' at i and a '.' at j
      split s into three non-empty runs of [^\s@]. */
  predicate MatchesEmailRegex(s: string) {
    exists i, j :: 0 < i && i + 1 < j && j + 1 < |s| && s[i] == '@' && s[j] == '.'
      && forall k :: 0 <= k < |s| && k != i ==> EmailChar(s[k])
  }

  /** The email error checkEmailValidity leaves behind. */
  function EmailError(email: string): bool {
    |email| > 0 && !MatchesEmailRegex(email)
  }

  function CountChar(s: string, c: char): (n: nat)
    ensures n <= |s|
  {
    if s == [] then 0 else (if s[0] == c then 1 else 0) + CountChar(s[1..], c)
  }

  /** Position of the first `c`, or |s| when there is none. */
  function IndexOf(s: string, c: char): (i: nat)
    ensures i <= |s|
    ensures i < |s| ==> s[i] == c
    ensures forall k :: 0 <= k < i ==> s[k] != c
  {
    if s == [] then 0 else if s[0] == c then 0 else 1 + IndexOf(s[1..], c)
  }

  /** The same shape stated as parts: no whitespace, exactly one '@', a
      non-empty local part, and a domain holding a '.' that is neither its
      first nor its last character. */
  predicate EmailShape(s: string) {
    && (forall k :: 0 <= k < |s| ==> !IsJsSpace(s[k]))
    && CountChar(s, '@') == 1
    && var at := IndexOf(s, '@');
       && 0 < at < |s|
       && exists d :: at + 1 < d < |s| - 1 && s[d] == '.'
  }

  lemma {:induction false} CountCharOne(s: string, c: char, i: nat)
    requires i < |s| && s[i] == c
    ensures CountChar(s, c) == 1 <==> forall k :: 0 <= k < |s| && k != i ==> s[k] != c
  {
    if i == 0 {
      CountCharZero(s[1..], c);
      assert forall k :: 1 <= k < |s| ==> s[k] == s[1..][k - 1];
    } else {
      CountCharOne(s[1..], c, i - 1);
      assert forall k :: 1 <= k < |s| ==> s[k] == s[1..][k - 1];
      if s[0] == c {
        CountCharZero(s[1..], c);
        assert s[1..][i - 1] == c;
      }
    }
  }

  lemma {:induction false} CountCharZero(s: string, c: char)
    ensures CountChar(s, c) == 0 <==> forall k :: 0 <= k < |s| ==> s[k] != c
  {
    if s != [] {
      CountCharZero(s[1..], c);
      assert forall k :: 1 <= k < |s| ==> s[k] == s[1..][k - 1];
    }
  }

  /** The regular expression and the part-wise shape agree on every string. */
  lemma EmailRegexIsShape(s: string)
    ensures MatchesEmailRegex(s) <==> EmailShape(s)
  {
    if MatchesEmailRegex(s) {
      var i, j :| 0 < i && i + 1 < j && j + 1 < |s| && s[i] == '@' && s[j] == '.'
        && forall k :: 0 <= k < |s| && k != i ==> EmailChar(s[k]);
      CountCharOne(s, '@', i);
      var at := IndexOf(s, '@');
      assert at == i;
      assert s[j] == '.';
    }
    if EmailShape(s) {
      var at := IndexOf(s, '@');
      CountCharOne(s, '@', at);
      var d :| at + 1 < d < |s| - 1 && s[d] == '.';
      assert forall k :: 0 <= k < |s| && k != at ==> EmailChar(s[k]);
      assert 0 < at && at + 1 < d && d + 1 < |s| && s[at] == '@' && s[d] == '.';
    }
  }

  /** An empty email has no error; a non-empty one is flagged exactly when
      it is not of the form local@X.Y described by EmailShape. */
  lemma EmailErrorExactly(email: string)
    ensures |email| == 0 ==> !EmailError(email)
    ensures |email| > 0 ==> (EmailError(email) <==> !EmailShape(email))
  {
    EmailRegexIsShape(email);
  }

  lemma EmailAccepted()
    ensures !EmailError("a@x.com")
  {
    var s := "a@x.com";
    assert s[1] == '@' && s[3] == '.';
    assert forall k :: 0 <= k < |s| && k != 1 ==> EmailChar(s[k]);
  }

  lemma EmailTwoAts()
    ensures EmailError("a@b@x.com")
  {
    var s := "a@b@x.com";
    EmailRegexIsShape(s);
    CountCharOne(s, '@', 1);
    assert s[3] == '@';
  }
}
