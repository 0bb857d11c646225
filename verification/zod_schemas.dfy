/**
 * The sign-in and sign-up form schemas: which issues each field raises, in the order
 * the schema reports them, and the password rule they share. Email syntax is decided
 * by the validation library's own pattern and enters here as a parameter.
 */
module ZodSchemas {
  import Strings

  /** A validation issue: the field it is reported on and its message. */
  datatype Issue = Issue(path: string, message: string)

  /** The character classes the password pattern looks ahead for. */
  datatype Class = Upper | Lower | Digit | Special

  predicate InClass(k: Class, c: char) {
    match k
    case Upper => 'A' <= c <= 'Z'
    case Lower => 'a' <= c <= 'z'
    case Digit => '0' <= c <= '9'
    case Special => c in "#?!@$%^&*-"
  }

  /** `(?=.*?[class])` at the start of the input: a character of the class before any line terminator. */
  predicate LooksAhead(s: string, k: Class) {
    s != [] && (InClass(k, s[0]) || (!Strings.IsLineTerminator(s[0]) && LooksAhead(s[1..], k)))
  }

  predicate NoLineTerminator(s: string) {
    forall i :: 0 <= i < |s| ==> !Strings.IsLineTerminator(s[i])
  }

  /**
   * The password pattern `^(?=.*?[A-Z])(?=.*?[a-z])(?=.*?[0-9])(?=.*?[#?!@$%^&*\-]).{8,}$`
   * without the multiline flag: four lookaheads from the start, then at least eight
   * characters other than line terminators up to the end of the input.
   */
  predicate MatchesPassword(s: string) {
    && LooksAhead(s, Upper) && LooksAhead(s, Lower) && LooksAhead(s, Digit) && LooksAhead(s, Special)
    && |s| >= 8 && NoLineTerminator(s)
  }

  predicate Contains(s: string, k: Class) {
    exists i :: 0 <= i < |s| && InClass(k, s[i])
  }

  lemma {:induction false} LooksAheadContains(s: string, k: Class)
    requires NoLineTerminator(s)
    ensures LooksAhead(s, k) <==> Contains(s, k)
  {
    if s != [] {
      LooksAheadContains(s[1..], k);
      if Contains(s, k) && !InClass(k, s[0]) {
        var i :| 0 <= i < |s| && InClass(k, s[i]);
        assert s[1..][i - 1] == s[i];
      }
      if Contains(s[1..], k) {
        var i :| 0 <= i < |s[1..]| && InClass(k, s[1..][i]);
        assert s[i + 1] == s[1..][i];
      }
    }
  }

  /** The pattern holds exactly for texts of eight or more characters on one line with all four classes. */
  lemma PasswordPatternMeaning(s: string)
    ensures MatchesPassword(s) <==>
      && |s| >= 8 && NoLineTerminator(s)
      && Contains(s, Upper) && Contains(s, Lower) && Contains(s, Digit) && Contains(s, Special)
  {
    if NoLineTerminator(s) {
      LooksAheadContains(s, Upper);
      LooksAheadContains(s, Lower);
      LooksAheadContains(s, Digit);
      LooksAheadContains(s, Special);
    }
  }

  /** One check of a field: its issue when it fails, nothing otherwise. */
  function Check(fails: bool, path: string, message: string): seq<Issue> {
    if fails then [Issue(path, message)] else []
  }

  /** The password field's checks, each reported when it fails: `min(8)`, `max(32)`, the pattern. */
  function PasswordIssues(password: string): seq<Issue> {
    Check(|password| < 8, "password", "Password must be at least 8 characters")
    + Check(|password| > 32, "password", "Password must be less than 32 characters")
    + Check(!MatchesPassword(password), "password",
            "Password must include uppercase, lowercase, number, and special character")
  }

  /** A password passes exactly when it has 8 to 32 characters, one line, and all four classes. */
  lemma PasswordAccepted(password: string)
    ensures PasswordIssues(password) == [] <==>
      && 8 <= |password| <= 32 && NoLineTerminator(password)
      && Contains(password, Upper) && Contains(password, Lower)
      && Contains(password, Digit) && Contains(password, Special)
  {
    PasswordPatternMeaning(password);
  }

  /** `Abcdef1!` is accepted. */
  lemma GoodPassword()
    ensures PasswordIssues("Abcdef1!") == []
  {
    var good := "Abcdef1!";
    assert NoLineTerminator(good);
    assert Contains(good, Upper) by {
      assert InClass(Upper, good[0]);
    }
    assert Contains(good, Lower) by {
      assert InClass(Lower, good[1]);
    }
    assert Contains(good, Digit) by {
      assert InClass(Digit, good[6]);
    }
    assert Contains(good, Special) by {
      assert InClass(Special, good[7]);
    }
    PasswordAccepted(good);
  }

  /** `abcdefg1!` lacks a capital letter and is refused. */
  lemma NoCapitalRefused()
    ensures PasswordIssues("abcdefg1!") != []
  {
    var bad := "abcdefg1!";
    assert !Contains(bad, Upper);
    PasswordAccepted(bad);
  }

  /** `min(1)` then the email format check; both run. */
  function EmailIssues(email: string, wellFormed: bool): seq<Issue> {
    Check(email == [], "email", "Email is required") + Check(!wellFormed, "email", "Invalid email")
  }

  function SignInIssues(email: string, emailWellFormed: bool, password: string): seq<Issue> {
    EmailIssues(email, emailWellFormed) + PasswordIssues(password)
  }

  /**
   * The sign-up issues: name, email and password checks in field order, then the
   * object refinement, which still runs when only such checks have failed.
   */
  function SignUpIssues(name: string, email: string, emailWellFormed: bool, password: string,
                        confirmPassword: string): seq<Issue> {
    Check(name == [], "name", "Name is required")
    + EmailIssues(email, emailWellFormed) + PasswordIssues(password)
    + Check(password != confirmPassword, "confirmPassword", "Passwords do not match")
  }

  /** The issues reported on one field, in order. */
  function OnPath(issues: seq<Issue>, path: string): seq<Issue> {
    if issues == [] then [] else (if issues[0].path == path then [issues[0]] else []) + OnPath(issues[1..], path)
  }

  lemma {:induction false} OnPathAppend(a: seq<Issue>, b: seq<Issue>, path: string)
    ensures OnPath(a + b, path) == OnPath(a, path) + OnPath(b, path)
  {
    if a == [] {
      assert a + b == b;
    } else {
      assert (a + b)[1..] == a[1..] + b;
      OnPathAppend(a[1..], b, path);
    }
  }

  lemma CheckOnPath(fails: bool, path: string, message: string, q: string)
    ensures OnPath(Check(fails, path, message), q) == if path == q then Check(fails, path, message) else []
  {
    if fails {
      assert [Issue(path, message)][1..] == [];
    }
  }

  /** Every password issue is reported on `password`, and only there. */
  lemma PasswordIssuesOnPath(password: string, q: string)
    ensures OnPath(PasswordIssues(password), q) == if q == "password" then PasswordIssues(password) else []
  {
    var a := Check(|password| < 8, "password", "Password must be at least 8 characters");
    var b := Check(|password| > 32, "password", "Password must be less than 32 characters");
    var c := Check(!MatchesPassword(password), "password",
                   "Password must include uppercase, lowercase, number, and special character");
    CheckOnPath(|password| < 8, "password", "Password must be at least 8 characters", q);
    CheckOnPath(|password| > 32, "password", "Password must be less than 32 characters", q);
    CheckOnPath(!MatchesPassword(password), "password",
                "Password must include uppercase, lowercase, number, and special character", q);
    OnPathAppend(a, b, q);
    OnPathAppend(a + b, c, q);
  }

  lemma EmailIssuesOnPath(email: string, wellFormed: bool, q: string)
    ensures OnPath(EmailIssues(email, wellFormed), q) == if q == "email" then EmailIssues(email, wellFormed) else []
  {
    CheckOnPath(email == [], "email", "Email is required", q);
    CheckOnPath(!wellFormed, "email", "Invalid email", q);
    OnPathAppend(Check(email == [], "email", "Email is required"), Check(!wellFormed, "email", "Invalid email"), q);
  }

  /** The sign-up issues on one field other than the name and the email. */
  lemma SignUpOnPath(name: string, email: string, wellFormed: bool, password: string, confirmPassword: string, q: string)
    requires q != "name" && q != "email"
    ensures OnPath(SignUpIssues(name, email, wellFormed, password, confirmPassword), q)
      == OnPath(PasswordIssues(password), q) + OnPath(Check(password != confirmPassword, "confirmPassword", "Passwords do not match"), q)
  {
    var n := Check(name == [], "name", "Name is required");
    var e := EmailIssues(email, wellFormed);
    var p := PasswordIssues(password);
    var c := Check(password != confirmPassword, "confirmPassword", "Passwords do not match");
    CheckOnPath(name == [], "name", "Name is required", q);
    EmailIssuesOnPath(email, wellFormed, q);
    OnPathAppend(n, e, q);
    OnPathAppend(n + e, p, q);
    OnPathAppend(n + e + p, c, q);
  }

  /** Sign-in and sign-up report the same password issues for the same password. */
  lemma SamePasswordRule(name: string, email: string, wellFormed: bool, password: string, confirmPassword: string)
    ensures OnPath(SignInIssues(email, wellFormed, password), "password") == PasswordIssues(password)
    ensures OnPath(SignUpIssues(name, email, wellFormed, password, confirmPassword), "password") == PasswordIssues(password)
  {
    EmailIssuesOnPath(email, wellFormed, "password");
    PasswordIssuesOnPath(password, "password");
    OnPathAppend(EmailIssues(email, wellFormed), PasswordIssues(password), "password");
    SignUpOnPath(name, email, wellFormed, password, confirmPassword, "password");
    CheckOnPath(password != confirmPassword, "confirmPassword", "Passwords do not match", "password");
  }

  /** The mismatch issue is reported on `confirmPassword` exactly when the two passwords differ, and it is the only issue there. */
  lemma ConfirmMismatch(name: string, email: string, wellFormed: bool, password: string, confirmPassword: string)
    ensures OnPath(SignUpIssues(name, email, wellFormed, password, confirmPassword), "confirmPassword")
      == if password != confirmPassword then [Issue("confirmPassword", "Passwords do not match")] else []
  {
    SignUpOnPath(name, email, wellFormed, password, confirmPassword, "confirmPassword");
    PasswordIssuesOnPath(password, "confirmPassword");
    CheckOnPath(password != confirmPassword, "confirmPassword", "Passwords do not match", "confirmPassword");
  }

  /** A form that passes has a name and an email, an accepted password, and a matching confirmation. */
  lemma SignUpAccepted(name: string, email: string, wellFormed: bool, password: string, confirmPassword: string)
    ensures SignUpIssues(name, email, wellFormed, password, confirmPassword) == [] <==>
      name != [] && email != [] && wellFormed && PasswordIssues(password) == [] && password == confirmPassword
  {
  }
}
