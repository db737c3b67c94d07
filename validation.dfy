/** The client-side checks the credential operations run before they call
    the backend: required fields, the e-mail pattern, the all-digits
    matrícula and the new-password policy. Each check has its own message,
    and the first check that fails decides the message. */
module Validation {
  import opened Common
  import opened JsText

  const LoginFieldsRequired := "Matrícula e senha são obrigatórios"
  const RegistrationFieldsRequired := "Preencha todos os campos obrigatórios"
  const InvalidEmail := "Email inválido"
  const MatriculaDigitsOnly := "Matrícula deve conter apenas números"
  const PasswordFieldsRequired := "Preencha todos os campos"
  const PasswordTooShort := "A nova senha deve ter pelo menos 6 caracteres"
  const PasswordUnchanged := "A nova senha não pode ser igual à atual"

  /** The minimum length of a new password, in UTF-16 code units. */
  const MinPasswordLength := 6

  /** A character the class `[^\s@]` matches. */
  predicate IsEmailChar(c: char) {
    !IsWhiteSpace(c) && c != '@'
  }

  predicate AllEmailChars(s: string) {
    forall i :: 0 <= i < |s| ==> IsEmailChar(s[i])
  }

  /** What it means for `s` to match `^[^\s@]+@[^\s@]+\.[^\s@]+$`: three
      non-empty runs of `[^\s@]`, the first two separated by `@` and the
      last two by a literal `.`. */
  ghost predicate MatchesEmailPattern(s: string): (r: bool)
    ensures r ==> |s| >= 5 && '@' in s && '.' in s
  {
    exists at: nat, dot: nat ::
      && 0 < at && at + 1 < dot && dot + 1 < |s|
      && s[at] == '@' && s[dot] == '.'
      && AllEmailChars(s[..at]) && AllEmailChars(s[at + 1..dot]) && AllEmailChars(s[dot + 1..])
  }

  /** The first position of `c` in `s`. */
  function IndexOf(s: string, c: char): (r: Option<nat>)
    ensures r.Some? ==> r.value < |s| && s[r.value] == c
    ensures r.Some? ==> forall i :: 0 <= i < r.value ==> s[i] != c
    ensures r.None? ==> forall i :: 0 <= i < |s| ==> s[i] != c
  {
    if s == [] then None
    else if s[0] == c then Some(0)
    else match IndexOf(s[1..], c)
      case None => None
      case Some(k) => Some(k + 1)
  }

  /** Text split at `at` into two non-empty runs of `[^\s@]` has no white
      space at either end. */
  lemma SplitHasNoOuterSpace(s: string, at: nat)
    requires 0 < at < |s| - 1
    requires AllEmailChars(s[..at]) && AllEmailChars(s[at + 1..])
    ensures !IsWhiteSpace(s[0]) && !IsWhiteSpace(s[|s| - 1])
  {
    assert s[0] == s[..at][0];
    assert s[|s| - 1] == s[at + 1..][|s| - at - 2];
  }

  /** The e-mail test, decided by a scan: the text splits at its only `@`
      into a non-empty local part and a domain, neither holding white space
      or another `@`, and the domain has a `.` that is neither its first nor
      its last character. An e-mail that passes is at least five characters
      long and has no white space at either end, so it is its own trim. */
  predicate IsEmail(s: string): (r: bool)
    ensures r ==> |s| >= 5 && !IsWhiteSpace(s[0]) && !IsWhiteSpace(s[|s| - 1])
  {
    match IndexOf(s, '@')
    case None => false
    case Some(at) => if EmailSplit(s, at) then SplitHasNoOuterSpace(s, at); true else false
  }

  /** The local part before `at` and the domain after it pass the scan. */
  predicate EmailSplit(s: string, at: nat)
    requires at < |s|
  {
    var domain := s[at + 1..];
    && at > 0 && AllEmailChars(s[..at]) && AllEmailChars(domain)
    && |domain| >= 3 && '.' in domain[1..|domain| - 1]
  }

  lemma EmailTestImpliesPattern(s: string)
    requires IsEmail(s)
    ensures MatchesEmailPattern(s)
  {
    var at := IndexOf(s, '@').value;
    assert EmailSplit(s, at);
    var domain := s[at + 1..];
    var inner := domain[1..|domain| - 1];
    var k :| 0 <= k < |inner| && inner[k] == '.';
    var dot := at + 2 + k;
    assert s[at + 1..dot] == domain[..k + 1];
    assert s[dot + 1..] == domain[k + 2..];
    assert s[dot] == '.';
    EmailCharsSlice(domain, 0, k + 1);
    EmailCharsSlice(domain, k + 2, |domain|);
    assert && 0 < at && at + 1 < dot && dot + 1 < |s|
           && s[at] == '@' && s[dot] == '.'
           && AllEmailChars(s[..at]) && AllEmailChars(s[at + 1..dot]) && AllEmailChars(s[dot + 1..]);
  }

  lemma EmailCharsSlice(t: string, i: nat, j: nat)
    requires AllEmailChars(t) && i <= j <= |t|
    ensures AllEmailChars(t[i..j])
  {
    assert forall n :: 0 <= n < j - i ==> t[i..j][n] == t[i + n];
  }

  lemma PatternImpliesEmailTest(s: string, at: nat, dot: nat)
    requires 0 < at && at + 1 < dot && dot + 1 < |s|
    requires s[at] == '@' && s[dot] == '.'
    requires AllEmailChars(s[..at]) && AllEmailChars(s[at + 1..dot]) && AllEmailChars(s[dot + 1..])
    ensures IsEmail(s)
  {
    assert forall i :: 0 <= i < at ==> s[..at][i] == s[i];
    assert IndexOf(s, '@') == Some(at);
    var domain := s[at + 1..];
    forall i | 0 <= i < |domain|
      ensures IsEmailChar(domain[i])
    {
      if at + 1 + i < dot {
        assert domain[i] == s[at + 1..dot][i];
      } else if at + 1 + i > dot {
        assert domain[i] == s[dot + 1..][at + i - dot];
      }
    }
    assert domain[1..|domain| - 1][dot - at - 2] == '.';
    assert EmailSplit(s, at);
  }

  /** The scan accepts exactly the strings the regular expression matches. */
  lemma EmailTestMatchesPattern(s: string)
    ensures IsEmail(s) <==> MatchesEmailPattern(s)
  {
    if IsEmail(s) {
      EmailTestImpliesPattern(s);
    }
    if MatchesEmailPattern(s) {
      var at: nat, dot: nat :|
        && 0 < at && at + 1 < dot && dot + 1 < |s|
        && s[at] == '@' && s[dot] == '.'
        && AllEmailChars(s[..at]) && AllEmailChars(s[at + 1..dot]) && AllEmailChars(s[dot + 1..]);
      PatternImpliesEmailTest(s, at, dot);
    }
  }

  /** `/^\d+$/`: a non-empty run of ASCII digits. A matrícula that passes
      has no white space at either end, so it is its own trim. */
  predicate AllDigits(s: string): (r: bool)
    ensures r ==> s != "" && !IsWhiteSpace(s[0]) && !IsWhiteSpace(s[|s| - 1])
  {
    s != "" && AllDecimal(s)
  }

  /** The checks `loginUser` runs: both fields are required. */
  function ValidateLogin(matricula: string, senha: string): (r: Option<string>)
    ensures r.None? <==> matricula != "" && senha != ""
    ensures r.Some? ==> r == Some(LoginFieldsRequired)
  {
    if matricula == "" || senha == "" then Some(LoginFieldsRequired) else None
  }

  /** The checks `registerNewAluno` runs, in order: all fields present, the
      e-mail matches the pattern, the matrícula (untrimmed) is all digits. */
  function ValidateRegistration(nome: string, matricula: string, email: string): (r: Option<string>)
    ensures r.None? <==>
      nome != "" && matricula != "" && email != "" && MatchesEmailPattern(email) && AllDigits(matricula)
    ensures nome == "" || matricula == "" || email == "" ==> r == Some(RegistrationFieldsRequired)
    ensures nome != "" && matricula != "" && email != "" && !MatchesEmailPattern(email) ==>
      r == Some(InvalidEmail)
    ensures nome != "" && matricula != "" && MatchesEmailPattern(email) && !AllDigits(matricula) ==>
      r == Some(MatriculaDigitsOnly)
    ensures r.None? ==> Trim(matricula) == matricula && Trim(email) == email
  {
    EmailTestMatchesPattern(email);
    if nome == "" || matricula == "" || email == "" then Some(RegistrationFieldsRequired)
    else if !IsEmail(email) then Some(InvalidEmail)
    else if !AllDigits(matricula) then Some(MatriculaDigitsOnly)
    else
      TrimUnchanged(matricula);
      TrimUnchanged(email);
      None
  }

  /** The checks `changePassword` runs, in order: all fields present, the
      new password at least six UTF-16 code units long, and different from
      the current one. */
  function ValidatePasswordChange(matricula: string, senhaAtual: string, novaSenha: string): (r: Option<string>)
    ensures r.None? <==>
      && matricula != "" && senhaAtual != "" && novaSenha != ""
      && Utf16Length(novaSenha) >= MinPasswordLength && novaSenha != senhaAtual
    ensures matricula == "" || senhaAtual == "" || novaSenha == "" ==> r == Some(PasswordFieldsRequired)
    ensures matricula != "" && senhaAtual != "" && novaSenha != "" && Utf16Length(novaSenha) < MinPasswordLength ==>
      r == Some(PasswordTooShort)
    ensures matricula != "" && senhaAtual != "" && Utf16Length(novaSenha) >= MinPasswordLength && novaSenha == senhaAtual ==>
      r == Some(PasswordUnchanged)
  {
    if matricula == "" || senhaAtual == "" || novaSenha == "" then Some(PasswordFieldsRequired)
    else if Utf16Length(novaSenha) < MinPasswordLength then Some(PasswordTooShort)
    else if novaSenha == senhaAtual then Some(PasswordUnchanged)
    else None
  }

  /** The digits check sees the matrícula before it is trimmed, so a
      leading space is refused even though the e-mail is fine. */
  lemma UntrimmedMatriculaRejected()
    ensures ValidateRegistration("Ana", " 123", "ana@x.com") == Some(MatriculaDigitsOnly)
  {
    var email := "ana@x.com";
    assert IndexOf(email, '@') == Some(3);
    assert email[..3] == "ana" && email[4..] == "x.com";
    assert AllEmailChars("ana") && AllEmailChars("x.com");
    assert "x.com"[1..4][0] == '.';
    assert EmailSplit(email, 3);
    assert IsEmail(email);
    assert !IsDigit(" 123"[0]);
  }

  /** Three characters outside the Basic Multilingual Plane are six UTF-16
      code units, enough for a new password; two are not. */
  lemma AstralPasswordLength()
    ensures ValidatePasswordChange("2021001", "abc123", "\U{1F600}\U{1F600}\U{1F600}") == None
    ensures ValidatePasswordChange("2021001", "abc123", "\U{1F600}\U{1F600}") == Some(PasswordTooShort)
  {
    var smile := "\U{1F600}";
    assert Utf16Length(smile) == 2;
    Utf16Append(smile, smile);
    assert smile + smile == "\U{1F600}\U{1F600}";
    Utf16Append(smile + smile, smile);
    assert smile + smile + smile == "\U{1F600}\U{1F600}\U{1F600}";
  }

  /** A text without `@` is not an e-mail. */
  lemma NotAnEmailRejected()
    ensures ValidateRegistration("Ana", "2021001", "not-an-email") == Some(InvalidEmail)
  {
    var email := "not-an-email";
    assert forall i :: 0 <= i < |email| ==> email[i] != '@';
    assert IndexOf(email, '@').None?;
  }
}
