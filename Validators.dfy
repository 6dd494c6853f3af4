/**
 * The FluentValidation rule sets `CreateUserComandValidator` and
 * `RefreshTokenCommandValidator`, as functions from a command to the list of
 * failures they report, in rule order. Every rule runs (the default cascade
 * mode continues after a failed check), so one property can report two messages.
 */
module Validators {
  import opened Wrappers
  import opened Text
  import opened UserCQ
  import Entity

  datatype ValidationFailure = ValidationFailure(propertyName: string, errorMessage: string)

  /** `NotEmpty()` on a string: not null, not empty, not only white space. */
  predicate NotEmpty(s: Option<string>)
  {
    !IsNullOrWhiteSpace(s)
  }

  /** `EmailAddress()` in its ASP.NET Core compatible mode: null passes; otherwise the
      first `@` is not at the start, not at the end, and is also the last `@`. */
  predicate EmailAddressRule(s: Option<string>)
  {
    s.None? ||
    var v := s.value;
    var i := IndexOf(v, '@');
    i > 0 && i != |v| - 1 && i == LastIndexOf(v, '@')
  }

  /** `MaximumLength(max)`: null passes; `Length` counts UTF-16 code units. */
  predicate MaximumLength(s: Option<string>, max: nat)
  {
    s.None? || Utf16Length(s.value) <= max
  }

  const EmailEmpty := ValidationFailure("Email", "O Campo 'email' não pode ser vazio.")
  const EmailInvalid := ValidationFailure("Email", "O Campo 'email' não é valido.")
  const UsernameEmpty := ValidationFailure("Username", "O Campo 'Username' não pode ser vazio.")
  const UsernameRequired := ValidationFailure("Username", "Username é obrigatório.")
  const UsernameTooLong := ValidationFailure("Username", "Username não pode exceder 50 caracteres.")

  /** The failures one check reports: none if it passes, its message if not. */
  function Check(passes: bool, failure: ValidationFailure): (r: seq<ValidationFailure>)
    ensures r == [] <==> passes
    ensures failure in r <==> !passes
    ensures forall f :: f in r ==> f == failure
  {
    if passes then [] else [failure]
  }

  /** `CreateUserComandValidator`. */
  function ValidateCreateUser(cmd: CreateUserCommand): (errors: seq<ValidationFailure>)
    ensures EmailEmpty in errors <==> IsNullOrWhiteSpace(cmd.email)
    ensures EmailInvalid in errors <==> !EmailAddressRule(cmd.email)
    ensures UsernameEmpty in errors <==> IsNullOrWhiteSpace(cmd.username)
    ensures forall f :: f in errors ==> f in {EmailEmpty, EmailInvalid, UsernameEmpty}
    ensures errors == [] <==>
              !IsNullOrWhiteSpace(cmd.email) && EmailAddressRule(cmd.email) && !IsNullOrWhiteSpace(cmd.username)
  {
    Check(NotEmpty(cmd.email), EmailEmpty)
      + Check(EmailAddressRule(cmd.email), EmailInvalid)
      + Check(NotEmpty(cmd.username), UsernameEmpty)
  }

  /** `RefreshTokenCommandValidator`: only `Username` is checked. */
  function ValidateRefreshToken(cmd: RefreshTokenCommand): (errors: seq<ValidationFailure>)
    ensures UsernameRequired in errors <==> IsNullOrWhiteSpace(cmd.username)
    ensures UsernameTooLong in errors <==> cmd.username.Some? && Utf16Length(cmd.username.value) > 50
    ensures forall f :: f in errors ==> f in {UsernameRequired, UsernameTooLong}
  {
    Check(NotEmpty(cmd.username), UsernameRequired)
      + Check(MaximumLength(cmd.username, 50), UsernameTooLong)
  }

  /** The validator's address test is the single-`@` rule: exactly one `@`, neither
      first nor last. */
  lemma EmailAddressRuleMeaning(v: string)
    ensures EmailAddressRule(Some(v)) <==>
              exists i :: 0 < i < |v| - 1 && v[i] == '@' &&
                          forall j :: 0 <= j < |v| && j != i ==> v[j] != '@'
  {
    var i := IndexOf(v, '@');
    var l := LastIndexOf(v, '@');
    if EmailAddressRule(Some(v)) {
      assert forall j :: 0 <= j < |v| && j != i ==> v[j] != '@';
    }
    if exists i :: 0 < i < |v| - 1 && v[i] == '@' && forall j :: 0 <= j < |v| && j != i ==> v[j] != '@' {
      var k :| 0 < k < |v| - 1 && v[k] == '@' && forall j :: 0 <= j < |v| && j != k ==> v[j] != '@';
      assert i == k && l == k;
    }
  }

  /** Every address the `[EmailAddress]` annotation on `User` accepts passes the
      validator, but not conversely: the validator lets a line break through. */
  lemma ValidatorLooserThanAnnotation(s: Option<string>)
    ensures Entity.EmailAddress(s) ==> EmailAddressRule(s)
    ensures EmailAddressRule(Some("a\n@b")) && !Entity.EmailAddress(Some("a\n@b"))
  {
    var v := "a\n@b";
    assert v[2] == '@';
    assert IndexOf(v, '@') == 2 by {
      assert v[0] != '@' && v[1] != '@';
    }
    assert LastIndexOf(v, '@') == 2 by {
      assert v[3] != '@';
    }
    assert v[1] == '\n';
  }

  /** An empty email reports both email messages; a null email only the first, since
      the address test passes null. */
  lemma EmptyAndNullEmail(cmd: CreateUserCommand)
    ensures cmd.email == Some("") ==> EmailEmpty in ValidateCreateUser(cmd) && EmailInvalid in ValidateCreateUser(cmd)
    ensures cmd.email.None? ==> EmailEmpty in ValidateCreateUser(cmd) && EmailInvalid !in ValidateCreateUser(cmd)
  {
  }

  /** Name, surname and password are never looked at, and the email rule does not
      depend on the username (nor the username rule on the email). */
  lemma CreateUserRulesIndependent(a: CreateUserCommand, b: CreateUserCommand)
    ensures a.email == b.email && a.username == b.username ==> ValidateCreateUser(a) == ValidateCreateUser(b)
    ensures a.email == b.email ==>
              (EmailEmpty in ValidateCreateUser(a) <==> EmailEmpty in ValidateCreateUser(b)) &&
              (EmailInvalid in ValidateCreateUser(a) <==> EmailInvalid in ValidateCreateUser(b))
    ensures a.username == b.username ==>
              (UsernameEmpty in ValidateCreateUser(a) <==> UsernameEmpty in ValidateCreateUser(b))
  {
  }

  /** A username is accepted exactly when it is not blank and at most 50 code units
      long; the refresh token never matters. */
  lemma RefreshTokenAccepted(cmd: RefreshTokenCommand, other: Option<string>)
    ensures ValidateRefreshToken(cmd) == [] <==>
              cmd.username.Some? && !IsNullOrWhiteSpace(cmd.username) && 1 <= Utf16Length(cmd.username.value) <= 50
    ensures ValidateRefreshToken(cmd) == ValidateRefreshToken(cmd.(refreshToken := other))
  {
    if cmd.username.Some? && !IsNullOrWhiteSpace(cmd.username) {
      assert |cmd.username.value| > 0;
    }
  }

  /** A blank username longer than 50 code units reports both messages. */
  lemma LongBlankUsername(cmd: RefreshTokenCommand)
    requires cmd.username == Some(seq(51, _ => ' '))
    ensures ValidateRefreshToken(cmd) == [UsernameRequired, UsernameTooLong]
  {
    assert Utf16Length(cmd.username.value) >= 51;
  }
}
