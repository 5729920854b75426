/** The client-side checks of the sign-up page: the email pattern, the password
    length rule, the per-field error map kept while the user types, the order
    of the final checks before the form is sent, and when the submit button is
    disabled. */
module Signup {
  import opened Wrappers
  import opened Text
  import Registration

  const EmailMessage := "Please enter a valid email address"
  const PasswordMessage := "Password must be at least 8 characters long"
  const MatchMessage := "Passwords do not match"

  const EmailField := "email"
  const PasswordField := "password"
  const ConfirmField := "confirmPassword"

  // ---------------------------------------------------------------------------
  // validateEmail: /^[^\s@]+@[^\s@]+\.[^\s@]+$/

  /** A character of the class `[^\s@]`. */
  predicate PlainChar(c: char) {
    !IsSpace(c) && c != '@'
  }

  predicate Plain(s: string) {
    forall j :: 0 <= j < |s| ==> PlainChar(s[j])
  }

  /** The language of the pattern: one '@' with text before it, a '.' after it
      with text on both sides, and no whitespace and no other '@' anywhere. */
  ghost predicate EmailShape(s: string) {
    exists i, k :: 0 < i && i + 1 < k && k + 1 < |s| && s[i] == '@' && s[k] == '.' &&
      forall j :: 0 <= j < |s| && j != i ==> PlainChar(s[j])
  }

  /** The position of the first '@', or the length when there is none. */
  function FirstAt(s: string): (i: nat)
    ensures i <= |s|
    ensures i < |s| ==> s[i] == '@'
    ensures forall j :: 0 <= j < i ==> s[j] != '@'
  {
    if s == [] then 0
    else if s[0] == '@' then 0
    else 1 + FirstAt(s[1..])
  }

  /** `validateEmail`: the text up to the first '@' is a non-empty plain run, the
      rest is plain and has a '.' that is neither its first nor its last character. */
  function ValidateEmail(email: string): bool {
    var i := FirstAt(email);
    0 < i && i + 4 <= |email| && Plain(email[..i]) && Plain(email[i + 1..]) && '.' in email[i + 2..|email| - 1]
  }

  /** The check accepts exactly the strings the pattern matches. */
  lemma ValidateEmailMatchesPattern(s: string)
    ensures ValidateEmail(s) <==> EmailShape(s)
  {
    var i := FirstAt(s);
    if ValidateEmail(s) {
      var d := s[i + 2..|s| - 1];
      var m :| 0 <= m < |d| && d[m] == '.';
      var k := i + 2 + m;
      assert s[k] == '.';
      forall j | 0 <= j < |s| && j != i ensures PlainChar(s[j]) {
        if j < i {
          assert s[j] == s[..i][j];
        } else {
          assert s[j] == s[i + 1..][j - i - 1];
        }
      }
      assert EmailShape(s);
    }
    if EmailShape(s) {
      var i', k :| 0 < i' && i' + 1 < k && k + 1 < |s| && s[i'] == '@' && s[k] == '.' &&
        forall j :: 0 <= j < |s| && j != i' ==> PlainChar(s[j]);
      assert i == i';
      assert s[i + 2..|s| - 1][k - i - 2] == '.';
    }
  }

  // ---------------------------------------------------------------------------
  // validatePassword

  /** `validatePassword`: at least 8 characters. */
  predicate ValidatePassword(password: string) {
    |password| >= 8
  }

  // ---------------------------------------------------------------------------
  // validateField

  /** The error a field shows for a value, given the password typed so far; an
      empty value never shows one, and fields other than the three have none. */
  function FieldError(field: string, value: string, password: string): (e: Option<string>)
    ensures value == "" ==> e == None
    ensures field == EmailField ==> (e.Some? <==> value != "" && !ValidateEmail(value))
    ensures field == PasswordField ==> (e.Some? <==> value != "" && !ValidatePassword(value))
    ensures field == ConfirmField ==> (e.Some? <==> value != "" && value != password)
    ensures field !in {EmailField, PasswordField, ConfirmField} ==> e == None
  {
    if value == "" then None
    else if field == EmailField then (if ValidateEmail(value) then None else Some(EmailMessage))
    else if field == PasswordField then (if ValidatePassword(value) then None else Some(PasswordMessage))
    else if field == ConfirmField then (if value == password then None else Some(MatchMessage))
    else None
  }

  /** The map that `validateField` stores for a field and value, computed from
      the map it copied and the password it compares against. */
  function FieldUpdate(errors: map<string, string>, field: string, value: string, password: string): map<string, string> {
    if field !in {EmailField, PasswordField, ConfirmField} then errors
    else
      var e := FieldError(field, value, password);
      if e.Some? then errors[field := e.value] else errors - {field}
  }

  /** `validateField`: copies the error map, then sets or deletes the key of the
      field that changed. Every other key keeps its entry, and a field the page
      does not know leaves the map as it was. */
  method ValidateField(errors: map<string, string>, field: string, value: string, password: string)
    returns (updated: map<string, string>)
    ensures updated == FieldUpdate(errors, field, value, password)
    ensures field !in {EmailField, PasswordField, ConfirmField} ==> updated == errors
    ensures forall k :: k != field ==> (k in updated <==> k in errors)
    ensures forall k :: k != field && k in errors ==> updated[k] == errors[k]
    ensures field in {EmailField, PasswordField, ConfirmField} ==>
      (field in updated <==> FieldError(field, value, password).Some?)
    ensures field in updated && field in {EmailField, PasswordField, ConfirmField} ==>
      updated[field] == FieldError(field, value, password).value
  {
    updated := errors;
    if field == EmailField {
      if value != "" && !ValidateEmail(value) {
        updated := updated[EmailField := EmailMessage];
      } else {
        updated := updated - {EmailField};
      }
    } else if field == PasswordField {
      if value != "" && !ValidatePassword(value) {
        updated := updated[PasswordField := PasswordMessage];
      } else {
        updated := updated - {PasswordField};
      }
    } else if field == ConfirmField {
      if value != "" && value != password {
        updated := updated[ConfirmField := MatchMessage];
      } else {
        updated := updated - {ConfirmField};
      }
    }
  }

  /** The error map after each of the three fields was last validated at its
      current value. */
  function ErrorsOf(email: string, password: string, confirm: string): (errors: map<string, string>)
    ensures EmailField in errors <==> FieldError(EmailField, email, password).Some?
    ensures PasswordField in errors <==> FieldError(PasswordField, password, password).Some?
    ensures ConfirmField in errors <==> FieldError(ConfirmField, confirm, password).Some?
  {
    var e := FieldError(EmailField, email, password);
    var p := FieldError(PasswordField, password, password);
    var c := FieldError(ConfirmField, confirm, password);
    var m0: map<string, string> := map[];
    var m1 := if e.Some? then m0[EmailField := e.value] else m0;
    var m2 := if p.Some? then m1[PasswordField := p.value] else m1;
    if c.Some? then m2[ConfirmField := c.value] else m2
  }

  /** No field has an error before anything is typed. */
  lemma InitialErrorsEmpty()
    ensures ErrorsOf("", "", "") == map[]
  {
  }

  // ---------------------------------------------------------------------------
  // The change handlers of the three validated fields

  /** The email field's handler: the email is validated at its new value and
      the map again reflects every field. */
  lemma EmailChangeKeepsErrorsCurrent(email: string, password: string, confirm: string, value: string)
    ensures FieldUpdate(ErrorsOf(email, password, confirm), EmailField, value, password) == ErrorsOf(value, password, confirm)
  {
  }

  /** The confirmation field's handler: the confirmation is compared with the
      current password and the map again reflects every field. */
  lemma ConfirmChangeKeepsErrorsCurrent(email: string, password: string, confirm: string, value: string)
    ensures FieldUpdate(ErrorsOf(email, password, confirm), ConfirmField, value, password) == ErrorsOf(email, password, value)
  {
  }

  /** The password field's handler as written. Both `validateField` calls copy
      the map of the render that raised the event and compare against that
      render's `password`, so when a confirmation is typed the second call's map
      replaces the first: the new password's length error is lost, and the
      confirmation is compared with the old password. */
  function PasswordChangeAsWritten(errors: map<string, string>, password: string, confirm: string, value: string)
    : (next: map<string, string>)
    ensures confirm == "" ==> (PasswordField in next <==> value != "" && !ValidatePassword(value))
    ensures confirm != "" ==> (PasswordField in next <==> PasswordField in errors)
    ensures confirm != "" ==> (ConfirmField in next <==> confirm != password)
    ensures forall k :: k != PasswordField && k != ConfirmField ==> (k in next <==> k in errors)
  {
    if confirm != "" then FieldUpdate(errors, ConfirmField, confirm, password)
    else FieldUpdate(errors, PasswordField, value, password)
  }

  /** The password field's handler: `validateField` on the new password, then,
      when a confirmation is typed, on the confirmation; the map each call stores
      is computed from `errors`, and the last one stored is kept. */
  method OnPasswordChange(errors: map<string, string>, password: string, confirm: string, value: string)
    returns (next: map<string, string>)
    ensures next == PasswordChangeAsWritten(errors, password, confirm, value)
  {
    next := ValidateField(errors, PasswordField, value, password);
    if confirm != "" {
      next := ValidateField(errors, ConfirmField, confirm, password);
    }
  }

  /** The password handler as evidently intended: the second check starts from
      the map the first produced, and both use the new password. */
  function PasswordChange(errors: map<string, string>, confirm: string, value: string): (next: map<string, string>)
    ensures PasswordField in next <==> value != "" && !ValidatePassword(value)
    ensures confirm != "" ==> (ConfirmField in next <==> confirm != value)
  {
    var first := FieldUpdate(errors, PasswordField, value, value);
    if confirm != "" then FieldUpdate(first, ConfirmField, confirm, value) else first
  }

  /** With the intended password handler the map again reflects every field. */
  lemma PasswordChangeKeepsErrorsCurrent(email: string, password: string, confirm: string, value: string)
    ensures PasswordChange(ErrorsOf(email, password, confirm), confirm, value) == ErrorsOf(email, value, confirm)
  {
  }

  // ---------------------------------------------------------------------------
  // handleSubmit and the submit button

  datatype SubmitOutcome = Blocked(error: string) | Send(body: Registration.Body)

  /** `handleSubmit`: email, then password, then the confirmation; the first
      failing check shows its message and nothing is sent. Otherwise the name,
      email and password are posted to the registration endpoint. */
  function HandleSubmit(name: string, email: string, password: string, confirm: string): (r: SubmitOutcome)
    ensures !ValidateEmail(email) ==> r == Blocked(EmailMessage)
    ensures ValidateEmail(email) && !ValidatePassword(password) ==> r == Blocked(PasswordMessage)
    ensures ValidateEmail(email) && ValidatePassword(password) && password != confirm ==> r == Blocked(MatchMessage)
    ensures r.Send? <==> ValidateEmail(email) && ValidatePassword(password) && password == confirm
    ensures r.Send? ==> r.body == Registration.Body(Some(name), Some(email), Some(password))
  {
    if !ValidateEmail(email) then Blocked(EmailMessage)
    else if !ValidatePassword(password) then Blocked(PasswordMessage)
    else if password != confirm then Blocked(MatchMessage)
    else Send(Registration.Body(Some(name), Some(email), Some(password)))
  }

  /** The `disabled` expression of the submit button. */
  predicate SubmitDisabled(isLoading: bool, errors: map<string, string>,
                           name: string, email: string, password: string, confirm: string)
  {
    isLoading || |errors| > 0 || name == "" || email == "" || password == "" || confirm == ""
  }

  /** When the error map reflects the current field values, an enabled button
      means the final checks pass and the form is sent. */
  lemma EnabledSubmitSends(name: string, email: string, password: string, confirm: string)
    requires !SubmitDisabled(false, ErrorsOf(email, password, confirm), name, email, password, confirm)
    ensures HandleSubmit(name, email, password, confirm).Send?
  {
    var errors := ErrorsOf(email, password, confirm);
    assert EmailField !in errors && PasswordField !in errors && ConfirmField !in errors by {
      assert |errors| == 0;
      assert errors == map[];
    }
  }

  /** Whatever the page sends passes the email and password rules of the
      registration endpoint (the page does not check the name's length). */
  lemma SentFormPassesServerRules(name: string, email: string, password: string, confirm: string)
    requires HandleSubmit(name, email, password, confirm).Send?
    ensures Registration.EmailOk(Some(email)) && Registration.PasswordOk(Some(password))
  {
    var i := FirstAt(email);
    assert email[i] == '@';
  }

  /** "a@b.co" matches the email pattern. */
  lemma SampleEmailValid()
    ensures ValidateEmail("a@b.co")
  {
    var s := "a@b.co";
    assert FirstAt(s) == 1 by {
      assert s[0] == 'a' && s[1] == '@';
      assert s[1..] == "@b.co";
    }
    assert !IsSpace('a') && !IsSpace('b') && !IsSpace('.') && !IsSpace('c') && !IsSpace('o');
    assert s[..1] == "a";
    assert s[2..] == "b.co";
    assert s[3..5] == ".c";
  }

  /** With the password and its confirmation both "abcdefgh" and no errors,
      shortening the password to "abcdefg" leaves the map empty as written, so
      the button stays enabled while the final checks block the form; the
      intended handler shows the length error, which disables the button. */
  lemma StalePasswordErrorExample()
    ensures ErrorsOf("a@b.co", "abcdefgh", "abcdefgh") == map[]
    ensures var next := PasswordChangeAsWritten(map[], "abcdefgh", "abcdefgh", "abcdefg");
      next == map[] &&
      !SubmitDisabled(false, next, "Al", "a@b.co", "abcdefg", "abcdefgh") &&
      HandleSubmit("Al", "a@b.co", "abcdefg", "abcdefgh") == Blocked(PasswordMessage)
    ensures SubmitDisabled(false, PasswordChange(map[], "abcdefgh", "abcdefg"), "Al", "a@b.co", "abcdefg", "abcdefgh")
  {
    SampleEmailValid();
    var next := PasswordChangeAsWritten(map[], "abcdefgh", "abcdefgh", "abcdefg");
    assert next == map[];
    assert |next| == 0;
  }
}
