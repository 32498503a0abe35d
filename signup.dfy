/** The sign-up form: the password policy it shows, when its button is enabled, what
    submitting it does, and how it reports the user pool's answer. */
module SignUp {
  import opened Wrappers
  import opened Text

  /** `pwd.length`: JavaScript counts UTF-16 code units, so a character outside the
      Basic Multilingual Plane counts twice. */
  function Utf16Length(s: string): (n: nat)
    ensures |s| <= n <= 2 * |s|
  {
    if s == [] then 0
    else Utf16Length(s[..|s| - 1]) + (if s[|s| - 1] as int >= 0x1_0000 then 2 else 1)
  }

  /** `/[^A-Za-z0-9]/`: anything but an ASCII letter or digit (one half of a surrogate
      pair is such a code unit too). */
  predicate IsSpecial(c: char) { !IsAsciiAlnum(c) }

  predicate Has(pwd: string, p: char -> bool) { exists i :: 0 <= i < |pwd| && p(pwd[i]) }

  /** `isValidPassword`: the five checks the form lists under the password field. */
  datatype PasswordChecks = PasswordChecks(length: bool, uppercase: bool, lowercase: bool, number: bool, specialChar: bool)

  function CheckPassword(pwd: string): (r: PasswordChecks)
    ensures r.length <==> Utf16Length(pwd) >= 8
    ensures r.uppercase <==> exists i :: 0 <= i < |pwd| && 'A' <= pwd[i] <= 'Z'
    ensures r.lowercase <==> exists i :: 0 <= i < |pwd| && 'a' <= pwd[i] <= 'z'
    ensures r.number <==> exists i :: 0 <= i < |pwd| && '0' <= pwd[i] <= '9'
    ensures r.specialChar <==> exists i :: 0 <= i < |pwd| && !IsAsciiAlnum(pwd[i])
  {
    PasswordChecks(Utf16Length(pwd) >= 8, Has(pwd, IsAsciiUpper), Has(pwd, IsAsciiLower), Has(pwd, IsDigit), Has(pwd, IsSpecial))
  }

  /** `Object.values(passwordValidations).every(Boolean)` */
  predicate AllPasswordValid(pwd: string) {
    var c := CheckPassword(pwd);
    c.length && c.uppercase && c.lowercase && c.number && c.specialChar
  }

  lemma {:induction false} Utf16LengthConcat(a: string, b: string)
    ensures Utf16Length(a + b) == Utf16Length(a) + Utf16Length(b)
    decreases |b|
  {
    if b == [] {
      assert a + b == a;
    } else {
      Utf16LengthConcat(a, b[..|b| - 1]);
      assert (a + b)[..|a + b| - 1] == a + b[..|b| - 1];
    }
  }

  /** The policy only asks for a minimum: typing more after a valid password keeps it
      valid. */
  lemma ValidPasswordExtends(pwd: string, more: string)
    requires AllPasswordValid(pwd)
    ensures AllPasswordValid(pwd + more)
  {
    Utf16LengthConcat(pwd, more);
    var i :| 0 <= i < |pwd| && IsAsciiUpper(pwd[i]);
    var j :| 0 <= j < |pwd| && IsAsciiLower(pwd[j]);
    var k :| 0 <= k < |pwd| && IsDigit(pwd[k]);
    var l :| 0 <= l < |pwd| && IsSpecial(pwd[l]);
    assert (pwd + more)[i] == pwd[i] && (pwd + more)[j] == pwd[j];
    assert (pwd + more)[k] == pwd[k] && (pwd + more)[l] == pwd[l];
  }

  /** A password of letters and digits only is never accepted, however long. */
  lemma AlphanumericNeverValid(pwd: string)
    requires forall i :: 0 <= i < |pwd| ==> IsAsciiAlnum(pwd[i])
    ensures !AllPasswordValid(pwd)
  {
  }

  /** The submit button's `disabled`: enabled only for a valid, confirmed password while
      no request is under way. */
  predicate SubmitEnabled(password: string, confirmPassword: string, isSubmitting: bool) {
    !(!AllPasswordValid(password) || password != confirmPassword || isSubmitting)
  }

  /** The attributes the account is created with. */
  datatype SignUpRequest = SignUpRequest(username: string, password: string, attributes: seq<(string, string)>)

  /** The user pool's error: its code and its message, if any. */
  datatype CognitoError = CognitoError(code: string, message: string)

  const UserExistsText: string := "User already exists. Please confirm your email or login."
  const MismatchText: string := "Passwords do not match."
  const WeakPasswordText: string := "Password does not meet all requirements."
  const SuccessText: string := "Signup successful! Please check your email to confirm."

  /** The text shown for a failed sign-up; `stringify` is `JSON.stringify(err)`, used
      when the error has no message. */
  function ErrorText(err: CognitoError, stringify: CognitoError -> string): (r: string)
    ensures err.code == "UsernameExistsException" ==> r == UserExistsText
    ensures err.code != "UsernameExistsException" && err.message != "" ==> r == err.message
    ensures err.code != "UsernameExistsException" && err.message == "" ==> r == stringify(err)
  {
    if err.code == "UsernameExistsException" then UserExistsText
    else if err.message != "" then err.message
    else stringify(err)
  }

  /** The form's state. The form has `noValidate`, so empty fields are not stopped. */
  class SignUpForm {
    var firstName: string
    var lastName: string
    var email: string
    var password: string
    var confirmPassword: string
    var error: string
    var status: string
    var isSubmitting: bool

    constructor(firstName: string, lastName: string, email: string, password: string, confirmPassword: string)
      ensures this.firstName == firstName && this.lastName == lastName && this.email == email
      ensures this.password == password && this.confirmPassword == confirmPassword
      ensures error == "" && status == "" && !isSubmitting
    {
      this.firstName := firstName;
      this.lastName := lastName;
      this.email := email;
      this.password := password;
      this.confirmPassword := confirmPassword;
      error := "";
      status := "";
      isSubmitting := false;
    }

    /** `handleSignUp`: the mismatch is reported before the policy; only a confirmed,
        valid password reaches the user pool, with the e-mail as user name. */
    method HandleSignUp() returns (request: Option<SignUpRequest>)
      modifies this
      ensures request.Some? <==> old(password) == old(confirmPassword) && AllPasswordValid(old(password))
      ensures request.Some? ==> request.value == SignUpRequest(email, password,
                [("email", email), ("given_name", firstName), ("family_name", lastName)])
      ensures error == (if old(password) != old(confirmPassword) then MismatchText
                        else if !AllPasswordValid(old(password)) then WeakPasswordText else "")
      ensures status == ""
      ensures isSubmitting == (request.Some? || old(isSubmitting))
      ensures firstName == old(firstName) && lastName == old(lastName) && email == old(email)
      ensures password == old(password) && confirmPassword == old(confirmPassword)
    {
      error := "";
      status := "";
      if password != confirmPassword {
        error := MismatchText;
        return None;
      }
      if !AllPasswordValid(password) {
        error := WeakPasswordText;
        return None;
      }
      isSubmitting := true;
      request := Some(SignUpRequest(email, password,
        [("email", email), ("given_name", firstName), ("family_name", lastName)]));
    }

    /** The sign-up callback: the request is over; an error is shown, or the success
        text, and the page moves on to confirmation with the e-mail (after four
        seconds). */
    method SignUpDone(result: Option<CognitoError>, stringify: CognitoError -> string) returns (confirmFor: Option<string>)
      modifies this
      ensures !isSubmitting
      ensures result.Some? ==> error == ErrorText(result.value, stringify) && status == old(status) && confirmFor.None?
      ensures result.None? ==> status == SuccessText && error == old(error) && confirmFor == Some(email)
      ensures firstName == old(firstName) && lastName == old(lastName) && email == old(email)
      ensures password == old(password) && confirmPassword == old(confirmPassword)
    {
      isSubmitting := false;
      if result.Some? {
        error := ErrorText(result.value, stringify);
        confirmFor := None;
      } else {
        status := SuccessText;
        confirmFor := Some(email);
      }
    }
  }

  /** The enabled button and the handler agree: a click on an enabled button always
      reaches the user pool, and a submission the handler refuses came from a state in
      which the button was disabled. */
  method EnabledSubmitSignsUp(form: SignUpForm) returns (request: Option<SignUpRequest>)
    modifies form
    requires SubmitEnabled(form.password, form.confirmPassword, form.isSubmitting)
    ensures request.Some? && form.isSubmitting && form.error == ""
  {
    request := form.HandleSignUp();
  }
}
