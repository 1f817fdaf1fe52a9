/** The sign-up page (app/register/page.tsx): the form's ordered validation
    and the submit handler that calls the store's register action. */
module RegisterPage {

  import opened Nullable

  /** The form's four text fields. */
  datatype Form = Form(name: string, email: string, password: string, confirmPassword: string)

  datatype Field = Name | Email | Password | ConfirmPassword

  /** What validateForm decides: pass, or the error it sets. */
  datatype Validation = Passed | Rejected(message: string)

  const FillAllFields := "모든 필드를 입력해주세요."
  const PasswordTooShort := "비밀번호는 최소 8자 이상이어야 합니다."
  const PasswordMismatch := "비밀번호가 일치하지 않습니다."
  const AgreeToTerms := "이용약관에 동의해주세요."
  const SignUpFailed := "회원가입에 실패했습니다."
  const MinPasswordLength := 8
  const DashboardRoute := "/dashboard"

  /** The four checks, each stated on its own. */
  predicate Filled(form: Form) { form.name != "" && form.email != "" && form.password != "" }
  predicate LongEnough(form: Form) { |form.password| >= MinPasswordLength }
  predicate Confirmed(form: Form) { form.password == form.confirmPassword }

  /** validateForm: the checks run in order and the error is that of the
      first one that fails; the form passes exactly when all four hold. */
  function ValidateForm(form: Form, agreedToTerms: bool): (v: Validation)
    ensures v.Passed? <==> Filled(form) && LongEnough(form) && Confirmed(form) && agreedToTerms
    ensures v == Rejected(FillAllFields) <==> !Filled(form)
    ensures v == Rejected(PasswordTooShort) <==> Filled(form) && !LongEnough(form)
    ensures v == Rejected(PasswordMismatch) <==> Filled(form) && LongEnough(form) && !Confirmed(form)
    ensures v == Rejected(AgreeToTerms) <==> Filled(form) && LongEnough(form) && Confirmed(form) && !agreedToTerms
  {
    if form.name == "" || form.email == "" || form.password == "" then Rejected(FillAllFields)
    else if |form.password| < MinPasswordLength then Rejected(PasswordTooShort)
    else if form.password != form.confirmPassword then Rejected(PasswordMismatch)
    else if !agreedToTerms then Rejected(AgreeToTerms)
    else Passed
  }

  /** The arguments of one call to register: email, password, name. */
  datatype Registration = Registration(email: string, password: string, name: string)

  /** The page's state: the form, the terms checkbox, the error shown, the
      route the router was sent to, and every call made to register. */
  class SignUpPage {
    var form: Form
    var agreedToTerms: bool
    var error: string
    var route: Option<string>
    var registrations: seq<Registration>

    constructor ()
      ensures form == Form("", "", "", "") && !agreedToTerms && error == ""
      ensures route == None && registrations == []
    {
      form := Form("", "", "", "");
      agreedToTerms := false;
      error := "";
      route := None;
      registrations := [];
    }

    /** handleChange: the named field takes the new value; the others keep
        theirs. */
    method HandleChange(field: Field, value: string)
      modifies this
      ensures form == match field
        case Name => old(form).(name := value)
        case Email => old(form).(email := value)
        case Password => old(form).(password := value)
        case ConfirmPassword => old(form).(confirmPassword := value)
      ensures agreedToTerms == old(agreedToTerms) && error == old(error)
      ensures route == old(route) && registrations == old(registrations)
    {
      match field
      case Name => form := form.(name := value);
      case Email => form := form.(email := value);
      case Password => form := form.(password := value);
      case ConfirmPassword => form := form.(confirmPassword := value);
    }

    /** setAgreedToTerms */
    method SetAgreedToTerms(agreed: bool)
      modifies this
      ensures agreedToTerms == agreed
      ensures form == old(form) && error == old(error)
      ensures route == old(route) && registrations == old(registrations)
    {
      agreedToTerms := agreed;
    }

    /** handleSubmit: a rejected form shows its error and register is not
        called; otherwise register is called once with the form's email,
        password and name, and its answer either sends the user to the
        dashboard or shows the failure message. register's answer is a
        parameter. */
    method HandleSubmit(registerSucceeds: bool)
      modifies this
      ensures form == old(form) && agreedToTerms == old(agreedToTerms)
      ensures ValidateForm(form, agreedToTerms).Rejected? ==>
                && error == ValidateForm(form, agreedToTerms).message
                && registrations == old(registrations)
                && route == old(route)
      ensures ValidateForm(form, agreedToTerms).Passed? ==>
                && registrations == old(registrations) + [Registration(form.email, form.password, form.name)]
                && (registerSucceeds ==> error == "" && route == Some(DashboardRoute))
                && (!registerSucceeds ==> error == SignUpFailed && route == old(route))
    {
      error := "";
      var validation := ValidateForm(form, agreedToTerms);
      if validation.Rejected? {
        error := validation.message;
        return;
      }
      registrations := registrations + [Registration(form.email, form.password, form.name)];
      if registerSucceeds {
        route := Some(DashboardRoute);
      } else {
        error := SignUpFailed;
      }
    }
  }
}
