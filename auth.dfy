/** The login screen (components/Auth.tsx): the role decides the heading, the button and which
    fields are required; an attempt either reports a fixed message or hands a user to the
    application. */
module Auth {
  import opened Wrappers
  import opened Text
  import opened Types

  const PatientFieldsError := "Please enter your ID, Name, Date of Birth, Gender, and Primary Language."
  const DoctorIdError := "Please enter your Doctor ID."
  /** The address every patient login is given. */
  const MockAddress := "101 Health Lane, Metro City"

  function Title(role: UserRole): (t: string)
    ensures t == "Patient Login / Registration" <==> role == PatientRole
    ensures t == "Doctor Login" <==> role == Doctor
  {
    var t := if role == PatientRole then "Patient Login / Registration" else "Doctor Login";
    assert role == Doctor ==> t[0] != "Patient Login / Registration"[0];
    assert role == PatientRole ==> t[0] != "Doctor Login"[0];
    t
  }

  function ButtonText(role: UserRole): (t: string)
    ensures t == "Access Patient Dashboard" <==> role == PatientRole
    ensures t == "Access Clinical Dashboard" <==> role == Doctor
  {
    var t := if role == PatientRole then "Access Patient Dashboard" else "Access Clinical Dashboard";
    assert role == Doctor ==> t[7] != "Access Patient Dashboard"[7];
    assert role == PatientRole ==> t[7] != "Access Clinical Dashboard"[7];
    t
  }

  /** The heading and the button each tell the two roles apart. */
  lemma RoleTextsIdentifyRole(a: UserRole, b: UserRole)
    ensures Title(a) == Title(b) <==> a == b
    ensures ButtonText(a) == ButtonText(b) <==> a == b
  {
    if a != b {
      assert Title(Doctor)[0] != Title(PatientRole)[0];
      assert ButtonText(Doctor)[7] != ButtonText(PatientRole)[7];
    }
  }

  /** What the form's five inputs hold. */
  datatype LoginForm = LoginForm(
    userId: string,
    userName: string,
    patientDob: string,
    patientGender: string,
    patientLanguage: string)

  /** The outcome of an attempt: the callback is fired with the user (a patient, or none for a
      doctor), or an error message is shown. */
  datatype Outcome = LoggedIn(patient: Option<Patient>) | Rejected(message: string)

  /** Some input is empty after trimming, that is, holds nothing but white space. */
  predicate AnyPatientFieldBlank(f: LoginForm): (r: bool)
    ensures r <==> AllWhite(f.userId) || AllWhite(f.userName) || AllWhite(f.patientDob)
                   || AllWhite(f.patientGender) || AllWhite(f.patientLanguage)
  {
    BlankIffAllWhite(f.userId);
    BlankIffAllWhite(f.userName);
    BlankIffAllWhite(f.patientDob);
    BlankIffAllWhite(f.patientGender);
    BlankIffAllWhite(f.patientLanguage);
    IsBlank(f.userId) || IsBlank(f.userName) || IsBlank(f.patientDob)
    || IsBlank(f.patientGender) || IsBlank(f.patientLanguage)
  }

  /** The checks of an attempt, and the patient built from the trimmed inputs. */
  function Validate(role: UserRole, f: LoginForm): (o: Outcome)
    ensures role == PatientRole ==>
      (o == Rejected(PatientFieldsError) <==> AnyPatientFieldBlank(f))
    ensures role == PatientRole && o.LoggedIn? ==>
      o.patient == Some(Patient(Trim(f.userId), Trim(f.userName), Trim(f.patientDob),
                                Trim(f.patientGender), MockAddress, Trim(f.patientLanguage)))
    ensures role == Doctor ==>
      (o == Rejected(DoctorIdError) <==> IsBlank(f.userId)) && (o.LoggedIn? ==> o.patient.None?)
    ensures o.LoggedIn? || o == Rejected(PatientFieldsError) || o == Rejected(DoctorIdError)
  {
    if role == PatientRole then
      if AnyPatientFieldBlank(f) then Rejected(PatientFieldsError)
      else LoggedIn(Some(Patient(Trim(f.userId), Trim(f.userName), Trim(f.patientDob),
                                 Trim(f.patientGender), MockAddress, Trim(f.patientLanguage))))
    else if IsBlank(f.userId) then Rejected(DoctorIdError)
    else LoggedIn(None)
  }

  /** A doctor attempt reads the id only. */
  lemma DoctorReadsOnlyId(f: LoginForm, g: LoginForm)
    requires f.userId == g.userId
    ensures Validate(Doctor, f) == Validate(Doctor, g)
  {
  }

  /** A patient handed to the application has no blank field and nothing left to trim. */
  lemma LoggedInPatientIsClean(f: LoginForm)
    requires Validate(PatientRole, f).LoggedIn?
    ensures var p := Validate(PatientRole, f).patient.value;
      && p.id != "" && p.name != "" && p.dob != "" && p.gender != "" && p.primaryLanguage != ""
      && Trim(p.id) == p.id && Trim(p.name) == p.name && Trim(p.dob) == p.dob
      && Trim(p.gender) == p.gender && Trim(p.primaryLanguage) == p.primaryLanguage
  {
    TrimIdempotent(f.userId);
    TrimIdempotent(f.userName);
    TrimIdempotent(f.patientDob);
    TrimIdempotent(f.patientGender);
    TrimIdempotent(f.patientLanguage);
  }

  /** The form filled in from a patient record. */
  function FormOf(p: Patient): LoginForm {
    LoginForm(p.id, p.name, p.dob, p.gender, p.primaryLanguage)
  }

  /** Logging in again with what a login produced gives the same patient back. */
  lemma LoginAgainSamePatient(f: LoginForm)
    requires Validate(PatientRole, f).LoggedIn?
    ensures Validate(PatientRole, FormOf(Validate(PatientRole, f).patient.value)) == Validate(PatientRole, f)
  {
    LoggedInPatientIsClean(f);
  }

  /** The screen for one role: the inputs, the message shown, and the users handed to the
      `onLogin` callback so far. */
  class AuthScreen {
    const role: UserRole
    var form: LoginForm
    var error: string
    var loginCalls: seq<Option<Patient>>

    constructor(role: UserRole)
      ensures this.role == role && form == LoginForm("", "", "", "", "")
      ensures error == "" && loginCalls == []
    {
      this.role := role;
      form := LoginForm("", "", "", "", "");
      error := "";
      loginCalls := [];
    }

    /** The error is cleared first; then either a message is shown or the callback fires once
        with the outcome's user, and the message stays clear. */
    method HandleLoginAttempt()
      modifies this
      ensures form == old(form)
      ensures Validate(role, form).Rejected? ==>
        error == Validate(role, form).message && loginCalls == old(loginCalls)
      ensures Validate(role, form).LoggedIn? ==>
        error == "" && loginCalls == old(loginCalls) + [Validate(role, form).patient]
    {
      error := "";
      if role == PatientRole {
        if AnyPatientFieldBlank(form) {
          error := PatientFieldsError;
          return;
        }
        var mockPatient := Patient(Trim(form.userId), Trim(form.userName), Trim(form.patientDob),
                                   Trim(form.patientGender), MockAddress, Trim(form.patientLanguage));
        loginCalls := loginCalls + [Some(mockPatient)];
      } else {
        if IsBlank(form.userId) {
          error := DoctorIdError;
          return;
        }
        loginCalls := loginCalls + [None];
      }
    }
  }
}
