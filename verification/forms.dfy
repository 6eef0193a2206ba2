/**
 * The data-annotation attributes of the view models and the validity of each
 * form they decorate. A field the request did not bind is `None` (model
 * binding turns an empty text box into null); `isEmail` stands for the
 * `[EmailAddress]` attribute's own test of a non-null value.
 */
module Forms {
  import opened Optional
  import opened Text
  import opened Patterns

  /** `[Required]` on a string: present and not only white space. */
  predicate Required(v: Option<string>) {
    !IsNullOrWhiteSpace(v)
  }

  /** `[MaxLength(n)]`: null passes, otherwise at most `n` UTF-16 code units. */
  predicate MaxLength(v: Option<string>, n: nat) {
    v.None? || Utf16Length(v.value) <= n
  }

  /** `[StringLength(max, MinimumLength = min)]`: null passes. */
  predicate StringLength(v: Option<string>, min: nat, max: nat) {
    v.None? || min <= Utf16Length(v.value) <= max
  }

  /** `[EmailAddress]`: null passes. */
  predicate EmailAddress(v: Option<string>, isEmail: string -> bool) {
    v.None? || isEmail(v.value)
  }

  /** `[Compare(other)]`: equal values, two nulls included. */
  predicate Compare(v: Option<string>, other: Option<string>) {
    v == other
  }

  /** `[RegularExpression(p)]`: null and the empty string pass; otherwise `p` must match the whole value. */
  predicate RegularExpression(v: Option<string>, pattern: seq<Item>) {
    IsNullOrEmpty(v) || Match(pattern, ToUtf16(v.value))
  }

  /** A required field holds a value whose trimmed form is not empty. */
  lemma RequiredMeaning(v: Option<string>)
    ensures Required(v) <==> v.Some? && Trim(v.value) != ""
  {
    if v.Some? {
      TrimEmptyIffBlank(v.value);
    }
  }

  /** The phone expression accepts a null or empty value and otherwise exactly the phone numbers. */
  lemma PhoneFieldMeaning(v: Option<string>)
    ensures RegularExpression(v, PhonePattern) <==> v.None? || v.value == "" || IsPhoneNumber(v.value)
  {
    if v.Some? {
      PhonePatternMeaning(v.value);
    }
  }

  /** The password expression accepts a null or empty value and otherwise exactly the strong passwords. */
  lemma StrongPasswordFieldMeaning(v: Option<string>)
    ensures RegularExpression(v, StrongPasswordPattern) <==> v.None? || v.value == "" || IsStrongPassword(v.value)
  {
    if v.Some? {
      StrongPasswordPatternMeaning(v.value);
    }
  }


  // ComplaintWizardVM

  /** The complaint wizard's fields; the photo uploads are not part of validation. */
  datatype ComplaintWizard = ComplaintWizard(
    category: Option<string>,
    priority: Option<string>,
    wardNumber: int,
    title: Option<string>,
    description: Option<string>,
    areaLocality: Option<string>,
    landmark: Option<string>,
    address: Option<string>,
    contactNumber: Option<string>,
    email: Option<string>)

  /** The values a freshly constructed wizard carries. */
  const DefaultComplaintWizard: ComplaintWizard :=
    ComplaintWizard(Some(""), Some("Low"), 0, Some(""), Some(""), Some(""), None, Some(""), Some(""), None)

  predicate ComplaintWizardValid(f: ComplaintWizard, isEmail: string -> bool) {
    && Required(f.category)
    && Required(f.priority)
    && Required(f.title) && MaxLength(f.title, 200)
    && Required(f.description)
    && Required(f.areaLocality) && MaxLength(f.areaLocality, 120)
    && MaxLength(f.landmark, 120)
    && Required(f.address) && MaxLength(f.address, 300)
    && Required(f.contactNumber) && MaxLength(f.contactNumber, 20)
    && EmailAddress(f.email, isEmail)
  }

  /** Present and non-blank once trimmed. */
  predicate Filled(v: Option<string>) {
    v.Some? && Trim(v.value) != ""
  }

  /** Absent, or no longer than `n` code units. */
  predicate AtMost(v: Option<string>, n: nat) {
    v.Some? ==> Utf16Length(v.value) <= n
  }

  /** The wizard is accepted exactly when the seven required fields are filled and every bound holds. */
  lemma ComplaintWizardMeaning(f: ComplaintWizard, isEmail: string -> bool)
    ensures ComplaintWizardValid(f, isEmail) <==>
      && Filled(f.category) && Filled(f.priority) && Filled(f.title) && Filled(f.description)
      && Filled(f.areaLocality) && Filled(f.address) && Filled(f.contactNumber)
      && AtMost(f.title, 200) && AtMost(f.areaLocality, 120) && AtMost(f.landmark, 120)
      && AtMost(f.address, 300) && AtMost(f.contactNumber, 20)
      && (f.email.Some? ==> isEmail(f.email.value))
  {
    RequiredMeaning(f.category);
    RequiredMeaning(f.priority);
    RequiredMeaning(f.title);
    RequiredMeaning(f.description);
    RequiredMeaning(f.areaLocality);
    RequiredMeaning(f.address);
    RequiredMeaning(f.contactNumber);
  }

  /** The ward number carries no constraint: any value passes when everything else does. */
  lemma WardNumberUnconstrained(f: ComplaintWizard, ward: int, isEmail: string -> bool)
    ensures ComplaintWizardValid(f.(wardNumber := ward), isEmail) <==> ComplaintWizardValid(f, isEmail)
  {
  }

  /** An untouched wizard is rejected: its category, title and other text fields are empty. */
  lemma DefaultWizardRejected(isEmail: string -> bool)
    ensures DefaultComplaintWizard.priority == Some("Low") && DefaultComplaintWizard.category == Some("")
    ensures !ComplaintWizardValid(DefaultComplaintWizard, isEmail)
  {
  }

  // RegisterViewModel

  datatype RegisterForm = RegisterForm(
    fullName: Option<string>,
    email: Option<string>,
    userName: Option<string>,
    phoneNumber: Option<string>,
    password: Option<string>,
    confirmPassword: Option<string>)

  predicate RegisterFormValid(f: RegisterForm, isEmail: string -> bool) {
    && Required(f.fullName)
    && Required(f.email) && EmailAddress(f.email, isEmail)
    && Required(f.userName)
    && Required(f.phoneNumber) && RegularExpression(f.phoneNumber, PhonePattern)
    && Required(f.password) && StringLength(f.password, 6, 100)
    && Required(f.confirmPassword) && Compare(f.confirmPassword, f.password)
  }

  /**
   * The registration form is accepted exactly when all six fields are filled,
   * the e-mail passes, the phone number is '9' and nine digits, the password
   * has 6 to 100 code units and the confirmation repeats it.
   */
  lemma RegisterFormMeaning(f: RegisterForm, isEmail: string -> bool)
    ensures RegisterFormValid(f, isEmail) <==>
      && Filled(f.fullName) && Filled(f.email) && Filled(f.userName)
      && Filled(f.phoneNumber) && Filled(f.password) && Filled(f.confirmPassword)
      && isEmail(f.email.value)
      && IsPhoneNumber(f.phoneNumber.value)
      && 6 <= Utf16Length(f.password.value) <= 100
      && f.confirmPassword == f.password
  {
    RequiredMeaning(f.fullName);
    RequiredMeaning(f.email);
    RequiredMeaning(f.userName);
    RequiredMeaning(f.phoneNumber);
    RequiredMeaning(f.password);
    RequiredMeaning(f.confirmPassword);
    if f.phoneNumber.Some? {
      PhoneFieldMeaning(f.phoneNumber);
      if IsPhoneNumber(f.phoneNumber.value) {
        assert !IsWhiteSpace(f.phoneNumber.value[0]);
      }
    }
  }

  // ChangePasswordViewModel

  datatype ChangePasswordForm = ChangePasswordForm(
    currentPassword: Option<string>,
    newPassword: Option<string>,
    confirmNewPassword: Option<string>)

  predicate ChangePasswordValid(f: ChangePasswordForm) {
    && Required(f.currentPassword)
    && Required(f.newPassword) && RegularExpression(f.newPassword, StrongPasswordPattern)
    && Required(f.confirmNewPassword) && Compare(f.confirmNewPassword, f.newPassword)
  }

  /** A strong password is never blank: it holds an upper-case letter. */
  lemma StrongPasswordIsRequired(v: Option<string>)
    ensures Required(v) && RegularExpression(v, StrongPasswordPattern) <==> v.Some? && IsStrongPassword(v.value)
  {
    StrongPasswordFieldMeaning(v);
    if v.Some? && IsStrongPassword(v.value) {
      var i :| 0 <= i < |v.value| && 'A' <= v.value[i] <= 'Z';
      assert !IsWhiteSpace(v.value[i]);
    }
  }

  /**
   * The password change is accepted exactly when the current password is
   * filled, the new one is strong and the confirmation repeats it.
   */
  lemma ChangePasswordMeaning(f: ChangePasswordForm)
    ensures ChangePasswordValid(f) <==>
      && Filled(f.currentPassword)
      && f.newPassword.Some? && IsStrongPassword(f.newPassword.value)
      && f.confirmNewPassword == f.newPassword
  {
    RequiredMeaning(f.currentPassword);
    StrongPasswordIsRequired(f.newPassword);
  }

  // VerifyEmailViewModel

  datatype VerifyEmailForm = VerifyEmailForm(email: Option<string>, verificationCode: Option<string>)

  predicate VerifyEmailValid(f: VerifyEmailForm, isEmail: string -> bool) {
    && Required(f.email) && EmailAddress(f.email, isEmail)
    && Required(f.verificationCode) && StringLength(f.verificationCode, 6, 6)
  }

  /** Accepted exactly when the e-mail passes and the code is a non-blank value of six code units. */
  lemma VerifyEmailMeaning(f: VerifyEmailForm, isEmail: string -> bool)
    ensures VerifyEmailValid(f, isEmail) <==>
      && Filled(f.email) && isEmail(f.email.value)
      && Filled(f.verificationCode) && Utf16Length(f.verificationCode.value) == 6
  {
    RequiredMeaning(f.email);
    RequiredMeaning(f.verificationCode);
  }

  /** Only the code's length is checked: six letters pass as well as six digits. */
  lemma VerificationCodeNeedNotBeDigits(email: string, isEmail: string -> bool)
    requires !IsBlank(email) && isEmail(email)
    ensures VerifyEmailValid(VerifyEmailForm(Some(email), Some("abcdef")), isEmail)
    ensures VerifyEmailValid(VerifyEmailForm(Some(email), Some("123456")), isEmail)
    ensures !VerifyEmailValid(VerifyEmailForm(Some(email), Some("12345")), isEmail)
  {
    Utf16OfBmp("abcdef");
    Utf16OfBmp("123456");
    Utf16OfBmp("12345");
    assert !IsWhiteSpace("abcdef"[0]) && !IsWhiteSpace("123456"[0]);
  }

  // ProfileViewModel

  /** The validated fields of the profile form; its three display-only counters carry no attribute. */
  datatype ProfileForm = ProfileForm(fullName: Option<string>, email: Option<string>, address: Option<string>)

  predicate ProfileValid(f: ProfileForm, isEmail: string -> bool) {
    && Required(f.fullName) && MaxLength(f.fullName, 100)
    && Required(f.email) && EmailAddress(f.email, isEmail)
    && MaxLength(f.address, 200)
  }

  /** Accepted exactly when the name is filled and short enough, the e-mail passes and any address fits. */
  lemma ProfileMeaning(f: ProfileForm, isEmail: string -> bool)
    ensures ProfileValid(f, isEmail) <==>
      && Filled(f.fullName) && AtMost(f.fullName, 100)
      && Filled(f.email) && isEmail(f.email.value)
      && AtMost(f.address, 200)
  {
    RequiredMeaning(f.fullName);
    RequiredMeaning(f.email);
  }
}
