/**
 The `clean` hooks of the registration, login, profile-update, password-change
 and password-reset forms. The user table is a map from stored email address
 to account; a password check compares the submitted password with the
 account's (hashing is abstracted away).
 */
module UserForms {
  import opened Text
  import opened Validation
  import opened Dates
  import opened UserValidators
  import opened CommonValidators
  import DogForms

  datatype Account = Account(password: string, isActive: bool)

  /** `User.objects.filter(email=e)`: exact, case-sensitive lookup by address. */
  type Users = map<string, Account>

  // ---- registration ----

  /** `UserRegisterForm.clean_password2`. `password1` is another field's
      cleaned value and is `None` when that field failed; `validate_password`
      then fails on `len(None)` with a TypeError. */
  function CleanPassword2(password1: Option<string>, password2: string): (r: Result<string>)
    ensures password1.None? ==> r == Err(Uncaught)
    ensures password1.Some? && ValidatePassword(password1.value).Err? ==> r == ValidatePassword(password1.value)
    ensures password1.Some? && ValidatePassword(password1.value).Ok? ==>
      (r.Err? <==> password1.value != "" && password2 != "" && password1.value != password2)
    ensures password1.Some? && ValidatePassword(password1.value).Ok? && r.Err? ==> r.error == PasswordsDiffer
    ensures r.Ok? ==> r.value == password2
  {
    match password1
    case None => Err(Uncaught)
    case Some(p) =>
      match ValidatePassword(p)
      case Err(e) => Err(e)
      case Ok(_) => if p != "" && password2 != "" && p != password2 then Err(PasswordsDiffer) else Ok(password2)
  }

  /** A valid password confirmed by itself is accepted. */
  lemma MatchingPasswordsAccepted(p: string)
    requires ValidatePassword(p).Ok?
    ensures CleanPassword2(Some(p), p) == Ok(p)
  {
  }

  /** `UserRegisterForm.clean_email`: the address is stripped and lower-cased,
      and rejected when that normalised address is already stored. */
  function RegisterCleanEmail(email: string, users: Users): (r: Result<string>)
    ensures r.Ok? <==> NormalizeEmail(email) !in users
    ensures r.Ok? ==> r.value == NormalizeEmail(email)
    ensures r.Err? ==> r.error == EmailTaken(NormalizeEmail(email))
  {
    var normalized := NormalizeEmail(email);
    if normalized in users then Err(EmailTaken(normalized)) else Ok(normalized)
  }

  /** Once an address is registered under its normalised form, every
      spelling that normalises to it is refused. */
  lemma RegisteredEmailRefusedAgain(email: string, other: string, account: Account, users: Users)
    requires RegisterCleanEmail(email, users).Ok?
    requires NormalizeEmail(other) == NormalizeEmail(email)
    ensures RegisterCleanEmail(other, users[RegisterCleanEmail(email, users).value := account]).Err?
  {
  }

  /** A cleaned address cleans to itself. */
  lemma RegisterCleanEmailStable(email: string, users: Users)
    requires RegisterCleanEmail(email, users).Ok?
    ensures RegisterCleanEmail(RegisterCleanEmail(email, users).value, users) == RegisterCleanEmail(email, users)
  {
    NormalizeEmailIdempotent(email);
  }

  // ---- login ----

  /** `UserLoginForm.clean_password`. */
  function LoginCleanPassword(password: string): (r: Result<string>)
    ensures r.Ok? <==> |password| >= 8 && forall i :: 0 <= i < |password| ==> IsPasswordChar(password[i])
    ensures r.Ok? ==> r.value == password
  {
    ValidatePassword(password)
  }

  datatype Field = EmailField | PasswordField

  /** What `UserLoginForm.clean` does: nothing, an error attached to a field,
      a form-wide error, or remembering the authenticated account in `user_cache`. */
  datatype LoginVerdict =
    | Unchecked
    | FieldError(field: Field, error: Error)
    | FormError(error: Error)
    | Authenticated(user: Account)

  function UserCache(v: LoginVerdict): Option<Account> {
    if v.Authenticated? then Some(v.user) else None
  }

  /** `UserLoginForm.clean`. Both values come from `cleaned_data` and are
      `None` when their own field failed. */
  function LoginClean(email: Option<string>, password: Option<string>, users: Users): (r: LoginVerdict)
    ensures !(Truthy(email) && Truthy(password)) ==> r == Unchecked
    ensures Truthy(email) && Truthy(password) ==>
      && (email.value !in users ==> r == FieldError(EmailField, InvalidEmail))
      && (email.value in users && users[email.value].password != password.value ==>
            r == FieldError(PasswordField, InvalidPassword))
      && (email.value in users && users[email.value].password == password.value && !users[email.value].isActive ==>
            r == FormError(AccessBlocked))
    ensures UserCache(r).Some? <==>
      Truthy(email) && Truthy(password) && email.value in users
      && users[email.value].password == password.value && users[email.value].isActive
    ensures UserCache(r).Some? ==> UserCache(r).value == users[email.value]
  {
    if !(Truthy(email) && Truthy(password)) then Unchecked
    else if email.value !in users then FieldError(EmailField, InvalidEmail)
    else
      var user := users[email.value];
      if user.password != password.value then FieldError(PasswordField, InvalidPassword)
      else if !user.isActive then FormError(AccessBlocked)
      else Authenticated(user)
  }

  /** The form as a whole: `clean_password` runs first, and a password it
      rejects is dropped from `cleaned_data`, so `clean` then looks nothing up. */
  function LoginForm(email: Option<string>, password: string, users: Users): (r: LoginVerdict)
    ensures LoginCleanPassword(password).Err? ==> r == Unchecked
    ensures UserCache(r).Some? ==> ValidatePassword(password).Ok? && Truthy(email) && email.value in users
  {
    var cleaned := match LoginCleanPassword(password) case Ok(p) => Some(p) case Err(_) => None;
    LoginClean(email, cleaned, users)
  }

  /** The capitalised sample address normalises to its lower-case form. */
  lemma SampleAddressNormalizes()
    ensures NormalizeEmail("A@x.com") == "a@x.com"
  {
    var typed := "A@x.com";
    assert !IsSpace(typed[0]) && !IsSpace(typed[|typed| - 1]);
    assert Strip(typed) == typed;
    var lowered := Lower(typed);
    assert lowered[0] == 'a' && lowered[1] == '@' && lowered[2] == 'x' && lowered[3] == '.';
    assert lowered[4] == 'c' && lowered[5] == 'o' && lowered[6] == 'm';
    assert lowered == "a@x.com";
  }

  /** Registering an address and then logging in with the address the
      registration stored reaches the account check: an active account is
      authenticated, an inactive one is blocked. */
  lemma RegisterThenLogin(email: string, account: Account, users: Users)
    requires RegisterCleanEmail(email, users).Ok?
    requires account.password != "" && NormalizeEmail(email) != ""
    ensures var stored := RegisterCleanEmail(email, users).value;
      LoginClean(Some(stored), Some(account.password), users[stored := account])
        == if account.isActive then Authenticated(account) else FormError(AccessBlocked)
  {
  }

  /** The login form looks the address up as typed: after "A@x.com"
      registers (and is stored as "a@x.com"), logging in with "A@x.com" is
      refused as an unknown address. */
  lemma LoginDoesNotNormalize(account: Account, password: string)
    requires password != ""
    ensures RegisterCleanEmail("A@x.com", map[]) == Ok("a@x.com")
    ensures LoginClean(Some("A@x.com"), Some(password), map["a@x.com" := account])
         == FieldError(EmailField, InvalidEmail)
  {
    SampleAddressNormalizes();
    assert "A@x.com" != "a@x.com";
  }

  // ---- profile update ----

  const MaxPersonNameLength := 30

  /** `UserUpdateForm.clean_first_name` and `clean_last_name`, which are the same. */
  function CleanPersonName(name: string): (r: Result<string>)
    ensures r.Ok? <==> |name| <= 30
    ensures r.Ok? ==> r.value == name
    ensures r.Err? ==> r.error == NameTooLong
  {
    if |name| > MaxPersonNameLength then Err(NameTooLong) else Ok(name)
  }

  /** The person-name rule is the dog-name rule without its lower bound:
      they agree on every name of at least two characters. */
  lemma NameRulesNest(name: string)
    ensures DogForms.CleanName(name).Ok? <==> |name| >= 2 && CleanPersonName(name).Ok?
    ensures |name| >= 2 ==> DogForms.CleanName(name) == CleanPersonName(name)
    ensures |name| < 2 ==> CleanPersonName(name) == Ok(name) && DogForms.CleanName(name) == Err(NameTooShort)
  {
  }

  /** `UserUpdateForm.clean_birth_date`, which writes the 120-year window out
      instead of calling `AgeLimit`. */
  function CleanUserBirthDate(birthDate: Option<Date>, today: Date): (r: Result<Option<Date>>)
    ensures birthDate.None? ==> r == Ok(None)
    ensures birthDate.Some? ==>
      (r.Ok? <==> NotAfter(MinusYears(today, 120), birthDate.value) && NotAfter(birthDate.value, today))
    ensures r.Ok? ==> r.value == birthDate
  {
    match birthDate
    case None => Ok(None)
    case Some(d) =>
      var maxAgeDate := MinusYears(today, 120);
      if Before(d, maxAgeDate) then Err(TooOld(120))
      else if Before(today, d) then Err(InFuture)
      else Ok(birthDate)
  }

  /** The hand-written window is exactly `AgeLimit` with its default of 120 years. */
  lemma UserBirthDateIsAgeLimit(birthDate: Option<Date>, today: Date)
    ensures CleanUserBirthDate(birthDate, today) == AgeLimit(birthDate, DefaultMaxYears, today)
  {
  }

  /** `UserUpdateForm.clean_email`: a user may keep their own address (both
      sides normalised); a different address already stored is refused. */
  function UpdateCleanEmail(email: string, ownEmail: string, users: Users): (r: Result<string>)
    ensures r.Ok? <==> NormalizeEmail(email) == NormalizeEmail(ownEmail) || NormalizeEmail(email) !in users
    ensures r.Ok? ==> r.value == NormalizeEmail(email)
    ensures r.Err? ==> r.error == EmailRegistered(NormalizeEmail(email))
  {
    var normalized := NormalizeEmail(email);
    if normalized != NormalizeEmail(ownEmail) && normalized in users then Err(EmailRegistered(normalized))
    else Ok(normalized)
  }

  /** Resubmitting one's own address always passes, whatever the store holds;
      and an address registration would accept passes here too. */
  lemma KeepOwnEmail(ownEmail: string, email: string, users: Users)
    ensures UpdateCleanEmail(ownEmail, ownEmail, users) == Ok(NormalizeEmail(ownEmail))
    ensures RegisterCleanEmail(email, users).Ok? ==> UpdateCleanEmail(email, ownEmail, users) == RegisterCleanEmail(email, users)
  {
  }

  const ProfilePictureField := "profile_picture"

  /** `UserUpdateForm.clean_profile_picture`: the replaced file is removed
      first, then the size (at most 5 MiB) and extension checks run. */
  function CleanProfilePicture(instance: Option<Instance>, newPhoto: Option<File>, storage: set<string>): (r: DogForms.Cleaned<Option<File>>)
    ensures r.storage == DeleteOldPhoto(instance, ProfilePictureField, newPhoto, storage)
    ensures r.result.Ok? <==>
      !Present(newPhoto) || (newPhoto.value.size <= 5 * MiB && PhotoExtension(newPhoto.value).Ok?)
    ensures r.result.Ok? ==> r.result.value == newPhoto
    ensures Present(newPhoto) && newPhoto.value.size > 5 * MiB ==> r.result == Err(PhotoTooLarge(5))
    ensures r.result.Err? && r.result.error != PhotoTooLarge(5) ==> r.result.error == BadExtension
  {
    var afterDelete :=
      if instance.Some? && Present(newPhoto) then
        var oldPhoto := FieldFile(instance.value, ProfilePictureField);
        if Present(oldPhoto) && oldPhoto.value.name != newPhoto.value.name && oldPhoto.value.name in storage
        then storage - {oldPhoto.value.name}
        else storage
      else storage;
    if Present(newPhoto) && newPhoto.value.size > 5 * 1024 * 1024 then
      DogForms.Cleaned(Err(PhotoTooLarge(5)), afterDelete)
    else if Present(newPhoto) && !HasImageExtension(newPhoto.value.name) then
      DogForms.Cleaned(Err(BadExtension), afterDelete)
    else DogForms.Cleaned(Ok(newPhoto), afterDelete)
  }

  /** On an upload the profile hook reaches the verdict the dog hook reaches
      through the shared validators; only the storage effect differs in timing. */
  lemma PhotoVerdictsAgree(instance: Option<Instance>, newPhoto: File, storage: set<string>)
    requires newPhoto.name != ""
    ensures CleanProfilePicture(instance, Some(newPhoto), storage).result
         == DogForms.CleanPhoto(instance, Some(newPhoto), storage).result
  {
  }

  /** The two photo hooks differ in order: for the same rejected upload that
      replaces a stored file, the profile form has already removed that file
      while the dog form has left storage alone. */
  lemma RejectedUploadOrder(instance: Instance, newPhoto: File, storage: set<string>)
    requires newPhoto.name != ""
    requires newPhoto.size > 5 * MiB || PhotoExtension(newPhoto).Err?
    requires FieldFile(instance, ProfilePictureField) == FieldFile(instance, DogForms.PhotoField)
    requires ReplacedName(Some(instance), ProfilePictureField, Some(newPhoto)).Some?
    requires ReplacedName(Some(instance), ProfilePictureField, Some(newPhoto)).value in storage
    ensures var replaced := ReplacedName(Some(instance), ProfilePictureField, Some(newPhoto)).value;
      && CleanProfilePicture(Some(instance), Some(newPhoto), storage).result.Err?
      && replaced !in CleanProfilePicture(Some(instance), Some(newPhoto), storage).storage
      && DogForms.CleanPhoto(Some(instance), Some(newPhoto), storage).result.Err?
      && replaced in DogForms.CleanPhoto(Some(instance), Some(newPhoto), storage).storage
  {
  }

  // ---- password change ----

  /** `UserPasswordChangeForm.clean_new_password2`, a copy of the
      registration form's confirmation rule. */
  function CleanNewPassword2(newPassword1: Option<string>, newPassword2: string): (r: Result<string>)
    ensures newPassword1.None? ==> r == Err(Uncaught)
    ensures newPassword1.Some? && ValidatePassword(newPassword1.value).Err? ==> r == ValidatePassword(newPassword1.value)
    ensures newPassword1.Some? && ValidatePassword(newPassword1.value).Ok? ==>
      (r.Err? <==> newPassword1.value != "" && newPassword2 != "" && newPassword1.value != newPassword2)
    ensures r.Ok? ==> r.value == newPassword2
  {
    if newPassword1.None? then Err(Uncaught)
    else if ValidatePassword(newPassword1.value).Err? then ValidatePassword(newPassword1.value)
    else if newPassword1.value != "" && newPassword2 != "" && newPassword1.value != newPassword2 then Err(PasswordsDiffer)
    else Ok(newPassword2)
  }

  /** Both confirmation hooks decide alike on every input. */
  lemma ConfirmationRulesAgree(password1: Option<string>, password2: string)
    ensures CleanNewPassword2(password1, password2) == CleanPassword2(password1, password2)
  {
  }

  // ---- password reset ----

  /** `UserEmailExistsForm.clean_email`: the address, as typed, must be stored. */
  function EmailExistsCleanEmail(email: string, users: Users): (r: Result<string>)
    ensures r.Ok? <==> email in users
    ensures r.Ok? ==> r.value == email
    ensures r.Err? ==> r.error == UserNotFound(email)
  {
    if email !in users then Err(UserNotFound(email)) else Ok(email)
  }

  /** On addresses already in normal form, the reset form and the
      registration form are complementary: exactly one of them accepts. */
  lemma ResetComplementsRegistration(email: string, users: Users)
    requires NormalizeEmail(email) == email
    ensures EmailExistsCleanEmail(email, users).Ok? <==> RegisterCleanEmail(email, users).Err?
  {
  }

  /** Unlike registration, the reset form does not normalise: an address
      registered in lower case is not found when typed with a capital. */
  lemma ResetLookupIsExact(users: Users, account: Account)
    requires users == map["a@x.com" := account]
    ensures EmailExistsCleanEmail("A@x.com", users) == Err(UserNotFound("A@x.com"))
    ensures RegisterCleanEmail("A@x.com", users).Err?
  {
    SampleAddressNormalizes();
    assert "A@x.com" != "a@x.com";
  }
}
