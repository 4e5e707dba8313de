# Kennel input validation, form hooks, view guards and listing cache

A Dafny model of the input-validation and decision layer of a Django dog-kennel
web application. It covers:

- the user-profile validators: password, CIS phone number, Telegram username;
- the shared field validators: birth-date window, photo size, photo extension,
  removal of a replaced file;
- the `clean_*` hooks of the dog form and of the registration, login,
  profile-update, password-change and password-reset forms;
- the template filters `dogs_media`, `breeds_media` and `shorten_filename`;
- the owner-or-staff dispatch guard and the htmx redirect mixin;
- the read-through `CacheService` for the breed list, the dog list and the
  dogs of one breed.

Every operation is a pure function. A hook that returns a value is
`Ok(value)` and a hook that raises `ValidationError` is `Err(error)`. The
user table is a `map` from stored email address to account. File storage is
the `set` of stored file names. The cache backend is a `map` from key to
entry. "Today" is a parameter. Each regular expression is written out as a
predicate over characters and lengths. The phone pattern is also written as a
parser (`ParsePhone`) with its inverse (`ComposePhone`).

Files, one module each:

| file | module | models |
|---|---|---|
| text.dfy | `Text` | ASCII `lower()`, `strip()`, `startswith`/`endswith`, `str(int)` and its inverse |
| validation.dfy | `Validation` | `Option`, Python truthiness, the raised errors, `Result` |
| dates.dfy | `Dates` | dates, their order, `date - relativedelta(years=n)` |
| user_validators.dfy | `UserValidators` | kennel/users/validators.py |
| common_validators.dfy | `CommonValidators` | kennel/config/core/validators/common.py |
| dog_forms.dfy | `DogForms` | kennel/dogs/forms.py |
| user_forms.dfy | `UserForms` | kennel/users/forms.py |
| template_tags.dfy | `TemplateTags` | kennel/dogs/templatetags/dog_tags.py and breed_tags.py |
| mixins.dfy | `Mixins` | kennel/config/core/mixins.py |
| cache_service.dfy | `CacheService` | kennel/dogs/services.py |

Modelling choices that follow the code:

- A `clean_<field>` hook sees its own field as a present value. Django calls the
  hook only after the field's own cleaning succeeded.
- Values read from other fields can be `None`. These are `password1` in the
  confirmation hooks and both values in the login `clean`. When `password1` is
  `None`, `validate_password` fails on `len(None)`. The model returns
  `Err(Uncaught)` for that case.
- A file counts as false when its name is empty, as Django's `File.__bool__` does.
- The dog form's birth-date hook passes the label "человека" ("human") to
  `age_limit`. The label only appears in the message text, so the model drops it.
- The profile form runs the 120-year window check inline. `UserBirthDateIsAgeLimit`
  proves that this inline check is `AgeLimit` with its default of 120 years.
- The profile form also inlines the photo checks. It removes the replaced file
  before checking the new one. The dog form removes it only after both checks
  pass. `RejectedUploadOrder` states this difference.
- The htmx denial is rendered with the default status 200, not 403.
- `CacheService` has no invalidation code and no `breed_{id}` key. The model
  has only the three getters.

## Model

| member | source | states |
|---|---|---|
| UserValidators.ValidatePassword | kennel/users/validators.py:9-17 | accepts iff at least 8 characters, all from `[A-Za-z0-9@#$%^&+=!*()-]`, and returns the input unchanged; too-short is reported before a bad character |
| UserValidators.ValidatePasswordIdempotent | kennel/users/validators.py:11-17 | an accepted password validates again to the same result |
| UserValidators.AcceptedPasswordIsPlainAscii | kennel/users/validators.py:13 | an accepted password holds no whitespace and no non-ASCII character |
| UserValidators.PasswordExamples | kennel/users/validators.py:11-17 | "Abc12345!" passes; "Abc 12345" fails on its character; "a b" fails on its length first |
| UserValidators.KeepPhoneChars | kennel/users/validators.py:28 | the cleanup keeps only digits and '+', never lengthens, and leaves a string of only such characters unchanged |
| UserValidators.KeepPhoneCharsConcat | kennel/users/validators.py:28 | the cleanup works character by character: it distributes over concatenation |
| UserValidators.KeepPhoneCharsCounts | kennel/users/validators.py:28 | every digit and '+' survives as often as it occurs; every other character is gone |
| UserValidators.ParsePhone | kennel/users/validators.py:30-31 | a match splits the number into an optional '+', a code in {7, 8, 38, 39, 98, 99} and 10 digits that recompose to it |
| UserValidators.ParseComposePhone | kennel/users/validators.py:30 | every number of that shape is matched and split back into the same parts |
| UserValidators.ComposedPhoneShape | kennel/users/validators.py:30 | a number of that shape is 11-13 characters, all digits after an optional leading '+' |
| UserValidators.ValidatePhone | kennel/users/validators.py:24-35 | None or "" gives "" without error; otherwise accepts iff the cleaned string matches the pattern, returning the cleaned string |
| UserValidators.AcceptedPhoneShape | kennel/users/validators.py:28-35 | an accepted result is 11-13 characters, all digits except an optional leading '+', and validates again to itself |
| UserValidators.WellFormedPhoneAccepted | kennel/users/validators.py:28-35 | every number of the documented shape (such as +79991112233 and 89991112233) is accepted unchanged |
| UserValidators.PhoneRejectsOtherCodes | kennel/users/validators.py:30-34 | a +1 number of the right length is rejected with the phone error |
| UserValidators.DropAt | kennel/users/validators.py:46-47 | removes one leading '@' and nothing else |
| UserValidators.ValidateTelegram | kennel/users/validators.py:42-57 | None or "" gives ""; after one '@' is dropped, accepts iff 5-32 characters of `[A-Za-z0-9_-]` not starting or ending with '_' or '-'; the format error comes before the edge error |
| UserValidators.AcceptedTelegramShape | kennel/users/validators.py:46-57 | an accepted name does not start with '@', has no '_'/'-' at either end, and validates again to itself |
| UserValidators.TelegramSingleAt | kennel/users/validators.py:46-49 | one leading '@' is ignored, and a second '@' makes the name fail the format check |
| Dates.MinusYears | kennel/config/core/validators/common.py:21 | year subtraction keeps the month and keeps the day except that 29 February becomes 28 February in a common year; it keeps a valid date valid |
| Dates.MinusYearsAntitone | kennel/config/core/validators/common.py:21 | subtracting more years lands no later |
| Dates.MinusYearsNotAfter | kennel/config/core/validators/common.py:21 | subtracting a non-negative number of years never lands after the date |
| CommonValidators.AgeLimit | kennel/config/core/validators/common.py:14-28 | a missing date passes unchecked; a present one is accepted iff today minus max_years <= d <= today and is returned unchanged; too-old is reported first, else in-future |
| CommonValidators.AgeLimitBoundaries | kennel/config/core/validators/common.py:20-28 | today and today minus max_years are both accepted; any later date is rejected as in the future |
| CommonValidators.AgeLimitMonotone | kennel/config/core/validators/common.py:21-23 | raising max_years never rejects a date that a smaller max_years accepted |
| CommonValidators.PhotoSize | kennel/config/core/validators/common.py:35-39 | accepts iff size <= max_size_mb * 1024 * 1024, and returns the photo unchanged |
| CommonValidators.PhotoSizeBoundary | kennel/config/core/validators/common.py:37 | exactly 5 MiB passes the default limit; one byte more fails |
| CommonValidators.PhotoExtension | kennel/config/core/validators/common.py:42-49 | accepts iff the lower-cased name ends with .jpg, .jpeg or .png |
| CommonValidators.PhotoExtensionIgnoresCase | kennel/config/core/validators/common.py:45 | a name and its lower-cased form get the same verdict |
| CommonValidators.ReplacedName | kennel/config/core/validators/common.py:61-64 | a name is replaced iff there is an instance, a new file and an old file, and their names differ |
| CommonValidators.DeleteOldPhoto | kennel/config/core/validators/common.py:52-66 | storage stays unchanged when nothing is replaced; otherwise the replaced name is removed and every other stored name stays |
| CommonValidators.DeleteOldPhotoIdempotent | kennel/config/core/validators/common.py:64-66 | deleting again after a deletion changes nothing |
| CommonValidators.DeleteOldPhotoRemovesAtMostOne | kennel/config/core/validators/common.py:64-66 | at most one name leaves storage |
| DogForms.CleanName | kennel/dogs/forms.py:24-31 | accepts iff 2 <= length <= 30, too-short first, and returns the name unchanged |
| DogForms.CleanBirthDate | kennel/dogs/forms.py:33-36 | the birth-date window with 35 years |
| DogForms.DogDatesFitWiderWindow | kennel/dogs/forms.py:36 | a date the 35-year dog window accepts is accepted by any wider window, such as the 120-year default |
| DogForms.CleanPhoto | kennel/dogs/forms.py:38-46 | no upload gives None and leaves storage alone; size is checked, then extension; a rejection leaves storage unchanged; on success the upload is returned and the replaced file is removed |
| DogForms.CleanPhotoChecksSizeFirst | kennel/dogs/forms.py:43-44 | an oversized file with a bad extension reports the size error |
| UserForms.CleanPassword2 | kennel/users/forms.py:34-41 | the first password must pass validate_password; a mismatch is raised only when both are non-empty and differ; the second password is returned |
| UserForms.MatchingPasswordsAccepted | kennel/users/forms.py:38-41 | a valid password confirmed by itself is accepted |
| UserForms.RegisterCleanEmail | kennel/users/forms.py:43-48 | returns strip().lower() of the input and rejects iff that normalised address is already stored |
| UserForms.RegisteredEmailRefusedAgain | kennel/users/forms.py:45-47 | once an address is stored, every spelling that normalises to it is refused |
| UserForms.RegisterCleanEmailStable | kennel/users/forms.py:45 | a cleaned address cleans to itself |
| UserForms.RegisterThenLogin | kennel/users/forms.py:73-94 | logging in with the address registration stored, and the account's password, authenticates an active account and blocks an inactive one |
| UserForms.LoginDoesNotNormalize | kennel/users/forms.py:78-85 | "A@x.com" registers as "a@x.com", and logging in with "A@x.com" is then refused as an unknown address, since login looks the address up as typed |
| UserForms.LoginCleanPassword | kennel/users/forms.py:68-71 | the login password passes iff validate_password accepts it, and it is returned unchanged |
| UserForms.LoginClean | kennel/users/forms.py:73-94 | nothing happens unless both values are present; then unknown email, wrong password and inactive account are reported in that order; user_cache is set iff all three checks pass |
| UserForms.LoginForm | kennel/users/forms.py:68-94 | a password that clean_password rejects never reaches the user lookup |
| UserForms.CleanPersonName | kennel/users/forms.py:126-138 | first and last names are accepted iff at most 30 characters, and are returned unchanged |
| UserForms.NameRulesNest | kennel/users/forms.py:126-138 | a name passes the dog-name rule iff it has at least two characters and passes the person-name rule; from two characters up both give the same result |
| UserForms.CleanUserBirthDate | kennel/users/forms.py:150-159 | accepts iff today minus 120 years <= d <= today; a missing date passes |
| UserForms.UserBirthDateIsAgeLimit | kennel/users/forms.py:150-159 | the inline check equals age_limit with its default of 120 years |
| UserForms.UpdateCleanEmail | kennel/users/forms.py:161-167 | accepts iff the normalised address is the user's own (also normalised) or is not stored; returns the normalised address |
| UserForms.KeepOwnEmail | kennel/users/forms.py:163-167 | resubmitting one's own address always passes; an address registration would accept passes here too, normalised the same way |
| UserForms.CleanProfilePicture | kennel/users/forms.py:169-186 | the replaced file is removed whatever the verdict; then size <= 5 MiB is checked, then the extension; the upload is returned |
| UserForms.PhotoVerdictsAgree | kennel/users/forms.py:177-185 | on an upload, the inline size and extension checks reach the same verdict as the dog form's shared validators |
| UserForms.RejectedUploadOrder | kennel/users/forms.py:172-185 | for the same rejected upload, the profile form has already removed the old file, while the dog form keeps it |
| UserForms.CleanNewPassword2 | kennel/users/forms.py:192-198 | the same confirmation rule as registration, for the new password |
| UserForms.ConfirmationRulesAgree | kennel/users/forms.py:192-198 | the change-password and registration confirmations decide alike on every input |
| UserForms.EmailExistsCleanEmail | kennel/users/forms.py:222-226 | rejects iff the exact, un-normalised address is not stored; returns it unchanged |
| UserForms.ResetComplementsRegistration | kennel/users/forms.py:222-226 | for an address already stripped and lower-cased, the reset form accepts iff registration refuses |
| UserForms.ResetLookupIsExact | kennel/users/forms.py:222-226 | with "a@x.com" stored, the reset form does not find "A@x.com", but registration refuses it |
| TemplateTags.MediaName | kennel/dogs/templatetags/dog_tags.py:9 | removing the "/media/" prefix recovers what followed it |
| TemplateTags.DogsMedia | kennel/dogs/templatetags/dog_tags.py:7-10 | a truthy value gives "/media/" + value (its media name is the value); a falsy one gives "/static/images/default/default-dog.jpg"; the output starts with '/' |
| TemplateTags.BreedsMedia | kennel/dogs/templatetags/breed_tags.py:7-10 | a truthy value gives "/media/" + value (its media name is the value); a falsy one gives "/dogs/images/default-dog.jpg"; the output starts with '/' |
| TemplateTags.MediaDefaultsDiffer | kennel/dogs/templatetags/breed_tags.py:8-10 | the two filters agree on uploaded files and differ on the default; a media name exists iff the value was truthy |
| TemplateTags.LastDot | kennel/dogs/templatetags/dog_tags.py:18 | finds the last '.', or reports that there is none |
| TemplateTags.SplitExtension | kennel/dogs/templatetags/dog_tags.py:18 | name + "." + ext rebuilds the value when it has a dot; otherwise ext is ""; ext never holds a dot |
| TemplateTags.SliceTo | kennel/dogs/templatetags/dog_tags.py:20 | the result is a prefix of the value, never longer; a bound within the value keeps exactly that many characters; a bound past the end keeps everything and one at or below minus the length keeps nothing |
| TemplateTags.SliceFromEnd | kennel/dogs/templatetags/dog_tags.py:20 | a negative bound counts from the end: s[:k] equals s[:len(s) + k] |
| TemplateTags.ShortenFilename | kennel/dogs/templatetags/dog_tags.py:14-21 | a falsy value comes back as is; a name no longer than the limit gives the value; otherwise name[:length] + "..." + ext |
| TemplateTags.ShortenAtDefaultLength | kennel/dogs/templatetags/dog_tags.py:14-20 | at the default length 10, an eleven-character name with an extension becomes its first 10 characters, "..." and the extension |
| TemplateTags.ShortenedLength | kennel/dogs/templatetags/dog_tags.py:18-20 | a shortened result has length exactly length + 3 + len(ext), starts with the name's first length characters and ends with "..." + ext |
| TemplateTags.ShortenCanLengthen | kennel/dogs/templatetags/dog_tags.py:18-20 | one character over the limit, the result is 1 longer than the input when there was a dot and 2 longer when there was none |
| TemplateTags.LastDotOfJoin | kennel/dogs/templatetags/dog_tags.py:18 | in stem + "." + ext with no dot in ext, the split falls on the joining dot |
| Mixins.HtmxForbidden | kennel/config/core/mixins.py:24-27 | the htmx denial renders "modals/403.html" with HX-Retarget "#modals-container" and HX-Reswap "innerHTML", and its status is not 403 |
| Mixins.PlainForbidden | kennel/config/core/mixins.py:28 | the plain denial has status 403, no template and no header set by the mixin |
| Mixins.Dispatch | kennel/config/core/mixins.py:20-29 | a failed lookup comes before any decision; the wrapped dispatch runs iff the user owns the record or is staff; a denial is the htmx modal with HX-Request, otherwise the plain 403 |
| Mixins.OwnerlessRecordsStaffOnly | kennel/config/core/mixins.py:22 | a record without an owner is open only to staff; staff pass everywhere; an anonymous user never passes |
| Mixins.HeaderOnlyShapesDenial | kennel/config/core/mixins.py:22-23 | the allow/deny decision does not depend on the HX-Request header |
| Mixins.RenderHtmxRedirect | kennel/config/core/mixins.py:7-10 | an empty 200 response whose only header set by the mixin is HX-Redirect, holding the success URL |
| Mixins.FormValid | kennel/config/core/mixins.py:12-16 | with HX-Request the result is the redirect response; without it the wrapped response is returned as is |
| Mixins.FormValidIgnoresInner | kennel/config/core/mixins.py:12-16 | on an htmx request every wrapped response yields the same redirect; without one, different wrapped responses stay different |
| CacheService.NewService | kennel/dogs/services.py:12-14 | the default timeout is 3600 seconds |
| CacheService.GetOrPopulate | kennel/dogs/services.py:16-23 | a hit returns the cached value and writes nothing; a miss (key absent or holding None) stores the query with the service timeout and returns it; other keys stay untouched |
| CacheService.SecondCallHits | kennel/dogs/services.py:16-41 | a second identical call returns the same value and writes nothing |
| CacheService.DogsByBreedKey | kennel/dogs/services.py:27 | the key is "dogs_by_breed_" followed by str(breed_id) |
| CacheService.DogsByBreedKeysDistinct | kennel/dogs/services.py:27 | keys of different breed ids differ, and none equals "breed_list" or "dog_list" |
| CacheService.GetBreedsCache | kennel/dogs/services.py:16-23 | the get-or-populate rule on key "breed_list" |
| CacheService.GetDogsByBreedCache | kennel/dogs/services.py:25-32 | the get-or-populate rule on key "dogs_by_breed_" + str(breed_id) |
| CacheService.GetDogsCache | kennel/dogs/services.py:34-41 | the get-or-populate rule on key "dog_list" |
| CacheService.GettersIndependent | kennel/dogs/services.py:18-41 | each getter leaves the other two getters' keys reading as before |
| Text.IntToStringRoundTrip | kennel/dogs/services.py:27 | str(n) is parsed back to n, so the cache key names its breed id |
| Text.IntToStringInjective | kennel/dogs/services.py:27 | distinct integers print differently |
| Text.NormalizeEmailIdempotent | kennel/users/forms.py:45 | strip().lower() applied twice is the same as applied once |

## Left out

- The view classes and function views: rendering, ORM queries, sessions, login and logout. The one piece of logic there, assigning the owner on creation, is outside the guard.
- Outbound email: `send_mail` calls with no result.
- The management commands: database DDL, seeding users from environment variables, and running subprocesses. All of it is I/O.
- Admin registrations, URL tables and model declarations: these are declarative.
- The post-delete signal that removes a dog's photo. Its delete-if-present step is the same as `DeleteOldPhoto` on storage.
- The browser-side preview script.
- The wall clock: "today" is a parameter. The profile form reads the clock twice. The model uses one "today" for both checks, so a call that spans midnight is not modelled.
- The label argument of `age_limit`: it only appears in the message text. Message texts are not modelled; errors are told apart by kind.
- Python's 1..9999 year range: `MinusYears` works on unbounded years. Going below year 1 raises in Python; the model has no such error.
- The dog model's birth date is a `DateTimeField` (kennel/dogs/models.py:46), so the dog form's hook hands `age_limit` a datetime. As written, comparing it with the `date` at kennel/config/core/validators/common.py:22 raises TypeError for every present dog birth date. `DogForms.CleanBirthDate` models the intended 35-year window over plain dates, not that failure.
- Password hashing: `check_password` is plain equality with the stored password.
- Django's built-in field validation: email syntax, `min_length`, required fields, and the `UserCreationForm` internals. The model only uses the result: a field that failed is absent from `cleaned_data`.
- Cache expiry, the cache backend, and the laziness of query sets. Cached values are opaque, and the timeout is only recorded with the entry.
- Concurrent cache misses: two requests can both recompute and write the same key. The model is sequential.
- Unicode: `lower()` and `strip()` are ASCII-only. Non-ASCII letters are not lowercased. Only the ASCII characters that Python counts as whitespace are stripped.
- `\d` in the phone pattern also matches non-ASCII digits. None survive the preceding cleanup, so ASCII digits are exact there.
- `Response.headers` records only the headers the mixins set. Django's default Content-Type header, which every response carries, is not modelled.
- Header lookup: `request.headers` is case-insensitive. The model takes the HX-Request header value directly.
- Mixins.FormValid: the side effects of the wrapped `form_valid`, such as saving the object, are not modelled. The model takes its response as a value, which is computed on every path.
