/**
 The reusable field validators: the birth-date window, the photo size and
 extension checks, and the removal of a replaced file from storage.
 File storage is the set of names it holds.
 */
module CommonValidators {
  import opened Text
  import opened Validation
  import opened Dates

  // ---- birth date ----

  const DefaultMaxYears := 120

  /** `DateValidator.age_limit` with "today" passed in: a missing date passes
      unchecked; a present one must lie between `today` minus `maxYears`
      years and `today`, both ends included. The too-old check runs first. */
  function AgeLimit(birthDate: Option<Date>, maxYears: int, today: Date): (r: Result<Option<Date>>)
    ensures birthDate.None? ==> r == Ok(None)
    ensures birthDate.Some? ==>
      (r.Ok? <==> NotAfter(MinusYears(today, maxYears), birthDate.value) && NotAfter(birthDate.value, today))
    ensures r.Ok? ==> r.value == birthDate
    ensures birthDate.Some? && Before(birthDate.value, MinusYears(today, maxYears)) ==> r == Err(TooOld(maxYears))
    ensures birthDate.Some? && r.Err? && r.error != TooOld(maxYears) ==> r.error == InFuture
  {
    match birthDate
    case None => Ok(None)
    case Some(d) =>
      var maxAgeDate := MinusYears(today, maxYears);
      if Before(d, maxAgeDate) then Err(TooOld(maxYears))
      else if Before(today, d) then Err(InFuture)
      else Ok(birthDate)
  }

  /** Both ends of the window are accepted; for a valid `today` and a
      non-negative `maxYears`, every later date is rejected as in the future. */
  lemma AgeLimitBoundaries(maxYears: int, today: Date, d: Date)
    requires Valid(today) && maxYears >= 0
    ensures AgeLimit(Some(today), maxYears, today) == Ok(Some(today))
    ensures AgeLimit(Some(MinusYears(today, maxYears)), maxYears, today) == Ok(Some(MinusYears(today, maxYears)))
    ensures Before(today, d) ==> AgeLimit(Some(d), maxYears, today) == Err(InFuture)
  {
    MinusYearsNotAfter(today, maxYears);
    NotAfterTotal(MinusYears(today, maxYears), today);
    if Before(today, d) {
      assert !Before(d, MinusYears(today, maxYears));
    }
  }

  /** Allowing more years never rejects a date a smaller allowance accepted. */
  lemma AgeLimitMonotone(birthDate: Option<Date>, m: int, n: int, today: Date)
    requires m <= n
    requires AgeLimit(birthDate, m, today).Ok?
    ensures AgeLimit(birthDate, n, today) == AgeLimit(birthDate, m, today)
  {
    if birthDate.Some? {
      MinusYearsAntitone(today, m, n);
      NotAfterTransitive(MinusYears(today, n), MinusYears(today, m), birthDate.value);
    }
  }

  // ---- photos ----

  /** A file value: an upload or a stored file, by name and size in bytes.
      Django treats a file as false when its name is empty. */
  datatype File = File(name: string, size: int)

  predicate Present(f: Option<File>) {
    f.Some? && f.value.name != ""
  }

  const MiB := 1024 * 1024
  const DefaultMaxSizeMb := 5

  function PhotoSize(photo: File, maxSizeMb: int): (r: Result<File>)
    ensures r.Ok? <==> photo.size <= maxSizeMb * MiB
    ensures r.Ok? ==> r.value == photo
    ensures r.Err? ==> r.error == PhotoTooLarge(maxSizeMb)
  {
    if photo.size > maxSizeMb * 1024 * 1024 then Err(PhotoTooLarge(maxSizeMb)) else Ok(photo)
  }

  /** Exactly 5 MiB passes with the default limit; one byte more does not. */
  lemma PhotoSizeBoundary(name: string)
    ensures PhotoSize(File(name, 5 * MiB), DefaultMaxSizeMb).Ok?
    ensures PhotoSize(File(name, 5 * MiB + 1), DefaultMaxSizeMb) == Err(PhotoTooLarge(5))
  {
  }

  const ValidExtensions := [".jpg", ".jpeg", ".png"]

  /** Some listed extension ends the lower-cased name. */
  predicate HasImageExtension(name: string) {
    exists i :: 0 <= i < |ValidExtensions| && EndsWith(Lower(name), ValidExtensions[i])
  }

  function PhotoExtension(photo: File): (r: Result<File>)
    ensures r.Ok? <==>
      EndsWith(Lower(photo.name), ".jpg") || EndsWith(Lower(photo.name), ".jpeg") || EndsWith(Lower(photo.name), ".png")
    ensures r.Ok? ==> r.value == photo
    ensures r.Err? ==> r.error == BadExtension
  {
    assert ValidExtensions[0] == ".jpg" && ValidExtensions[1] == ".jpeg" && ValidExtensions[2] == ".png";
    if !HasImageExtension(photo.name) then Err(BadExtension) else Ok(photo)
  }

  /** The check ignores case: a name and its lower-cased form are judged alike. */
  lemma PhotoExtensionIgnoresCase(name: string, size: int)
    ensures PhotoExtension(File(Lower(name), size)).Ok? == PhotoExtension(File(name, size)).Ok?
  {
    LowerIdempotent(name);
  }

  // ---- replacing a stored file ----

  /** A model instance, by the file fields it holds; a field that is missing
      here is unset (`getattr` yields `None`). */
  datatype Instance = Instance(files: map<string, File>)

  function FieldFile(instance: Instance, fieldName: string): Option<File> {
    if fieldName in instance.files then Some(instance.files[fieldName]) else None
  }

  /** The stored name a new upload replaces, if any: there must be an
      instance, a new file, an old file, and the names must differ. */
  function ReplacedName(instance: Option<Instance>, fieldName: string, newFile: Option<File>): (r: Option<string>)
    ensures r.Some? <==>
      instance.Some? && Present(newFile) && Present(FieldFile(instance.value, fieldName))
      && FieldFile(instance.value, fieldName).value.name != newFile.value.name
    ensures r.Some? ==> r.value == FieldFile(instance.value, fieldName).value.name && r.value != ""
  {
    if instance.None? || !Present(newFile) then None
    else
      var current := FieldFile(instance.value, fieldName);
      if Present(current) && current.value.name != newFile.value.name then Some(current.value.name) else None
  }

  /** `PhotoValidator.delete_old_photo`: removes the replaced file's name from
      storage when it is there, and touches nothing else. */
  function DeleteOldPhoto(instance: Option<Instance>, fieldName: string, newFile: Option<File>, storage: set<string>): (r: set<string>)
    ensures ReplacedName(instance, fieldName, newFile).None? ==> r == storage
    ensures ReplacedName(instance, fieldName, newFile).Some? ==> ReplacedName(instance, fieldName, newFile).value !in r
    ensures forall n :: n in storage && Some(n) != ReplacedName(instance, fieldName, newFile) ==> n in r
    ensures r <= storage
  {
    match ReplacedName(instance, fieldName, newFile)
    case None => storage
    case Some(name) => if name in storage then storage - {name} else storage
  }

  /** Deleting twice is deleting once. */
  lemma DeleteOldPhotoIdempotent(instance: Option<Instance>, fieldName: string, newFile: Option<File>, storage: set<string>)
    ensures var once := DeleteOldPhoto(instance, fieldName, newFile, storage);
      DeleteOldPhoto(instance, fieldName, newFile, once) == once
  {
  }

  /** At most one name leaves storage. */
  lemma DeleteOldPhotoRemovesAtMostOne(instance: Option<Instance>, fieldName: string, newFile: Option<File>, storage: set<string>)
    ensures |storage - DeleteOldPhoto(instance, fieldName, newFile, storage)| <= 1
  {
    var r := DeleteOldPhoto(instance, fieldName, newFile, storage);
    match ReplacedName(instance, fieldName, newFile)
    case None =>
      assert storage - r == {};
    case Some(name) =>
      assert storage - r <= {name};
  }
}
