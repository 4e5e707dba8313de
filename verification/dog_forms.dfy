/**
 The `clean_<field>` hooks of the dog form: name length, birth-date window
 and photo upload. The photo hook checks the upload first and only then
 removes the file it replaces.
 */
module DogForms {
  import opened Validation
  import opened Dates
  import opened CommonValidators

  const MinNameLength := 2
  const MaxNameLength := 30

  function CleanName(name: string): (r: Result<string>)
    ensures r.Ok? <==> 2 <= |name| <= 30
    ensures r.Ok? ==> r.value == name
    ensures |name| < 2 ==> r == Err(NameTooShort)
    ensures |name| > 30 ==> r == Err(NameTooLong)
  {
    if |name| < MinNameLength then Err(NameTooShort)
    else if |name| > MaxNameLength then Err(NameTooLong)
    else Ok(name)
  }

  const DogMaxYears := 35

  /** A dog's birth date lies within the last 35 years. */
  function CleanBirthDate(birthDate: Option<Date>, today: Date): (r: Result<Option<Date>>)
    ensures birthDate.None? ==> r == Ok(None)
    ensures birthDate.Some? ==>
      (r.Ok? <==> NotAfter(MinusYears(today, 35), birthDate.value) && NotAfter(birthDate.value, today))
    ensures r.Ok? ==> r.value == birthDate
    ensures r.Err? ==> r.error == TooOld(35) || r.error == InFuture
  {
    AgeLimit(birthDate, DogMaxYears, today)
  }

  /** A dog's birth date always fits a wider window, such as the 120-year
      default used for people. */
  lemma DogDatesFitWiderWindow(birthDate: Option<Date>, maxYears: int, today: Date)
    requires maxYears >= DogMaxYears
    requires CleanBirthDate(birthDate, today).Ok?
    ensures AgeLimit(birthDate, maxYears, today) == Ok(birthDate)
  {
    AgeLimitMonotone(birthDate, DogMaxYears, maxYears, today);
  }

  /** A hook's returned value together with the storage it leaves behind. */
  datatype Cleaned<T> = Cleaned(result: Result<T>, storage: set<string>)

  const PhotoField := "photo"

  /** `DogForm.clean_photo`: no upload returns `None`; otherwise the size
      check, then the extension check, then removal of the replaced file. */
  function CleanPhoto(instance: Option<Instance>, newPhoto: Option<File>, storage: set<string>): (r: Cleaned<Option<File>>)
    ensures !Present(newPhoto) ==> r == Cleaned(Ok(None), storage)
    ensures Present(newPhoto) && newPhoto.value.size > 5 * MiB ==> r.result == Err(PhotoTooLarge(5))
    ensures Present(newPhoto) && newPhoto.value.size <= 5 * MiB && PhotoExtension(newPhoto.value).Err? ==>
      r.result == Err(BadExtension)
    ensures r.result.Ok? <==>
      !Present(newPhoto) || (newPhoto.value.size <= 5 * MiB && PhotoExtension(newPhoto.value).Ok?)
    ensures r.result.Err? ==> r.storage == storage
    ensures Present(newPhoto) && r.result.Ok? ==>
      r.result.value == newPhoto && r.storage == DeleteOldPhoto(instance, PhotoField, newPhoto, storage)
  {
    if !Present(newPhoto) then Cleaned(Ok(None), storage)
    else
      var photo := newPhoto.value;
      match PhotoSize(photo, DefaultMaxSizeMb)
      case Err(e) => Cleaned(Err(e), storage)
      case Ok(_) =>
        match PhotoExtension(photo)
        case Err(e) => Cleaned(Err(e), storage)
        case Ok(_) => Cleaned(Ok(newPhoto), DeleteOldPhoto(instance, PhotoField, newPhoto, storage))
  }

  /** An oversized file with a bad extension reports the size. */
  lemma CleanPhotoChecksSizeFirst(instance: Option<Instance>, newPhoto: File, storage: set<string>)
    requires newPhoto.name != "" && newPhoto.size > 5 * MiB && PhotoExtension(newPhoto).Err?
    ensures CleanPhoto(instance, Some(newPhoto), storage) == Cleaned(Err(PhotoTooLarge(5)), storage)
  {
  }
}
