/**
 The template filters of the dog and breed pages: media URLs with a
 per-page default image, and shortening of long file names.
 */
module TemplateTags {
  import opened Text
  import opened Validation

  const MediaPrefix := "/media/"
  const DefaultDogImage := "/static/images/default/default-dog.jpg"
  const DefaultBreedImage := "/dogs/images/default-dog.jpg"

  /** The inverse of the media filters on uploaded files: the stored name a
      `/media/` URL points at. */
  function MediaName(url: string): (r: Option<string>)
    ensures r.Some? <==> StartsWith(url, MediaPrefix)
    ensures r.Some? ==> MediaPrefix + r.value == url
  {
    if StartsWith(url, MediaPrefix) then
      assert url == url[..|MediaPrefix|] + url[|MediaPrefix|..];
      Some(url[|MediaPrefix|..])
    else None
  }

  lemma MediaNameOfPrefixed(val: string)
    ensures MediaName(MediaPrefix + val) == Some(val)
  {
    assert (MediaPrefix + val)[..|MediaPrefix|] == MediaPrefix;
    assert (MediaPrefix + val)[|MediaPrefix|..] == val;
  }

  /** `dog_tags.dogs_media`. */
  function DogsMedia(val: Option<string>): (r: string)
    ensures Truthy(val) ==> StartsWith(r, MediaPrefix) && MediaName(r) == Some(val.value)
    ensures !Truthy(val) ==> r == DefaultDogImage
    ensures |r| > 0 && r[0] == '/'
  {
    if Truthy(val) then
      MediaNameOfPrefixed(val.value);
      MediaPrefix + val.value
    else DefaultDogImage
  }

  /** `breed_tags.breeds_media`. */
  function BreedsMedia(val: Option<string>): (r: string)
    ensures Truthy(val) ==> StartsWith(r, MediaPrefix) && MediaName(r) == Some(val.value)
    ensures !Truthy(val) ==> r == DefaultBreedImage
    ensures |r| > 0 && r[0] == '/'
  {
    if Truthy(val) then
      MediaNameOfPrefixed(val.value);
      MediaPrefix + val.value
    else DefaultBreedImage
  }

  /** The filters agree on uploaded files and differ on the default, and
      neither default is a media URL, so the output tells which case it was. */
  lemma MediaDefaultsDiffer(val: Option<string>)
    ensures Truthy(val) ==> DogsMedia(val) == BreedsMedia(val)
    ensures !Truthy(val) ==> DogsMedia(val) != BreedsMedia(val)
    ensures MediaName(DogsMedia(val)).Some? <==> Truthy(val)
    ensures MediaName(BreedsMedia(val)).Some? <==> Truthy(val)
  {
    assert DefaultDogImage[1] == 's' && DefaultBreedImage[1] == 'd' && MediaPrefix[1] == 'm';
    assert !StartsWith(DefaultDogImage, MediaPrefix) && !StartsWith(DefaultBreedImage, MediaPrefix);
  }

  // ---- shorten_filename ----

  /** Position of the last '.', if any. */
  function LastDot(s: string): (r: Option<nat>)
    ensures r.Some? ==> r.value < |s| && s[r.value] == '.' && forall j :: r.value < j < |s| ==> s[j] != '.'
    ensures r.None? ==> forall j :: 0 <= j < |s| ==> s[j] != '.'
    decreases |s|
  {
    if |s| == 0 then None
    else if s[|s| - 1] == '.' then Some(|s| - 1)
    else LastDot(s[..|s| - 1])
  }

  /** Name and extension, split at the last '.', which belongs to neither;
      a value without a dot is all name. */
  function SplitExtension(s: string): (r: (string, string))
    ensures LastDot(s).Some? ==> r.0 + "." + r.1 == s
    ensures LastDot(s).None? ==> r == (s, "")
    ensures forall j :: 0 <= j < |r.1| ==> r.1[j] != '.'
  {
    match LastDot(s)
    case None => (s, "")
    case Some(i) =>
      assert s == s[..i] + "." + s[i + 1..];
      (s[..i], s[i + 1..])
  }

  /** Python's `s[:k]`: a negative `k` counts from the end; both are clamped. */
  function SliceTo(s: string, k: int): (r: string)
    ensures |r| <= |s| && r == s[..|r|]
    ensures 0 <= k <= |s| ==> |r| == k
    ensures k >= |s| ==> r == s
    ensures k <= -|s| ==> r == ""
  {
    if k >= 0 then s[..if k < |s| then k else |s|]
    else s[..if |s| + k > 0 then |s| + k else 0]
  }

  /** A negative bound drops that many characters from the end. */
  lemma SliceFromEnd(s: string, k: int)
    requires -|s| <= k < 0
    ensures SliceTo(s, k) == SliceTo(s, |s| + k)
    ensures |SliceTo(s, k)| == |s| + k
  {
  }

  const DefaultShortenLength := 10

  /** `dog_tags.shorten_filename`: a name longer than `length` keeps its first
      `length` characters, then "...", then the extension, without the dot. */
  function ShortenFilename(value: Option<string>, length: int): (r: Option<string>)
    ensures !Truthy(value) ==> r == value
    ensures Truthy(value) && |SplitExtension(value.value).0| <= length ==> r == value
    ensures Truthy(value) && |SplitExtension(value.value).0| > length ==>
      var (name, ext) := SplitExtension(value.value);
      r == Some(SliceTo(name, length) + "..." + ext)
  {
    if !Truthy(value) then value
    else
      var (name, ext) := SplitExtension(value.value);
      if |name| > length then Some(SliceTo(name, length) + "..." + ext) else value
  }

  /** At the filter's default length of 10, an eleven-character name loses
      its last character and gains "..." before the extension. */
  lemma ShortenAtDefaultLength(stem: string, ext: string)
    requires |stem| == DefaultShortenLength + 1
    requires forall j :: 0 <= j < |stem| ==> stem[j] != '.'
    requires forall j :: 0 <= j < |ext| ==> ext[j] != '.'
    ensures ShortenFilename(Some(stem + "." + ext), DefaultShortenLength) == Some(stem[..10] + "..." + ext)
  {
    LastDotOfJoin(stem, ext);
  }

  /** A shortened name is exactly `length + 3 + |ext|` long; measured
      against the input it grows by 2 minus the cut when there was a dot and
      by 3 minus the cut when there was none. */
  lemma ShortenedLength(value: string, length: nat)
    requires value != "" && |SplitExtension(value).0| > length
    ensures var (name, ext) := SplitExtension(value);
      var r := ShortenFilename(Some(value), length).value;
      && |r| == length + 3 + |ext|
      && |r| + |name| == |value| + length + (if LastDot(value).Some? then 2 else 3)
      && r[..length] == name[..length]
      && r[length..] == "..." + ext
  {
    var (name, ext) := SplitExtension(value);
    var cut := SliceTo(name, length);
    assert cut == name[..length];
    var r := cut + "..." + ext;
    assert r[..length] == name[..length];
    assert r[length..] == "..." + ext;
    if LastDot(value).Some? {
      assert |value| == |name| + 1 + |ext|;
    }
  }

  /** The shortened name can be longer than the original: one character
      over the limit with an extension gains one, without gains two. */
  lemma ShortenCanLengthen(stem: string, ext: string, length: nat)
    requires |stem| == length + 1
    requires forall j :: 0 <= j < |stem| ==> stem[j] != '.'
    requires forall j :: 0 <= j < |ext| ==> ext[j] != '.'
    ensures |ShortenFilename(Some(stem + "." + ext), length).value| == |stem + "." + ext| + 1
    ensures |ShortenFilename(Some(stem), length).value| == |stem| + 2
  {
    var value := stem + "." + ext;
    assert value[|stem|] == '.';
    var split := SplitExtension(value);
    LastDotOfJoin(stem, ext);
    assert split.0 + "." + split.1 == value;
    assert value[..|stem|] == stem;
    ShortenedLength(value, length);
    ShortenedLength(stem, length);
  }

  /** In `stem + "." + ext` with no dot in `ext`, the dot found last is the joining one. */
  lemma LastDotOfJoin(stem: string, ext: string)
    requires forall j :: 0 <= j < |ext| ==> ext[j] != '.'
    ensures LastDot(stem + "." + ext) == Some(|stem|)
    ensures SplitExtension(stem + "." + ext) == (stem, ext)
  {
    var value := stem + "." + ext;
    var d := LastDot(value);
    assert value[|stem|] == '.';
    assert d.Some? && d.value == |stem|;
    assert value[..|stem|] == stem && value[|stem| + 1..] == ext;
  }
}
