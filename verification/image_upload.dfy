/**
 * The image picker: the checks a chosen file must pass before it is sent to
 * the upload endpoint, and what the component shows and reports afterwards.
 * The upload itself is the endpoint's answer, given as a parameter.
 */
module ImageUpload {
  import opened Wrappers

  /** The chosen file: its MIME type and size in bytes. */
  datatype File = File(mimeType: string, size: nat)

  /** `5 * 1024 * 1024`. */
  const MaxSize: nat := 5 * 1024 * 1024

  /** What a change of the file input leads to. */
  datatype Outcome =
    | Ignored                      // no file chosen
    | Alerted(message: string)     // rejected before or during the upload
    | Uploaded(path: string)       // the endpoint answered with the stored image's path

  /** The component: the image shown (`null` as `None`) and the last value passed to `onImageUpload`. */
  datatype Picker = Picker(image: Option<string>, reported: Option<Option<string>>)

  predicate StartsWith(s: string, prefix: string)
  {
    |prefix| <= |s| && s[..|prefix|] == prefix
  }

  /** Whether a file would be sent: an `image/` type and at most 5 MiB. */
  predicate Acceptable(f: File)
  {
    StartsWith(f.mimeType, "image/") && f.size <= MaxSize
  }

  /**
   * `handleImageChange`: nothing without a file; the type check comes before
   * the size check; an accepted file is uploaded and the endpoint's answer
   * decides the rest.
   */
  function Choose(file: Option<File>, upload: File -> Result<string, string>): (r: Outcome)
    ensures file.None? ==> r == Ignored
    ensures file.Some? && !StartsWith(file.value.mimeType, "image/") ==> r == Alerted("Please upload an image file")
    ensures file.Some? && StartsWith(file.value.mimeType, "image/") && file.value.size > MaxSize
      ==> r == Alerted("File size should be less than 5MB")
    ensures r.Uploaded? <==> file.Some? && Acceptable(file.value) && upload(file.value).Ok?
    ensures r.Uploaded? ==> r.path == upload(file.value).value
    ensures file.Some? && Acceptable(file.value) && upload(file.value).Err? ==> r == Alerted("Failed to upload image")
  {
    match file
    case None => Ignored
    case Some(f) =>
      if !StartsWith(f.mimeType, "image/") then Alerted("Please upload an image file")
      else if f.size > MaxSize then Alerted("File size should be less than 5MB")
      else
        match upload(f)
        case Ok(path) => Uploaded(path)
        case Err(_) => Alerted("Failed to upload image")
  }

  /** The component after a choice: an upload shows the path and reports it; anything else changes nothing. */
  function AfterChoose(p: Picker, outcome: Outcome): (r: Picker)
    ensures outcome.Uploaded? ==> r.image == Some(outcome.path) && r.reported == Some(Some(outcome.path))
    ensures !outcome.Uploaded? ==> r == p
  {
    if outcome.Uploaded? then Picker(Some(outcome.path), Some(Some(outcome.path))) else p
  }

  /** `handleRemoveImage`: no image, and `null` reported. */
  function Remove(p: Picker): (r: Picker)
    ensures r.image.None? && r.reported == Some(None)
  {
    Picker(None, Some(None))
  }

  /** The size limit is inclusive: a file of exactly 5 MiB is sent, one byte more is not. */
  lemma SizeLimitIsInclusive(upload: File -> Result<string, string>)
    requires upload(File("image/png", MaxSize)).Ok?
    ensures Choose(Some(File("image/png", MaxSize)), upload).Uploaded?
    ensures Choose(Some(File("image/png", MaxSize + 1)), upload) == Alerted("File size should be less than 5MB")
  {
    assert StartsWith("image/png", "image/") by {
      assert "image/png"[..6] == "image/";
    }
  }

  /** A file that is not an image is refused whatever its size: the type check comes first and nothing is uploaded. */
  lemma TypeCheckedFirst(f: File, upload: File -> Result<string, string>)
    requires !StartsWith(f.mimeType, "image/")
    ensures Choose(Some(f), upload) == Alerted("Please upload an image file")
    ensures AfterChoose(Picker(None, None), Choose(Some(f), upload)) == Picker(None, None)
  {
  }

  /** Whatever was uploaded before, removing leaves the picker empty; uploading again after a removal shows the new path. */
  lemma RemoveThenUpload(p: Picker, f: File, upload: File -> Result<string, string>)
    requires Acceptable(f) && upload(f).Ok?
    ensures AfterChoose(Remove(p), Choose(Some(f), upload)).image == Some(upload(f).value)
    ensures Remove(AfterChoose(p, Choose(Some(f), upload))).image.None?
  {
  }
}
