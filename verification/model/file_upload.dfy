/** The upload middleware: which files the filter lets through for the
    `avatar`, `logo` and `cv` fields, and the overall size limit. */
module FileUpload {
  import opened Base
  import opened Strings

  const MiB: int := 1024 * 1024

  /** The per-field limits the filter states and the limit of the whole
      middleware. */
  const ImageLimit: int := 5 * MiB
  const CvLimit: int := 10 * MiB
  const UploadLimit: int := 10 * MiB

  const ImageOnly: string := "Only image files are allowed for avatar/logo"
  const ImageTooLarge: string := "Image file size must be less than 5MB"
  const PdfOnly: string := "Only PDF files are allowed for CV"
  const CvTooLarge: string := "CV file size must be less than 10MB"
  /** The message of the middleware's own size-limit error. */
  const FileTooLarge: string := "File too large"

  const PdfType: string := "application/pdf"

  /** What the filter is told about a file.  `size` is absent when the
      middleware has not read the file yet. */
  datatype FileInfo = FileInfo(fieldname: string, mimetype: string, size: Option<int>)

  predicate IsImageField(fieldname: string) {
    fieldname == "avatar" || fieldname == "logo"
  }

  /** The declared limit of a field, if it has one. */
  function FieldLimit(fieldname: string): Option<int> {
    if IsImageField(fieldname) then Some(ImageLimit)
    else if fieldname == "cv" then Some(CvLimit)
    else None
  }

  /** `fileFilter`: `None` when the file is accepted, otherwise the message
      of the error it is rejected with.  A missing size compares false with
      the limit, so only a known size can be too large. */
  function FileFilter(f: FileInfo): (r: Option<string>)
    // an accepted image field holds an image, an accepted CV field a PDF
    ensures r.None? && IsImageField(f.fieldname) ==> StartsWith(f.mimetype, "image/")
    ensures r.None? && f.fieldname == "cv" ==> f.mimetype == PdfType
    // a known size within the accepted file's field limit
    ensures r.None? && f.size.Some? && FieldLimit(f.fieldname).Some? ==>
              f.size.value <= FieldLimit(f.fieldname).value
    // the type is checked before the size
    ensures IsImageField(f.fieldname) && !StartsWith(f.mimetype, "image/") ==> r == Some(ImageOnly)
    ensures f.fieldname == "cv" && f.mimetype != PdfType ==> r == Some(PdfOnly)
    ensures r.Some? ==> r.value in {ImageOnly, ImageTooLarge, PdfOnly, CvTooLarge}
    // every other field is let through
    ensures FieldLimit(f.fieldname).None? ==> r.None?
    // without a size, only the type can be refused
    ensures f.size.None? ==> r.None? || r == Some(ImageOnly) || r == Some(PdfOnly)
  {
    if IsImageField(f.fieldname) && !StartsWith(f.mimetype, "image/") then Some(ImageOnly)
    else if IsImageField(f.fieldname) && f.size.Some? && f.size.value > ImageLimit then Some(ImageTooLarge)
    else if f.fieldname == "cv" && f.mimetype != PdfType then Some(PdfOnly)
    else if f.fieldname == "cv" && f.size.Some? && f.size.value > CvLimit then Some(CvTooLarge)
    else None
  }

  datatype Outcome = Stored | Refused(message: string)

  /** The middleware as configured: the filter runs when the file starts to
      arrive, before its size is known; the size limit applies while it is
      read. */
  function Receive(fieldname: string, mimetype: string, size: nat): (r: Outcome)
    ensures r == Stored ==> size <= UploadLimit
    ensures r == Stored && IsImageField(fieldname) ==> StartsWith(mimetype, "image/")
    ensures r == Stored && fieldname == "cv" ==> mimetype == PdfType
  {
    match FileFilter(FileInfo(fieldname, mimetype, None))
    case Some(message) => Refused(message)
    case None => if size > UploadLimit then Refused(FileTooLarge) else Stored
  }

  /** The filter's image limit never fires: a 6 MiB avatar image is stored. */
  lemma OversizedImageStored()
    ensures Receive("avatar", "image/png", 6 * MiB) == Stored
    ensures 6 * MiB > ImageLimit
  {
    assert StartsWith("image/png", "image/");
  }

  /** The filter applied once the size is known, as its limits intend. */
  function ReceiveChecked(fieldname: string, mimetype: string, size: nat): (r: Outcome)
    ensures r == Stored ==> size <= UploadLimit
    // a stored file has the type and respects the limit of its field
    ensures r == Stored && IsImageField(fieldname) ==> StartsWith(mimetype, "image/") && size <= ImageLimit
    ensures r == Stored && fieldname == "cv" ==> mimetype == PdfType && size <= CvLimit
  {
    match FileFilter(FileInfo(fieldname, mimetype, Some(size)))
    case Some(message) => Refused(message)
    case None => if size > UploadLimit then Refused(FileTooLarge) else Stored
  }

  /** The two agree on every file within its field's limit. */
  lemma CheckedAgreesWithinFieldLimit(fieldname: string, mimetype: string, size: nat)
    requires FieldLimit(fieldname).Some? ==> size <= FieldLimit(fieldname).value
    ensures ReceiveChecked(fieldname, mimetype, size) == Receive(fieldname, mimetype, size)
  {
  }
}
