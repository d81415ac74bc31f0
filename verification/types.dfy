/** The records of types.ts: the user's restoration options and an uploaded image. */
module Types {
  import opened Wrappers

  /** The five quality modes offered by the main-request radio group. */
  datatype MainRequest = HighQuality | Original | DetailedFace | Portrait | Scenery

  /** The subject's gender as chosen in the select box. */
  datatype Gender = Male | Female | NotSpecified

  /** Every setting that steers the restoration prompt. `age` and
      `additionalRequest` are free text and may be empty. */
  datatype Options = Options(
    mainRequest: MainRequest,
    gender: Gender,
    age: string,
    keepId: bool,
    remakeHair: bool,
    remakeClothes: bool,
    additionalRequest: string)

  /** An uploaded image: the file's declared MIME type (the only part of the
      browser `File` the core reads) and the reader's result, which is the
      data URL after a successful read and `null` (`None`) after a failed one. */
  datatype ImageFile = ImageFile(fileType: string, base64: Option<string>)
}
