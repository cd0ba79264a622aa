/** The size limits of internal/converter/validation.go. */
module Validation {
  import opened Wrappers

  const MAX_IMAGE_WIDTH := 20000
  const MAX_IMAGE_HEIGHT := 20000
  const MAX_IMAGE_PIXELS := 250_000_000
  const MIN_IMAGE_DIMENSION := 16

  datatype Size = Size(width: int, height: int)

  datatype Verdict = Valid | InvalidHEIF | InvalidImageDimensions | ImageTooLarge

  /** The verdict on a decoded image; `None` is a nil image. */
  function ValidateImage(img: Option<Size>): (v: Verdict)
    ensures v == InvalidHEIF <==> img.None?
    ensures v == InvalidImageDimensions <==> img.Some? && (img.value.width < 16 || img.value.height < 16)
    ensures v == Valid ==> 16 <= img.value.width <= 20000 && 16 <= img.value.height <= 20000
    ensures v == Valid ==> img.value.width * img.value.height <= 250_000_000
    ensures v == ImageTooLarge ==>
              img.value.width > 20000 || img.value.height > 20000 || img.value.width * img.value.height > 250_000_000
  {
    match img
    case None => InvalidHEIF
    case Some(Size(width, height)) =>
      if width <= 0 || height <= 0 then InvalidImageDimensions
      else if width < MIN_IMAGE_DIMENSION || height < MIN_IMAGE_DIMENSION then InvalidImageDimensions
      else if width > MAX_IMAGE_WIDTH || height > MAX_IMAGE_HEIGHT then ImageTooLarge
      else if width * height > MAX_IMAGE_PIXELS then ImageTooLarge
      else Valid
  }
}
