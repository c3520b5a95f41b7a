/**
 * app/services/image_manager.py: the upload checks that run before an image
 * is decoded and stored. The file size is what seek/tell measure.
 */
module ImageManager {
  import opened Models

  const AllowedContentTypes: seq<string> := ["image/jpeg", "image/png", "image/webp"]

  /** 5 MB */
  const MaxImageBytes: nat := 5 * 1024 * 1024

  const FormatError := Http(400, "Invalid image format. Use JPEG, PNG, or WebP.")
  const SizeError := Http(400, "Image too large. Max 5MB.")

  /** validate_image: the content type is checked first, then the size. */
  function ValidateImage(file: Upload): (r: Result<()>)
    ensures r.Ok? <==> file.contentType in AllowedContentTypes && file.size <= MaxImageBytes
    ensures file.contentType !in AllowedContentTypes ==> r == Err(FormatError)
    ensures file.contentType in AllowedContentTypes && file.size > MaxImageBytes ==> r == Err(SizeError)
  {
    if file.contentType !in AllowedContentTypes then Err(FormatError)
    else if file.size > MaxImageBytes then Err(SizeError)
    else Ok(())
  }

  /** is_nsfw is a placeholder that never flags an image. */
  function IsNsfw<Image>(image: Image): (flagged: bool)
    ensures !flagged
  {
    false
  }

  /** The limit is inclusive: exactly 5,242,880 bytes of PNG pass, one more byte does not. */
  lemma SizeLimitBoundary()
    ensures ValidateImage(Upload("image/png", 5242880)).Ok?
    ensures ValidateImage(Upload("image/png", 5242881)) == Err(SizeError)
  {
  }
}
