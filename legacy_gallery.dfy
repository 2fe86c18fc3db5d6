/**
 * Strip_Gallery, the older gallery filter: the same three replacements as
 * SendImagesRSS_Strip_Gallery::strip, run only on feed requests for posts
 * carrying the gallery shortcode.
 */
module LegacyGallery {
  import opened Patterns
  import StripGallery

  /** strip_gallery_images(). */
  function StripGalleryImages(content: string, isFeed: bool, hasGalleryShortcode: bool): (r: string)
    ensures !(isFeed && hasGalleryShortcode) ==> r == content
    ensures |r| <= |content|
  {
    if isFeed && hasGalleryShortcode then StripGallery.Strip(content, true) else content
  }

  /** On a feed request it agrees with the newer strip() judged by the shortcode alone. */
  lemma AgreesWithStrip(content: string, hasGalleryShortcode: bool)
    ensures StripGalleryImages(content, true, hasGalleryShortcode) == StripGallery.Strip(content, hasGalleryShortcode)
  {
  }

  /**
   * Text in which none of the three patterns matches is preserved byte for
   * byte, and on a feed request for a gallery post only such text is.
   */
  lemma {:induction false} PreservesUnmatched(content: string, isFeed: bool, hasGalleryShortcode: bool)
    ensures StripGallery.NothingToStrip(content) ==> StripGalleryImages(content, isFeed, hasGalleryShortcode) == content
    ensures isFeed && hasGalleryShortcode && StripGalleryImages(content, isFeed, hasGalleryShortcode) == content ==>
      StripGallery.NothingToStrip(content)
  {
    StripGallery.StripSizesUnchangedIff(content);
  }
}
