# Send Images to RSS — a Dafny model

Send Images to RSS is a WordPress plugin that rewrites the images in a site's
RSS feed so that the feed reads well in email clients (MailChimp campaigns in
particular). This project models the plugin's core and proves properties of
the model:

- **Feed fixer** (`FeedFixer`, `feed_fixer.dfy`). The content is wrapped in a
  `<div>` and parsed. Then every `<img>` is visited in document order:
  - An image from the site's uploads loses its `height` and `style`.
  - If a "mailchimp" rendition exists at exactly the configured size, the
    image gets that rendition's URL and width and a centred block style.
  - Otherwise it is styled by alignment and size, and a caption wrapper
    (`wp-caption`) gets a style too.
  - The first image whose URL is not in the uploads stops the walk. It and
    every later image are left alone.
  - Finally the saved `<div>` is cut back out of the result.
  - `get_image_id` turns an image URL into the key the attachment lookup
    uses. A `-WxH` thumbnail suffix resolves to the same key as the original.
- **Pattern replacements** (`Patterns`, `patterns.dfy`). These are
  `-\d{3,4}x\d{3,4}.`, `-\d{3,4}x\d{3,4}`, `width="\d{2,3}"`,
  `height="\d{2,3}"` and the literal `str_replace`. Each is an exact
  first-order matcher with PCRE's backtracking order, and `Replace` is PHP's
  left-to-right, non-overlapping replacement.
- **Gallery stripper** (`StripGallery`, `strip_gallery.dfy`):
  - the three replacements that run when a post has a gallery;
  - the core gallery block rewrite, whose two loops carry one accumulating
    style string from list to list and from item to item.
- **Legacy code** (`LegacyGallery`, `LegacySwap`). These are the older
  gallery stripper class and the original single-file plugin, which deletes
  thumbnail suffixes and sets every image to 560px wide.
- **Excerpt fixer** (`ExcerptFixer`, `excerpt_fixer.dfy`):
  - the featured image put in front of the excerpt, with its alignment style;
  - the read-more link;
  - the tokenizer (`(<[^>]+>|[^<>\s]+)\s*`) and the loop that cuts an excerpt
    after N tokens at the end of a sentence.
- **Settings** (`Settings`, `settings.dfy`). These are the sanitizers of the
  three options and the condition for the "alternate feed ignored" warning.
- **Bootstrap** (`Plugin`, `plugin.dfy`):
  - `init` registers the `mailchimp` image size and the `email` feed;
  - `fix_feed` decides which content filters are hooked for a feed request.

  WordPress's filter, image-size and feed tables are one `Registry` object.
  It has `add_filter`/`remove_filter` semantics: one entry per hook,
  callback and priority.

Representation:
- **The DOM.** A parsed document is an arena `seq<Node>` in document order
  (`Dom`). Each node is a tag, an attribute map and a parent index.
  `Dom.Document` is the mutable `DOMDocument`. Its `SetAttribute` and
  `RemoveAttribute` change one node in place.
- **Methods and functions.** The imperative code is written as Dafny
  methods: `modify_images`, `replace_images`, `fix_other_images`,
  `fix_captions`, the gallery loops, the legacy resize loop, the
  `count_excerpt` loop, `init` and `fix_feed`. Each is proved equal to a
  specification function. The properties are then proved about that
  function.
- **WordPress services.** Services and parse/serialize are parameters:
  function-typed fields of `Site`, `Loader`, `BlockLoader`, `XmlLoader` and
  `PostContext`, or plain booleans for `is_feed()`, `has_shortcode()` and
  the like.
- **PHP values.** Values that come from options are `Php.Value`. This covers
  PHP's truthiness, the `(int)` cast of a string as PHP 5 and 7.0 perform
  it, `absint()`, PHP 7's loose `==` against a word, `trim()` and `substr()`
  with a negative length.

In the code, the first external image ends the walk over the document
(`return`, not `continue`). An attachment lookup that finds nothing does not.

## Model

| member | source | states |
|---|---|---|
| FeedFixer.GetImageId | includes/class-sendimagesrss-feed-fixer.php:248-269 | The result is "not in uploads" exactly when the URL does not contain the upload base URL. Otherwise it is an attachment exactly when the lookup of the normalised path finds one, and then its id is the one that lookup returns. |
| FeedFixer.SuffixRewriteThumbnail | includes/class-sendimagesrss-feed-fixer.php:259 | A `-WxH.` suffix (3–4 digits each) in the file name becomes `.`. A path with no other dash is otherwise unchanged. |
| FeedFixer.StripBase | includes/class-sendimagesrss-feed-fixer.php:262 | Removing the base path from the front of a URL leaves the rest, when the rest does not contain the base path again. |
| FeedFixer.ThumbnailResolvesToOriginal | includes/class-sendimagesrss-feed-fixer.php:256-262 | The thumbnail URL `base/stem-WxH.ext` and the original `base/stem.ext` resolve to the same lookup key `stem.ext`. |
| FeedFixer.ParentIndex | includes/class-sendimagesrss-feed-fixer.php:127 | Every image has a parent node, which is another node and not an image. |
| FeedFixer.ImageVariables | includes/class-sendimagesrss-feed-fixer.php:121-134 | `url` is the image's `src`, `id` is get_image_id of that URL and `mailchimp` the `mailchimp` rendition of that id. `caption` is the parent's `class`, `imageClass` and `width` the image's own. `maxwidth` is the configured image size (560 when unset), and `halfwidth` is `floor(maxwidth/2)`: `2·halfwidth ≤ maxwidth ≤ 2·halfwidth+1`. |
| FeedFixer.DefaultHalfWidth | includes/class-sendimagesrss-feed-fixer.php:130-131 | With no saved size, maxwidth is 560. The right and left small-image styles then cap the width at 280px. |
| FeedFixer.ImageAfter | includes/class-sendimagesrss-feed-fixer.php:103-104 | A processed image always loses `height` and has a freshly written `style` from the fixed style set. Without the rendition, `src` and `width` are unchanged. Attributes the code never writes are unchanged. |
| FeedFixer.RenditionBranch | includes/class-sendimagesrss-feed-fixer.php:150-159 | With a rendition at exact size, the image gets several attributes:<br>- `src` = esc_url(rendition URL);<br>- `width` = absint(rendition width);<br>- `style` = `display:block;margin:10px auto;`;<br>- `align` is kept.<br>The parent loses its `style` if and only if its class contains `wp-caption`. |
| FeedFixer.OtherImageBuckets | includes/class-sendimagesrss-feed-fixer.php:182-197 | Without the rendition, the image's style and `align` are set by its bucket. Right gives the right style and `align=right`. Left gives the left style and `align=left`. Centred gives `display:block;margin:10px auto;max-width:<maxwidth>px;` and keeps `align`. |
| FeedFixer.RightBeforeLeft | includes/class-sendimagesrss-feed-fixer.php:189-197 | A small image whose class or parent class contains `alignright` is floated right, even when `alignleft` is also present. |
| FeedFixer.LargeImagesCentered | includes/class-sendimagesrss-feed-fixer.php:187-198 | An image with an empty width, or one not narrower than maxwidth, is centred. So is its caption. |
| FeedFixer.CaptionOutcome | includes/class-sendimagesrss-feed-fixer.php:212-236 | A parent without `wp-caption` is unchanged. Otherwise only its `style` changes. By the parent's own class that style is `float:right`/`float:left` with the half-width cap, or `margin:0 auto;max-width:<maxwidth>px;`. |
| FeedFixer.CaptionIgnoresImageClass | includes/class-sendimagesrss-feed-fixer.php:229-235 | The caption's style does not depend on the image's own class. |
| FeedFixer.ParentAfterOnlyStyle | includes/class-sendimagesrss-feed-fixer.php:152 | Whatever branch is taken, the parent's attributes other than `style` are unchanged. |
| FeedFixer.ReplacedImage | includes/class-sendimagesrss-feed-fixer.php:145-165 | replace_images changes attributes only: tags and parents stay as parsed. |
| FeedFixer.ProcessImage | includes/class-sendimagesrss-feed-fixer.php:103-106 | One step of the walk changes attributes only. |
| FeedFixer.ProcessImageFrame | includes/class-sendimagesrss-feed-fixer.php:103-106 | One step rewrites the visited image to `ImageAfter`, and its parent to `ParentAfter` of the parent's attributes. It changes no other node. |
| FeedFixer.ParentAfterTwice | includes/class-sendimagesrss-feed-fixer.php:150-153 | Two passes over images under the same caption leave the parent as the second pass alone would. |
| FeedFixer.LastUnder | includes/class-sendimagesrss-feed-fixer.php:94-107 | The result is the last of the first `n` listed images whose parent is the given node, or none when no such image is among them. |
| FeedFixer.LastUnderShift | includes/class-sendimagesrss-feed-fixer.php:94-107 | After the loop's first turn, the last image under each parent is the same image one position earlier in the rest of the list. |
| FeedFixer.ProcessIsReplaceAfterRemoval | includes/class-sendimagesrss-feed-fixer.php:103-106 | One step is removing `height` and `style`, then replace_images. |
| FeedFixer.ImagesOfDocument | includes/class-sendimagesrss-feed-fixer.php:92 | getElementsByTagName('img') lists each image of a parsed document once, in document order. |
| FeedFixer.FirstForeign | includes/class-sendimagesrss-feed-fixer.php:96-101 | The position where the walk bails out lies within the list of images. |
| FeedFixer.FirstForeignInUploads | includes/class-sendimagesrss-feed-fixer.php:99-101 | Every image before the bail-out position is in the uploads. The image at that position is not. |
| FeedFixer.ModifyFrom | includes/class-sendimagesrss-feed-fixer.php:94-107 | The walk over a list of images changes attributes only. |
| FeedFixer.ModifyFromEffect | includes/class-sendimagesrss-feed-fixer.php:94-107 | Images before the bail-out get `ImageAfter` and images from it on are unchanged. A node that is not an image is unchanged unless it is the parent of a processed image; then it ends with `ParentAfter` of its original attributes and the last processed image under it. |
| FeedFixer.ParentResultStep | includes/class-sendimagesrss-feed-fixer.php:94-107 | Each non-image node ends the same whether judged from the document before or after the loop's first turn. |
| FeedFixer.ModifyEffectStepParents | includes/class-sendimagesrss-feed-fixer.php:94-107 | In the induction step, every non-image node ends as the parent rule of `ModifyFromEffect` says. |
| FeedFixer.ParentResultOnlyStyle | includes/class-sendimagesrss-feed-fixer.php:150-153 | A non-image node changes at most its `style` attribute. |
| FeedFixer.ModifiedImagesEffect | includes/class-sendimagesrss-feed-fixer.php:89-109 | modify_images keeps the tree's shape:<br>- Every image before the first image outside the uploads is rewritten to `ImageAfter` of its own attributes.<br>- That first external image and every later one are left untouched.<br>- A caption or other parent of rewritten images ends with `ParentAfter` of its original attributes and the last rewritten image under it, so its final style is the one that image's pass writes.<br>- Every other node is unchanged, and no node other than an image changes anything but its `style`. |
| FeedFixer.NoImagesNoChange | includes/class-sendimagesrss-feed-fixer.php:92-107 | A document without images is unchanged. |
| FeedFixer.FixOtherImages | includes/class-sendimagesrss-feed-fixer.php:177-200 | fix_other_images writes the image's attributes as `OtherImageAttrs` gives them, and changes nothing else. |
| FeedFixer.BucketAttrsFacts | includes/class-sendimagesrss-feed-fixer.php:182-198 | Whatever the alignment, the image ends with the centred, right or left style, and only `style` and `align` are written. |
| FeedFixer.OtherImageKeepsVariables | includes/class-sendimagesrss-feed-fixer.php:177-200 | After fix_other_images, get_image_variables reads the same values from the image, so fix_captions sees what fix_other_images saw. |
| FeedFixer.FixCaptions | includes/class-sendimagesrss-feed-fixer.php:212-237 | fix_captions writes the parent's attributes as `CaptionAttrs` gives them, and changes nothing else. |
| FeedFixer.ReplaceImages | includes/class-sendimagesrss-feed-fixer.php:145-165 | replace_images leaves the document as `ReplacedImage` gives it. |
| FeedFixer.ModifyImages | includes/class-sendimagesrss-feed-fixer.php:89-109 | The in-place loop with its early `return` leaves the document as `ModifiedImages` gives it. |
| FeedFixer.ModifyImage | includes/class-sendimagesrss-feed-fixer.php:103-106 | Removing height and style and then calling replace_images leaves the document as one `ProcessImage` pass gives it. |
| FeedFixer.Fix | includes/class-sendimagesrss-feed-fixer.php:30-46 | fix returns the saved first div of the modified document, with 5 characters cut from the front and 6 from the end. |
| FeedFixer.FixUnwraps | includes/class-sendimagesrss-feed-fixer.php:31-39 | When the saved div is `<div>` + X + `</div>`, fix returns exactly X. |
| FeedFixer.NoImagesPassThrough | includes/class-sendimagesrss-feed-fixer.php:30-46 | Content without images comes back unchanged, if the parser and serializer round-trip the wrapper. |
| Patterns.MatchLength | includes/class-sendimagesrss-strip-gallery.php:43-45 | A match is never empty, never longer than the text, and at least as long as the pattern's minimum. |
| Patterns.ReplaceNoMatch | includes/class-strip-gallery.php:23-27 | Text with no match is returned unchanged. |
| Patterns.ReplaceNotLonger | includes/class-sendimagesrss-strip-gallery.php:43-45 | Replacing by text no longer than the shortest match never lengthens the input. |
| Patterns.ReplaceShortens | includes/class-sendimagesrss-strip-gallery.php:43-45 | Replacing by shorter text strictly shortens any input that has a match. |
| Patterns.ReplaceUnchangedIff | includes/class-sendimagesrss-strip-gallery.php:43-45 | With shorter replacement text, the input is unchanged if and only if it has no match. |
| Patterns.ReplaceSkipsPrefix | includes/class-sendimagesrss-strip-gallery.php:43 | A prefix where no match starts is copied through unchanged. |
| Patterns.ReplaceAtMatch | includes/class-sendimagesrss-strip-gallery.php:43 | A match at the front is replaced, and the scan resumes after it. |
| Patterns.SizeSuffixMatches | includes/class-sendimagesrss-strip-gallery.php:43 | `-`, 3–4 digits, `x`, 3–4 digits, then any non-newline character is a match covering exactly those characters. |
| Patterns.BareSizeSuffixMatches | send-images-rss.php:23 | `-`, 3–4 digits, `x`, 3–4 digits is a match without a trailing character. |
| Patterns.DimensionAttrMatches | includes/class-sendimagesrss-strip-gallery.php:44-45 | `width="NN"` and `width="NNN"` (and `height`) are matches. |
| Patterns.DimensionAttrKeeps | includes/class-sendimagesrss-strip-gallery.php:44-45 | Values of 1 digit or of 4 or more digits are not matched. |
| Patterns.NoDashNoSuffix | includes/class-sendimagesrss-strip-gallery.php:43 | Text without a dash has no size-suffix match. |
| Patterns.SuffixScanSkipsNoDash | includes/class-sendimagesrss-strip-gallery.php:43 | A dash-free prefix passes through the suffix replacement untouched. |
| Dom.ElementsFrom | includes/class-sendimagesrss-strip-gallery.php:79 | getElementsByTagName: list only nodes with the tag; every such node listed; in strictly increasing document order. |
| Dom.ElementsFromSameShape | includes/class-sendimagesrss-strip-gallery.php:98 | The element list depends only on tags, so attribute changes never change it. |
| StripGallery.Strip | includes/class-sendimagesrss-strip-gallery.php:42-48 | Without a gallery the content is unchanged. With one, the result is never longer. |
| StripGallery.StripSizesNotLonger | includes/class-sendimagesrss-strip-gallery.php:43-45 | The three replacements never lengthen the content. |
| StripGallery.StripSizesUnchangedIff | includes/class-sendimagesrss-strip-gallery.php:43-45 | The three replacements leave the content unchanged if and only if none of the three patterns occurs (in turn). |
| StripGallery.SuffixAtScan | includes/class-sendimagesrss-strip-gallery.php:43 | A `-WxH<c>` at the scan position becomes `.`, and the scan goes on after `c`. |
| StripGallery.SuffixBecomesDot | includes/class-sendimagesrss-strip-gallery.php:43 | In a file name without other dashes, `-WxH<c>` is replaced by a single `.`. |
| StripGallery.AccumulatedStep | includes/class-sendimagesrss-strip-gallery.php:85-88 | The first new style is old style + filter style. The k-th new style is the k-th old style + the (k-1)-th new style. |
| StripGallery.AccumulatedClosedForm | includes/class-sendimagesrss-strip-gallery.php:85-88 | The k-th new style is the old styles k, k-1, …, 0 concatenated, then the filter style. |
| StripGallery.AccumulatedEndsWithBase | includes/class-sendimagesrss-strip-gallery.php:84-88 | Every new style ends with the filter style. |
| StripGallery.AccumulateStyles | includes/class-sendimagesrss-strip-gallery.php:85-88 | The in-place loop leaves the document as `StyledNodes` gives it. |
| StripGallery.UpdateGalleryList | includes/class-sendimagesrss-strip-gallery.php:78-89 | update_gallery_list styles every `<ul>` by the accumulation from `list-style-type:none;padding-left:0;` (or its filtered value). |
| StripGallery.UpdateGalleryItems | includes/class-sendimagesrss-strip-gallery.php:97-107 | update_gallery_items styles every `<li>` by the accumulation from `list-style-type:none;` (or its filtered value). |
| StripGallery.StyledNodesFrame | includes/class-sendimagesrss-strip-gallery.php:85-88 | Each node with the tag gets exactly the k-th accumulated style. Nodes with other tags are unchanged. |
| StripGallery.StyledNodesSameElements | includes/class-sendimagesrss-strip-gallery.php:85-88 | The loop finds the same nodes with the tag before and after, so the number of lists is unchanged. |
| StripGallery.StyledNodesRecurrence | includes/class-sendimagesrss-strip-gallery.php:85-88 | Only `style` changes. The first node gets old style + base. The k-th gets its old style + the (k-1)-th node's new style. |
| StripGallery.StyledNodesEndWithBase | includes/class-sendimagesrss-strip-gallery.php:102-106 | Every styled node's style ends with the filter's style. |
| StripGallery.ModifyBlockGallery | includes/class-sendimagesrss-strip-gallery.php:60-70 | Any block other than `core/gallery` is returned unchanged. The gallery block is saved after both loops. |
| StripGallery.StyledGalleryKeepsLists | includes/class-sendimagesrss-strip-gallery.php:66-67 | The item loop keeps the list styles the list loop wrote. Nodes that are neither lists nor items are unchanged. |
| LegacyGallery.StripGalleryImages | includes/class-strip-gallery.php:20-28 | The content is unchanged unless the request is a feed and the post has the gallery shortcode. The result is never longer. |
| LegacyGallery.AgreesWithStrip | includes/class-strip-gallery.php:22-25 | On a feed, the older stripper does exactly what the newer one does with the shortcode as its gallery flag. |
| LegacyGallery.PreservesUnmatched | includes/class-strip-gallery.php:23-27 | Content matching none of the three patterns is preserved exactly. Conversely, unchanged output on a gallery feed means no pattern occurred. |
| LegacySwap.SizedImages | send-images-rss.php:26-32 | The resize changes attributes only. |
| LegacySwap.SizedImagesEffect | send-images-rss.php:27-32 | Every `<img>` has no `height` and has `width="560px"`. Its other attributes and every other node are unchanged. |
| LegacySwap.ResizeImages | send-images-rss.php:26-32 | The in-place loop leaves the document as `SizedImages` gives it. |
| LegacySwap.ResizeStep | send-images-rss.php:27-31 | Each turn of the loop resizes one more image and leaves every node not yet visited as it was. |
| LegacySwap.ChangeFeedImages | send-images-rss.php:20-38 | Outside a feed the content is unchanged. In a feed the result is the swap. |
| LegacySwap.SwappedUnwraps | send-images-rss.php:22-34 | When the saved div is `<div>` + X + `</div>`, the result is exactly X. |
| LegacySwap.SuffixDeleted | send-images-rss.php:23 | `-WxH` is deleted with no replacement character. |
| ExcerptFixer.ThumbnailSize | includes/class-sendimagesrss-excerpt-fixer.php:33 | The size is the setting when truthy, else `thumbnail`. |
| ExcerptFixer.Alignment | includes/class-sendimagesrss-excerpt-fixer.php:34 | The alignment is the setting when truthy, else `left`. |
| ExcerptFixer.AlignmentStyle | includes/class-sendimagesrss-excerpt-fixer.php:36-52 | `"right"`, `true` and `0` give the right style; `"center"` and `"none"` give their own styles; every other string, `null`, `false` and every non-zero integer give the left style. |
| ExcerptFixer.AlignmentStyles | includes/class-sendimagesrss-excerpt-fixer.php:36-52 | The literal CSS of each case: `right`, `center` and `none` map to their styles, any other word to `margin: 0 10px 10px 0;`. Loose equality makes `true` and `0` match `right`, while non-zero integers fall to the default. |
| ExcerptFixer.DefaultAlignment | includes/class-sendimagesrss-excerpt-fixer.php:34-52 | With no alignment set, the style is the left one. |
| ExcerptFixer.Fixer.SetFeaturedImage | includes/class-sendimagesrss-excerpt-fixer.php:25-58 | The option is stored. Without a thumbnail the content is unchanged. Otherwise the linked image markup is followed by the content. |
| ExcerptFixer.Tokens | includes/class-sendimagesrss-excerpt-fixer.php:135 | Every token is non-empty and begins with `<` or a word character. |
| ExcerptFixer.TokensNotLonger | includes/class-sendimagesrss-excerpt-fixer.php:135 | The tokens together are never longer than the text. |
| ExcerptFixer.TokensOfPlainText | includes/class-sendimagesrss-excerpt-fixer.php:135 | For text without angle brackets and leading whitespace, the tokens concatenate back to the text. |
| ExcerptFixer.SentenceToken | includes/class-sendimagesrss-excerpt-fixer.php:135 | `Hi.` is one token. |
| ExcerptFixer.ExcerptLength | includes/class-sendimagesrss-excerpt-fixer.php:130 | The length is the integer value of the setting when it is truthy, and 75 when it is falsy. |
| ExcerptFixer.FirstStop | includes/class-sendimagesrss-excerpt-fixer.php:137-143 | The stop is the first token at count ≥ length that ends in `?`, `.` or `!` plus optional whitespace. No earlier token qualifies, and None means none does. |
| ExcerptFixer.ChosenSpec | includes/class-sendimagesrss-excerpt-fixer.php:137-150 | With no stop, all tokens are appended. With the first stop at k, tokens 0..k-1 are appended verbatim and token k trimmed. |
| ExcerptFixer.ChosenAtStop | includes/class-sendimagesrss-excerpt-fixer.php:139-142 | At the stop, the token is appended trimmed and the loop ends. |
| ExcerptFixer.ChosenAtEnd | includes/class-sendimagesrss-excerpt-fixer.php:137-150 | When no stop is reached, every token is appended. |
| ExcerptFixer.ChosenNonEmpty | includes/class-sendimagesrss-excerpt-fixer.php:137-150 | A text whose first token does not start with whitespace gives a non-empty excerpt. |
| ExcerptFixer.ChosenNotLonger | includes/class-sendimagesrss-excerpt-fixer.php:137-150 | The chosen part is never longer than the tokens. |
| ExcerptFixer.ExcerptOf | includes/class-sendimagesrss-excerpt-fixer.php:135-150 | The excerpt is never longer than the text. |
| ExcerptFixer.AppendChosen | includes/class-sendimagesrss-excerpt-fixer.php:137-150 | The loop's result is the accumulator followed by the chosen tokens. |
| ExcerptFixer.Fixer.AppendExcerpt | includes/class-sendimagesrss-excerpt-fixer.php:130-150 | Tokenizing and looping with the configured length appends the excerpt to the accumulator. |
| ExcerptFixer.Fixer.CountExcerpt | includes/class-sendimagesrss-excerpt-fixer.php:129-153 | As written: the result is the input followed by its excerpt, so it always begins with the input. |
| ExcerptFixer.CountExcerptRepeatsInput | includes/class-sendimagesrss-excerpt-fixer.php:141-149 | `Hi.` with length 0 gives `Hi.Hi.`. |
| ExcerptFixer.CountExcerptNeverShortens | includes/class-sendimagesrss-excerpt-fixer.php:129-153 | As written, the result is strictly longer than any input with a non-blank token, so nothing is ever cut. |
| ExcerptFixer.Fixer.CountExcerptCorrected | includes/class-sendimagesrss-excerpt-fixer.php:129-153 | As intended: the result is the excerpt alone, never longer than the input. |
| ExcerptFixer.Fixer.TrimExcerpt | includes/class-sendimagesrss-excerpt-fixer.php:66-89 | A non-empty excerpt gets the read-more link and no trimming. Otherwise the stripped post content goes through count_excerpt as written, so the excerpt is that content followed by its chosen tokens, and then gets the link. |
| ExcerptFixer.Fixer.TrimExcerptCorrected | includes/class-sendimagesrss-excerpt-fixer.php:66-89 | The same with the corrected count: the excerpt is built from the chosen tokens of the stripped content alone. |
| Settings.OneZero | includes/class-sendimagesrss-settings.php:71-73 | The result is always 0 or 1, and 1 if and only if the input is truthy. |
| Settings.MediaValue | includes/class-sendimagesrss-settings.php:81-87 | absint(new) within [200, 900] is returned. Otherwise the stored value is returned, or 560 when nothing is stored. |
| Settings.MediaValueNegative | includes/class-sendimagesrss-settings.php:82 | -300, as an integer or as text, is saved as 300. |
| Settings.MediaValueDefault | includes/class-sendimagesrss-settings.php:83-85 | An out-of-range input with nothing stored gives 560. |
| Settings.MediaValueInRange | includes/class-sendimagesrss-settings.php:82-86 | The result lies in [200, 900] whenever the stored value does, or nothing is stored. |
| Settings.MediaValueIdempotent | includes/class-sendimagesrss-settings.php:81-87 | Sanitizing an accepted value again gives the same number. |
| Settings.ShowsAlternateFeedWarning | includes/class-sendimagesrss-settings.php:160-167 | The warning shows if and only if both the alternate feed and simplify options are truthy. |
| Plugin.WithFilterRegisters | includes/class-sendimagesrss.php:95-97 | After add_filter the entry is present. Other keys are registered exactly as before. |
| Plugin.WithFilterKeepsOthers | includes/class-sendimagesrss.php:95-97 | add_filter keeps every entry with another key exactly as it was. |
| Plugin.WithoutFilterUnregisters | includes/class-sendimagesrss.php:102 | After remove_filter other keys are as before. With one entry per key, the removed key is gone and uniqueness is kept. |
| Plugin.Registry.AddFilter | includes/class-sendimagesrss.php:109 | Replaces the entry with the same key, or appends one. The size and feed tables are untouched. |
| Plugin.Registry.RemoveFilter | includes/class-sendimagesrss.php:102 | Answers whether the entry was there and drops it. |
| Plugin.Registry.AddImageSize | includes/class-sendimagesrss.php:68 | Sets one named size, to the absolute values of the width and height as absint() gives them, and nothing else. |
| Plugin.Registry.AddFeed | includes/class-sendimagesrss.php:76 | Sets one feed's handler and nothing else. |
| Plugin.ToText | includes/class-sendimagesrss.php:65 | An integer printed as text casts back to itself. |
| Plugin.MailchimpSize | includes/class-sendimagesrss.php:65-68 | The width is absint of the saved width (560 when unset), and the height is always twice the width. |
| Plugin.MailchimpDefault | includes/class-sendimagesrss.php:65-68 | With no saved width, the `mailchimp` size is 560 × 1120. |
| Plugin.MailchimpSizeInRange | includes/class-sendimagesrss.php:65-68 | A width that passed the sanitizer gives a width in [200, 900] and a height twice the width. |
| Plugin.InitMailchimp | includes/class-sendimagesrss.php:64-69 | The `mailchimp` size is set, to `MailchimpSize`, exactly when simplify is off. Other sizes are unchanged. |
| Plugin.InitEmailFeed | includes/class-sendimagesrss.php:74-77 | The `email` feed, rendered as RSS2, is added if and only if the alternate feed is on. |
| Plugin.Init | includes/class-sendimagesrss.php:63-78 | init leaves the size and feed tables as `InitSizes`/`InitFeeds` give them, and the filters untouched. |
| Plugin.FixerApplies | includes/class-sendimagesrss.php:105-108 | The fixer applies if and only if `!simplify && (!alt_feed \|\| is_feed('email'))`. It never applies with simplify on. |
| Plugin.FixFeed | includes/class-sendimagesrss.php:87-116 | fix_feed's sequence of registrations leaves the filters as `FixFeedFilters` gives them, and sizes and feeds untouched. |
| Plugin.FixFeedGate | includes/class-sendimagesrss.php:89-92 | Outside a feed, or when `rss_use_excerpt` is exactly `'1'`, nothing is registered. |
| Plugin.FixFeedHooksStripper | includes/class-sendimagesrss.php:95-97 | Past the gate, the gallery stripper at 19 and Photon's skip filter are always hooked. |
| Plugin.FixFeedKeys | includes/class-sendimagesrss.php:94-115 | Each filter's registration after fix_feed, one key at a time. Keys other than the four touched are as before. |
| Plugin.FixFeedHooksFixer | includes/class-sendimagesrss.php:105-110 | The fixer is hooked at 20 if and only if the gate passes and `!simplify && (!alt_feed \|\| is_feed('email'))`. |
| Plugin.FixFeedStripperFirst | includes/class-sendimagesrss.php:97-109 | Whenever the fixer is hooked, the stripper is hooked on the same hook at a lower priority. |
| Plugin.FixFeedRestoresPhoton | includes/class-sendimagesrss.php:100-115 | Whenever fix_feed removed Photon's filter it is re-added with 3 arguments; when it did not, Photon's entry is exactly as before. It is hooked afterwards exactly when it was before. |
| Plugin.FixFeedKeepsPhoton | includes/class-sendimagesrss.php:100-115 | When Photon's filter was not removed, each Photon entry is in the table after fix_feed exactly when it was before. |
| Plugin.FixFeedUnique | includes/class-sendimagesrss.php:94-115 | fix_feed keeps one entry per hook, callback and priority. |
| Plugin.SimplifyIgnoresAlternateFeed | includes/class-sendimagesrss.php:105-110 | When the settings warning shows, fix_feed does the same whatever the alternate feed says, and never hooks the fixer. |

## Left out

- HTML and XML parsing and serializing (`load_html`, `SendImagesRSS_Document_Getter::load`, `LoadXML`, `saveHTML`, `saveXML`), with libxml's error handling and the `mb_convert_encoding`/`iconv` conversion. They are foreign code: the model takes them as function parameters from text to a node arena and back.
- WordPress services are parameters, not modelled code:
  - `wp_upload_dir`, the `$wpdb` attachment query, `wp_get_attachment_image_src` and `esc_url`;
  - `get_option`, `is_feed`, `has_shortcode`/`has_block`, `has_post_thumbnail` and `get_the_post_thumbnail`;
  - `get_the_content`, `strip_shortcodes`, `strip_tags`, `force_balance_tags`, `get_permalink`, `get_the_title` and `get_bloginfo`;
  - every `apply_filters` hook.
- Translation (`__`) is the identity. `esc_attr` is the identity on the fixed style strings it escapes.
- Attribute order inside an element is not modelled: attributes are a map.
- Strings are sequences of characters, one per byte. Multi-byte UTF-8 and the `/u` regex flag's treatment of it are not modelled.
- The PHP version branch at includes/class-sendimagesrss-feed-fixer.php:38 is not modelled. Only the `saveHTML` branch is, since the serializer is a parameter anyway.
- `$item->original` (includes/class-sendimagesrss-feed-fixer.php:126) is fetched but never used, so it is not modelled.
- strip() removes Jetpack Photon's `image_downsize` filter (includes/class-sendimagesrss-strip-gallery.php:36-40) and never restores it. The model of `strip` covers only its text replacements.
- The `if ( ! $ul )` and `if ( ! $li )` guards (includes/class-sendimagesrss-strip-gallery.php:80, 99) are not modelled: a node list is always truthy, so they never return.
- FeedFixer.ImageVariables: the width test compares the PHP 5/7.0 integer cast of the `width` attribute with the max width, and treats `""` and `"0"` as empty, as `empty()` does. PHP's loose comparison of non-numeric width strings (and PHP 8's changed string-to-number comparison) is not modelled.
- ExcerptFixer.ExcerptLength: the length is the PHP 5/7.0 integer cast of the setting. A fractional or exponent string is cut at its first non-digit, where PHP 7.1 and later read `"5e2"` as 500.
- Settings.MediaValue: absint() is modelled with the PHP 5/7.0 cast on unbounded integers. PHP 7.1 and later read an exponent string (`"5e2"` as 500, which would be accepted), and every version caps the cast at PHP_INT_MAX; neither is modelled.
- Settings.InRange: the range test applies to the same unbounded PHP 5/7.0 cast, so it shares MediaValue's limits on exponent strings and the 64-bit bound.
- Php.LooseEqualsWord: the comparison is PHP 7's, where `0 == "right"` holds. PHP 8 compares an integer with a non-numeric string as strings, so `0` would fall to the default style there. The alignment is always truthy when it reaches the switch, so this case does not arise from the code.
- Plugin.MailchimpSize: `floor($image_width * 2)` is modelled as twice the integer cast. A saved width with a fraction or an exponent (`"560.5"`, `"5e2"`) is not modelled.
- Plugin.Registry: only the entries fix_feed and init touch are modelled. Hook execution order, actions (`add_action`), `add_feed`'s rewrite rules and the `do_feed_email` action are not; the feed table maps a feed name to its handler.
- Jetpack Photon's internals, beyond whether its filter was registered (`remove_filter`'s answer) and its re-addition.
- `run`, `load_textdomain`, `register_settings`, the `field_*`, `section_description` and `help` functions, the help and admin files, and the alternate feed class are admin UI or hook plumbing and are not part of this model.
- The `]]>` escaping and `trim()` after `force_balance_tags` in trim_excerpt are modelled. Their results feed an unmodelled filter, so no property is proved about them.
- Members whose contracts speak of the old state (the `Document`, `Registry` and `Fixer` methods and constructors) state their whole new state. The lemmas about the functions they are proved equal to carry the properties.

## Findings

| source | as written | input that shows it | evidently intended | confidence | as-written member | corrected member |
|---|---|---|---|---|---|---|
| includes/class-sendimagesrss-excerpt-fixer.php:129-153 | count_excerpt appends the chosen tokens to `$text`, the very input it tokenized (lines 141 and 149). The result is the input followed by its excerpt, so trim_excerpt never shortens the post. | `Hi.` with an excerpt length of 0 gives `Hi.Hi.` | The tokens are appended to an empty accumulator, and the result is the excerpt alone, never longer than the input. | not executed | ExcerptFixer.Fixer.CountExcerpt, ExcerptFixer.CountExcerptRepeatsInput | ExcerptFixer.Fixer.CountExcerptCorrected, ExcerptFixer.Fixer.TrimExcerptCorrected |

`ExcerptFixer.Fixer.CountExcerpt`, its lemmas and `ExcerptFixer.Fixer.TrimExcerpt` model the code as written.
`ExcerptFixer.Fixer.TrimExcerptCorrected` is trim_excerpt with the corrected count.
