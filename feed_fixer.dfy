/**
 * SendImagesRSS_Feed_Fixer: rewrites every image of a feed item so that it
 * suits an email client. Images from the site's uploads get the "mailchimp"
 * rendition when one exists at exactly that size; otherwise they are styled
 * by alignment and size, and their caption wrappers with them.
 */
module FeedFixer {
  import opened Wrappers
  import opened Php
  import opened Patterns
  import opened Dom

  /** One answer of wp_get_attachment_image_src(): URL, width, height and whether it is a resized (intermediate) file. */
  datatype ImageSrc = ImageSrc(url: string, width: int, height: int, intermediate: bool)

  /**
   * What get_image_id() returns: false for a URL outside the uploads
   * directory, otherwise the database's answer, null when no attachment
   * has that file.
   */
  datatype ImageId = NotInUploads | Unmatched | Attachment(id: nat)

  /** The WordPress services the feed fixer calls, as values. */
  datatype Site = Site(
    /** wp_upload_dir()['baseurl']. */
    uploadBaseUrl: string,
    /** The stored 'sendimagesrss_image_size' option, if any. */
    imageSizeOption: Option<nat>,
    /** The query for the attachment whose '_wp_attached_file' is the given path. */
    attachedFile: string -> Option<nat>,
    /** wp_get_attachment_image_src( $id, 'mailchimp' ); None stands for false. */
    mailchimpSrc: ImageId -> Option<ImageSrc>,
    /** esc_url(). */
    escUrl: string -> string)

  /** The HTML loader and the serializer of the document's first div. */
  datatype Loader = Loader(loadHtml: string -> Tree, saveFirstDiv: seq<Node> -> string)

  /** The max width when the option has never been saved. */
  const DefaultMaxWidth: nat := 560

  /** get_option( 'sendimagesrss_image_size', 560 ). */
  function MaxWidth(site: Site): nat {
    site.imageSizeOption.GetOr(DefaultMaxWidth)
  }

  // ---------------------------------------------------------------------
  // get_image_id

  /**
   * The file path looked up for an uploads URL: the thumbnail suffix
   * `-WWWxHHH` and the character after it become ".", then every
   * "<baseurl>/" is removed.
   */
  function AttachmentPath(url: string, baseUrl: string): string {
    Replace(Literal(baseUrl + "/"), "", Replace(SizeSuffix(true), ".", url))
  }

  /** get_image_id(): the attachment behind an image URL. */
  function GetImageId(url: string, site: Site): (id: ImageId)
    ensures id.NotInUploads? <==> !Contains(url, site.uploadBaseUrl)
    ensures Contains(url, site.uploadBaseUrl) ==>
      (id.Attachment? <==> site.attachedFile(AttachmentPath(url, site.uploadBaseUrl)).Some?)
    ensures id.Attachment? ==> site.attachedFile(AttachmentPath(url, site.uploadBaseUrl)) == Some(id.id)
  {
    if !Contains(url, site.uploadBaseUrl) then NotInUploads
    else
      match site.attachedFile(AttachmentPath(url, site.uploadBaseUrl))
      case Some(n) => Attachment(n)
      case None => Unmatched
  }

  /** The thumbnail suffix and the dot after it collapse to the dot. */
  lemma SuffixRewriteThumbnail(dir: string, w: string, h: string, ext: string)
    requires NoDash(dir) && NoDash(ext)
    requires 3 <= |w| <= 4 && 3 <= |h| <= 4
    requires forall j | 0 <= j < |w| :: IsDigit(w[j])
    requires forall j | 0 <= j < |h| :: IsDigit(h[j])
    ensures Replace(SizeSuffix(true), ".", dir + ("-" + w + "x" + h + "." + ext)) == dir + "." + ext
  {
    var thumb := "-" + w + "x" + h + ".";
    SizeSuffixMatches(w, h, '.', ext);
    assert "-" + w + "x" + h + ['.'] + ext == thumb + ext;
    ReplaceAtMatch(SizeSuffix(true), ".", thumb, ext);
    NoDashNoSuffix(ext, true);
    ReplaceNoMatch(SizeSuffix(true), ".", ext);
    SuffixScanSkipsNoDash(true, ".", dir, thumb + ext);
    assert "-" + w + "x" + h + "." + ext == thumb + ext;
  }

  /** Removing the leading "<baseurl>/" of a path that does not contain it again. */
  lemma StripBase(dir: string, rest: string)
    requires dir != [] && !HasMatch(Literal(dir), rest)
    ensures Replace(Literal(dir), "", dir + rest) == rest
  {
    assert dir <= dir + rest;
    ReplaceAtMatch(Literal(dir), "", dir, rest);
    ReplaceNoMatch(Literal(dir), "", rest);
  }

  /** The original's URL "<base>/<stem>.<ext>" is looked up under "<stem>.<ext>". */
  lemma {:induction false} OriginalResolves(base: string, stem: string, ext: string)
    requires NoDash(base) && NoDash(stem) && NoDash(ext)
    requires !HasMatch(Literal(base + "/"), stem + "." + ext)
    ensures AttachmentPath(base + "/" + stem + "." + ext, base) == stem + "." + ext
  {
    var dir := base + "/";
    var file := stem + "." + ext;
    var orig := base + "/" + stem + "." + ext;
    assert orig == dir + file;
    assert NoDash(orig);
    NoDashNoSuffix(orig, true);
    ReplaceNoMatch(SizeSuffix(true), ".", orig);
    StripBase(dir, file);
  }

  /**
   * A thumbnail URL "<base>/<stem>-WWWxHHH.<ext>" and the original
   * "<base>/<stem>.<ext>" are looked up under the same path "<stem>.<ext>",
   * so they resolve to the same attachment.
   */
  lemma {:induction false} ThumbnailResolvesToOriginal(base: string, stem: string, w: string, h: string, ext: string)
    requires NoDash(base) && NoDash(stem) && NoDash(ext)
    requires 3 <= |w| <= 4 && 3 <= |h| <= 4
    requires forall j | 0 <= j < |w| :: IsDigit(w[j])
    requires forall j | 0 <= j < |h| :: IsDigit(h[j])
    requires !HasMatch(Literal(base + "/"), stem + "." + ext)
    ensures AttachmentPath(base + "/" + stem + "-" + w + "x" + h + "." + ext, base) == stem + "." + ext
    ensures AttachmentPath(base + "/" + stem + "." + ext, base) == stem + "." + ext
  {
    var dir := base + "/";
    var thumb := base + "/" + stem + "-" + w + "x" + h + "." + ext;
    assert NoDash(dir + stem);
    SuffixRewriteThumbnail(dir + stem, w, h, ext);
    assert thumb == (dir + stem) + ("-" + w + "x" + h + "." + ext);
    assert (dir + stem) + "." + ext == dir + (stem + "." + ext);
    StripBase(dir, stem + "." + ext);
    OriginalResolves(base, stem, ext);
  }

  // ---------------------------------------------------------------------
  // get_image_variables

  /** The facts get_image_variables() collects about one image. */
  datatype Item = Item(
    url: string,
    id: ImageId,
    mailchimp: Option<ImageSrc>,
    /** The class attribute of the image's parent node. */
    caption: string,
    imageClass: string,
    width: string,
    maxwidth: nat,
    halfwidth: nat)

  /** Node `i` is an image of a well-formed document. */
  predicate IsImage(nodes: seq<Node>, i: nat) {
    WellFormed(nodes) && i < |nodes| && nodes[i].tag == "img"
  }

  function ParentIndex(nodes: seq<Node>, i: nat): (p: nat)
    requires IsImage(nodes, i)
    ensures p < |nodes| && p != i && nodes[p].tag != "img"
  {
    nodes[i].parent.value
  }

  /** get_image_variables() for image node `i`. */
  function ImageVariables(nodes: seq<Node>, i: nat, site: Site): (item: Item)
    requires IsImage(nodes, i)
    ensures item.url == GetAttribute(nodes[i].attrs, "src")
    ensures item.id == GetImageId(item.url, site)
    ensures item.mailchimp == site.mailchimpSrc(item.id)
    ensures item.caption == GetAttribute(nodes[ParentIndex(nodes, i)].attrs, "class")
    ensures item.imageClass == GetAttribute(nodes[i].attrs, "class")
    ensures item.width == GetAttribute(nodes[i].attrs, "width")
    ensures item.maxwidth == MaxWidth(site)
    ensures 2 * item.halfwidth <= item.maxwidth <= 2 * item.halfwidth + 1
  {
    var a := nodes[i].attrs;
    var url := GetAttribute(a, "src");
    var id := GetImageId(url, site);
    var maxwidth := MaxWidth(site);
    Item(url, id, site.mailchimpSrc(id), GetAttribute(nodes[ParentIndex(nodes, i)].attrs, "class"),
         GetAttribute(a, "class"), GetAttribute(a, "width"), maxwidth, maxwidth / 2)
  }

  // ---------------------------------------------------------------------
  // The styles written into the feed

  const RenditionStyle: string := "display:block;margin:10px auto;"

  function CenteredStyle(maxwidth: nat): string {
    "display:block;margin:10px auto;max-width:" + NatToString(maxwidth) + "px;"
  }

  function RightStyle(halfwidth: nat): string {
    "margin:0px 0px 10px 10px;max-width:" + NatToString(halfwidth) + "px;"
  }

  function LeftStyle(halfwidth: nat): string {
    "margin:0px 10px 10px 0px;max-width:" + NatToString(halfwidth) + "px;"
  }

  function CaptionCenteredStyle(maxwidth: nat): string {
    "margin:0 auto;max-width:" + NatToString(maxwidth) + "px;"
  }

  function CaptionRightStyle(halfwidth: nat): string {
    "float:right;max-width:" + NatToString(halfwidth) + "px;"
  }

  function CaptionLeftStyle(halfwidth: nat): string {
    "float:left;max-width:" + NatToString(halfwidth) + "px;"
  }

  // ---------------------------------------------------------------------
  // The decisions

  /** The mailchimp rendition exists at exactly its size: isset( $mailchimp[3] ) && $mailchimp[3]. */
  predicate UsesRendition(m: Option<ImageSrc>) {
    m.Some? && m.value.intermediate
  }

  /** The image declares a width (PHP's empty() is false) below the max width. */
  predicate IsSmall(item: Item) {
    !(item.width == "" || item.width == "0") && StringToInt(item.width) < item.maxwidth
  }

  datatype Bucket = Right | Left | Centered

  /** fix_other_images' alignment test: the image's class or its parent's class, right before left. */
  function ImageBucket(item: Item): Bucket {
    if IsSmall(item) && (Contains(item.imageClass, "alignright") || Contains(item.caption, "alignright")) then Right
    else if IsSmall(item) && (Contains(item.imageClass, "alignleft") || Contains(item.caption, "alignleft")) then Left
    else Centered
  }

  /** fix_captions' alignment test: the parent's class alone. */
  function CaptionBucket(item: Item): Bucket {
    if IsSmall(item) && Contains(item.caption, "alignright") then Right
    else if IsSmall(item) && Contains(item.caption, "alignleft") then Left
    else Centered
  }

  /** The image attributes after the rendition branch of replace_images(). */
  function RenditionImageAttrs(a: Attrs, m: ImageSrc, site: Site): Attrs {
    a["src" := site.escUrl(m.url)]["width" := NatToString(Abs(m.width))]["style" := RenditionStyle]
  }

  /** The parent attributes after the rendition branch: a caption loses its style. */
  function RenditionParentAttrs(p: Attrs, item: Item): Attrs {
    if Contains(item.caption, "wp-caption") then p - {"style"} else p
  }

  /** The image attributes after fix_other_images(). */
  function OtherImageAttrs(a: Attrs, item: Item): Attrs {
    BucketAttrs(a, ImageBucket(item), item.maxwidth, item.halfwidth)
  }

  /** The centred style first, then for a side bucket the alignment and the side style. */
  function BucketAttrs(a: Attrs, b: Bucket, maxwidth: nat, halfwidth: nat): Attrs {
    var centered := a["style" := CenteredStyle(maxwidth)];
    match b
    case Right => centered["align" := "right"]["style" := RightStyle(halfwidth)]
    case Left => centered["align" := "left"]["style" := LeftStyle(halfwidth)]
    case Centered => centered
  }

  /** Whatever the bucket, the image ends with one of the three styles, and only style and align are written. */
  lemma BucketAttrsFacts(a: Attrs, b: Bucket, maxwidth: nat, halfwidth: nat)
    ensures var r := BucketAttrs(a, b, maxwidth, halfwidth);
      && "style" in r
      && (r["style"] == CenteredStyle(maxwidth) || r["style"] == RightStyle(halfwidth) || r["style"] == LeftStyle(halfwidth))
      && (forall k | k != "style" && k != "align" :: (k in r <==> k in a) && (k in a ==> r[k] == a[k]))
  {
  }

  /** The parent attributes after fix_captions(). */
  function CaptionAttrs(p: Attrs, item: Item): Attrs {
    if !Contains(item.caption, "wp-caption") then p
    else
      var centered := (p - {"style"})["style" := CaptionCenteredStyle(item.maxwidth)];
      match CaptionBucket(item)
      case Right => centered["style" := CaptionRightStyle(item.halfwidth)]
      case Left => centered["style" := CaptionLeftStyle(item.halfwidth)]
      case Centered => centered
  }

  /** What replace_images() does to the image's attributes. */
  function ReplaceImageAttrs(a: Attrs, item: Item, site: Site): Attrs {
    if UsesRendition(item.mailchimp) then RenditionImageAttrs(a, item.mailchimp.value, site)
    else OtherImageAttrs(a, item)
  }

  /** What replace_images() does to the parent's attributes. */
  function ParentAfter(p: Attrs, item: Item): Attrs {
    if UsesRendition(item.mailchimp) then RenditionParentAttrs(p, item) else CaptionAttrs(p, item)
  }

  /** The attribute names replace_images() may write on the image. */
  predicate IsWrittenName(k: string) {
    k == "height" || k == "style" || k == "src" || k == "width" || k == "align"
  }

  /** The style an image of the uploads can end with. */
  predicate IsImageStyle(s: string, item: Item) {
    s == RenditionStyle || s == CenteredStyle(item.maxwidth)
    || s == RightStyle(item.halfwidth) || s == LeftStyle(item.halfwidth)
  }

  /**
   * One pass of modify_images() over an image of the uploads: height and
   * style removed, then replace_images(). The height never survives, the
   * style is always one of the plugin's own, src and width change only
   * when the rendition is used, and no other attribute is touched.
   */
  function ImageAfter(a: Attrs, item: Item, site: Site): (r: Attrs)
    ensures "height" !in r
    ensures "style" in r && IsImageStyle(r["style"], item)
    ensures !UsesRendition(item.mailchimp) ==>
      GetAttribute(r, "src") == GetAttribute(a, "src") && GetAttribute(r, "width") == GetAttribute(a, "width")
    ensures forall k | !IsWrittenName(k) :: (k in r <==> k in a) && (k in a ==> r[k] == a[k])
  {
    var stripped := a - {"height"} - {"style"};
    if UsesRendition(item.mailchimp) then
      RenditionAttrsFacts(a, stripped, item.mailchimp.value, site);
      RenditionImageAttrs(stripped, item.mailchimp.value, site)
    else
      OtherAttrsFacts(a, stripped, item);
      OtherImageAttrs(stripped, item)
  }

  /** The rendition branch writes src, width and style, and leaves every other attribute of `a` as it was. */
  lemma RenditionAttrsFacts(a: Attrs, stripped: Attrs, m: ImageSrc, site: Site)
    requires stripped == a - {"height"} - {"style"}
    ensures var r := RenditionImageAttrs(stripped, m, site);
      && "height" !in r && "style" in r && r["style"] == RenditionStyle
      && (forall k | !IsWrittenName(k) :: (k in r <==> k in a) && (k in a ==> r[k] == a[k]))
  {
  }

  /** fix_other_images() writes style and align only, and leaves every other attribute of `a` as it was. */
  lemma OtherAttrsFacts(a: Attrs, stripped: Attrs, item: Item)
    requires stripped == a - {"height"} - {"style"}
    ensures var r := OtherImageAttrs(stripped, item);
      && "height" !in r && "style" in r && IsImageStyle(r["style"], item)
      && GetAttribute(r, "src") == GetAttribute(a, "src") && GetAttribute(r, "width") == GetAttribute(a, "width")
      && (forall k | !IsWrittenName(k) :: (k in r <==> k in a) && (k in a ==> r[k] == a[k]))
  {
    BucketAttrsFacts(stripped, ImageBucket(item), item.maxwidth, item.halfwidth);
  }


  // ---------------------------------------------------------------------
  // Properties of one image

  /** With the rendition, the image takes its URL and width and the centred block style, and a caption parent loses its style. */
  lemma RenditionBranch(a: Attrs, p: Attrs, item: Item, site: Site)
    requires UsesRendition(item.mailchimp)
    ensures ImageAfter(a, item, site)["src"] == site.escUrl(item.mailchimp.value.url)
    ensures ImageAfter(a, item, site)["width"] == NatToString(Abs(item.mailchimp.value.width))
    ensures ImageAfter(a, item, site)["style"] == RenditionStyle
    ensures "align" in ImageAfter(a, item, site) <==> "align" in a
    ensures Contains(item.caption, "wp-caption") ==> ParentAfter(p, item) == p - {"style"}
    ensures !Contains(item.caption, "wp-caption") ==> ParentAfter(p, item) == p
  {
  }

  /** Without the rendition, the image's style and alignment follow its bucket. */
  lemma OtherImageBuckets(a: Attrs, item: Item, site: Site)
    requires !UsesRendition(item.mailchimp)
    ensures var r := ImageAfter(a, item, site);
      && (ImageBucket(item) == Right ==> r["style"] == RightStyle(item.halfwidth) && r["align"] == "right")
      && (ImageBucket(item) == Left ==> r["style"] == LeftStyle(item.halfwidth) && r["align"] == "left")
      && (ImageBucket(item) == Centered ==> r["style"] == CenteredStyle(item.maxwidth) && GetAttribute(r, "align") == GetAttribute(a, "align"))
  {
  }

  /** A small image marked both right and left is floated right: the right test comes first. */
  lemma RightBeforeLeft(item: Item)
    requires IsSmall(item)
    requires Contains(item.imageClass, "alignright") || Contains(item.caption, "alignright")
    ensures ImageBucket(item) == Right
  {
  }

  /** Alignment classes are ignored on an image without a width, or not narrower than the max width. */
  lemma LargeImagesCentered(item: Item)
    requires !IsSmall(item)
    ensures ImageBucket(item) == Centered && CaptionBucket(item) == Centered
  {
  }

  /**
   * fix_captions() leaves a parent without the "wp-caption" class alone,
   * and otherwise replaces only its style, by the bucket of the parent's
   * own class.
   */
  lemma CaptionOutcome(p: Attrs, item: Item)
    requires !UsesRendition(item.mailchimp)
    ensures !Contains(item.caption, "wp-caption") ==> ParentAfter(p, item) == p
    ensures Contains(item.caption, "wp-caption") ==>
      var r := ParentAfter(p, item);
      && "style" in r
      && r["style"] == (match CaptionBucket(item)
                        case Right => CaptionRightStyle(item.halfwidth)
                        case Left => CaptionLeftStyle(item.halfwidth)
                        case Centered => CaptionCenteredStyle(item.maxwidth))
      && r - {"style"} == p - {"style"}
  {
    if Contains(item.caption, "wp-caption") {
      var r := ParentAfter(p, item);
      assert r.Keys - {"style"} == p.Keys - {"style"};
    }
  }

  /** The caption's style does not depend on the image's own class. */
  lemma CaptionIgnoresImageClass(p: Attrs, item: Item, cls: string)
    ensures ParentAfter(p, item) == ParentAfter(p, item.(imageClass := cls))
  {
  }

  /** With the max width never saved, a small side-aligned image is capped at 280px. */
  lemma DefaultHalfWidth(nodes: seq<Node>, i: nat, site: Site)
    requires IsImage(nodes, i) && site.imageSizeOption.None?
    ensures ImageVariables(nodes, i, site).maxwidth == 560
    ensures RightStyle(ImageVariables(nodes, i, site).halfwidth) == "margin:0px 0px 10px 10px;max-width:280px;"
    ensures LeftStyle(ImageVariables(nodes, i, site).halfwidth) == "margin:0px 10px 10px 0px;max-width:280px;"
  {
    assert NatToString(2) == "2";
    assert NatToString(28) == NatToString(2) + "8";
    assert NatToString(280) == NatToString(28) + "0";
  }

  // ---------------------------------------------------------------------
  // The document

  /** What replace_images() does to the document. */
  function ReplacedImage(nodes: seq<Node>, i: nat, site: Site): (r: seq<Node>)
    requires IsImage(nodes, i)
    ensures SameShape(nodes, r)
  {
    var item := ImageVariables(nodes, i, site);
    var p := ParentIndex(nodes, i);
    nodes[i := nodes[i].(attrs := ReplaceImageAttrs(nodes[i].attrs, item, site))]
         [p := nodes[p].(attrs := ParentAfter(nodes[p].attrs, item))]
  }

  /** One pass of modify_images()'s loop over an image of the uploads. */
  function ProcessImage(nodes: seq<Node>, i: nat, site: Site): (r: seq<Node>)
    requires IsImage(nodes, i)
    ensures SameShape(nodes, r)
  {
    var item := ImageVariables(nodes, i, site);
    var p := ParentIndex(nodes, i);
    nodes[i := nodes[i].(attrs := ImageAfter(nodes[i].attrs, item, site))]
         [p := nodes[p].(attrs := ParentAfter(nodes[p].attrs, item))]
  }

  /** Every entry of `imgs` is an image node, and no image is listed twice. */
  predicate ImageList(nodes: seq<Node>, imgs: seq<nat>) {
    && WellFormed(nodes)
    && (forall k | 0 <= k < |imgs| :: imgs[k] < |nodes| && nodes[imgs[k]].tag == "img")
    && (forall k, l | 0 <= k < l < |imgs| :: imgs[k] != imgs[l])
  }

  /** modify_images() from image `imgs[0]` on: stop at the first image outside the uploads. */
  function ModifyFrom(nodes: seq<Node>, imgs: seq<nat>, site: Site): (r: seq<Node>)
    requires ImageList(nodes, imgs)
    ensures SameShape(nodes, r)
    decreases |imgs|
  {
    if imgs == [] then nodes
    else if ImageVariables(nodes, imgs[0], site).id.NotInUploads? then nodes
    else
      var next := ProcessImage(nodes, imgs[0], site);
      SameShapeWellFormed(nodes, next);
      ModifyFrom(next, imgs[1..], site)
  }

  lemma ImagesOfDocument(nodes: seq<Node>)
    requires WellFormed(nodes)
    ensures ImageList(nodes, ElementsByTag(nodes, "img"))
  {
  }

  /** modify_images() on the whole document. */
  function ModifiedImages(nodes: seq<Node>, site: Site): seq<Node>
    requires WellFormed(nodes)
  {
    ImagesOfDocument(nodes);
    ModifyFrom(nodes, ElementsByTag(nodes, "img"), site)
  }

  /** How many images, from the front of `imgs`, modify_images() gets through before it bails out. */
  function FirstForeign(nodes: seq<Node>, imgs: seq<nat>, site: Site): (k: nat)
    requires ImageList(nodes, imgs)
    ensures k <= |imgs|
  {
    if imgs == [] then 0
    else if !Contains(GetAttribute(nodes[imgs[0]].attrs, "src"), site.uploadBaseUrl) then 0
    else 1 + FirstForeign(nodes, imgs[1..], site)
  }

  // ---------------------------------------------------------------------
  // The whole document

  /** fix_captions() and the rendition branch only ever touch the parent's style. */
  lemma ParentAfterOnlyStyle(p: Attrs, item: Item)
    ensures ParentAfter(p, item) - {"style"} == p - {"style"}
  {
    var r := ParentAfter(p, item);
    assert (r - {"style"}).Keys == (p - {"style"}).Keys;
  }

  /**
   * Two passes over images under the same caption leave the parent as the
   * second pass alone would: each either leaves the parent as it is, or
   * removes its style and possibly writes a new one.
   */
  lemma ParentAfterTwice(p: Attrs, first: Item, second: Item)
    requires first.caption == second.caption
    ensures ParentAfter(ParentAfter(p, first), second) == ParentAfter(p, second)
  {
    if Contains(first.caption, "wp-caption") {
      var q := ParentAfter(p, first);
      assert q - {"style"} == p - {"style"} by {
        ParentAfterOnlyStyle(p, first);
      }
    }
  }

  /** The parent of the `k`-th listed image. */
  function ListedParent(nodes: seq<Node>, imgs: seq<nat>, k: nat): nat
    requires ImageList(nodes, imgs) && k < |imgs|
  {
    ParentIndex(nodes, imgs[k])
  }

  /**
   * The last of the first `n` listed images whose parent is node `j`;
   * None when no such image is among them.
   */
  function LastUnder(nodes: seq<Node>, imgs: seq<nat>, n: nat, j: nat): (m: Option<nat>)
    requires ImageList(nodes, imgs) && n <= |imgs|
    ensures m.Some? ==> m.value < n && ListedParent(nodes, imgs, m.value) == j
    ensures m.Some? ==> forall k | m.value < k < n :: ListedParent(nodes, imgs, k) != j
    ensures m.None? ==> forall k | 0 <= k < n :: ListedParent(nodes, imgs, k) != j
  {
    if n == 0 then None
    else if ListedParent(nodes, imgs, n - 1) == j then Some(n - 1)
    else LastUnder(nodes, imgs, n - 1, j)
  }

  /** Dropping the first image of the list shifts the last one under each parent down by one. */
  lemma LastUnderShift(nodes: seq<Node>, next: seq<Node>, imgs: seq<nat>, n: nat, j: nat)
    requires 1 <= n <= |imgs|
    requires ImageList(nodes, imgs) && ImageList(next, imgs[1..]) && SameShape(nodes, next)
    ensures LastUnder(next, imgs[1..], n - 1, j)
         == match LastUnder(nodes, imgs, n, j)
            case Some(m) => if m == 0 then None else Some(m - 1)
            case None => None
  {
    var rest := imgs[1..];
    forall k | 0 <= k < n - 1 ensures ListedParent(next, rest, k) == ListedParent(nodes, imgs, k + 1) {
      assert rest[k] == imgs[k + 1];
    }
    var a := LastUnder(nodes, imgs, n, j);
    var b := LastUnder(next, rest, n - 1, j);
    if b.Some? {
      assert ListedParent(nodes, imgs, b.value + 1) == j;
    }
    if a.Some? && a.value > 0 {
      assert ListedParent(next, rest, a.value - 1) == j;
    }
  }

  /** What one image's pass does to the rest of the document. */
  lemma ProcessImageFrame(nodes: seq<Node>, i: nat, site: Site)
    requires IsImage(nodes, i)
    ensures ProcessImage(nodes, i, site)[i].attrs == ImageAfter(nodes[i].attrs, ImageVariables(nodes, i, site), site)
    ensures ProcessImage(nodes, i, site)[ParentIndex(nodes, i)]
         == nodes[ParentIndex(nodes, i)].(attrs := ParentAfter(nodes[ParentIndex(nodes, i)].attrs, ImageVariables(nodes, i, site)))
    ensures forall j | 0 <= j < |nodes| && j != i && j != ParentIndex(nodes, i) :: ProcessImage(nodes, i, site)[j] == nodes[j]
    ensures forall j | 0 <= j < |nodes| && j != i && nodes[j].tag == "img" :: ProcessImage(nodes, i, site)[j] == nodes[j]
    ensures forall j | 0 <= j < |nodes| && nodes[j].tag != "img" ::
      ProcessImage(nodes, i, site)[j].attrs - {"style"} == nodes[j].attrs - {"style"}
  {
    var item := ImageVariables(nodes, i, site);
    var p := ParentIndex(nodes, i);
    ParentAfterOnlyStyle(nodes[p].attrs, item);
  }

  /** One image's pass leaves the class of every node that is not an image as it was. */
  lemma ProcessImageKeepsClasses(nodes: seq<Node>, i: nat, site: Site)
    requires IsImage(nodes, i)
    ensures forall j | 0 <= j < |nodes| && nodes[j].tag != "img" ::
      GetAttribute(ProcessImage(nodes, i, site)[j].attrs, "class") == GetAttribute(nodes[j].attrs, "class")
  {
    var next := ProcessImage(nodes, i, site);
    ProcessImageFrame(nodes, i, site);
    forall j | 0 <= j < |nodes| && nodes[j].tag != "img"
      ensures GetAttribute(next[j].attrs, "class") == GetAttribute(nodes[j].attrs, "class")
    {
      assert "class" != "style";
      assert ("class" in next[j].attrs) == ("class" in next[j].attrs - {"style"});
      assert ("class" in nodes[j].attrs) == ("class" in nodes[j].attrs - {"style"});
    }
  }

  /** The facts about an image depend only on the image and its parent's class. */
  lemma ImageVariablesAgree(a: seq<Node>, b: seq<Node>, i: nat, site: Site)
    requires IsImage(a, i) && IsImage(b, i) && a[i] == b[i]
    requires GetAttribute(a[ParentIndex(a, i)].attrs, "class") == GetAttribute(b[ParentIndex(b, i)].attrs, "class")
    ensures ImageVariables(a, i, site) == ImageVariables(b, i, site)
  {
  }

  /** Where modify_images() stops depends only on the listed images. */
  lemma {:induction false} FirstForeignAgree(a: seq<Node>, b: seq<Node>, imgs: seq<nat>, site: Site)
    requires ImageList(a, imgs) && ImageList(b, imgs)
    requires forall k | 0 <= k < |imgs| :: a[imgs[k]] == b[imgs[k]]
    ensures FirstForeign(a, imgs, site) == FirstForeign(b, imgs, site)
    decreases |imgs|
  {
    if imgs != [] {
      FirstForeignAgree(a, b, imgs[1..], site);
    }
  }

  /** The images before the first one outside the uploads have a URL inside them. */
  lemma {:induction false} FirstForeignInUploads(nodes: seq<Node>, imgs: seq<nat>, site: Site)
    requires ImageList(nodes, imgs)
    ensures forall k | 0 <= k < FirstForeign(nodes, imgs, site) ::
      Contains(GetAttribute(nodes[imgs[k]].attrs, "src"), site.uploadBaseUrl)
    ensures FirstForeign(nodes, imgs, site) < |imgs| ==>
      !Contains(GetAttribute(nodes[imgs[FirstForeign(nodes, imgs, site)]].attrs, "src"), site.uploadBaseUrl)
    decreases |imgs|
  {
    if imgs != [] && Contains(GetAttribute(nodes[imgs[0]].attrs, "src"), site.uploadBaseUrl) {
      FirstForeignInUploads(nodes, imgs[1..], site);
    }
  }

  /**
   * What the run of modify_images() over a list of distinct images does,
   * ending in `r`: the images before the first one outside the uploads
   * each get their own pass, as judged from the original document; that
   * image and all after it are left as they were, as is every image not in
   * the list; and every other node is left as it was unless it is the
   * parent of one of the processed images, in which case it ends as the
   * pass over the last of them would leave it.
   */
  predicate ModifyEffect(nodes: seq<Node>, imgs: seq<nat>, site: Site, r: seq<Node>)
    requires ImageList(nodes, imgs) && |r| == |nodes|
  {
    && (forall k | 0 <= k < FirstForeign(nodes, imgs, site) ::
          r[imgs[k]].attrs == ImageAfter(nodes[imgs[k]].attrs, ImageVariables(nodes, imgs[k], site), site))
    && (forall k | FirstForeign(nodes, imgs, site) <= k < |imgs| :: r[imgs[k]] == nodes[imgs[k]])
    && (forall j | 0 <= j < |nodes| && nodes[j].tag == "img" && j !in imgs :: r[j] == nodes[j])
    && (forall j | 0 <= j < |nodes| && nodes[j].tag != "img" :: r[j] == ParentResult(nodes, imgs, site, j))
  }

  /**
   * Node `j` as the run leaves it when it is not an image: unchanged unless
   * it is the parent of a processed image, and then with the parent
   * attributes of the pass over the last such image.
   */
  function ParentResult(nodes: seq<Node>, imgs: seq<nat>, site: Site, j: nat): Node
    requires ImageList(nodes, imgs) && j < |nodes|
  {
    ParentAfterFirst(nodes, imgs, FirstForeign(nodes, imgs, site), site, j)
  }

  /** Node `j` after the passes over the first `n` listed images, as ParentResult describes it. */
  function ParentAfterFirst(nodes: seq<Node>, imgs: seq<nat>, n: nat, site: Site, j: nat): Node
    requires ImageList(nodes, imgs) && n <= |imgs| && j < |nodes|
  {
    match LastUnder(nodes, imgs, n, j)
    case None => nodes[j]
    case Some(m) => nodes[j].(attrs := ParentAfter(nodes[j].attrs, ImageVariables(nodes, imgs[m], site)))
  }

  /** Part of the induction step: the images the run gets through each end as their own pass leaves them. */
  lemma ModifyEffectStepProcessed(nodes: seq<Node>, imgs: seq<nat>, site: Site)
    requires ImageList(nodes, imgs) && imgs != [] && !ImageVariables(nodes, imgs[0], site).id.NotInUploads?
    requires ImageList(ProcessImage(nodes, imgs[0], site), imgs[1..])
    requires ModifyEffect(ProcessImage(nodes, imgs[0], site), imgs[1..], site,
                          ModifyFrom(ProcessImage(nodes, imgs[0], site), imgs[1..], site))
    ensures |ModifyFrom(nodes, imgs, site)| == |nodes|
    ensures forall k | 0 <= k < FirstForeign(nodes, imgs, site) ::
      ModifyFrom(nodes, imgs, site)[imgs[k]].attrs == ImageAfter(nodes[imgs[k]].attrs, ImageVariables(nodes, imgs[k], site), site)
  {
    var i := imgs[0];
    var next := ProcessImage(nodes, i, site);
    var rest := imgs[1..];
    var r := ModifyFrom(next, rest, site);
    ModifyFromUnfold(nodes, imgs, site);
    FirstPassFacts(nodes, imgs, site);
    ProcessImageFrame(nodes, i, site);
    var n := FirstForeign(nodes, imgs, site);
    forall k | 0 <= k < n
      ensures r[imgs[k]].attrs == ImageAfter(nodes[imgs[k]].attrs, ImageVariables(nodes, imgs[k], site), site)
    {
      if k == 0 {
        assert i !in rest;
      } else {
        assert rest[k - 1] == imgs[k];
      }
    }
  }

  /** An image after the first that the run gets through is judged the same in the document after the first pass. */
  lemma ModifyEffectStepLater(nodes: seq<Node>, imgs: seq<nat>, site: Site, k: nat)
    requires ImageList(nodes, imgs) && 0 < k < |imgs|
    requires ImageList(ProcessImage(nodes, imgs[0], site), imgs[1..])
    requires forall j | 0 <= j < |nodes| && nodes[j].tag != "img" ::
      GetAttribute(ProcessImage(nodes, imgs[0], site)[j].attrs, "class") == GetAttribute(nodes[j].attrs, "class")
    requires ProcessImage(nodes, imgs[0], site)[imgs[k]] == nodes[imgs[k]]
    ensures ImageVariables(ProcessImage(nodes, imgs[0], site), imgs[k], site) == ImageVariables(nodes, imgs[k], site)
  {
    ImageVariablesAgree(ProcessImage(nodes, imgs[0], site), nodes, imgs[k], site);
  }

  /** The induction step of ModifyFromEffect: the effect on the rest after one pass gives the effect on the whole list. */
  lemma ModifyEffectStep(nodes: seq<Node>, imgs: seq<nat>, site: Site)
    requires ImageList(nodes, imgs) && imgs != [] && !ImageVariables(nodes, imgs[0], site).id.NotInUploads?
    requires ImageList(ProcessImage(nodes, imgs[0], site), imgs[1..])
    requires ModifyEffect(ProcessImage(nodes, imgs[0], site), imgs[1..], site,
                          ModifyFrom(ProcessImage(nodes, imgs[0], site), imgs[1..], site))
    ensures ModifyEffect(nodes, imgs, site, ModifyFrom(nodes, imgs, site))
  {
    var i := imgs[0];
    var next := ProcessImage(nodes, i, site);
    var rest := imgs[1..];
    ProcessImageFrame(nodes, i, site);
    var r := ModifyFrom(next, rest, site);
    ModifyFromUnfold(nodes, imgs, site);
    ModifyEffectStepProcessed(nodes, imgs, site);
    forall k | 0 <= k < |rest| ensures next[rest[k]] == nodes[rest[k]] {
      assert rest[k] == imgs[k + 1];
    }
    FirstForeignAgree(next, nodes, rest, site);
    var n := FirstForeign(nodes, imgs, site);
    assert n == 1 + FirstForeign(nodes, rest, site);
    forall k | n <= k < |imgs| ensures r[imgs[k]] == nodes[imgs[k]] {
      assert imgs[k] == rest[k - 1];
    }
    forall j | 0 <= j < |nodes| && nodes[j].tag == "img" && j !in imgs ensures r[j] == nodes[j] {
      assert j !in rest;
    }
    ModifyEffectStepParents(nodes, imgs, site);
  }

  /** Part of the induction step: every node that is not an image ends as ParentResult says. */
  lemma ModifyEffectStepParents(nodes: seq<Node>, imgs: seq<nat>, site: Site)
    requires ImageList(nodes, imgs) && imgs != [] && !ImageVariables(nodes, imgs[0], site).id.NotInUploads?
    requires ImageList(ProcessImage(nodes, imgs[0], site), imgs[1..])
    requires ModifyEffect(ProcessImage(nodes, imgs[0], site), imgs[1..], site,
                          ModifyFrom(ProcessImage(nodes, imgs[0], site), imgs[1..], site))
    ensures |ModifyFrom(nodes, imgs, site)| == |nodes|
    ensures forall j | 0 <= j < |nodes| && nodes[j].tag != "img" ::
      ModifyFrom(nodes, imgs, site)[j] == ParentResult(nodes, imgs, site, j)
  {
    var next := ProcessImage(nodes, imgs[0], site);
    var r := ModifyFrom(next, imgs[1..], site);
    ModifyFromUnfold(nodes, imgs, site);
    ParentsAfterFirstPass(nodes, imgs, site);
  }

  /** Every node that is not an image ends the same, whether judged before or after the first pass. */
  lemma ParentsAfterFirstPass(nodes: seq<Node>, imgs: seq<nat>, site: Site)
    requires ImageList(nodes, imgs) && imgs != [] && !ImageVariables(nodes, imgs[0], site).id.NotInUploads?
    requires ImageList(ProcessImage(nodes, imgs[0], site), imgs[1..])
    ensures forall j | 0 <= j < |nodes| && nodes[j].tag != "img" ::
      ParentResult(ProcessImage(nodes, imgs[0], site), imgs[1..], site, j) == ParentResult(nodes, imgs, site, j)
  {
    var next := ProcessImage(nodes, imgs[0], site);
    var rest := imgs[1..];
    var n := FirstForeign(nodes, imgs, site);
    ProcessImageFrame(nodes, imgs[0], site);
    FirstPassFacts(nodes, imgs, site);
    assert ListedParent(nodes, imgs, 0) == ParentIndex(nodes, imgs[0]);
    ParentsAgree(nodes, next, imgs, n, site);
  }

  /** ParentResult with the number of images the run gets through already known. */
  lemma ParentResultCount(nodes: seq<Node>, imgs: seq<nat>, n: nat, site: Site, j: nat)
    requires ImageList(nodes, imgs) && j < |nodes| && n == FirstForeign(nodes, imgs, site)
    ensures ParentResult(nodes, imgs, site, j) == ParentAfterFirst(nodes, imgs, n, site, j)
  {
  }

  /** After the first pass the run stops at the same image, and the later images read the same. */
  lemma FirstPassFacts(nodes: seq<Node>, imgs: seq<nat>, site: Site)
    requires ImageList(nodes, imgs) && imgs != [] && !ImageVariables(nodes, imgs[0], site).id.NotInUploads?
    requires ImageList(ProcessImage(nodes, imgs[0], site), imgs[1..])
    ensures FirstForeign(nodes, imgs, site) == 1 + FirstForeign(ProcessImage(nodes, imgs[0], site), imgs[1..], site)
    ensures forall k | 0 <= k < |imgs| - 1 ::
      ImageVariables(ProcessImage(nodes, imgs[0], site), imgs[1..][k], site) == ImageVariables(nodes, imgs[k + 1], site)
  {
    var i := imgs[0];
    var next := ProcessImage(nodes, i, site);
    var rest := imgs[1..];
    ProcessImageFrame(nodes, i, site);
    ProcessImageKeepsClasses(nodes, i, site);
    forall k | 0 <= k < |rest| ensures next[rest[k]] == nodes[rest[k]] {
      assert rest[k] == imgs[k + 1];
    }
    FirstForeignAgree(next, nodes, rest, site);
    forall k | 0 <= k < |rest| ensures ImageVariables(next, rest[k], site) == ImageVariables(nodes, imgs[k + 1], site) {
      assert rest[k] == imgs[k + 1];
      ModifyEffectStepLater(nodes, imgs, site, k + 1);
    }
  }

  /** ParentResultStep for every node that is not an image. */
  lemma ParentsAgree(nodes: seq<Node>, next: seq<Node>, imgs: seq<nat>, n: nat, site: Site)
    requires 1 <= n <= |imgs|
    requires ImageList(nodes, imgs) && ImageList(next, imgs[1..]) && SameShape(nodes, next)
    requires next[ListedParent(nodes, imgs, 0)] == nodes[ListedParent(nodes, imgs, 0)].(attrs :=
      ParentAfter(nodes[ListedParent(nodes, imgs, 0)].attrs, ImageVariables(nodes, imgs[0], site)))
    requires forall l | 0 <= l < |nodes| && l != imgs[0] && l != ListedParent(nodes, imgs, 0) :: next[l] == nodes[l]
    requires forall k | 0 <= k < |imgs| - 1 :: ImageVariables(next, imgs[1..][k], site) == ImageVariables(nodes, imgs[k + 1], site)
    requires n == FirstForeign(nodes, imgs, site) && n - 1 == FirstForeign(next, imgs[1..], site)
    ensures forall j | 0 <= j < |nodes| && nodes[j].tag != "img" ::
      ParentResult(next, imgs[1..], site, j) == ParentResult(nodes, imgs, site, j)
  {
    forall j | 0 <= j < |nodes| && nodes[j].tag != "img"
      ensures ParentResult(next, imgs[1..], site, j) == ParentResult(nodes, imgs, site, j)
    {
      LastUnderShift(nodes, next, imgs, n, j);
      ParentResultStep(nodes, next, imgs, n, site, j);
      ParentResultCount(next, imgs[1..], n - 1, site, j);
      ParentResultCount(nodes, imgs, n, site, j);
    }
  }

  /**
   * A node that is not an image ends the same whether judged from the
   * document before or after the first pass, given what that pass does:
   * it rewrites the parent of the first image, leaves every other node
   * that is not an image as it was, and the later images read the same
   * afterwards.
   */
  lemma ParentResultStep(nodes: seq<Node>, next: seq<Node>, imgs: seq<nat>, n: nat, site: Site, j: nat)
    requires 1 <= n <= |imgs|
    requires ImageList(nodes, imgs) && ImageList(next, imgs[1..])
    requires j < |nodes| && j < |next|
    requires LastUnder(next, imgs[1..], n - 1, j)
          == match LastUnder(nodes, imgs, n, j)
             case Some(m) => if m == 0 then None else Some(m - 1)
             case None => None
    requires ListedParent(nodes, imgs, 0) == j ==>
      next[j] == nodes[j].(attrs := ParentAfter(nodes[j].attrs, ImageVariables(nodes, imgs[0], site)))
    requires ListedParent(nodes, imgs, 0) != j ==> next[j] == nodes[j]
    requires forall k | 0 <= k < |imgs| - 1 :: ImageVariables(next, imgs[1..][k], site) == ImageVariables(nodes, imgs[k + 1], site)
    ensures ParentAfterFirst(next, imgs[1..], n - 1, site, j) == ParentAfterFirst(nodes, imgs, n, site, j)
  {
    match LastUnder(nodes, imgs, n, j)
    case None =>
      assert ListedParent(nodes, imgs, 0) != j;
    case Some(m) =>
      if m > 0 {
        assert ImageVariables(next, imgs[1..][m - 1], site) == ImageVariables(nodes, imgs[m], site);
        if ListedParent(nodes, imgs, 0) == j {
          ParentAfterTwice(nodes[j].attrs, ImageVariables(nodes, imgs[0], site), ImageVariables(nodes, imgs[m], site));
        }
      }
  }

  /** The run of modify_images() over a list of distinct images has the effect ModifyEffect describes. */
  lemma {:induction false} ModifyFromEffect(nodes: seq<Node>, imgs: seq<nat>, site: Site)
    requires ImageList(nodes, imgs)
    ensures ModifyEffect(nodes, imgs, site, ModifyFrom(nodes, imgs, site))
    decreases |imgs|
  {
    if imgs != [] && !ImageVariables(nodes, imgs[0], site).id.NotInUploads? {
      var next := ProcessImage(nodes, imgs[0], site);
      ImageListSameShape(nodes, next, imgs);
      assert ImageList(next, imgs[1..]);
      ModifyFromEffect(next, imgs[1..], site);
      ModifyEffectStep(nodes, imgs, site);
    }
  }

  /**
   * modify_images() on a whole document: the images before the first one
   * outside the uploads directory are rewritten, each as its own pass
   * would on the original document; from that image on nothing is
   * touched; captions and other nodes change only their style; and the
   * tree keeps its shape.
   */
  lemma ModifiedImagesEffect(nodes: seq<Node>, site: Site)
    requires WellFormed(nodes)
    ensures var imgs := ElementsByTag(nodes, "img");
      var n := FirstForeign(nodes, imgs, site);
      var r := ModifiedImages(nodes, site);
      && SameShape(nodes, r)
      && (forall k | 0 <= k < n ::
            Contains(GetAttribute(nodes[imgs[k]].attrs, "src"), site.uploadBaseUrl)
            && r[imgs[k]].attrs == ImageAfter(nodes[imgs[k]].attrs, ImageVariables(nodes, imgs[k], site), site))
      && (n < |imgs| ==> !Contains(GetAttribute(nodes[imgs[n]].attrs, "src"), site.uploadBaseUrl))
      && (forall k | n <= k < |imgs| :: r[imgs[k]] == nodes[imgs[k]])
      && (forall j | 0 <= j < |nodes| && nodes[j].tag != "img" ::
            match LastUnder(nodes, imgs, n, j)
            case None => r[j] == nodes[j]
            case Some(m) => r[j] == nodes[j].(attrs := ParentAfter(nodes[j].attrs, ImageVariables(nodes, imgs[m], site))))
      && (forall j | 0 <= j < |nodes| && nodes[j].tag != "img" :: r[j].attrs - {"style"} == nodes[j].attrs - {"style"})
  {
    var imgs := ElementsByTag(nodes, "img");
    ImagesOfDocument(nodes);
    ModifyFromEffect(nodes, imgs, site);
    FirstForeignInUploads(nodes, imgs, site);
    forall j | 0 <= j < |nodes| && nodes[j].tag != "img" {
      ParentResultOnlyStyle(nodes, imgs, site, j);
    }
  }

  /** A node that is not an image changes at most its style. */
  lemma ParentResultOnlyStyle(nodes: seq<Node>, imgs: seq<nat>, site: Site, j: nat)
    requires ImageList(nodes, imgs) && j < |nodes|
    ensures ParentResult(nodes, imgs, site, j).attrs - {"style"} == nodes[j].attrs - {"style"}
  {
    match LastUnder(nodes, imgs, FirstForeign(nodes, imgs, site), j)
    case None =>
    case Some(m) =>
      ParentAfterOnlyStyle(nodes[j].attrs, ImageVariables(nodes, imgs[m], site));
  }

  /** A document without images comes back unchanged. */
  lemma NoImagesNoChange(nodes: seq<Node>, site: Site)
    requires WellFormed(nodes)
    requires forall j | 0 <= j < |nodes| :: nodes[j].tag != "img"
    ensures ModifiedImages(nodes, site) == nodes
  {
    ElementsFromNone(nodes, "img", 0);
  }

  // ---------------------------------------------------------------------
  // The methods

  /** fix_other_images(). */
  method FixOtherImages(doc: Document, i: nat, site: Site)
    requires IsImage(doc.nodes, i)
    modifies doc
    ensures doc.nodes == old(doc.nodes)[i := old(doc.nodes)[i].(attrs :=
      OtherImageAttrs(old(doc.nodes)[i].attrs, ImageVariables(old(doc.nodes), i, site)))]
  {
    var item := ImageVariables(doc.nodes, i, site);
    doc.SetAttribute(i, "style", CenteredStyle(item.maxwidth));
    if !(item.width == "" || item.width == "0") {
      if (Contains(item.imageClass, "alignright") || Contains(item.caption, "alignright")) && StringToInt(item.width) < item.maxwidth {
        doc.SetAttribute(i, "align", "right");
        doc.SetAttribute(i, "style", RightStyle(item.halfwidth));
      } else if (Contains(item.imageClass, "alignleft") || Contains(item.caption, "alignleft")) && StringToInt(item.width) < item.maxwidth {
        doc.SetAttribute(i, "align", "left");
        doc.SetAttribute(i, "style", LeftStyle(item.halfwidth));
      }
    }
  }

  /** fix_captions(). */
  method FixCaptions(doc: Document, i: nat, site: Site)
    requires IsImage(doc.nodes, i)
    modifies doc
    ensures doc.nodes == old(doc.nodes)[ParentIndex(old(doc.nodes), i) := old(doc.nodes)[ParentIndex(old(doc.nodes), i)].(attrs :=
      CaptionAttrs(old(doc.nodes)[ParentIndex(old(doc.nodes), i)].attrs, ImageVariables(old(doc.nodes), i, site)))]
  {
    var item := ImageVariables(doc.nodes, i, site);
    var p := ParentIndex(doc.nodes, i);
    ghost var before := doc.nodes;
    if !Contains(item.caption, "wp-caption") {
      return;
    }
    ghost var node := before[p];
    ghost var centered := (node.attrs - {"style"})["style" := CaptionCenteredStyle(item.maxwidth)];
    doc.RemoveAttribute(p, "style");
    doc.SetAttribute(p, "style", CaptionCenteredStyle(item.maxwidth));
    UpdateTwice(before, p, node.(attrs := node.attrs - {"style"}), node.(attrs := centered));
    if !(item.width == "" || item.width == "0") {
      if Contains(item.caption, "alignright") && StringToInt(item.width) < item.maxwidth {
        doc.SetAttribute(p, "style", CaptionRightStyle(item.halfwidth));
        UpdateTwice(before, p, node.(attrs := centered), node.(attrs := centered["style" := CaptionRightStyle(item.halfwidth)]));
      } else if Contains(item.caption, "alignleft") && StringToInt(item.width) < item.maxwidth {
        doc.SetAttribute(p, "style", CaptionLeftStyle(item.halfwidth));
        UpdateTwice(before, p, node.(attrs := centered), node.(attrs := centered["style" := CaptionLeftStyle(item.halfwidth)]));
      }
    }
  }

  /** fix_other_images() writes only the style and alignment, so the image's variables read the same afterwards. */
  lemma OtherImageKeepsVariables(nodes: seq<Node>, i: nat, site: Site)
    requires IsImage(nodes, i)
    ensures var mid := nodes[i := nodes[i].(attrs := OtherImageAttrs(nodes[i].attrs, ImageVariables(nodes, i, site)))];
      IsImage(mid, i) && ParentIndex(mid, i) == ParentIndex(nodes, i)
      && ImageVariables(mid, i, site) == ImageVariables(nodes, i, site)
  {
    var a := nodes[i].attrs;
    var item := ImageVariables(nodes, i, site);
    var mid := nodes[i := nodes[i].(attrs := OtherImageAttrs(a, item))];
    SameShapeWellFormed(nodes, mid);
    var p := ParentIndex(nodes, i);
    assert mid[p] == nodes[p];
    BucketAttrsFacts(a, ImageBucket(item), item.maxwidth, item.halfwidth);
    assert GetAttribute(mid[i].attrs, "src") == GetAttribute(a, "src");
    assert GetAttribute(mid[i].attrs, "class") == GetAttribute(a, "class");
    assert GetAttribute(mid[i].attrs, "width") == GetAttribute(a, "width");
  }


  /** replace_images(). */
  method ReplaceImages(doc: Document, i: nat, site: Site)
    requires IsImage(doc.nodes, i)
    modifies doc
    ensures doc.nodes == ReplacedImage(old(doc.nodes), i, site)
  {
    var item := ImageVariables(doc.nodes, i, site);
    var p := ParentIndex(doc.nodes, i);
    if UsesRendition(item.mailchimp) {
      if Contains(item.caption, "wp-caption") {
        doc.RemoveAttribute(p, "style");
      }
      doc.SetAttribute(i, "src", site.escUrl(item.mailchimp.value.url));
      doc.SetAttribute(i, "width", NatToString(Abs(item.mailchimp.value.width)));
      doc.SetAttribute(i, "style", RenditionStyle);
    } else {
      FixOtherImages(doc, i, site);
      OtherImageKeepsVariables(old(doc.nodes), i, site);
      FixCaptions(doc, i, site);
    }
  }

  /** The pass over one image is removing height and style, then replace_images(). */
  lemma ProcessIsReplaceAfterRemoval(nodes: seq<Node>, i: nat, site: Site)
    requires IsImage(nodes, i)
    ensures IsImage(WithoutAttribute(WithoutAttribute(nodes, i, "height"), i, "style"), i)
    ensures ProcessImage(nodes, i, site)
         == ReplacedImage(WithoutAttribute(WithoutAttribute(nodes, i, "height"), i, "style"), i, site)
  {
    var stripped := WithoutAttribute(WithoutAttribute(nodes, i, "height"), i, "style");
    SameShapeWellFormed(nodes, stripped);
    assert ImageVariables(stripped, i, site) == ImageVariables(nodes, i, site);
  }

  lemma ImageListSameShape(a: seq<Node>, b: seq<Node>, imgs: seq<nat>)
    requires ImageList(a, imgs) && SameShape(a, b)
    ensures ImageList(b, imgs)
  {
    SameShapeWellFormed(a, b);
  }

  /** One turn of modify_images()'s loop, seen from the whole remaining run. */
  lemma ModifyFromStep(nodes: seq<Node>, imgs: seq<nat>, k: nat, site: Site)
    requires k < |imgs| && ImageList(nodes, imgs[k..])
    requires !ImageVariables(nodes, imgs[k], site).id.NotInUploads?
    ensures IsImage(nodes, imgs[k])
    ensures ImageList(ProcessImage(nodes, imgs[k], site), imgs[k + 1..])
    ensures ModifyFrom(nodes, imgs[k..], site) == ModifyFrom(ProcessImage(nodes, imgs[k], site), imgs[k + 1..], site)
  {
    var rest := imgs[k..];
    assert rest[0] == imgs[k];
    assert rest[1..] == imgs[k + 1..];
    ModifyFromUnfold(nodes, rest, site);
  }

  /** The first turn of modify_images()'s loop, when it does not bail out. */
  lemma ModifyFromUnfold(nodes: seq<Node>, imgs: seq<nat>, site: Site)
    requires ImageList(nodes, imgs) && imgs != []
    requires !ImageVariables(nodes, imgs[0], site).id.NotInUploads?
    ensures ImageList(ProcessImage(nodes, imgs[0], site), imgs[1..])
    ensures ModifyFrom(nodes, imgs, site) == ModifyFrom(ProcessImage(nodes, imgs[0], site), imgs[1..], site)
  {
    ImageListSameShape(nodes, ProcessImage(nodes, imgs[0], site), imgs[1..]);
  }

  /** The run stops at an image outside the uploads. */
  lemma ModifyFromStop(nodes: seq<Node>, imgs: seq<nat>, k: nat, site: Site)
    requires k < |imgs| && ImageList(nodes, imgs[k..])
    requires ImageVariables(nodes, imgs[k], site).id.NotInUploads?
    ensures ModifyFrom(nodes, imgs[k..], site) == nodes
  {
    assert imgs[k..][0] == imgs[k];
  }

  /** The body of modify_images()'s loop for an image of the uploads: remove height and style, then replace_images(). */
  method ModifyImage(doc: Document, i: nat, site: Site)
    requires IsImage(doc.nodes, i)
    modifies doc
    ensures doc.nodes == ProcessImage(old(doc.nodes), i, site)
  {
    ProcessIsReplaceAfterRemoval(doc.nodes, i, site);
    doc.RemoveAttribute(i, "height");
    doc.RemoveAttribute(i, "style");
    ReplaceImages(doc, i, site);
  }

  /** modify_images(). */
  method ModifyImages(doc: Document, site: Site)
    requires WellFormed(doc.nodes)
    modifies doc
    ensures doc.nodes == ModifiedImages(old(doc.nodes), site)
  {
    ImagesOfDocument(doc.nodes);
    var images := ElementsByTag(doc.nodes, "img");
    var k := 0;
    assert images[k..] == images;
    while k < |images|
      invariant 0 <= k <= |images|
      invariant ImageList(doc.nodes, images[k..])
      invariant ModifyFrom(doc.nodes, images[k..], site) == ModifiedImages(old(doc.nodes), site)
    {
      var image := images[k];
      var item := ImageVariables(doc.nodes, image, site);
      if item.id.NotInUploads? {
        ModifyFromStop(doc.nodes, images, k, site);
        return;
      }
      ModifyFromStep(doc.nodes, images, k, site);
      ModifyImage(doc, image, site);
      k := k + 1;
    }
    assert images[k..] == [];
  }

  /** The content fix() returns: the saved first div with its "<div>" and "</div>" cut off. */
  function FixedContent(content: string, site: Site, loader: Loader): string {
    SubstrDropEnds(loader.saveFirstDiv(ModifiedImages(loader.loadHtml("<div>" + content + "</div>"), site)), 5, 6)
  }

  /** fix(): wrap the content in a div, load it, modify its images, save the div and cut the wrapper off again. */
  method Fix(content: string, site: Site, loader: Loader) returns (r: string)
    ensures r == FixedContent(content, site, loader)
  {
    var wrapped := "<div>" + content + "</div>";
    var doc := new Document(loader.loadHtml(wrapped));
    ModifyImages(doc, site);
    r := SubstrDropEnds(loader.saveFirstDiv(doc.nodes), 5, 6);
  }

  /** When the saved div is "<div>" + body + "</div>", fix() returns exactly the body. */
  lemma FixUnwraps(content: string, site: Site, loader: Loader, body: string)
    requires loader.saveFirstDiv(ModifiedImages(loader.loadHtml("<div>" + content + "</div>"), site)) == "<div>" + body + "</div>"
    ensures FixedContent(content, site, loader) == body
  {
    var saved := "<div>" + body + "</div>";
    assert |"<div>"| == 5 && |"</div>"| == 6;
  }

  /**
   * Content without images passes through unchanged, provided the parser
   * and serializer give the wrapped content back as it was.
   */
  lemma NoImagesPassThrough(content: string, site: Site, loader: Loader)
    requires var tree := loader.loadHtml("<div>" + content + "</div>");
      && (forall j | 0 <= j < |tree| :: tree[j].tag != "img")
      && loader.saveFirstDiv(tree) == "<div>" + content + "</div>"
    ensures FixedContent(content, site, loader) == content
  {
    var tree := loader.loadHtml("<div>" + content + "</div>");
    NoImagesNoChange(tree, site);
    FixUnwraps(content, site, loader, content);
  }
}
