/**
 * change_feed_images(), the plugin's predecessor "RSS Full Size Image
 * Swap": in a feed, strip the thumbnail suffix from every file name and
 * force every image to 560px wide without a height.
 */
module LegacySwap {
  import opened Php
  import opened Patterns
  import opened Dom

  /** DOMDocument::loadXML and the saveXML of the document's first div. */
  datatype XmlLoader = XmlLoader(loadXml: string -> seq<Node>, saveFirstDiv: seq<Node> -> string)

  /** The width every image is given. */
  const SwapWidth: string := "560px"

  /** An image's attributes after the loop body: no height, width 560px. */
  function Sized(a: Attrs): Attrs {
    (a - {"height"})["width" := SwapWidth]
  }

  /** The document after the loop: every `img` resized, the other nodes as they were. */
  function SizedImages(nodes: seq<Node>): (r: seq<Node>)
    ensures SameShape(nodes, r)
  {
    seq(|nodes|, i requires 0 <= i < |nodes| =>
      if nodes[i].tag == "img" then nodes[i].(attrs := Sized(nodes[i].attrs)) else nodes[i])
  }

  /**
   * After the loop every image has no height and is 560px wide, keeps its
   * other attributes, and no other node changes.
   */
  lemma SizedImagesEffect(nodes: seq<Node>)
    ensures var r := SizedImages(nodes);
      forall i | 0 <= i < |nodes| ::
        if nodes[i].tag == "img" then
          "height" !in r[i].attrs && r[i].attrs["width"] == "560px"
          && (forall k | k != "height" && k != "width" :: (k in r[i].attrs <==> k in nodes[i].attrs)
                && (k in nodes[i].attrs ==> r[i].attrs[k] == nodes[i].attrs[k]))
        else r[i] == nodes[i]
  {
  }

  /** The images listed in `done` are resized and every other node is as in `start`. */
  predicate ResizedUpTo(start: seq<Node>, cur: seq<Node>, done: seq<nat>) {
    && SameShape(start, cur)
    && (forall j | 0 <= j < |start| && j in done :: cur[j] == start[j].(attrs := Sized(start[j].attrs)))
    && (forall j | 0 <= j < |start| && j !in done :: cur[j] == start[j])
  }

  /** One turn of the loop resizes one more image. */
  lemma ResizeStep(start: seq<Node>, cur: seq<Node>, done: seq<nat>, image: nat)
    requires ResizedUpTo(start, cur, done) && image < |start| && image !in done
    ensures ResizedUpTo(start, WithAttribute(WithoutAttribute(cur, image, "height"), image, "width", SwapWidth), done + [image])
  {
  }

  /** With every image done, the document is SizedImages of the start. */
  lemma ResizedAll(start: seq<Node>, cur: seq<Node>)
    requires ResizedUpTo(start, cur, ElementsByTag(start, "img"))
    ensures cur == SizedImages(start)
  {
  }

  /** The foreach over the images. */
  method ResizeImages(doc: Document)
    modifies doc
    ensures doc.nodes == SizedImages(old(doc.nodes))
  {
    var images := ElementsByTag(doc.nodes, "img");
    ghost var start := doc.nodes;
    var k := 0;
    while k < |images|
      invariant 0 <= k <= |images|
      invariant ResizedUpTo(start, doc.nodes, images[..k])
    {
      var image := images[k];
      assert image !in images[..k];
      ResizeStep(start, doc.nodes, images[..k], image);
      doc.RemoveAttribute(image, "height");
      doc.SetAttribute(image, "width", SwapWidth);
      assert images[..k + 1] == images[..k] + [image];
      k := k + 1;
    }
    assert images[..k] == images;
    ResizedAll(start, doc.nodes);
  }

  /** The content change_feed_images() returns in a feed. */
  function SwappedContent(content: string, xml: XmlLoader): string {
    var stripped := Replace(SizeSuffix(false), "", "<div>" + content + "</div>");
    SubstrDropEnds(xml.saveFirstDiv(SizedImages(xml.loadXml(stripped))), 5, 6)
  }

  /** change_feed_images(). */
  method ChangeFeedImages(content: string, isFeed: bool, xml: XmlLoader) returns (r: string)
    ensures !isFeed ==> r == content
    ensures isFeed ==> r == SwappedContent(content, xml)
  {
    if !isFeed {
      return content;
    }
    var wrapped := "<div>" + content + "</div>";
    wrapped := Replace(SizeSuffix(false), "", wrapped);
    var doc := new Document(xml.loadXml(wrapped));
    ResizeImages(doc);
    r := SubstrDropEnds(xml.saveFirstDiv(doc.nodes), 5, 6);
  }

  /** When the saved div is "<div>" + body + "</div>", the result is exactly the body. */
  lemma SwappedUnwraps(content: string, xml: XmlLoader, body: string)
    requires var stripped := Replace(SizeSuffix(false), "", "<div>" + content + "</div>");
      xml.saveFirstDiv(SizedImages(xml.loadXml(stripped))) == "<div>" + body + "</div>"
    ensures SwappedContent(content, xml) == body
  {
    assert |"<div>"| == 5 && |"</div>"| == 6;
  }

  /**
   * Unlike the other strippers, the suffix `-WWWxHHH` is deleted outright:
   * nothing replaces it, and the character after it is kept.
   */
  lemma {:induction false} SuffixDeleted(pre: string, w: string, h: string, rest: string)
    requires NoDash(pre)
    requires 3 <= |w| <= 4 && 3 <= |h| <= 4
    requires forall j | 0 <= j < |w| :: IsDigit(w[j])
    requires forall j | 0 <= j < |h| :: IsDigit(h[j])
    requires |h| == 4 || rest == [] || !IsDigit(rest[0])
    ensures Replace(SizeSuffix(false), "", pre + ("-" + w + "x" + h + rest)) == pre + Replace(SizeSuffix(false), "", rest)
  {
    var m := "-" + w + "x" + h;
    assert m + rest == "-" + w + "x" + h + rest;
    SuffixScanSkipsNoDash(false, "", pre, m + rest);
    BareSizeSuffixMatches(w, h, rest);
    ReplaceAtMatch(SizeSuffix(false), "", m, rest);
    assert "" + Replace(SizeSuffix(false), "", rest) == Replace(SizeSuffix(false), "", rest);
  }
}
