/**
 * SendImagesRSS_Strip_Gallery: in a post with a gallery, point gallery
 * images at their original files and drop small inline dimensions; in a
 * core gallery block, hide the list bullets by appending list styles to
 * every `ul` and `li`.
 */
module StripGallery {
  import opened Php
  import opened Patterns
  import opened Dom

  // ---------------------------------------------------------------------
  // strip

  /** The three replacements of strip(): thumbnail suffix to ".", then 2–3 digit width and height attributes deleted. */
  function StripSizes(content: string): string {
    Replace(DimensionAttr("height"), "", Replace(DimensionAttr("width"), "", Replace(SizeSuffix(true), ".", content)))
  }

  /** strip(): the replacements run only when the post has the gallery shortcode or the gallery block. */
  function Strip(content: string, hasGallery: bool): (r: string)
    ensures !hasGallery ==> r == content
    ensures |r| <= |content|
  {
    if hasGallery then
      StripSizesNotLonger(content);
      StripSizes(content)
    else content
  }

  /** None of the three patterns matches anywhere in the text. */
  predicate NothingToStrip(content: string) {
    !HasMatch(SizeSuffix(true), content) && !HasMatch(DimensionAttr("width"), content) && !HasMatch(DimensionAttr("height"), content)
  }

  lemma StripSizesNotLonger(content: string)
    ensures |StripSizes(content)| <= |content|
  {
    var a := Replace(SizeSuffix(true), ".", content);
    var b := Replace(DimensionAttr("width"), "", a);
    ReplaceNotLonger(SizeSuffix(true), ".", content);
    ReplaceNotLonger(DimensionAttr("width"), "", a);
    ReplaceNotLonger(DimensionAttr("height"), "", b);
  }

  /**
   * The replacements leave the content unchanged exactly when none of the
   * patterns matches in it: text without a match comes back byte for byte,
   * and any match shortens the text.
   */
  lemma StripSizesUnchangedIff(content: string)
    ensures StripSizes(content) == content <==> NothingToStrip(content)
  {
    var a := Replace(SizeSuffix(true), ".", content);
    var b := Replace(DimensionAttr("width"), "", a);
    var c := Replace(DimensionAttr("height"), "", b);
    ReplaceNotLonger(DimensionAttr("width"), "", a);
    ReplaceNotLonger(DimensionAttr("height"), "", b);
    if HasMatch(SizeSuffix(true), content) {
      ReplaceShortens(SizeSuffix(true), ".", content);
    } else {
      ReplaceNoMatch(SizeSuffix(true), ".", content);
      if HasMatch(DimensionAttr("width"), a) {
        ReplaceShortens(DimensionAttr("width"), "", a);
      } else {
        ReplaceNoMatch(DimensionAttr("width"), "", a);
        ReplaceUnchangedIff(DimensionAttr("height"), "", b);
      }
    }
  }

  /** At the scan position, a thumbnail suffix `-WWWxHHH` and the character after it become a single ".". */
  lemma {:induction false} SuffixAtScan(w: string, h: string, c: char, rest: string)
    requires 3 <= |w| <= 4 && 3 <= |h| <= 4
    requires forall j | 0 <= j < |w| :: IsDigit(w[j])
    requires forall j | 0 <= j < |h| :: IsDigit(h[j])
    requires c != '\n' && (|h| == 4 || !IsDigit(c))
    ensures Replace(SizeSuffix(true), ".", "-" + w + "x" + h + [c] + rest) == "." + Replace(SizeSuffix(true), ".", rest)
  {
    SizeSuffixMatches(w, h, c, rest);
    var m := "-" + w + "x" + h + [c];
    assert "-" + w + "x" + h + [c] + rest == m + rest;
    ReplaceAtMatch(SizeSuffix(true), ".", m, rest);
  }

  /** A thumbnail suffix and the character after it become a single "." when no dash comes before it. */
  lemma {:induction false} SuffixBecomesDot(pre: string, w: string, h: string, c: char, rest: string)
    requires NoDash(pre)
    requires 3 <= |w| <= 4 && 3 <= |h| <= 4
    requires forall j | 0 <= j < |w| :: IsDigit(w[j])
    requires forall j | 0 <= j < |h| :: IsDigit(h[j])
    requires c != '\n' && (|h| == 4 || !IsDigit(c))
    ensures Replace(SizeSuffix(true), ".", pre + ("-" + w + "x" + h + [c] + rest))
         == pre + "." + Replace(SizeSuffix(true), ".", rest)
  {
    var t := "-" + w + "x" + h + [c] + rest;
    SuffixScanSkipsNoDash(true, ".", pre, t);
    SuffixAtScan(w, h, c, rest);
    var tail := Replace(SizeSuffix(true), ".", rest);
    assert pre + ("." + tail) == pre + "." + tail;
  }

  // ---------------------------------------------------------------------
  // modify_block_gallery

  /** The default of the 'sendimagesrss_core_gallery_ul_style' filter. */
  const ListStyle: string := "list-style-type:none;padding-left:0;"

  /** The default of the 'sendimagesrss_core_gallery_li_style' filter. */
  const ItemStyle: string := "list-style-type:none;"

  /**
   * The styles written by the accumulating loop: each node's old style
   * followed by the style written to the node before it, the first one's
   * old style followed by `base`.
   */
  function Accumulated(olds: seq<string>, base: string): (r: seq<string>)
    ensures |r| == |olds|
    decreases |olds|
  {
    if olds == [] then []
    else
      var first := olds[0] + base;
      [first] + Accumulated(olds[1..], first)
  }

  /** The strings of `olds`, last one first, concatenated. */
  function ConcatReversed(olds: seq<string>): string
    decreases |olds|
  {
    if olds == [] then "" else olds[|olds| - 1] + ConcatReversed(olds[..|olds| - 1])
  }

  /** The loop's recurrence: the first style is its old style and `base`, the k-th its old style and the (k-1)-th new one. */
  lemma {:induction false} AccumulatedStep(olds: seq<string>, base: string)
    ensures olds != [] ==> Accumulated(olds, base)[0] == olds[0] + base
    ensures forall k | 0 < k < |olds| :: Accumulated(olds, base)[k] == olds[k] + Accumulated(olds, base)[k - 1]
    decreases |olds|
  {
    if olds != [] {
      var first := olds[0] + base;
      AccumulatedStep(olds[1..], first);
      var r := Accumulated(olds, base);
      var tail := Accumulated(olds[1..], first);
      assert r == [first] + tail;
      forall k | 0 < k < |olds| ensures r[k] == olds[k] + r[k - 1] {
        assert r[k] == tail[k - 1];
        assert olds[1..][k - 1] == olds[k];
        if k > 1 {
          assert r[k - 1] == tail[k - 2];
        }
      }
    }
  }

  /** Closed form: the k-th style is the old styles from k down to 0, then `base`. */
  lemma {:induction false} AccumulatedClosedForm(olds: seq<string>, base: string)
    ensures forall k | 0 <= k < |olds| :: Accumulated(olds, base)[k] == ConcatReversed(olds[..k + 1]) + base
  {
    AccumulatedStep(olds, base);
    var r := Accumulated(olds, base);
    var k := 0;
    while k < |olds|
      invariant 0 <= k <= |olds|
      invariant forall j | 0 <= j < k :: r[j] == ConcatReversed(olds[..j + 1]) + base
    {
      var pre := olds[..k + 1];
      assert pre[..k] == olds[..k];
      assert ConcatReversed(pre) == olds[k] + ConcatReversed(olds[..k]);
      if k == 0 {
        assert ConcatReversed(olds[..0]) == "";
        assert r[0] == olds[0] + base;
      } else {
        var prev := ConcatReversed(olds[..k]);
        assert olds[..(k - 1) + 1] == olds[..k];
        assert r[k - 1] == prev + base;
        assert r[k] == olds[k] + (prev + base);
        assert olds[k] + (prev + base) == (olds[k] + prev) + base;
      }
      k := k + 1;
    }
  }

  /** `s` ends with `t`. */
  predicate EndsWith(s: string, t: string) {
    |t| <= |s| && s[|s| - |t|..] == t
  }

  /** Every new style ends with `base`, the filter's style. */
  lemma AccumulatedEndsWithBase(olds: seq<string>, base: string)
    ensures forall k | 0 <= k < |olds| :: EndsWith(Accumulated(olds, base)[k], base)
  {
    AccumulatedClosedForm(olds, base);
    forall k | 0 <= k < |olds|
      ensures EndsWith(Accumulated(olds, base)[k], base)
    {
      var s := ConcatReversed(olds[..k + 1]);
      assert (s + base)[|s|..] == base;
    }
  }

  /** The style attributes of the nodes at `idxs`, "" where absent. */
  function StylesAt(nodes: seq<Node>, idxs: seq<nat>): (r: seq<string>)
    requires forall k | 0 <= k < |idxs| :: idxs[k] < |nodes|
    ensures |r| == |idxs|
    ensures forall k | 0 <= k < |idxs| :: r[k] == GetAttribute(nodes[idxs[k]].attrs, "style")
  {
    seq(|idxs|, k requires 0 <= k < |idxs| => GetAttribute(nodes[idxs[k]].attrs, "style"))
  }

  /** `nodes` with the style of node `idxs[k]` set to `styles[k]`, in list order. */
  function WithStyles(nodes: seq<Node>, idxs: seq<nat>, styles: seq<string>): (r: seq<Node>)
    requires forall k | 0 <= k < |idxs| :: idxs[k] < |nodes|
    requires |styles| == |idxs|
    ensures SameShape(nodes, r)
    decreases |idxs|
  {
    if idxs == [] then nodes
    else
      var n := |idxs| - 1;
      WithAttribute(WithStyles(nodes, idxs[..n], styles[..n]), idxs[n], "style", styles[n])
  }

  /** Distinct indices into `nodes`. */
  predicate Distinct(nodes: seq<Node>, idxs: seq<nat>) {
    && (forall k | 0 <= k < |idxs| :: idxs[k] < |nodes|)
    && (forall k, l | 0 <= k < l < |idxs| :: idxs[k] != idxs[l])
  }

  /** The first `k` of the indices are still distinct. */
  lemma DistinctPrefix(nodes: seq<Node>, idxs: seq<nat>, k: nat)
    requires Distinct(nodes, idxs) && k <= |idxs|
    ensures Distinct(nodes, idxs[..k])
  {
  }

  /** The nodes with a tag, in document order, are distinct indices. */
  lemma ElementsDistinct(nodes: seq<Node>, tag: string)
    ensures Distinct(nodes, ElementsByTag(nodes, tag))
  {
  }

  /** With distinct indices each listed node gets its own style, and nothing else changes. */
  lemma {:induction false} WithStylesEffect(nodes: seq<Node>, idxs: seq<nat>, styles: seq<string>)
    requires Distinct(nodes, idxs) && |styles| == |idxs|
    ensures forall k | 0 <= k < |idxs| ::
      WithStyles(nodes, idxs, styles)[idxs[k]].attrs == nodes[idxs[k]].attrs["style" := styles[k]]
    ensures forall j | 0 <= j < |nodes| && j !in idxs :: WithStyles(nodes, idxs, styles)[j] == nodes[j]
    decreases |idxs|
  {
    if idxs != [] {
      var n := |idxs| - 1;
      DistinctPrefix(nodes, idxs, n);
      WithStylesEffect(nodes, idxs[..n], styles[..n]);
      forall k | 0 <= k < n ensures idxs[..n][k] == idxs[k] && idxs[k] != idxs[n] && styles[..n][k] == styles[k] {
      }
      forall j | 0 <= j < |nodes| && j !in idxs ensures j !in idxs[..n] && j != idxs[n] {
      }
    }
  }

  /** The document after the loop has set the first `k` styles. */
  function StyledPrefix(nodes: seq<Node>, idxs: seq<nat>, styles: seq<string>, k: nat): (r: seq<Node>)
    requires Distinct(nodes, idxs) && |styles| == |idxs| && k <= |idxs|
    ensures SameShape(nodes, r)
  {
    DistinctPrefix(nodes, idxs, k);
    WithStyles(nodes, idxs[..k], styles[..k])
  }

  /** Setting one more style extends the list by one. */
  lemma WithStylesSnoc(nodes: seq<Node>, idxs: seq<nat>, styles: seq<string>, k: nat)
    requires Distinct(nodes, idxs) && |styles| == |idxs| && k < |idxs|
    ensures StyledPrefix(nodes, idxs, styles, k + 1)
         == WithAttribute(StyledPrefix(nodes, idxs, styles, k), idxs[k], "style", styles[k])
  {
    assert idxs[..k + 1][..k] == idxs[..k];
    assert styles[..k + 1][..k] == styles[..k];
  }

  /** The style the loop reads from node `idxs[k]` is still its original one. */
  lemma UnvisitedStyle(nodes: seq<Node>, idxs: seq<nat>, styles: seq<string>, k: nat)
    requires Distinct(nodes, idxs) && |styles| == |idxs| && k < |idxs|
    ensures StyledPrefix(nodes, idxs, styles, k)[idxs[k]] == nodes[idxs[k]]
  {
    DistinctPrefix(nodes, idxs, k);
    WithStylesEffect(nodes, idxs[..k], styles[..k]);
    assert idxs[k] !in idxs[..k];
  }

  /** The style the loop computes for the k-th node is the k-th accumulated style. */
  lemma {:induction false} LoopStyle(nodes: seq<Node>, idxs: seq<nat>, base: string, k: nat, style: string)
    requires Distinct(nodes, idxs) && k < |idxs|
    requires style == if k == 0 then base else Accumulated(StylesAt(nodes, idxs), base)[k - 1]
    ensures var news := Accumulated(StylesAt(nodes, idxs), base);
      GetAttribute(StyledPrefix(nodes, idxs, news, k)[idxs[k]].attrs, "style") + style == news[k]
  {
    var news := Accumulated(StylesAt(nodes, idxs), base);
    UnvisitedStyle(nodes, idxs, news, k);
    AccumulatedStep(StylesAt(nodes, idxs), base);
  }

  /** Once every style is set, the prefix is the whole list. */
  lemma StyledPrefixAll(nodes: seq<Node>, idxs: seq<nat>, styles: seq<string>)
    requires Distinct(nodes, idxs) && |styles| == |idxs|
    ensures StyledPrefix(nodes, idxs, styles, |idxs|) == WithStyles(nodes, idxs, styles)
  {
    assert idxs[..|idxs|] == idxs;
    assert styles[..|idxs|] == styles;
  }

  /** The whole effect of the loop over the nodes with `tag`. */
  function StyledNodes(nodes: seq<Node>, tag: string, base: string): (r: seq<Node>)
    ensures SameShape(nodes, r)
  {
    var idxs := ElementsByTag(nodes, tag);
    WithStyles(nodes, idxs, Accumulated(StylesAt(nodes, idxs), base))
  }

  /** The accumulating loop of update_gallery_list() and update_gallery_items(), over the nodes with `tag`. */
  method AccumulateStyles(doc: Document, tag: string, base: string)
    modifies doc
    ensures doc.nodes == StyledNodes(old(doc.nodes), tag, base)
  {
    var idxs := ElementsByTag(doc.nodes, tag);
    ghost var start := doc.nodes;
    ghost var news := Accumulated(StylesAt(start, idxs), base);
    ElementsDistinct(start, tag);
    assert |news| == |idxs|;
    var style := base;
    var k := 0;
    while k < |idxs|
      invariant 0 <= k <= |idxs|
      invariant doc.nodes == StyledPrefix(start, idxs, news, k)
      invariant style == if k == 0 then base else news[k - 1]
    {
      LoopStyle(start, idxs, base, k, style);
      WithStylesSnoc(start, idxs, news, k);
      style := GetAttribute(doc.nodes[idxs[k]].attrs, "style") + style;
      doc.SetAttribute(idxs[k], "style", style);
      k := k + 1;
    }
    StyledPrefixAll(start, idxs, news);
  }

  /** update_gallery_list(): every `ul` of the document; the `if ( ! $ul )` guard never fires, as a node list is always truthy. */
  method UpdateGalleryList(doc: Document, ulStyle: string)
    modifies doc
    ensures doc.nodes == StyledNodes(old(doc.nodes), "ul", ulStyle)
  {
    AccumulateStyles(doc, "ul", ulStyle);
  }

  /** update_gallery_items(): every `li` of the document. */
  method UpdateGalleryItems(doc: Document, liStyle: string)
    modifies doc
    ensures doc.nodes == StyledNodes(old(doc.nodes), "li", liStyle)
  {
    AccumulateStyles(doc, "li", liStyle);
  }

  /** Each node with the tag gets the k-th accumulated style; every other node is left as it was. */
  lemma StyledNodesFrame(nodes: seq<Node>, tag: string, base: string)
    ensures var idxs := ElementsByTag(nodes, tag);
      var r := StyledNodes(nodes, tag, base);
      && (forall k | 0 <= k < |idxs| ::
            r[idxs[k]].attrs == nodes[idxs[k]].attrs["style" := Accumulated(StylesAt(nodes, idxs), base)[k]])
      && (forall j | 0 <= j < |nodes| && nodes[j].tag != tag :: r[j] == nodes[j])
  {
    var idxs := ElementsByTag(nodes, tag);
    ElementsDistinct(nodes, tag);
    WithStylesEffect(nodes, idxs, Accumulated(StylesAt(nodes, idxs), base));
  }

  /** The loop finds the same nodes with the tag afterwards: their number is unchanged. */
  lemma StyledNodesSameElements(nodes: seq<Node>, tag: string, base: string)
    ensures ElementsByTag(StyledNodes(nodes, tag, base), tag) == ElementsByTag(nodes, tag)
  {
    ElementsFromSameShape(nodes, StyledNodes(nodes, tag, base), tag, 0);
  }

  /**
   * After update_gallery_list() or update_gallery_items(): the first node
   * with the tag has its old style followed by the filter's style, the
   * k-th its old style followed by the (k-1)-th node's new style, and only
   * the style attribute changes.
   */
  lemma StyledNodesRecurrence(nodes: seq<Node>, tag: string, base: string)
    ensures var idxs := ElementsByTag(nodes, tag);
      var r := StyledNodes(nodes, tag, base);
      && (forall k | 0 <= k < |idxs| :: "style" in r[idxs[k]].attrs && r[idxs[k]].attrs - {"style"} == nodes[idxs[k]].attrs - {"style"})
      && (|idxs| > 0 ==> r[idxs[0]].attrs["style"] == GetAttribute(nodes[idxs[0]].attrs, "style") + base)
      && (forall k | 0 < k < |idxs| :: r[idxs[k]].attrs["style"] == GetAttribute(nodes[idxs[k]].attrs, "style") + r[idxs[k - 1]].attrs["style"])
  {
    var idxs := ElementsByTag(nodes, tag);
    var olds := StylesAt(nodes, idxs);
    var r := StyledNodes(nodes, tag, base);
    var news := Accumulated(olds, base);
    StyledNodesNewStyles(nodes, tag, base);
    AccumulatedStep(olds, base);
    forall k | 0 < k < |idxs|
      ensures r[idxs[k]].attrs["style"] == GetAttribute(nodes[idxs[k]].attrs, "style") + r[idxs[k - 1]].attrs["style"]
    {
      assert news[k] == olds[k] + news[k - 1];
    }
  }

  /** Each node with the tag takes its accumulated style, and keeps its other attributes. */
  lemma StyledNodesNewStyles(nodes: seq<Node>, tag: string, base: string)
    ensures var idxs := ElementsByTag(nodes, tag);
      var r := StyledNodes(nodes, tag, base);
      forall k | 0 <= k < |idxs| ::
        && "style" in r[idxs[k]].attrs && r[idxs[k]].attrs["style"] == Accumulated(StylesAt(nodes, idxs), base)[k]
        && r[idxs[k]].attrs - {"style"} == nodes[idxs[k]].attrs - {"style"}
  {
    var idxs := ElementsByTag(nodes, tag);
    var r := StyledNodes(nodes, tag, base);
    var news := Accumulated(StylesAt(nodes, idxs), base);
    StyledNodesFrame(nodes, tag, base);
    forall k | 0 <= k < |idxs|
      ensures "style" in r[idxs[k]].attrs && r[idxs[k]].attrs["style"] == news[k]
      ensures r[idxs[k]].attrs - {"style"} == nodes[idxs[k]].attrs - {"style"}
    {
      assert r[idxs[k]].attrs == nodes[idxs[k]].attrs["style" := news[k]];
      assert (r[idxs[k]].attrs - {"style"}).Keys == (nodes[idxs[k]].attrs - {"style"}).Keys;
    }
  }

  /** Every node with the tag ends with the filter's style. */
  lemma StyledNodesEndWithBase(nodes: seq<Node>, tag: string, base: string)
    ensures var idxs := ElementsByTag(nodes, tag);
      var r := StyledNodes(nodes, tag, base);
      forall k | 0 <= k < |idxs| :: "style" in r[idxs[k]].attrs && EndsWith(r[idxs[k]].attrs["style"], base)
  {
    var idxs := ElementsByTag(nodes, tag);
    var news := Accumulated(StylesAt(nodes, idxs), base);
    var r := StyledNodes(nodes, tag, base);
    StyledNodesFrame(nodes, tag, base);
    AccumulatedEndsWithBase(StylesAt(nodes, idxs), base);
    forall k | 0 <= k < |idxs| ensures "style" in r[idxs[k]].attrs && EndsWith(r[idxs[k]].attrs["style"], base) {
      assert r[idxs[k]].attrs == nodes[idxs[k]].attrs["style" := news[k]];
      assert EndsWith(news[k], base);
    }
  }

  /** The parser of the block markup (SendImagesRSS_Document_Getter::load) and DOMDocument::saveHTML. */
  datatype BlockLoader = BlockLoader(load: string -> seq<Node>, saveHtml: seq<Node> -> string)

  /** Both loops, lists first, then items. */
  function StyledGallery(nodes: seq<Node>, ulStyle: string, liStyle: string): seq<Node> {
    StyledNodes(StyledNodes(nodes, "ul", ulStyle), "li", liStyle)
  }

  /**
   * modify_block_gallery(): only the core gallery block is rewritten.
   * `ulFilter` and `liFilter` stand for the two style filters, applied to
   * their defaults.
   */
  method ModifyBlockGallery(blockContent: string, blockName: string, loader: BlockLoader,
                            ulFilter: string -> string, liFilter: string -> string)
    returns (r: string)
    ensures blockName != "core/gallery" ==> r == blockContent
    ensures blockName == "core/gallery" ==>
      r == loader.saveHtml(StyledGallery(loader.load(blockContent), ulFilter(ListStyle), liFilter(ItemStyle)))
  {
    if blockName != "core/gallery" {
      return blockContent;
    }
    var doc := new Document(loader.load(blockContent));
    UpdateGalleryList(doc, ulFilter(ListStyle));
    UpdateGalleryItems(doc, liFilter(ItemStyle));
    r := loader.saveHtml(doc.nodes);
  }

  /** The item loop leaves the lists' styles as the list loop wrote them, and neither loop touches other nodes. */
  lemma StyledGalleryKeepsLists(nodes: seq<Node>, ulStyle: string, liStyle: string)
    ensures var mid := StyledNodes(nodes, "ul", ulStyle);
      forall j | 0 <= j < |nodes| && nodes[j].tag == "ul" :: StyledGallery(nodes, ulStyle, liStyle)[j] == mid[j]
    ensures forall j | 0 <= j < |nodes| && nodes[j].tag != "ul" && nodes[j].tag != "li" ::
      StyledGallery(nodes, ulStyle, liStyle)[j] == nodes[j]
  {
    var mid := StyledNodes(nodes, "ul", ulStyle);
    StyledNodesFrame(nodes, "ul", ulStyle);
    StyledNodesFrame(mid, "li", liStyle);
  }
}
