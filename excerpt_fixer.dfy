/**
 * SendImagesRSS_Excerpt_Fixer: for feeds that send excerpts, put the
 * post's featured image in front of the excerpt, and build the excerpt
 * from whole words and tags up to the end of the first sentence after the
 * configured word count.
 */
module ExcerptFixer {
  import opened Wrappers
  import opened Php
  import opened Patterns

  /** The 'sendimagesrss' option array. */
  type Setting = map<string, Value>

  /** `$this->setting[ $key ]`: null when the key is missing. */
  function SettingValue(s: Setting, key: string): Value {
    if key in s then s[key] else Null
  }

  // ---------------------------------------------------------------------
  // set_featured_image

  const RightImageStyle: string := "margin: 0 0 10px 10px;"
  const CenterImageStyle: string := "display: block; margin: 0 auto 10px;"
  const NoneImageStyle: string := "margin: 0 0 0 10px;"
  const LeftImageStyle: string := "margin: 0 10px 10px 0;"

  /** The setting under `key` when it is truthy, else `default`. */
  function SettingOr(s: Setting, key: string, default: Value): Value {
    var v := SettingValue(s, key);
    if Truthy(v) then v else default
  }

  /** The thumbnail size: the setting when truthy, else 'thumbnail'. */
  function ThumbnailSize(s: Setting): (v: Value)
    ensures Truthy(v)
    ensures Truthy(SettingValue(s, "thumbnail_size")) ==> v == SettingValue(s, "thumbnail_size")
    ensures !Truthy(SettingValue(s, "thumbnail_size")) ==> v == Str("thumbnail")
  {
    SettingOr(s, "thumbnail_size", Str("thumbnail"))
  }

  /** The alignment: the setting when truthy, else 'left'. */
  function Alignment(s: Setting): (v: Value)
    ensures Truthy(v)
    ensures Truthy(SettingValue(s, "alignment")) ==> v == SettingValue(s, "alignment")
    ensures !Truthy(SettingValue(s, "alignment")) ==> v == Str("left")
  {
    SettingOr(s, "alignment", Str("left"))
  }

  /**
   * The switch on the alignment, with PHP's loose comparison of its cases:
   * the first case equal to the alignment chooses the style, and anything
   * that equals none of them gets the left-aligned style.
   */
  function AlignmentStyle(alignment: Value): (style: string)
    ensures alignment in {Str("right"), Bool(true), Int(0)} ==> style == RightImageStyle
    ensures alignment == Str("center") ==> style == CenterImageStyle
    ensures alignment == Str("none") ==> style == NoneImageStyle
    ensures alignment.Str? && alignment.s !in {"right", "center", "none"} ==> style == LeftImageStyle
    ensures alignment in {Null, Bool(false)} ==> style == LeftImageStyle
    ensures alignment.Int? && alignment.i != 0 ==> style == LeftImageStyle
  {
    if LooseEqualsWord(alignment, "right") then RightImageStyle
    else if LooseEqualsWord(alignment, "center") then CenterImageStyle
    else if LooseEqualsWord(alignment, "none") then NoneImageStyle
    else LeftImageStyle
  }

  /**
   * Each alignment word gets its own style, `true` and `0` reach the first
   * case, and every other string and every non-zero integer the default.
   */
  lemma AlignmentStyles(other: string)
    requires other != "right" && other != "center" && other != "none"
    ensures AlignmentStyle(Str("right")) == "margin: 0 0 10px 10px;"
    ensures AlignmentStyle(Str("center")) == "display: block; margin: 0 auto 10px;"
    ensures AlignmentStyle(Str("none")) == "margin: 0 0 0 10px;"
    ensures AlignmentStyle(Str(other)) == "margin: 0 10px 10px 0;"
    ensures AlignmentStyle(Bool(true)) == "margin: 0 0 10px 10px;"
    ensures AlignmentStyle(Int(0)) == "margin: 0 0 10px 10px;"
    ensures forall i | i != 0 :: AlignmentStyle(Int(i)) == "margin: 0 10px 10px 0;"
  {
  }

  /** With no alignment saved the image is aligned left, with the left margin style. */
  lemma DefaultAlignment(s: Setting)
    requires !Truthy(SettingValue(s, "alignment"))
    ensures Alignment(s) == Str("left")
    ensures AlignmentStyle(Alignment(s)) == "margin: 0 10px 10px 0;"
  {
  }

  /** The WordPress services the excerpt fixer calls for the current post, as values. */
  datatype PostContext = PostContext(
    /** has_post_thumbnail(). */
    hasThumbnail: bool,
    /** get_permalink(), get_the_title() and get_bloginfo( 'name' ). */
    permalink: string,
    title: string,
    blogName: string,
    /** get_the_content( '' ). */
    content: string,
    /** get_the_post_thumbnail() for a size, an alignment and a style. */
    thumbnailHtml: (Value, Value, string) -> string,
    /** The 'sendimagesrss_excerpt_image_style' filter. */
    imageStyleFilter: string -> string,
    /** strip_shortcodes(). */
    stripShortcodes: string -> string,
    /** The 'sendimagesrss_allowed_tags' filter. */
    allowedTagsFilter: string -> string,
    /** strip_tags() with a list of allowed tags. */
    stripTags: (string, string) -> string,
    /** force_balance_tags(). */
    forceBalanceTags: string -> string,
    /** The 'sendimagesrss_trim_excerpt' filter, given the excerpt and the raw text. */
    trimExcerptFilter: (string, string) -> string,
    /** The 'sendimagesrss_excerpt_read_more' filter, given the link, permalink, title and blog name. */
    readMoreFilter: (string, string, string, string) -> string)

  /** The linked featured image put in front of the content. */
  function FeaturedImage(s: Setting, post: PostContext): string {
    var alignment := Alignment(s);
    "<a href=\"" + post.permalink + "\">"
      + post.thumbnailHtml(ThumbnailSize(s), alignment, post.imageStyleFilter(AlignmentStyle(alignment)))
      + "</a>"
  }

  /** The default read-more link; translation is taken as the identity. */
  function ReadMoreLink(permalink: string, title: string, blogName: string): string {
    "<a href=\"" + permalink + "\">Continue reading " + title + " at " + blogName + ".</a>"
  }

  /** read_more(). */
  function ReadMore(post: PostContext): string {
    post.readMoreFilter(ReadMoreLink(post.permalink, post.title, post.blogName), post.permalink, post.title, post.blogName)
  }

  /** The tags strip_tags() keeps, before the filter. */
  const AllowedTags: string := "<style>,<br>,<em>,<i>,<ul>,<ol>,<li>,<strong>,<b>,<p>"

  // ---------------------------------------------------------------------
  // The tokens of count_excerpt: `(<[^>]+>|[^<>\s]+)\s*`

  /** PCRE's `\s`: space, tab, newline, vertical tab, form feed and carriage return. */
  predicate IsPcreSpace(c: char) {
    c == ' ' || c == '\t' || c == '\n' || c == '\U{0B}' || c == '\U{0C}' || c == '\r'
  }

  /** A character of a word: `[^<>\s]`. */
  predicate IsWordChar(c: char) {
    c != '<' && c != '>' && !IsPcreSpace(c)
  }

  /** Length of the run of `\s` at the start of `s`. */
  function SpaceRun(s: string): (n: nat)
    ensures n <= |s|
    ensures forall j | 0 <= j < n :: IsPcreSpace(s[j])
    ensures n < |s| ==> !IsPcreSpace(s[n])
  {
    if s != [] && IsPcreSpace(s[0]) then 1 + SpaceRun(s[1..]) else 0
  }

  /** Length of the run of word characters at the start of `s`. */
  function WordRun(s: string): (n: nat)
    ensures n <= |s|
    ensures forall j | 0 <= j < n :: IsWordChar(s[j])
    ensures n < |s| ==> !IsWordChar(s[n])
  {
    if s != [] && IsWordChar(s[0]) then 1 + WordRun(s[1..]) else 0
  }

  /** The offset of the first '>' at or after `i`, or |s| when there is none. */
  function CloseFrom(s: string, i: nat): (j: nat)
    requires i <= |s|
    ensures i <= j <= |s|
    ensures forall k | i <= k < j :: s[k] != '>'
    ensures j < |s| ==> s[j] == '>'
    decreases |s| - i
  {
    if i == |s| || s[i] == '>' then i else CloseFrom(s, i + 1)
  }

  /** Length of the word or tag at the start of `s`, if one starts there. */
  function CoreLength(s: string): (r: Option<nat>)
    ensures r.Some? ==> 0 < r.value <= |s|
  {
    if s == [] then None
    else if s[0] == '<' then
      var j := CloseFrom(s, 1);
      if 2 <= j < |s| then Some(j + 1) else None
    else if IsWordChar(s[0]) then Some(WordRun(s))
    else None
  }

  /** Length of the token at the start of `s`: a word or tag and the whitespace after it. */
  function TokenLength(s: string): (r: Option<nat>)
    ensures r.Some? ==> 0 < r.value <= |s|
  {
    match CoreLength(s)
    case None => None
    case Some(n) => Some(n + SpaceRun(s[n..]))
  }

  /** preg_match_all's list of whole matches: scan from the left, skipping characters where no token starts. */
  function Tokens(s: string): (r: seq<string>)
    ensures forall k | 0 <= k < |r| :: r[k] != [] && (r[k][0] == '<' || IsWordChar(r[k][0]))
    decreases |s|
  {
    if s == [] then []
    else
      match TokenLength(s)
      case Some(n) => [s[..n]] + Tokens(s[n..])
      case None => Tokens(s[1..])
  }

  /** The strings of `ts` concatenated in order. */
  function Concat(ts: seq<string>): string
    decreases |ts|
  {
    if ts == [] then "" else Concat(ts[..|ts| - 1]) + ts[|ts| - 1]
  }

  lemma ConcatPrepend(t: string, ts: seq<string>)
    ensures Concat([t] + ts) == t + Concat(ts)
    decreases |ts|
  {
    if ts != [] {
      var n := |ts| - 1;
      assert ([t] + ts)[..n + 1] == [t] + ts[..n];
      ConcatPrepend(t, ts[..n]);
    }
  }

  /** The tokens never hold more text than `s`. */
  lemma {:induction false} TokensNotLonger(s: string)
    ensures |Concat(Tokens(s))| <= |s|
    decreases |s|
  {
    if s != [] {
      match TokenLength(s)
      case Some(n) =>
        TokensNotLonger(s[n..]);
        ConcatPrepend(s[..n], Tokens(s[n..]));
      case None =>
        TokensNotLonger(s[1..]);
    }
  }

  /** Text without angle brackets: no `<` or `>` anywhere. */
  predicate PlainText(s: string) {
    forall j | 0 <= j < |s| :: s[j] != '<' && s[j] != '>'
  }

  /** The length of a word and the spaces after it, at the start of `s`. */
  function WordTokenLength(s: string): nat {
    WordRun(s) + SpaceRun(s[WordRun(s)..])
  }

  /** Plain text starting with a word: its first token is that word and its spaces, and the rest starts with a word again. */
  lemma PlainTokenStep(s: string)
    requires s != [] && PlainText(s) && !IsPcreSpace(s[0])
    ensures 0 < WordTokenLength(s) <= |s| && TokenLength(s) == Some(WordTokenLength(s))
    ensures var rest := s[WordTokenLength(s)..]; PlainText(rest) && (rest == [] || !IsPcreSpace(rest[0]))
  {
    var w := WordRun(s);
    var n := WordTokenLength(s);
    assert CoreLength(s) == Some(w);
    if n < |s| {
      assert s[n..][0] == s[w..][SpaceRun(s[w..])];
    }
  }

  /** Text without angle brackets that starts with a word splits into tokens that give the text back. */
  lemma {:induction false} TokensOfPlainText(s: string)
    requires PlainText(s)
    requires s == [] || !IsPcreSpace(s[0])
    ensures Concat(Tokens(s)) == s
    decreases |s|
  {
    if s != [] {
      PlainTokenStep(s);
      var n := WordTokenLength(s);
      var rest := s[n..];
      var ts := Tokens(rest);
      assert Tokens(s) == [s[..n]] + ts;
      TokensOfPlainText(rest);
      ConcatPrepend(s[..n], ts);
      assert Concat(Tokens(s)) == s[..n] + rest;
      PrefixSuffix(s, n);
    }
  }

  lemma PrefixSuffix(s: string, n: nat)
    requires n <= |s|
    ensures s[..n] + s[n..] == s
  {
  }

  /** Number of `\s` characters at the end of `t`. */
  function TrailingSpace(t: string): (n: nat)
    ensures n <= |t|
    ensures forall j | |t| - n <= j < |t| :: IsPcreSpace(t[j])
    ensures n < |t| ==> !IsPcreSpace(t[|t| - n - 1])
  {
    if t != [] && IsPcreSpace(t[|t| - 1]) then 1 + TrailingSpace(t[..|t| - 1]) else 0
  }

  /** `[\?\.\!]\s*$`: the last character before the trailing whitespace ends a sentence. */
  predicate EndsSentence(t: string) {
    var n := |t| - TrailingSpace(t);
    n > 0 && (t[n - 1] == '?' || t[n - 1] == '.' || t[n - 1] == '!')
  }

  /** The loop stops at token `j`: by then `j` tokens have been counted, at least the limit, and the token ends a sentence. */
  predicate IsStop(tokens: seq<string>, limit: int, j: nat)
    requires j < |tokens|
  {
    j >= limit && EndsSentence(tokens[j])
  }

  /** The first token from `k` on at which the loop stops. */
  function FirstStop(tokens: seq<string>, limit: int, k: nat): (r: Option<nat>)
    requires k <= |tokens|
    ensures r.Some? ==> k <= r.value < |tokens| && IsStop(tokens, limit, r.value)
    ensures r.Some? ==> forall j | k <= j < r.value :: !IsStop(tokens, limit, j)
    ensures r.None? ==> forall j | k <= j < |tokens| :: !IsStop(tokens, limit, j)
    decreases |tokens| - k
  {
    if k == |tokens| then None
    else if IsStop(tokens, limit, k) then Some(k)
    else FirstStop(tokens, limit, k + 1)
  }

  /** What the loop appends: the tokens before the stop verbatim and the stop trimmed, or all tokens when it never stops. */
  function Chosen(tokens: seq<string>, limit: int): string {
    match FirstStop(tokens, limit, 0)
    case Some(k) => Concat(tokens[..k]) + Trim(tokens[k])
    case None => Concat(tokens)
  }

  /** The excerpt length: the setting when truthy, else 75. */
  function ExcerptLength(s: Setting): (n: int)
    ensures Truthy(SettingValue(s, "excerpt_length")) ==> n == IntVal(SettingValue(s, "excerpt_length"))
    ensures !Truthy(SettingValue(s, "excerpt_length")) ==> n == 75
  {
    var v := SettingValue(s, "excerpt_length");
    if Truthy(v) then IntVal(v) else 75
  }

  /** The intended excerpt of `text`: the chosen tokens alone. */
  function ExcerptOf(text: string, limit: int): (r: string)
    ensures |r| <= |text|
  {
    var tokens := Tokens(text);
    TokensNotLonger(text);
    ChosenNotLonger(tokens, limit);
    Chosen(tokens, limit)
  }

  lemma ChosenNotLonger(tokens: seq<string>, limit: int)
    ensures |Chosen(tokens, limit)| <= |Concat(tokens)|
  {
    match FirstStop(tokens, limit, 0)
    case None =>
    case Some(k) =>
      ConcatSplit(tokens, k);
      TrimNotLonger(tokens[k]);
  }

  lemma {:induction false} ConcatSplit(tokens: seq<string>, k: nat)
    requires k < |tokens|
    ensures |Concat(tokens[..k + 1])| <= |Concat(tokens)|
    ensures Concat(tokens[..k + 1]) == Concat(tokens[..k]) + tokens[k]
    decreases |tokens|
  {
    assert tokens[..k + 1][..k] == tokens[..k];
    if k + 1 < |tokens| {
      var n := |tokens| - 1;
      ConcatSplit(tokens[..n], k);
      assert tokens[..n][..k + 1] == tokens[..k + 1];
      assert tokens[..n][..k] == tokens[..k];
    } else {
      assert tokens[..k + 1] == tokens;
    }
  }

  lemma TrimNotLonger(s: string)
    ensures |Trim(s)| <= |s|
  {
    var i, j :| 0 <= i <= j <= |s| && Trim(s) == s[i..j];
  }

  /**
   * The loop of count_excerpt(): appends to `acc` the tokens, counting
   * them, until the first token at or past the limit that ends a sentence,
   * which is appended trimmed.
   */
  method AppendChosen(acc: string, tokens: seq<string>, limit: int) returns (r: string)
    ensures r == acc + Chosen(tokens, limit)
  {
    var count := 0;
    r := acc;
    var k := 0;
    while k < |tokens|
      invariant 0 <= k <= |tokens|
      invariant count == k
      invariant FirstStop(tokens, limit, k) == FirstStop(tokens, limit, 0)
      invariant r == acc + Concat(tokens[..k])
    {
      var token := tokens[k];
      if count >= limit && EndsSentence(token) {
        ChosenAtStop(tokens, limit, k);
        AppendAssoc(acc, Concat(tokens[..k]), Trim(token));
        r := r + Trim(token);
        return;
      }
      PastToken(tokens, limit, k);
      AppendAssoc(acc, Concat(tokens[..k]), token);
      count := count + 1;
      r := r + token;
      k := k + 1;
    }
    ChosenAtEnd(tokens, limit);
    assert tokens[..k] == tokens;
  }

  lemma AppendAssoc(a: string, b: string, c: string)
    ensures (a + b) + c == a + (b + c)
  {
  }

  /** A token that is not the stop is appended verbatim, and the first stop lies further on. */
  lemma PastToken(tokens: seq<string>, limit: int, k: nat)
    requires k < |tokens| && FirstStop(tokens, limit, k) == FirstStop(tokens, limit, 0)
    requires !(k >= limit && EndsSentence(tokens[k]))
    ensures FirstStop(tokens, limit, k + 1) == FirstStop(tokens, limit, 0)
    ensures Concat(tokens[..k + 1]) == Concat(tokens[..k]) + tokens[k]
  {
    ConcatSplit(tokens, k);
  }

  // ---------------------------------------------------------------------
  // The class

  class Fixer {
    /** The option array read by set_featured_image(), also used by count_excerpt(). */
    var setting: Setting

    constructor ()
      ensures setting == map[]
    {
      setting := map[];
    }

    /** set_featured_image(): read the option, then put the featured image, if any, in front of the content. */
    method SetFeaturedImage(content: string, option: Setting, post: PostContext) returns (r: string)
      modifies this
      ensures setting == option
      ensures !post.hasThumbnail ==> r == content
      ensures post.hasThumbnail ==> r == FeaturedImage(option, post) + content
    {
      setting := option;
      if !post.hasThumbnail {
        return content;
      }
      var alignment := Alignment(setting);
      var style := AlignmentStyle(alignment);
      var image := "<a href=\"" + post.permalink + "\">"
        + post.thumbnailHtml(ThumbnailSize(setting), alignment, post.imageStyleFilter(style)) + "</a>";
      r := image + content;
    }

    /** count_excerpt()'s tokenizing and loop, appending to `acc`. */
    method AppendExcerpt(acc: string, text: string) returns (r: string)
      ensures r == acc + Chosen(Tokens(text), ExcerptLength(setting))
    {
      var limit := ExcerptLength(setting);
      var tokens := Tokens(text);
      r := AppendChosen(acc, tokens, limit);
    }

    /** count_excerpt() as written: the accumulator starts as the input itself. */
    method CountExcerpt(text: string) returns (r: string)
      ensures r == text + ExcerptOf(text, ExcerptLength(setting))
    {
      r := AppendExcerpt(text, text);
    }

    /** count_excerpt() as intended: the accumulator starts empty. */
    method CountExcerptCorrected(text: string) returns (r: string)
      ensures r == ExcerptOf(text, ExcerptLength(setting))
      ensures |r| <= |text|
    {
      r := AppendExcerpt("", text);
    }

    /**
     * trim_excerpt(): a non-empty excerpt gets the read-more link and
     * nothing else; otherwise the excerpt is built from the post content
     * with count_excerpt() as written.
     */
    method TrimExcerpt(text: string, post: PostContext) returns (r: string)
      ensures Truthy(Str(text)) ==> r == text + ReadMore(post)
      ensures !Truthy(Str(text)) ==> r == ExcerptFromContent(setting, post, text) + ReadMore(post)
    {
      var raw := text;
      if Truthy(Str(text)) {
        return text + ReadMore(post);
      }
      var t := StrippedContent(post);
      t := CountExcerpt(t);
      t := Trim(post.forceBalanceTags(t));
      t := post.trimExcerptFilter(t, raw);
      r := t + ReadMore(post);
    }

    /** trim_excerpt() with count_excerpt() as intended. */
    method TrimExcerptCorrected(text: string, post: PostContext) returns (r: string)
      ensures Truthy(Str(text)) ==> r == text + ReadMore(post)
      ensures !Truthy(Str(text)) ==> r == ExcerptFromContentCorrected(setting, post, text) + ReadMore(post)
    {
      var raw := text;
      if Truthy(Str(text)) {
        return text + ReadMore(post);
      }
      var t := StrippedContent(post);
      t := CountExcerptCorrected(t);
      t := Trim(post.forceBalanceTags(t));
      t := post.trimExcerptFilter(t, raw);
      r := t + ReadMore(post);
    }
  }

  /** The post content with shortcodes removed, `]]>` escaped and tags stripped to the allowed ones. */
  function StrippedContent(post: PostContext): string {
    var escaped := Replace(Literal("]]>"), "]]&gt;", post.stripShortcodes(post.content));
    post.stripTags(escaped, post.allowedTagsFilter(AllowedTags))
  }

  /** The excerpt trim_excerpt() builds from the post content: the stripped content followed by its excerpt. */
  function ExcerptFromContent(s: Setting, post: PostContext, raw: string): string {
    var stripped := StrippedContent(post);
    post.trimExcerptFilter(Trim(post.forceBalanceTags(stripped + ExcerptOf(stripped, ExcerptLength(s)))), raw)
  }

  /** The excerpt trim_excerpt() would build with the corrected count: the excerpt of the stripped content alone. */
  function ExcerptFromContentCorrected(s: Setting, post: PostContext, raw: string): string {
    var stripped := StrippedContent(post);
    post.trimExcerptFilter(Trim(post.forceBalanceTags(ExcerptOf(stripped, ExcerptLength(s)))), raw)
  }

  // ---------------------------------------------------------------------
  // Properties of the excerpt

  /**
   * Where the loop stops: the stop is the first token at or past the limit
   * that ends a sentence, and everything before it is appended verbatim;
   * without such a token every token is appended.
   */
  lemma ChosenSpec(tokens: seq<string>, limit: int)
    ensures (forall j | 0 <= j < |tokens| :: !IsStop(tokens, limit, j)) ==> Chosen(tokens, limit) == Concat(tokens)
    ensures forall k | 0 <= k < |tokens| && IsStop(tokens, limit, k) && (forall j | 0 <= j < k :: !IsStop(tokens, limit, j)) ::
      Chosen(tokens, limit) == Concat(tokens[..k]) + Trim(tokens[k])
  {
    forall k | 0 <= k < |tokens| && IsStop(tokens, limit, k) && (forall j | 0 <= j < k :: !IsStop(tokens, limit, j))
      ensures FirstStop(tokens, limit, 0) == Some(k)
    {
      FirstStopFrom(tokens, limit, 0, k);
    }
    var first := FirstStop(tokens, limit, 0);
    assert first.Some? ==> first.value < |tokens| && IsStop(tokens, limit, first.value);
  }

  /** With no stop in `from..k-1` and a stop at `k`, the first stop from `from` is `k`. */
  lemma {:induction false} FirstStopFrom(tokens: seq<string>, limit: int, from: nat, k: nat)
    requires from <= k < |tokens| && IsStop(tokens, limit, k)
    requires forall j | from <= j < k :: !IsStop(tokens, limit, j)
    ensures FirstStop(tokens, limit, from) == Some(k)
    decreases k - from
  {
    if from < k {
      FirstStopFrom(tokens, limit, from + 1, k);
    }
  }

  /** The loop reached a stop at `k` with no stop before it. */
  lemma ChosenAtStop(tokens: seq<string>, limit: int, k: nat)
    requires k < |tokens| && FirstStop(tokens, limit, k) == FirstStop(tokens, limit, 0) && IsStop(tokens, limit, k)
    ensures Chosen(tokens, limit) == Concat(tokens[..k]) + Trim(tokens[k])
  {
  }

  /** The loop ran through every token without a stop. */
  lemma ChosenAtEnd(tokens: seq<string>, limit: int)
    requires FirstStop(tokens, limit, |tokens|) == FirstStop(tokens, limit, 0)
    ensures Chosen(tokens, limit) == Concat(tokens)
  {
  }

  /** Any text with a word or tag yields a non-empty excerpt. */
  lemma {:induction false} ChosenNonEmpty(tokens: seq<string>, limit: int)
    requires tokens != [] && tokens[0] != [] && !IsTrimChar(tokens[0][0])
    ensures Chosen(tokens, limit) != ""
  {
    match FirstStop(tokens, limit, 0)
    case Some(k) =>
      if k == 0 {
        assert Trim(tokens[0]) != [] by {
          assert !IsTrimChar(tokens[0][0]);
        }
      } else {
        ConcatSplit(tokens, 0);
        ConcatSplit(tokens[..k], 0);
        assert tokens[..k][..1] == tokens[..1];
        assert |Concat(tokens[..1])| <= |Concat(tokens[..k])|;
        assert tokens[..0] == [];
      }
    case None =>
      ConcatSplit(tokens, 0);
      assert tokens[..0] == [];
  }

  /** The first token of a text starting with "Hi." is the whole of it. */
  lemma SentenceToken()
    ensures Tokens("Hi.") == ["Hi."]
  {
    var s := "Hi.";
    assert WordRun(s[3..]) == 0;
    assert WordRun(s[2..]) == 1;
    assert WordRun(s[1..]) == 2;
    assert WordRun(s) == 3;
    assert CoreLength(s) == Some(3);
    assert SpaceRun(s[3..]) == 0;
    assert TokenLength(s) == Some(3);
    assert s[..3] == s;
    assert Tokens(s[3..]) == [];
  }

  /**
   * As written, count_excerpt() returns its whole input followed by the
   * excerpt: with a limit of 0, "Hi." comes back as "Hi.Hi.".
   */
  lemma CountExcerptRepeatsInput()
    ensures "Hi." + ExcerptOf("Hi.", 0) == "Hi.Hi."
    ensures ExcerptOf("Hi.", 0) == "Hi."
  {
    SentenceToken();
    var tokens := Tokens("Hi.");
    assert TrailingSpace("Hi.") == 0;
    assert EndsSentence(tokens[0]);
    assert IsStop(tokens, 0, 0);
    assert FirstStop(tokens, 0, 0) == Some(0);
    assert tokens[..0] == [];
    assert TrimLeftCount("Hi.") == 0;
    assert TrimRightCount("Hi.") == 0;
    assert Trim("Hi.") == "Hi.";
  }

  /** As written, the result is longer than the input whenever the input has a word or tag, so it never shortens anything. */
  lemma CountExcerptNeverShortens(text: string, limit: int)
    requires Tokens(text) != [] && !IsTrimChar(Tokens(text)[0][0])
    ensures |text + ExcerptOf(text, limit)| > |text|
  {
    ChosenNonEmpty(Tokens(text), limit);
  }
}
