/**
 * The plugin's bootstrap: on `init` it registers the email image size and
 * the optional email feed, and on `template_redirect` it decides which of
 * its content filters to hook into the feed being served. WordPress's
 * tables of filters, image sizes and feeds are one `Registry` object that
 * these steps change.
 */
module Plugin {
  import opened Wrappers
  import opened Php
  import Settings

  /** What add_filter and remove_filter identify an entry by: the hook, the callback and the priority. */
  datatype Key = Key(hook: string, callback: string, priority: int)

  /** A filter entry: its key and the number of arguments the callback accepts. */
  datatype Hooked = Hooked(key: Key, acceptedArgs: nat)

  /** An entry of the additional image sizes: width and height in pixels. */
  datatype ImageSize = ImageSize(width: nat, height: nat)

  /** The default number of arguments add_filter passes. */
  const DefaultArgs := 1

  /** The filters fix_feed adds or removes. */
  const SkipImageKey := Key("jetpack_photon_skip_image", "__return_true", 10)
  const StripKey := Key("the_content", "SendImagesRSS_Strip_Gallery::strip", 19)
  const FixKey := Key("the_content", "SendImagesRSS_Feed_Fixer::fix", 20)
  const PhotonKey := Key("image_downsize", "Jetpack_Photon::filter_image_downsize", 10)

  predicate Registered(fs: seq<Hooked>, key: Key) {
    exists k | 0 <= k < |fs| :: fs[k].key == key
  }

  /** WordPress keeps at most one entry per key. */
  predicate Unique(fs: seq<Hooked>) {
    forall k, l | 0 <= k < l < |fs| :: fs[k].key != fs[l].key
  }

  /** The position of the first entry with `key`, if there is one. */
  function IndexOf(fs: seq<Hooked>, key: Key): (r: Option<nat>)
    ensures r.Some? ==> r.value < |fs| && fs[r.value].key == key
    ensures r.Some? ==> forall k | 0 <= k < r.value :: fs[k].key != key
    ensures r.None? <==> !Registered(fs, key)
  {
    if fs == [] then None
    else if fs[0].key == key then Some(0)
    else
      match IndexOf(fs[1..], key)
      case None =>
        assert forall k | 1 <= k < |fs| :: fs[k] == fs[1..][k - 1];
        None
      case Some(k) => Some(k + 1)
  }

  /** add_filter: an entry with the same key is replaced, otherwise the new one goes last. */
  function WithFilter(fs: seq<Hooked>, h: Hooked): (r: seq<Hooked>) {
    match IndexOf(fs, h.key)
    case Some(k) => fs[k := h]
    case None => fs + [h]
  }

  /** remove_filter: the entry with `key` is dropped. */
  function WithoutFilter(fs: seq<Hooked>, key: Key): (r: seq<Hooked>) {
    match IndexOf(fs, key)
    case Some(k) => fs[..k] + fs[k + 1..]
    case None => fs
  }

  /** After add_filter the new entry is in the table, and the other keys are as before. */
  lemma WithFilterRegisters(fs: seq<Hooked>, h: Hooked, key: Key)
    ensures h in WithFilter(fs, h)
    ensures Registered(WithFilter(fs, h), key) <==> key == h.key || Registered(fs, key)
  {
    var r := WithFilter(fs, h);
    match IndexOf(fs, h.key)
    case Some(k) =>
      assert r[k] == h;
      if Registered(fs, key) && key != h.key {
        var j :| 0 <= j < |fs| && fs[j].key == key;
        assert r[j] == fs[j];
      }
    case None =>
      assert r[|fs|] == h;
      if Registered(fs, key) {
        var j :| 0 <= j < |fs| && fs[j].key == key;
        assert r[j] == fs[j];
      }
  }

  /** add_filter keeps one entry per key. */
  lemma WithFilterUnique(fs: seq<Hooked>, h: Hooked)
    requires Unique(fs)
    ensures Unique(WithFilter(fs, h))
  {
  }

  /** After remove_filter the other keys are as before; with one entry per key, `key` is gone. */
  lemma WithoutFilterUnregisters(fs: seq<Hooked>, key: Key, other: Key)
    ensures other != key ==> (Registered(WithoutFilter(fs, key), other) <==> Registered(fs, other))
    ensures Unique(fs) ==> !Registered(WithoutFilter(fs, key), key)
    ensures Unique(fs) ==> Unique(WithoutFilter(fs, key))
  {
    var r := WithoutFilter(fs, key);
    match IndexOf(fs, key)
    case Some(k) =>
      assert forall j | 0 <= j < k :: r[j] == fs[j];
      assert forall j | k < j < |fs| :: r[j - 1] == fs[j];
      if Registered(fs, other) && other != key {
        var j :| 0 <= j < |fs| && fs[j].key == other;
        if j < k { assert r[j] == fs[j]; } else { assert r[j - 1] == fs[j]; }
      }
    case None =>
  }

  /** WordPress's tables of filters, additional image sizes and feeds. */
  class Registry {
    var filters: seq<Hooked>
    var sizes: map<string, ImageSize>
    /** Feed name to the function that renders it. */
    var feeds: map<string, string>

    constructor ()
      ensures filters == [] && sizes == map[] && feeds == map[]
    {
      filters := [];
      sizes := map[];
      feeds := map[];
    }

    method AddFilter(key: Key, acceptedArgs: nat)
      modifies this
      ensures filters == WithFilter(old(filters), Hooked(key, acceptedArgs))
      ensures sizes == old(sizes) && feeds == old(feeds)
    {
      filters := WithFilter(filters, Hooked(key, acceptedArgs));
    }

    /** remove_filter, which answers whether the entry was there. */
    method RemoveFilter(key: Key) returns (removed: bool)
      modifies this
      ensures removed <==> Registered(old(filters), key)
      ensures filters == WithoutFilter(old(filters), key)
      ensures sizes == old(sizes) && feeds == old(feeds)
    {
      removed := IndexOf(filters, key).Some?;
      filters := WithoutFilter(filters, key);
    }

    /** add_image_size, which stores the absolute values of both dimensions. */
    method AddImageSize(name: string, width: int, height: int)
      modifies this
      ensures sizes == old(sizes)[name := ImageSize(Abs(width), Abs(height))]
      ensures filters == old(filters) && feeds == old(feeds)
    {
      sizes := sizes[name := ImageSize(Abs(width), Abs(height))];
    }

    method AddFeed(name: string, handler: string)
      modifies this
      ensures feeds == old(feeds)[name := handler]
      ensures filters == old(filters) && sizes == old(sizes)
    {
      feeds := feeds[name := handler];
    }
  }

  /** The options the two hooks read; `imageSize` is None when it was never saved. */
  datatype Options = Options(rssUseExcerpt: Value, simplify: Value, alternateFeed: Value, imageSize: Option<Value>)

  /** What the request answers: is_feed(), is_feed('email'), and whether Jetpack's Photon module is active. */
  datatype Request = Request(isFeed: bool, isEmailFeed: bool, photonActive: bool)

  /** PHP's conversion of an option value to text, which esc_attr performs before escaping. */
  function ToText(v: Value): (r: string)
    ensures v.Int? ==> StringToInt(r) == v.i
  {
    match v
    case Null => ""
    case Bool(b) => if b then "1" else ""
    case Int(i) => IntToStringRoundTrip(i); IntToString(i)
    case Str(s) => s
  }

  /**
   * The `mailchimp` size as add_image_size stores it: absint of the saved
   * width, and the absolute value of twice the width as height, so it is
   * always twice as high as wide.
   */
  function MailchimpSize(opts: Options): (r: ImageSize)
    ensures r.width == AbsInt(Str(ToText(opts.imageSize.GetOr(Int(Settings.DefaultImageSize)))))
    ensures r.height == 2 * r.width
  {
    var width := Str(ToText(opts.imageSize.GetOr(Int(Settings.DefaultImageSize))));
    ImageSize(AbsInt(width), Abs(2 * IntVal(width)))
  }

  /** 560 wide and 1120 high when no width was saved. */
  lemma MailchimpDefault(opts: Options)
    requires opts.imageSize.None?
    ensures MailchimpSize(opts) == ImageSize(560, 1120)
  {
  }

  /** A width that passed the setting's sanitizer gives a size in [200, 900] twice as high as wide. */
  lemma MailchimpSizeInRange(opts: Options)
    requires opts.imageSize.None? || Settings.InRange(opts.imageSize.value)
    ensures Settings.MinImageSize <= MailchimpSize(opts).width <= Settings.MaxImageSize
    ensures MailchimpSize(opts).height == 2 * MailchimpSize(opts).width
  {
  }

  /** The image sizes after `init`. */
  function InitSizes(sizes: map<string, ImageSize>, opts: Options): map<string, ImageSize> {
    if !Truthy(opts.simplify) then sizes["mailchimp" := MailchimpSize(opts)] else sizes
  }

  /** The feeds after `init`: the email feed is rendered as a standard RSS2 feed. */
  function InitFeeds(feeds: map<string, string>, opts: Options): map<string, string> {
    if Truthy(opts.alternateFeed) then feeds["email" := "do_feed_rss2"] else feeds
  }

  /** The `mailchimp` size is set exactly when simplify is off; nothing else changes. */
  lemma InitMailchimp(sizes: map<string, ImageSize>, opts: Options, name: string)
    ensures !Truthy(opts.simplify) ==>
      "mailchimp" in InitSizes(sizes, opts) && InitSizes(sizes, opts)["mailchimp"] == MailchimpSize(opts)
    ensures Truthy(opts.simplify) ==> InitSizes(sizes, opts) == sizes
    ensures name != "mailchimp" ==>
      (name in InitSizes(sizes, opts) <==> name in sizes)
      && (name in sizes ==> InitSizes(sizes, opts)[name] == sizes[name])
  {
  }

  /** The `email` feed is added if and only if the alternate feed is switched on. */
  lemma InitEmailFeed(feeds: map<string, string>, opts: Options)
    requires "email" !in feeds
    ensures "email" in InitFeeds(feeds, opts) <==> Truthy(opts.alternateFeed)
    ensures "email" in InitFeeds(feeds, opts) ==> InitFeeds(feeds, opts)["email"] == "do_feed_rss2"
    ensures InitFeeds(feeds, opts) - {"email"} == feeds
  {
  }

  /** `init`. */
  method Init(reg: Registry, opts: Options)
    modifies reg
    ensures reg.sizes == InitSizes(old(reg.sizes), opts)
    ensures reg.feeds == InitFeeds(old(reg.feeds), opts)
    ensures reg.filters == old(reg.filters)
  {
    var imageWidth := Str(ToText(opts.imageSize.GetOr(Int(Settings.DefaultImageSize))));
    if !Truthy(opts.simplify) {
      reg.AddImageSize("mailchimp", AbsInt(imageWidth), 2 * IntVal(imageWidth));
    }
    if Truthy(opts.alternateFeed) {
      reg.AddFeed("email", "do_feed_rss2");
    }
  }

  /** fix_feed returns at once unless this is a feed whose full text is shown. */
  predicate FixFeedSkipped(opts: Options, req: Request) {
    !req.isFeed || opts.rssUseExcerpt == Str("1")
  }

  /** The condition under which the feed fixer is hooked. */
  function FixerApplies(opts: Options, req: Request): (r: bool)
    ensures r <==> !Truthy(opts.simplify) && (!Truthy(opts.alternateFeed) || req.isEmailFeed)
    ensures Truthy(opts.simplify) ==> !r
  {
    !Truthy(opts.simplify) && ((Truthy(opts.alternateFeed) && req.isEmailFeed) || !Truthy(opts.alternateFeed))
  }

  /** Whether fix_feed takes Photon's filter off. */
  predicate PhotonRemoved(fs: seq<Hooked>, opts: Options, req: Request) {
    !FixFeedSkipped(opts, req) && req.photonActive && Registered(fs, PhotonKey)
  }

  /** The filters after fix_feed, step by step. */
  function FixFeedFilters(fs: seq<Hooked>, opts: Options, req: Request): seq<Hooked> {
    if FixFeedSkipped(opts, req) then fs
    else
      var added := WithFilter(WithFilter(fs, Hooked(SkipImageKey, DefaultArgs)), Hooked(StripKey, DefaultArgs));
      var removed := if req.photonActive then WithoutFilter(added, PhotonKey) else added;
      var fixed := if FixerApplies(opts, req) then WithFilter(removed, Hooked(FixKey, DefaultArgs)) else removed;
      if PhotonRemoved(fs, opts, req) then WithFilter(fixed, Hooked(PhotonKey, 3)) else fixed
  }

  /** `fix_feed`. */
  method FixFeed(reg: Registry, opts: Options, req: Request)
    modifies reg
    ensures reg.filters == FixFeedFilters(old(reg.filters), opts, req)
    ensures reg.sizes == old(reg.sizes) && reg.feeds == old(reg.feeds)
  {
    var rssOption := opts.rssUseExcerpt;
    if !req.isFeed || rssOption == Str("1") {
      return;
    }
    ghost var fs := reg.filters;
    reg.AddFilter(SkipImageKey, DefaultArgs);
    reg.AddFilter(StripKey, DefaultArgs);
    var photonRemoved := false;
    if req.photonActive {
      WithFilterRegisters(fs, Hooked(SkipImageKey, DefaultArgs), PhotonKey);
      WithFilterRegisters(WithFilter(fs, Hooked(SkipImageKey, DefaultArgs)), Hooked(StripKey, DefaultArgs), PhotonKey);
      photonRemoved := reg.RemoveFilter(PhotonKey);
    }
    var simplify := opts.simplify;
    var altFeed := opts.alternateFeed;
    if !Truthy(simplify) && ((Truthy(altFeed) && req.isEmailFeed) || !Truthy(altFeed)) {
      reg.AddFilter(FixKey, DefaultArgs);
    }
    if photonRemoved {
      reg.AddFilter(PhotonKey, 3);
    }
  }

  /** add_filter leaves every entry with another key where it was. */
  lemma WithFilterKeepsOthers(fs: seq<Hooked>, h: Hooked, x: Hooked)
    requires x.key != h.key
    ensures x in WithFilter(fs, h) <==> x in fs
  {
    var r := WithFilter(fs, h);
    match IndexOf(fs, h.key)
    case Some(k) =>
      if x in r {
        var j :| 0 <= j < |r| && r[j] == x;
        assert fs[j] == x;
      }
      if x in fs {
        var j :| 0 <= j < |fs| && fs[j] == x;
        assert r[j] == x;
      }
    case None =>
  }

  /** When fix_feed did not take Photon's filter off, Photon's entry is as it was. */
  lemma FixFeedKeepsPhoton(fs: seq<Hooked>, opts: Options, req: Request, n: nat)
    requires Unique(fs) && !PhotonRemoved(fs, opts, req)
    ensures Hooked(PhotonKey, n) in FixFeedFilters(fs, opts, req) <==> Hooked(PhotonKey, n) in fs
  {
    if !FixFeedSkipped(opts, req) {
      var x := Hooked(PhotonKey, n);
      var first := WithFilter(fs, Hooked(SkipImageKey, DefaultArgs));
      WithFilterKeepsOthers(fs, Hooked(SkipImageKey, DefaultArgs), x);
      WithFilterKeepsOthers(first, Hooked(StripKey, DefaultArgs), x);
      var added := Added(fs);
      var removed := if req.photonActive then WithoutFilter(added, PhotonKey) else added;
      if req.photonActive {
        AddedRegisters(fs, PhotonKey);
        assert !Registered(added, PhotonKey);
        assert removed == added;
      }
      WithFilterKeepsOthers(removed, Hooked(FixKey, DefaultArgs), x);
    }
  }

  /** The filters between the two additions and the photon removal, as FixFeedFilters names them. */
  function Added(fs: seq<Hooked>): seq<Hooked> {
    WithFilter(WithFilter(fs, Hooked(SkipImageKey, DefaultArgs)), Hooked(StripKey, DefaultArgs))
  }

  /** How a key the first two additions do not touch fares through them. */
  lemma AddedRegisters(fs: seq<Hooked>, key: Key)
    ensures Registered(Added(fs), key) <==> key == SkipImageKey || key == StripKey || Registered(fs, key)
  {
    WithFilterRegisters(fs, Hooked(SkipImageKey, DefaultArgs), key);
    WithFilterRegisters(WithFilter(fs, Hooked(SkipImageKey, DefaultArgs)), Hooked(StripKey, DefaultArgs), key);
  }

  /** Outside the feed, or when the feed shows excerpts, nothing is hooked. */
  lemma FixFeedGate(fs: seq<Hooked>, opts: Options, req: Request)
    requires FixFeedSkipped(opts, req)
    ensures FixFeedFilters(fs, opts, req) == fs
  {
  }

  /** Past the gate, the gallery stripper and Photon's skip filter are always hooked. */
  lemma FixFeedHooksStripper(fs: seq<Hooked>, opts: Options, req: Request)
    requires !FixFeedSkipped(opts, req)
    ensures Registered(FixFeedFilters(fs, opts, req), StripKey)
    ensures Registered(FixFeedFilters(fs, opts, req), SkipImageKey)
  {
    FixFeedKeys(fs, opts, req, StripKey);
    FixFeedKeys(fs, opts, req, SkipImageKey);
  }

  /**
   * How each key ends up after fix_feed: the fixer is hooked exactly when
   * it applies (or was already), the other keys except Photon's are as before.
   */
  lemma FixFeedKeys(fs: seq<Hooked>, opts: Options, req: Request, key: Key)
    requires !FixFeedSkipped(opts, req)
    ensures key == StripKey || key == SkipImageKey ==> Registered(FixFeedFilters(fs, opts, req), key)
    ensures key == FixKey ==>
      (Registered(FixFeedFilters(fs, opts, req), key) <==> FixerApplies(opts, req) || Registered(fs, key))
    ensures key != StripKey && key != SkipImageKey && key != FixKey && key != PhotonKey ==>
      (Registered(FixFeedFilters(fs, opts, req), key) <==> Registered(fs, key))
  {
    var added := Added(fs);
    AddedRegisters(fs, key);
    var removed := if req.photonActive then WithoutFilter(added, PhotonKey) else added;
    WithoutFilterUnregisters(added, PhotonKey, key);
    var fixed := if FixerApplies(opts, req) then WithFilter(removed, Hooked(FixKey, DefaultArgs)) else removed;
    WithFilterRegisters(removed, Hooked(FixKey, DefaultArgs), key);
    WithFilterRegisters(fixed, Hooked(PhotonKey, 3), key);
  }

  /** The fixer is hooked by fix_feed if and only if the simplify and alternate-feed settings allow it. */
  lemma FixFeedHooksFixer(fs: seq<Hooked>, opts: Options, req: Request)
    requires !Registered(fs, FixKey)
    ensures Registered(FixFeedFilters(fs, opts, req), FixKey) <==>
      !FixFeedSkipped(opts, req) && !Truthy(opts.simplify) && (!Truthy(opts.alternateFeed) || req.isEmailFeed)
  {
    if !FixFeedSkipped(opts, req) {
      FixFeedKeys(fs, opts, req, FixKey);
    }
  }

  /**
   * Whenever the fixer is hooked, the stripper is hooked on the same hook
   * at an earlier priority, so galleries are already stripped when it runs.
   */
  lemma FixFeedStripperFirst(fs: seq<Hooked>, opts: Options, req: Request)
    requires !FixFeedSkipped(opts, req) && FixerApplies(opts, req)
    ensures Registered(FixFeedFilters(fs, opts, req), FixKey)
    ensures Registered(FixFeedFilters(fs, opts, req), StripKey)
    ensures StripKey.hook == FixKey.hook && StripKey.priority < FixKey.priority
  {
    FixFeedKeys(fs, opts, req, FixKey);
    FixFeedKeys(fs, opts, req, StripKey);
  }

  /**
   * Photon's filter is put back, taking three arguments, exactly when fix_feed
   * took it off; with one entry per key it is hooked afterwards exactly when
   * it was before.
   */
  lemma FixFeedRestoresPhoton(fs: seq<Hooked>, opts: Options, req: Request)
    requires Unique(fs)
    ensures PhotonRemoved(fs, opts, req) ==> Hooked(PhotonKey, 3) in FixFeedFilters(fs, opts, req)
    ensures Registered(FixFeedFilters(fs, opts, req), PhotonKey) <==> Registered(fs, PhotonKey)
    ensures !PhotonRemoved(fs, opts, req) ==>
      forall n :: Hooked(PhotonKey, n) in FixFeedFilters(fs, opts, req) <==> Hooked(PhotonKey, n) in fs
  {
    if !PhotonRemoved(fs, opts, req) {
      forall n ensures Hooked(PhotonKey, n) in FixFeedFilters(fs, opts, req) <==> Hooked(PhotonKey, n) in fs {
        FixFeedKeepsPhoton(fs, opts, req, n);
      }
    }
    if !FixFeedSkipped(opts, req) {
      var added := Added(fs);
      AddedRegisters(fs, PhotonKey);
      WithFilterUnique(fs, Hooked(SkipImageKey, DefaultArgs));
      WithFilterUnique(WithFilter(fs, Hooked(SkipImageKey, DefaultArgs)), Hooked(StripKey, DefaultArgs));
      var removed := if req.photonActive then WithoutFilter(added, PhotonKey) else added;
      WithoutFilterUnregisters(added, PhotonKey, PhotonKey);
      var fixed := if FixerApplies(opts, req) then WithFilter(removed, Hooked(FixKey, DefaultArgs)) else removed;
      WithFilterRegisters(removed, Hooked(FixKey, DefaultArgs), PhotonKey);
      WithFilterRegisters(fixed, Hooked(PhotonKey, 3), PhotonKey);
    }
  }

  /** fix_feed keeps one entry per key. */
  lemma FixFeedUnique(fs: seq<Hooked>, opts: Options, req: Request)
    requires Unique(fs)
    ensures Unique(FixFeedFilters(fs, opts, req))
  {
    if !FixFeedSkipped(opts, req) {
      var added := Added(fs);
      WithFilterUnique(fs, Hooked(SkipImageKey, DefaultArgs));
      WithFilterUnique(WithFilter(fs, Hooked(SkipImageKey, DefaultArgs)), Hooked(StripKey, DefaultArgs));
      var removed := if req.photonActive then WithoutFilter(added, PhotonKey) else added;
      WithoutFilterUnregisters(added, PhotonKey, PhotonKey);
      var fixed := if FixerApplies(opts, req) then WithFilter(removed, Hooked(FixKey, DefaultArgs)) else removed;
      WithFilterUnique(removed, Hooked(FixKey, DefaultArgs));
      WithFilterUnique(fixed, Hooked(PhotonKey, 3));
    }
  }

  /**
   * What the settings screen warns about: with simplify on, fix_feed does
   * the same whatever the alternate feed setting says, and never hooks the fixer.
   */
  lemma SimplifyIgnoresAlternateFeed(fs: seq<Hooked>, opts: Options, req: Request, other: Value)
    requires Settings.ShowsAlternateFeedWarning(opts.alternateFeed, opts.simplify)
    ensures FixFeedFilters(fs, opts, req) == FixFeedFilters(fs, opts.(alternateFeed := other), req)
    ensures !FixerApplies(opts, req)
  {
  }
}
