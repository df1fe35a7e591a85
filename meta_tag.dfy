/**
 * The `json_feed_meta` Liquid tag (`JekyllJsonFeed::MetaTag`): from the site
 * configuration it renders the feed discovery element
 * `<link type="application/json" rel="alternate" href="…" title="…" />`.
 * The site configuration is passed in directly; the Liquid context that the
 * tag reads it from is not modelled.
 */
module MetaTag {
  import opened Wrappers
  import opened RubyValue
  import opened LinkSyntax

  /**
   * Code the tag calls but does not define: Jekyll's `absolute_url` filter
   * (given a non-nil value it returns a URL string), and Ruby's `inspect`,
   * which `"#{v}"` uses for an Array or a Hash.
   */
  datatype Host = Host(absoluteUrl: Value -> string, inspect: Value -> string)

  /** The site configuration, a Hash with String keys. */
  type Config = map<string, Value>

  const DefaultPath: string := "feed.json"
  const LinkType: string := "application/json"
  const LinkRel: string := "alternate"

  /**
   * `path`: `config["json_feed"]["path"]` when `config["json_feed"]` and that
   * lookup are both truthy, otherwise "feed.json". Indexing a truthy
   * `json_feed` that is neither a Hash nor a String raises.
   */
  function Path(config: Config): (r: Result<Value, RubyError>)
    ensures r.Ok? ==> Truthy(r.value)
    ensures var feed := Lookup(config, "json_feed");
      r.Err? <==> Truthy(feed) && !feed.Hash? && !feed.Str?
    ensures r.Err? ==> r == Index(Lookup(config, "json_feed"), "path")
    ensures !Truthy(Lookup(config, "json_feed")) ==> r == Ok(Str(DefaultPath))
    ensures var feed := Lookup(config, "json_feed"); feed.Hash? ==>
      var p := Lookup(feed.entries, "path");
      r == Ok(if Truthy(p) then p else Str(DefaultPath))
    ensures var feed := Lookup(config, "json_feed"); feed.Str? ==>
      r == Ok(Str(if exists i :: OccursAt(feed.s, "path", i) then "path" else DefaultPath))
  {
    var feed := Lookup(config, "json_feed");
    if !Truthy(feed) then Ok(Str(DefaultPath))
    else match Index(feed, "path")
      case Err(e) => Err(e)
      case Ok(p) => Ok(if Truthy(p) then p else Str(DefaultPath))
  }

  /** `title`: `config["title"] || config["name"]`. */
  function Title(config: Config): (r: Value)
    ensures Truthy(r) <==> Truthy(Lookup(config, "title")) || Truthy(Lookup(config, "name"))
    ensures Truthy(Lookup(config, "title")) ==> r == Lookup(config, "title")
    ensures !Truthy(Lookup(config, "title")) ==> r == Lookup(config, "name")
  {
    var title := Lookup(config, "title");
    if Truthy(title) then title else Lookup(config, "name")
  }

  /**
   * `attributes`: the Hash `{type:, rel:, href:, title:}` in that order, with
   * its nil and false values dropped by `keep_if`.
   */
  function Attributes(host: Host, config: Config): (r: Result<seq<(string, Value)>, RubyError>)
    ensures r.Err? <==> Path(config).Err?
    ensures r.Err? ==> r.error == Path(config).error
    ensures r.Ok? ==> 3 <= |r.value| <= 4
    ensures r.Ok? ==>
      var title := Title(config);
      r.value == [("type", Str(LinkType)), ("rel", Str(LinkRel)), ("href", Str(host.absoluteUrl(Path(config).value)))]
        + (if Truthy(title) then [("title", title)] else [])
  {
    match Path(config)
    case Err(e) => Err(e)
    case Ok(path) =>
      var title := Title(config);
      var fixed := [("type", Str(LinkType)), ("rel", Str(LinkRel)), ("href", Str(host.absoluteUrl(path)))];
      KeepIfTruthyAppend(fixed, [("title", title)]);
      KeepIfTruthyAllTruthy(fixed);
      assert KeepIfTruthy([("title", title)]) == if Truthy(title) then [("title", title)] else [];
      Ok(KeepIfTruthy(fixed + [("title", title)]))
  }

  /** Each value as `"#{v}"` shows it. */
  function Shown(attrs: seq<(string, Value)>, inspect: Value -> string): (r: seq<Attribute>)
    ensures |r| == |attrs|
    ensures forall i :: 0 <= i < |attrs| ==> r[i] == (attrs[i].0, ToS(attrs[i].1, inspect))
  {
    if attrs == [] then [] else [(attrs[0].0, ToS(attrs[0].1, inspect))] + Shown(attrs[1..], inspect)
  }

  /** The attributes as the tag computes and shows them, which `ParseLink` should read back. */
  function Expected(host: Host, config: Config): seq<Attribute>
    requires Path(config).Ok?
  {
    var title := Title(config);
    [("type", LinkType), ("rel", LinkRel), ("href", host.absoluteUrl(Path(config).value))]
      + (if Truthy(title) then [("title", ToS(title, host.inspect))] else [])
  }

  /** Showing the computed attributes gives the expected list. */
  lemma ShownAttributes(host: Host, config: Config)
    requires Path(config).Ok?
    ensures Attributes(host, config).Ok?
    ensures Shown(Attributes(host, config).value, host.inspect) == Expected(host, config)
  {
    var attrs := Attributes(host, config).value;
    var url := host.absoluteUrl(Path(config).value);
    var title := Title(config);
    var fixed := [("type", LinkType), ("rel", LinkRel), ("href", url)];
    var tail := if Truthy(title) then [("title", ToS(title, host.inspect))] else [];
    assert ToS(Str(LinkType), host.inspect) == LinkType;
    assert ToS(Str(LinkRel), host.inspect) == LinkRel;
    assert ToS(Str(url), host.inspect) == url;
    var shown := Shown(attrs, host.inspect);
    assert shown[..3] == fixed;
    assert shown[3..] == tail;
    assert shown == shown[..3] + shown[3..];
  }

  /**
   * `render`: the attributes as `k="v"` joined by single spaces inside
   * `<link ` … ` />`; an exception raised while resolving the path propagates.
   */
  function Render(host: Host, config: Config): (r: Result<string, RubyError>)
    ensures r.Err? <==> Path(config).Err?
    ensures r.Err? ==> r.error == Path(config).error
    ensures r.Ok? ==>
      var title := Title(config);
      r.value ==
        "<link " + AttrText(("type", LinkType)) + " " + AttrText(("rel", LinkRel))
        + " " + AttrText(("href", host.absoluteUrl(Path(config).value)))
        + (if Truthy(title) then " " + AttrText(("title", ToS(title, host.inspect))) else "")
        + " />"
  {
    match Attributes(host, config)
    case Err(e) => Err(e)
    case Ok(attrs) =>
      var title := Title(config);
      var extra := if Truthy(title) then [("title", ToS(title, host.inspect))] else [];
      ShownAttributes(host, config);
      LinkTagOfFour(("type", LinkType), ("rel", LinkRel), ("href", host.absoluteUrl(Path(config).value)), extra);
      Ok(LinkTag(Shown(attrs, host.inspect)))
  }

  lemma PlainAttrs(fixed: seq<Attribute>, extra: seq<Attribute>)
    requires |fixed| == 3 && |extra| <= 1
    requires Plain(fixed[0]) && Plain(fixed[1]) && Plain(fixed[2])
    requires extra != [] ==> Plain(extra[0])
    ensures forall i :: 0 <= i < |fixed + extra| ==> Plain((fixed + extra)[i])
  {
  }

  /** With no `"` in the href or the title, every expected attribute reads back unchanged. */
  lemma ExpectedPlain(host: Host, config: Config)
    requires Path(config).Ok?
    requires '"' !in host.absoluteUrl(Path(config).value)
    requires Truthy(Title(config)) ==> '"' !in ToS(Title(config), host.inspect)
    ensures forall i :: 0 <= i < |Expected(host, config)| ==> Plain(Expected(host, config)[i])
  {
    var url := host.absoluteUrl(Path(config).value);
    var title := Title(config);
    var fixed := [("type", LinkType), ("rel", LinkRel), ("href", url)];
    var extra := if Truthy(title) then [("title", ToS(title, host.inspect))] else [];
    assert Plain(("type", LinkType)) && Plain(("rel", LinkRel));
    PlainAttrs(fixed, extra);
  }

  /** The rendered element is the element for the expected attributes. */
  lemma RenderIsLinkTag(host: Host, config: Config)
    requires Path(config).Ok?
    ensures Render(host, config) == Ok(LinkTag(Expected(host, config)))
  {
    ShownAttributes(host, config);
  }

  /**
   * No escaping: when neither the href nor the title contains a `"`, reading
   * the element back yields exactly the computed attributes, in order.
   */
  lemma RenderReadsBack(host: Host, config: Config)
    requires Path(config).Ok?
    requires '"' !in host.absoluteUrl(Path(config).value)
    requires Truthy(Title(config)) ==> '"' !in ToS(Title(config), host.inspect)
    ensures Render(host, config).Ok?
    ensures ParseLink(Render(host, config).value) == Some(Expected(host, config))
  {
    ExpectedPlain(host, config);
    ParseLinkTag(Expected(host, config));
    RenderIsLinkTag(host, config);
  }

  /**
   * With neither `title` nor `name` set, the element read back has exactly the
   * attributes type, rel and href: no title attribute at all, not an empty one.
   */
  lemma NoTitleWithoutTitleOrName(host: Host, config: Config)
    requires !Truthy(Lookup(config, "title")) && !Truthy(Lookup(config, "name"))
    requires Path(config).Ok?
    requires '"' !in host.absoluteUrl(Path(config).value)
    ensures Render(host, config).Ok?
    ensures var attrs := ParseLink(Render(host, config).value);
      attrs.Some? && |attrs.value| == 3 && forall a :: a in attrs.value ==> a.0 != "title"
  {
    RenderReadsBack(host, config);
  }

  /**
   * An empty title is still a title: only nil and false are dropped, so
   * `title: ""` renders `title=""`.
   */
  lemma EmptyTitleKept(host: Host, config: Config)
    requires Lookup(config, "title") == Str("")
    requires Path(config).Ok?
    requires '"' !in host.absoluteUrl(Path(config).value)
    ensures Render(host, config).Ok?
    ensures var attrs := ParseLink(Render(host, config).value);
      attrs.Some? && |attrs.value| == 4 && attrs.value[3] == ("title", "")
  {
    RenderReadsBack(host, config);
  }

  lemma QuotedTitleText()
    ensures AttrText(("title", "x\" onload=\"y")) == AttrText(("title", "x")) + " " + AttrText(("onload", "y"))
  {
  }

  /** The element with the quoted title reads back as five attributes. */
  lemma QuotedTitleReadsBack(url: string)
    requires '"' !in url
    ensures var fixed := [("type", LinkType), ("rel", LinkRel), ("href", url)];
      ParseLink(LinkTag(fixed + [("title", "x\" onload=\"y")]))
        == Some(fixed + [("title", "x"), ("onload", "y")])
  {
    var fixed := [("type", LinkType), ("rel", LinkRel), ("href", url)];
    QuotedTitleText();
    LinkTagSplice(fixed, ("title", "x\" onload=\"y"), ("title", "x"), ("onload", "y"));
    var read := fixed + [("title", "x"), ("onload", "y")];
    assert forall i :: 0 <= i < |read| ==> Plain(read[i]);
    ParseLinkTag(read);
  }

  /** A `"` in the title is not escaped: it closes the value and starts another attribute. */
  lemma QuoteInTitleAddsAttribute(host: Host, config: Config)
    requires Lookup(config, "title") == Str("x\" onload=\"y")
    requires Path(config).Ok?
    requires '"' !in host.absoluteUrl(Path(config).value)
    ensures Render(host, config).Ok?
    ensures var attrs := ParseLink(Render(host, config).value);
      attrs.Some? && |attrs.value| == 5 && attrs.value[3] == ("title", "x") && attrs.value[4] == ("onload", "y")
  {
    var url := host.absoluteUrl(Path(config).value);
    assert Expected(host, config) == [("type", LinkType), ("rel", LinkRel), ("href", url)] + [("title", "x\" onload=\"y")];
    RenderIsLinkTag(host, config);
    QuotedTitleReadsBack(url);
  }

  /** The element the default test site renders (site `name` "My awesome site", no feed path). */
  lemma DefaultSiteExample(host: Host, config: Config)
    requires Lookup(config, "json_feed") == Nil && Lookup(config, "title") == Nil
    requires Lookup(config, "name") == Str("My awesome site")
    requires host.absoluteUrl(Str("feed.json")) == "http://example.org/feed.json"
    ensures Render(host, config) == Ok(LinkTag([("type", "application/json"), ("rel", "alternate"),
      ("href", "http://example.org/feed.json"), ("title", "My awesome site")]))
  {
    assert Path(config) == Ok(Str("feed.json"));
    assert Title(config) == Str("My awesome site");
    assert Expected(host, config) == [("type", "application/json"), ("rel", "alternate"),
      ("href", "http://example.org/feed.json"), ("title", "My awesome site")];
    RenderIsLinkTag(host, config);
  }

  /** Configuring `json_feed.path` as "atom.json" points href at that path's absolute URL. */
  lemma CustomPathExample(host: Host, config: Config)
    requires Lookup(config, "json_feed") == Hash(map["path" := Str("atom.json")])
    requires host.absoluteUrl(Str("atom.json")) == "http://example.org/atom.json"
    ensures Path(config) == Ok(Str("atom.json"))
    ensures Attributes(host, config).Ok?
    ensures Attributes(host, config).value[2] == ("href", Str("http://example.org/atom.json"))
  {
  }
}
