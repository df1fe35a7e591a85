# jekyll-json-feed: the `json_feed_meta` tag

This project models `JekyllJsonFeed::MetaTag`, the Liquid tag `{% json_feed_meta %}`
of the jekyll-json-feed plugin. The tag reads the site configuration and renders the
feed discovery element:

    <link type="application/json" rel="alternate" href="URL" title="TITLE" />

The model has four modules:

- `Wrappers`: `Option` and `Result`.
- `RubyValue`: the Ruby values a Jekyll configuration holds (nil, false, true,
  integers, strings, arrays and hashes with string keys) and the Ruby behaviour the
  tag relies on:
  - truthiness: only `nil` and `false` are falsy;
  - `Hash#[]`, which gives `nil` for a missing key;
  - `String#[](str)`, which gives `str` when it occurs in the receiver and `nil`
    otherwise;
  - the exceptions `[]` raises on other receivers;
  - `Hash#keep_if`, which keeps insertion order;
  - the `to_s` that string interpolation uses.
- `LinkSyntax`: the `k="v"` attribute text and the `<link … />` element. It also has
  an independent reader of that syntax (`ParseLink`), proved to be the inverse of
  rendering for attributes whose key has no `=` and whose value has no `"`.
- `MetaTag`: the tag's `path`, `title`, `attributes` and `render`.

Two pieces of code that the tag calls are not part of this model. They are parameters
bundled in `MetaTag.Host`:

- Jekyll's `absolute_url` filter, which joins the site's `url` and `baseurl` with the
  path;
- Ruby's `inspect`, which interpolation uses for an Array or a Hash.

The tag's exceptions are modelled as `Err` results.

The model shows that the tag does no escaping. A `"` in the site title is copied into
the element as is, so it closes the title attribute and starts another one
(`MetaTag.QuoteInTitleAddsAttribute`). When neither the href nor the shown title
contains a `"`, reading the element back with `ParseLink`, a reader of the `k="v"`
syntax that decodes nothing, gives exactly the computed attributes
(`MetaTag.RenderReadsBack`). The href is what `absolute_url` returns. For an Array or
a Hash title, the shown title is what `inspect` returns.

## Model

| member | source | states |
|---|---|---|
| RubyValue.Index | lib/jekyll-json-feed/meta-tag.rb:28-29 | What `config["json_feed"]["path"]` does on each kind of receiver. A Hash gives the value, or nil when the key is missing. A String gives "path" exactly when "path" occurs in it, and nil otherwise. An Integer or an Array raises TypeError. nil, true and false raise NoMethodError. No other case succeeds. |
| RubyValue.IncludesAt | lib/jekyll-json-feed/meta-tag.rb:28 | The recursive substring test used by `String#[]` holds exactly when the pattern occurs at some index of the string. |
| RubyValue.KeepIfTruthy | lib/jekyll-json-feed/meta-tag.rb:24 | `keep_if` with a block returning the value keeps no more entries than it was given, and every value it keeps is truthy. |
| RubyValue.KeepIfTruthyMembers | lib/jekyll-json-feed/meta-tag.rb:24 | An entry survives `keep_if` exactly when it was in the hash and its value is neither nil nor false. |
| RubyValue.KeepIfTruthyAllTruthy | lib/jekyll-json-feed/meta-tag.rb:24 | When every value is truthy, `keep_if` returns the entries unchanged and in order. |
| RubyValue.KeepIfTruthyAppend | lib/jekyll-json-feed/meta-tag.rb:24 | Filtering the concatenation of two lists of entries is the concatenation of the filtered lists, so insertion order is kept. |
| RubyValue.KeepIfTruthyIdempotent | lib/jekyll-json-feed/meta-tag.rb:24 | Filtering twice gives the same result as filtering once. |
| RubyValue.Digits | lib/jekyll-json-feed/meta-tag.rb:8 | The decimal text of a natural number is non-empty and made of digits only. |
| RubyValue.DigitsDenote | lib/jekyll-json-feed/meta-tag.rb:8 | The decimal text of n denotes n, and it starts with '0' exactly when n is 0. |
| RubyValue.ToS | lib/jekyll-json-feed/meta-tag.rb:8 | Interpolating a String gives the string itself. nil gives the empty string, true gives "true" and false gives "false". An Integer gives non-empty text. nil, true, false and an Integer give text with no `"` in it. An Array or a Hash gives its `inspect` text. |
| RubyValue.ToSInt | lib/jekyll-json-feed/meta-tag.rb:8 | An Integer interpolates as '-' exactly when it is negative, followed by the decimal digits that denote its magnitude, with no leading zero. |
| LinkSyntax.AttrTexts | lib/jekyll-json-feed/meta-tag.rb:8 | Mapping the attributes to `k="v"` text keeps their number and their order. |
| LinkSyntax.LinkTagSnoc | lib/jekyll-json-feed/meta-tag.rb:8-9 | Adding an attribute at the end of a non-empty list adds one space and its `k="v"` text before ` />`. |
| LinkSyntax.LinkTagSplice | lib/jekyll-json-feed/meta-tag.rb:8-9 | If one attribute's text equals two attributes' texts joined by a space, the elements for the two lists are the same string. This is why `ParseLink` cannot tell them apart. |
| LinkSyntax.LinkTagOfFour | lib/jekyll-json-feed/meta-tag.rb:8-9 | The element for three attributes and at most one more is `<link `, then their texts separated by single spaces, then ` />`. |
| LinkSyntax.ParseAttr | lib/jekyll-json-feed/meta-tag.rb:8 | A successful read of one attribute returns an attribute with no `=` in its key and no `"` in its value. The input is that attribute's `k="v"` text followed by the rest. |
| LinkSyntax.ParseLinkTag | lib/jekyll-json-feed/meta-tag.rb:8-9 | Reading back the element for any non-empty list of such attributes gives the same list. |
| LinkSyntax.LinkTagParseLink | lib/jekyll-json-feed/meta-tag.rb:8-9 | Whatever string `ParseLink` accepts is exactly the element for the attributes it returns. This is the other direction of the round trip. |
| MetaTag.Path | lib/jekyll-json-feed/meta-tag.rb:27-33 | When `json_feed` is nil, false or missing, the path is "feed.json". When it is a Hash, the path is its `path` entry if that is truthy, and "feed.json" otherwise. When it is a String, the path is "path" if "path" occurs in it, and "feed.json" otherwise. Any other truthy `json_feed` raises the exception `[]` raises on it: TypeError for an Integer or an Array, NoMethodError for true. Whenever no exception is raised, the path is truthy. |
| MetaTag.Title | lib/jekyll-json-feed/meta-tag.rb:35-37 | The title is `title` when that is truthy, and `name` otherwise. The title is truthy exactly when one of the two is. |
| MetaTag.Attributes | lib/jekyll-json-feed/meta-tag.rb:18-25 | `attributes` fails exactly when `path` fails, with the same exception. Otherwise it is type, rel and href (the absolute URL of the path), in that order. A title entry follows exactly when the title is truthy. |
| MetaTag.Shown | lib/jekyll-json-feed/meta-tag.rb:8 | Every key is paired with its value as interpolation shows it, in the same order. |
| MetaTag.ShownAttributes | lib/jekyll-json-feed/meta-tag.rb:8 | Interpolating the computed attributes gives the strings "application/json", "alternate" and the URL, followed by the shown title only when the title is truthy. |
| MetaTag.Render | lib/jekyll-json-feed/meta-tag.rb:6-10 | `render` fails exactly when `path` fails, with the same exception. Otherwise it gives `<link type="application/json" rel="alternate" href="URL"`, then ` title="TITLE"` only when the title is truthy, then ` />`. |
| MetaTag.RenderIsLinkTag | lib/jekyll-json-feed/meta-tag.rb:6-10 | The rendered element is the `<link … />` element of the expected attributes. |
| MetaTag.ExpectedPlain | lib/jekyll-json-feed/meta-tag.rb:18-25 | When the URL and the shown title contain no `"`, none of the rendered attributes has a `=` in its key or a `"` in its value. |
| MetaTag.RenderReadsBack | lib/jekyll-json-feed/meta-tag.rb:6-10 | When the URL and the shown title contain no `"`, reading the element back gives exactly the computed attributes, in order. |
| MetaTag.NoTitleWithoutTitleOrName | spec/jekyll-json-feed_spec.rb:196-207 | With neither `title` nor `name` set, the element has exactly three attributes and none of them is a title. |
| MetaTag.EmptyTitleKept | lib/jekyll-json-feed/meta-tag.rb:24 | `keep_if` drops only nil and false, so an empty-string title still renders as `title=""`. |
| MetaTag.QuotedTitleText | lib/jekyll-json-feed/meta-tag.rb:8 | The text `title="x" onload="y"` is also the text of two separate attributes. |
| MetaTag.QuotedTitleReadsBack | lib/jekyll-json-feed/meta-tag.rb:8-9 | The element with that title reads back as five attributes. |
| MetaTag.QuoteInTitleAddsAttribute | lib/jekyll-json-feed/meta-tag.rb:8 | The tag escapes nothing. A title `x" onload="y` renders an element that reads back with a title "x" and an extra `onload` attribute. |
| MetaTag.DefaultSiteExample | spec/jekyll-json-feed_spec.rb:190-194 | For the default test site (name "My awesome site", no `json_feed`, and "feed.json" resolving to http://example.org/feed.json), the output is the element for type application/json, rel alternate, that href and that title. |
| MetaTag.CustomPathExample | spec/jekyll-json-feed_spec.rb:211-227 | With `json_feed.path` set to "atom.json", the path is "atom.json" and href is its absolute URL. |

## Left out

- The feed generator (`jekyll-json-feed/generator`) and the `feed.json` template are not part of this model. Only the meta tag is modelled.
- The tag registration in lib/jekyll-json-feed.rb is not modelled. It only binds the tag name to the class.
- The Liquid context and its `registers[:site].config` lookup (meta-tag.rb:14-16) are not modelled. The site configuration is passed to each function directly.
- Jekyll's `absolute_url` is a parameter (`Host.absoluteUrl`). Its handling of `url` and `baseurl`, covered by the baseurl test at spec/jekyll-json-feed_spec.rb:184-187, is not modelled, and neither are the exceptions it may raise.
- Ruby's `inspect` for an Array or a Hash value is a parameter (`Host.inspect`).
- The order of a Hash's entries is not modelled, because `RubyValue.Value.Hash` holds a `map`. Two configuration hashes that differ only in the order of their entries are the same value here. So a Hash-valued `title` or `json_feed.path` has the same `inspect` text, and the same absolute URL, in either order.
- HTML character references are not modelled. `LinkSyntax.ParseLink` reads `k="v"` text and decodes nothing. A browser decodes a reference such as `&amp;` inside an attribute value, so it would not recover a title like `AT&amp;T` verbatim. The model does not show what the missing escaping of `&` leads to.
- Floats, symbols and other Ruby objects as configuration values are not modelled, and neither are hash keys that are not strings.
- How Liquid reports an exception raised while rendering is not modelled. The exception is returned as `Err`.
- MetaTag.DefaultSiteExample: states the expected output as the element for the four expected attributes, not as a single string literal. `LinkSyntax.LinkTag` spells that element out character by character.
- MetaTag.CustomPathExample: states the href attribute's value rather than the presence of `href="…"` in the output. `MetaTag.Render` gives the whole output in terms of that value.
