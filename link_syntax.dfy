/**
 * The text of the discovery element: `k="v"` pairs joined by single spaces inside
 * `<link ` … ` />`, exactly as the tag builds it, with no escaping of either part.
 * `ParseLink` reads such an element back as `k="v"` text; it is the inverse of
 * that syntax and decodes nothing (HTML character references are not modelled).
 */
module LinkSyntax {
  import opened Wrappers

  type Attribute = (string, string)

  /** `%(#{k}="#{v}")` */
  function AttrText(a: Attribute): string {
    a.0 + "=\"" + a.1 + "\""
  }

  /** `attributes.map { |k, v| %(#{k}="#{v}") }` */
  function AttrTexts(attrs: seq<Attribute>): (r: seq<string>)
    ensures |r| == |attrs|
    ensures forall i :: 0 <= i < |attrs| ==> r[i] == AttrText(attrs[i])
  {
    if attrs == [] then [] else [AttrText(attrs[0])] + AttrTexts(attrs[1..])
  }

  /** Ruby's `Array#join(sep)`: the parts with `sep` between neighbours. */
  function Join(parts: seq<string>, sep: string): string {
    if |parts| == 0 then ""
    else if |parts| == 1 then parts[0]
    else parts[0] + sep + Join(parts[1..], sep)
  }

  lemma AppendAssoc(a: string, b: string, c: string)
    ensures a + (b + c) == a + b + c
  {
  }

  lemma JoinCons(part: string, parts: seq<string>, sep: string)
    requires parts != []
    ensures Join([part] + parts, sep) == part + sep + Join(parts, sep)
  {
    assert ([part] + parts)[1..] == parts;
  }

  /** `"<link #{attrs} />"` where attrs is the joined attribute text. */
  function LinkTag(attrs: seq<Attribute>): string {
    "<link " + Join(AttrTexts(attrs), " ") + " />"
  }

  lemma {:induction false} AttrTextsAppend(a: seq<Attribute>, b: seq<Attribute>)
    ensures AttrTexts(a + b) == AttrTexts(a) + AttrTexts(b)
  {
    if a != [] {
      assert (a + b)[1..] == a[1..] + b;
      AttrTextsAppend(a[1..], b);
    } else {
      assert a + b == b;
    }
  }

  lemma {:induction false} JoinSnoc(parts: seq<string>, last: string, sep: string)
    requires parts != []
    ensures Join(parts + [last], sep) == Join(parts, sep) + sep + last
  {
    if |parts| == 1 {
      assert parts + [last] == [parts[0]] + [last];
    } else {
      assert (parts + [last])[1..] == parts[1..] + [last];
      JoinSnoc(parts[1..], last, sep);
      AppendAssoc(parts[0] + sep, Join(parts[1..], sep) + sep, last);
      AppendAssoc(parts[0] + sep, Join(parts[1..], sep), sep);
    }
  }

  /** Appending one attribute appends one space and its `k="v"` before ` />`. */
  lemma LinkTagSnoc(attrs: seq<Attribute>, a: Attribute)
    requires attrs != []
    ensures LinkTag(attrs + [a]) == "<link " + Join(AttrTexts(attrs), " ") + " " + AttrText(a) + " />"
  {
    AttrTextsAppend(attrs, [a]);
    assert AttrTexts([a]) == [AttrText(a)];
    JoinSnoc(AttrTexts(attrs), AttrText(a), " ");
    var j := Join(AttrTexts(attrs), " ");
    AppendAssoc("<link ", j + " ", AttrText(a));
    AppendAssoc("<link ", j, " ");
  }

  /**
   * Text alone cannot tell one attribute whose text is that of two attributes
   * from those two attributes.
   */
  lemma LinkTagSplice(attrs: seq<Attribute>, a: Attribute, b: Attribute, c: Attribute)
    requires attrs != []
    requires AttrText(a) == AttrText(b) + " " + AttrText(c)
    ensures LinkTag(attrs + [a]) == LinkTag(attrs + [b, c])
  {
    var j := Join(AttrTexts(attrs), " ");
    LinkTagSnoc(attrs, a);
    assert attrs + [b, c] == (attrs + [b]) + [c];
    LinkTagSnoc(attrs + [b], c);
    AttrTextsAppend(attrs, [b]);
    assert AttrTexts([b]) == [AttrText(b)];
    JoinSnoc(AttrTexts(attrs), AttrText(b), " ");
    AppendAssoc("<link " + j + " ", AttrText(b) + " ", AttrText(c));
    AppendAssoc("<link " + j + " ", AttrText(b), " ");
    AppendAssoc("<link ", j + " ", AttrText(b));
    AppendAssoc("<link ", j, " ");
  }

  lemma JoinThree(t0: string, t1: string, t2: string, sep: string)
    ensures Join([t0, t1, t2], sep) == t0 + sep + t1 + sep + t2
  {
    assert Join([t2], sep) == t2;
    JoinCons(t1, [t2], sep);
    assert [t1] + [t2] == [t1, t2];
    JoinCons(t0, [t1, t2], sep);
    assert [t0] + [t1, t2] == [t0, t1, t2];
    AppendAssoc(t0 + sep, t1 + sep, t2);
    AppendAssoc(t0 + sep, t1, sep);
  }

  /**
   * The element for three attributes followed by at most one more: each as
   * `k="v"`, one space between neighbours, inside `<link ` … ` />`.
   */
  lemma LinkTagOfFour(a0: Attribute, a1: Attribute, a2: Attribute, extra: seq<Attribute>)
    requires |extra| <= 1
    ensures LinkTag([a0, a1, a2] + extra)
      == "<link " + AttrText(a0) + " " + AttrText(a1) + " " + AttrText(a2)
         + (if extra == [] then "" else " " + AttrText(extra[0])) + " />"
  {
    var t0, t1, t2 := AttrText(a0), AttrText(a1), AttrText(a2);
    var j := t0 + " " + t1 + " " + t2;
    assert AttrTexts([a0, a1, a2]) == [t0, t1, t2];
    JoinThree(t0, t1, t2, " ");
    AppendAssoc("<link ", t0 + " " + t1 + " ", t2);
    AppendAssoc("<link ", t0 + " " + t1, " ");
    AppendAssoc("<link ", t0 + " ", t1);
    AppendAssoc("<link ", t0, " ");
    if extra == [] {
      assert [a0, a1, a2] + extra == [a0, a1, a2];
      assert "<link " + j + "" == "<link " + j;
    } else {
      LinkTagSnoc([a0, a1, a2], extra[0]);
      assert [a0, a1, a2] + extra == [a0, a1, a2] + [extra[0]];
      AppendAssoc("<link " + j, " ", AttrText(extra[0]));
    }
  }

  /** An attribute that reads back unchanged: no `=` in its name and no `"` in its value. */
  predicate Plain(a: Attribute) {
    '=' !in a.0 && '"' !in a.1
  }

  /** The part of s before the first c, and the part after it. */
  function SplitAt(s: string, c: char): (r: Option<(string, string)>)
    ensures r.None? <==> c !in s
    ensures r.Some? ==> s == r.value.0 + [c] + r.value.1 && c !in r.value.0
  {
    if s == [] then None
    else if s[0] == c then Some(([], s[1..]))
    else match SplitAt(s[1..], c)
      case None => None
      case Some(parts) => Some(([s[0]] + parts.0, parts.1))
  }

  lemma {:induction false} SplitAtFirst(a: string, c: char, b: string)
    requires c !in a
    ensures SplitAt(a + [c] + b, c) == Some((a, b))
  {
    if a != [] {
      var s := a + [c] + b;
      assert s[0] == a[0] && a[0] != c;
      assert s[1..] == a[1..] + [c] + b;
      SplitAtFirst(a[1..], c, b);
      assert [a[0]] + a[1..] == a;
    }
  }

  /** The pieces `name`, `=`, `"value"` and what follows. */
  lemma AttrTextParts(a: Attribute, tail: string)
    ensures AttrText(a) + tail == a.0 + ['='] + (['"'] + (a.1 + ['"'] + tail))
  {
  }

  /** Prepends one attribute to a parse that succeeded. */
  function Prepend(a: Attribute, rest: Option<seq<Attribute>>): Option<seq<Attribute>> {
    match rest
    case None => None
    case Some(more) => Some([a] + more)
  }

  /**
   * Reads one `name="value"` at the front of s: a name up to the first `=`,
   * then a value between a `"` and the next `"`; returns it with what follows.
   */
  function ParseAttr(s: string): (r: Option<(Attribute, string)>)
    ensures r.Some? ==> Plain(r.value.0) && s == AttrText(r.value.0) + r.value.1
  {
    match SplitAt(s, '=')
    case None => None
    case Some(p) =>
      if p.1 == [] || p.1[0] != '"' then None
      else match SplitAt(p.1[1..], '"')
        case None => None
        case Some(q) =>
          assert p.1 == ['"'] + (q.0 + ['"'] + q.1);
          AttrTextParts((p.0, q.0), q.1);
          Some(((p.0, q.0), q.1))
  }

  /** Reads `k1="v1" k2="v2" …` (at least one pair, single spaces between pairs). */
  function ParseAttrs(s: string): Option<seq<Attribute>>
    decreases |s|
  {
    match ParseAttr(s)
    case None => None
    case Some(p) =>
      if p.1 == [] then Some([p.0])
      else if p.1[0] != ' ' then None
      else Prepend(p.0, ParseAttrs(p.1[1..]))
  }

  /** Reads a whole `<link … />` element back into its attributes. */
  function ParseLink(s: string): Option<seq<Attribute>> {
    if |s| < 9 || s[..6] != "<link " || s[|s| - 3..] != " />" then None
    else if |s| == 9 then Some([])
    else ParseAttrs(s[6..|s| - 3])
  }

  /** A plain attribute at the front of s is read back as itself. */
  lemma ParseAttrText(a: Attribute, tail: string)
    requires Plain(a)
    ensures ParseAttr(AttrText(a) + tail) == Some((a, tail))
  {
    var quoted := ['"'] + a.1 + ['"'] + tail;
    assert AttrText(a) + tail == a.0 + ['='] + quoted;
    SplitAtFirst(a.0, '=', quoted);
    assert quoted[1..] == a.1 + ['"'] + tail;
    SplitAtFirst(a.1, '"', tail);
  }

  lemma {:induction false} ParseAttrsJoin(attrs: seq<Attribute>)
    requires attrs != []
    requires forall i :: 0 <= i < |attrs| ==> Plain(attrs[i])
    ensures ParseAttrs(Join(AttrTexts(attrs), " ")) == Some(attrs)
  {
    var texts := AttrTexts(attrs);
    if |attrs| == 1 {
      var s := Join(texts, " ");
      assert s == AttrText(attrs[0]) + [];
      ParseAttrText(attrs[0], []);
      assert ParseAttr(s) == Some((attrs[0], []));
      assert attrs == [attrs[0]];
    } else {
      var rest := Join(AttrTexts(attrs[1..]), " ");
      assert texts[1..] == AttrTexts(attrs[1..]);
      assert Join(texts, " ") == AttrText(attrs[0]) + (" " + rest);
      ParseAttrText(attrs[0], " " + rest);
      assert (" " + rest)[1..] == rest;
      ParseAttrsJoin(attrs[1..]);
      assert [attrs[0]] + attrs[1..] == attrs;
    }
  }

  lemma {:induction false} JoinParseAttrs(s: string, attrs: seq<Attribute>)
    requires ParseAttrs(s) == Some(attrs)
    ensures attrs != []
    ensures forall i :: 0 <= i < |attrs| ==> Plain(attrs[i])
    ensures Join(AttrTexts(attrs), " ") == s
    decreases |s|
  {
    var (a, tail) := ParseAttr(s).value;
    if tail == [] {
      assert attrs == [a];
      assert s == AttrText(a) + [];
    } else {
      var more := ParseAttrs(tail[1..]).value;
      assert attrs == [a] + more;
      JoinParseAttrs(tail[1..], more);
      assert attrs[1..] == more;
      assert tail == " " + tail[1..];
      assert AttrTexts(attrs)[1..] == AttrTexts(more);
    }
  }

  /** Reading back an emitted element recovers exactly the attributes written, when they are plain. */
  lemma ParseLinkTag(attrs: seq<Attribute>)
    requires forall i :: 0 <= i < |attrs| ==> Plain(attrs[i])
    ensures ParseLink(LinkTag(attrs)) == Some(attrs)
  {
    var s := LinkTag(attrs);
    var body := Join(AttrTexts(attrs), " ");
    assert s[..6] == "<link " && s[|s| - 3..] == " />" && s[6..|s| - 3] == body;
    if attrs != [] {
      ParseAttrsJoin(attrs);
      assert |body| > 0;
    }
  }

  /** Every element ParseLink accepts is the element emitted for what it reads. */
  lemma LinkTagParseLink(s: string, attrs: seq<Attribute>)
    requires ParseLink(s) == Some(attrs)
    ensures forall i :: 0 <= i < |attrs| ==> Plain(attrs[i])
    ensures LinkTag(attrs) == s
  {
    var body := s[6..|s| - 3];
    assert s == "<link " + body + " />" by {
      assert s == s[..6] + body + s[|s| - 3..];
    }
    if |s| == 9 {
      assert body == [] && attrs == [];
      assert Join(AttrTexts(attrs), " ") == body;
    } else {
      JoinParseAttrs(body, attrs);
    }
  }
}
