/**
 * The NCX navigation document (NCX.php): meta, docTitle, docAuthor, the
 * navMap of navPoints, the pageList and the navList. A navPoint holds at most
 * one nested navPoint, so the navMap entries are chains; parseNavPoint and
 * navPoint2Xml recurse along them. The class Document keeps the fields
 * readXML fills and asXML validates and writes.
 */
module Ncx {
  import opened Php
  import opened Xml

  /** 'Missing required element "<element>" within <within>', the only exception asXML throws. */
  datatype Error = Missing(element: string, within: string)

  // ---------------------------------------------------------------------------
  // navPoint chains

  /**
   * A parsed <navPoint>: its attributes, the text of navLabel/text ("" when
   * absent), the attributes of <content> (none when absent) and the
   * <navPoint> elements nested in it.
   */
  datatype NavPointElement = NavPointElement(attrs: seq<Attr>, labelText: string, contentAttrs: seq<Attr>,
                                             children: seq<NavPointElement>)

  /** The navPoint array: every key optional, 'navPoint' the nested one. */
  datatype NavPoint = NavPoint(id: Option<string>, playOrder: Option<string>, className: Option<string>,
                               navLabel: Option<string>, content: Option<string>, child: Option<NavPoint>)

  /** Number of navPoints in a chain. */
  function Depth(p: NavPoint): nat
  {
    1 + (if p.child.Some? then Depth(p.child.value) else 0)
  }

  /** Nesting depth of an element, following the first nested <navPoint> at every level. */
  function ElementDepth(e: NavPointElement): nat
  {
    1 + (if e.children != [] then ElementDepth(e.children[0]) else 0)
  }

  /** The navPoints of a chain, outermost first. */
  function Chain(p: NavPoint): (c: seq<NavPoint>)
    ensures |c| == Depth(p) && c[0] == p
  {
    [p] + if p.child.Some? then Chain(p.child.value) else []
  }

  /** parseNavPoint: the chain is exactly as deep as the first-child nesting of the element. */
  function ParseNavPoint(e: NavPointElement): (p: NavPoint)
    ensures Depth(p) == ElementDepth(e)
    ensures p.navLabel.Some?
  {
    NavPoint(GetAttr(e.attrs, "id"), GetAttr(e.attrs, "playOrder"), GetAttr(e.attrs, "class"),
             Some(Trim(e.labelText)), GetAttr(e.contentAttrs, "src"),
             if e.children != [] then Some(ParseNavPoint(e.children[0])) else None)
  }

  /** The attributes of the opening <navPoint> tag: playOrder, id, and class only when it is set and non-empty. */
  function NavPointAttrs(p: NavPoint): (a: seq<Attr>)
    ensures |a| >= 2 && a[0] == Attr("playOrder", Str(p.playOrder)) && a[1] == Attr("id", Str(p.id))
    ensures GetAttr(a, "id") == Some(Str(p.id)) && GetAttr(a, "playOrder") == Some(Str(p.playOrder))
    ensures GetAttr(a, "class").Some? <==> Truthy(p.className)
    ensures GetAttr(a, "class").Some? ==> GetAttr(a, "class") == p.className
  {
    var fixed := [Attr("playOrder", Str(p.playOrder)), Attr("id", Str(p.id))];
    var classAttr := if Truthy(p.className) then [Attr("class", p.className.value)] else [];
    GetAttrConcat(fixed, classAttr, "class");
    fixed + classAttr
  }

  /** A navPoint's own text up to its nested navPoint: opening tag, label, content. */
  function NavPointHead(p: NavPoint): string
  {
    StartTag("navPoint", NavPointAttrs(p)) + "<navLabel><text>" + Str(p.navLabel) + "</text></navLabel>"
      + EmptyTag("content", [Attr("src", Str(p.content))])
  }

  /** The heads of a sequence of navPoints, one after the other. */
  function Heads(ps: seq<NavPoint>): string
  {
    if ps == [] then "" else NavPointHead(ps[0]) + Heads(ps[1..])
  }

  /** `n` closing </navPoint> tags. */
  function Closings(n: nat): string
  {
    if n == 0 then "" else "</navPoint>" + Closings(n - 1)
  }

  lemma {:induction false} ClosingsSnoc(n: nat)
    ensures Closings(n) + "</navPoint>" == "</navPoint>" + Closings(n)
  {
    if n > 0 {
      ClosingsSnoc(n - 1);
      Assoc("</navPoint>", Closings(n - 1), "</navPoint>");
    }
  }

  /**
   * navPoint2Xml: a missing navLabel or content fails; otherwise the text is
   * the head of every navPoint of the chain, outermost first, followed by
   * one closing tag per navPoint, so the tags balance at every depth.
   */
  function NavPoint2Xml(p: NavPoint): (r: Result<string, Error>)
    ensures p.navLabel.None? ==> r == Err(Missing("navLabel", "navPoint"))
    ensures p.navLabel.Some? && p.content.None? ==> r == Err(Missing("content", "navPoint"))
    ensures r.Ok? ==> r.value == Heads(Chain(p)) + Closings(Depth(p))
  {
    if p.navLabel.None? then Err(Missing("navLabel", "navPoint"))
    else if p.content.None? then Err(Missing("content", "navPoint"))
    else
      var inner := if p.child.Some? then NavPoint2Xml(p.child.value) else Ok("");
      match inner
      case Err(e) => Err(e)
      case Ok(c) =>
        var r := NavPointHead(p) + c + "</navPoint>";
        NavPointLayout(p, c);
        Ok(r)
  }

  /** One level of the layout of NavPoint2Xml. */
  lemma NavPointLayout(p: NavPoint, c: string)
    requires p.child.None? ==> c == ""
    requires p.child.Some? ==> c == Heads(Chain(p.child.value)) + Closings(Depth(p.child.value))
    ensures NavPointHead(p) + c + "</navPoint>" == Heads(Chain(p)) + Closings(Depth(p))
  {
    var h := NavPointHead(p);
    if p.child.None? {
      assert Chain(p) == [p];
      assert Heads(Chain(p)) == h + Heads([]);
    } else {
      var q := p.child.value;
      assert Chain(p)[1..] == Chain(q);
      assert Heads(Chain(p)) == h + Heads(Chain(q));
      ClosingsSnoc(Depth(q));
      Regroup(h, Heads(Chain(q)), Closings(Depth(q)), "</navPoint>");
    }
  }

  lemma Regroup<T>(h: seq<T>, a: seq<T>, b: seq<T>, x: seq<T>)
    requires b + x == x + b
    ensures h + (a + b) + x == (h + a) + (x + b)
  {
    calc {
      h + (a + b) + x;
      h + a + (b + x);
      h + a + (x + b);
    }
  }

  // ---------------------------------------------------------------------------
  // Document state

  /** `$docTitle['img']`: '' until readXML stores a src under it, which turns it into an array. */
  datatype Img = NoImg | ImgSrc(src: string)

  /** `$docAuthor` when it is not empty: its text and the src of its img, if read. */
  datatype Author = Author(text: string, img: Option<string>)

  /** A pageList entry; every key optional (`kind` is the 'type' key). */
  datatype PageTarget = PageTarget(id: Option<string>, playOrder: Option<string>, kind: Option<string>,
                                   value: Option<string>, className: Option<string>,
                                   navLabel: Option<string>, content: Option<string>)

  /** A navList entry; every key optional. */
  datatype NavTarget = NavTarget(id: Option<string>, playOrder: Option<string>, value: Option<string>,
                                 className: Option<string>, navLabel: Option<string>, content: Option<string>)

  /** The fields of an NCX object. */
  datatype NcxState = NcxState(meta: Array<Option<string>>, titleText: string, titleImg: Img,
                               author: Option<Author>, navMap: seq<NavPoint>,
                               pageList: seq<PageTarget>, navList: seq<NavTarget>)

  /** The fields of `new NCX()`: docTitle 'Untitled' without an image, everything else empty. */
  function Initial(): NcxState
  {
    NcxState([], "Untitled", NoImg, None, [], [], [])
  }

  // ---------------------------------------------------------------------------
  // Reading

  /** A parsed <pageTarget> or <navTarget>: attributes, navLabel/text, attributes of <content>. */
  datatype TargetElement = TargetElement(attrs: seq<Attr>, labelText: string, contentAttrs: seq<Attr>)

  /** A parsed <docAuthor>: the text and the attributes of its <img>, if any. */
  datatype AuthorElement = AuthorElement(text: string, img: Option<seq<Attr>>)

  /** What readXML takes from the file: head/meta, docTitle, docAuthor, navMap, pageList, navList. */
  datatype NcxFile = NcxFile(meta: seq<seq<Attr>>, titleText: string, titleImg: Option<seq<Attr>>,
                             author: Option<AuthorElement>, navPoints: seq<NavPointElement>,
                             pageTargets: seq<TargetElement>, navTargets: seq<TargetElement>)

  /** `$this->meta[name] = content` for every <meta>, in document order. */
  function MetaRead(items: seq<seq<Attr>>, m: Array<Option<string>>): Array<Option<string>>
    decreases |items|
  {
    if items == [] then m
    else MetaRead(items[1..], Put(m, Str(GetAttr(items[0], "name")), GetAttr(items[0], "content")))
  }

  /** The navPoints parsed from the <navPoint> elements of <navMap>, in order. */
  function NavMapRead(es: seq<NavPointElement>): (r: seq<NavPoint>)
    ensures |r| == |es|
  {
    if es == [] then [] else NavMapRead(es[..|es| - 1]) + [ParseNavPoint(es[|es| - 1])]
  }

  lemma {:induction false} NavMapReadAt(es: seq<NavPointElement>, i: nat)
    requires i < |es|
    decreases |es|
    ensures NavMapRead(es)[i] == ParseNavPoint(es[i])
  {
    var init := es[..|es| - 1];
    assert NavMapRead(es) == NavMapRead(init) + [ParseNavPoint(es[|es| - 1])];
    if i < |es| - 1 {
      NavMapReadAt(init, i);
      assert es[i] == init[i];
    }
  }

  function PageTargetRead(t: TargetElement): PageTarget
  {
    PageTarget(GetAttr(t.attrs, "id"), GetAttr(t.attrs, "playOrder"), GetAttr(t.attrs, "type"),
               GetAttr(t.attrs, "value"), GetAttr(t.attrs, "class"), Some(Trim(t.labelText)),
               GetAttr(t.contentAttrs, "src"))
  }

  /** The pageList entries read from the <pageTarget> elements, in order. */
  function PageListRead(ts: seq<TargetElement>): (r: seq<PageTarget>)
    ensures |r| == |ts|
  {
    if ts == [] then [] else PageListRead(ts[..|ts| - 1]) + [PageTargetRead(ts[|ts| - 1])]
  }

  lemma {:induction false} PageListReadAt(ts: seq<TargetElement>, i: nat)
    requires i < |ts|
    decreases |ts|
    ensures PageListRead(ts)[i] == PageTargetRead(ts[i])
  {
    var init := ts[..|ts| - 1];
    assert PageListRead(ts) == PageListRead(init) + [PageTargetRead(ts[|ts| - 1])];
    if i < |ts| - 1 {
      PageListReadAt(init, i);
      assert ts[i] == init[i];
    }
  }

  function NavTargetRead(t: TargetElement): NavTarget
  {
    NavTarget(GetAttr(t.attrs, "id"), GetAttr(t.attrs, "playOrder"), GetAttr(t.attrs, "value"),
              GetAttr(t.attrs, "class"), Some(Trim(t.labelText)), GetAttr(t.contentAttrs, "src"))
  }

  /** The navList entries read from the <navTarget> elements, in order. */
  function NavListRead(ts: seq<TargetElement>): (r: seq<NavTarget>)
    ensures |r| == |ts|
  {
    if ts == [] then [] else NavListRead(ts[..|ts| - 1]) + [NavTargetRead(ts[|ts| - 1])]
  }

  lemma {:induction false} NavListReadAt(ts: seq<TargetElement>, i: nat)
    requires i < |ts|
    decreases |ts|
    ensures NavListRead(ts)[i] == NavTargetRead(ts[i])
  {
    var init := ts[..|ts| - 1];
    assert NavListRead(ts) == NavListRead(init) + [NavTargetRead(ts[|ts| - 1])];
    if i < |ts| - 1 {
      NavListReadAt(init, i);
      assert ts[i] == init[i];
    }
  }

  /** docTitle/img sets `$docTitle['img']['src']`; without one the old value stays. */
  function TitleImgRead(img: Option<seq<Attr>>, prev: Img): Img
  {
    if img.Some? then ImgSrc(Str(GetAttr(img.value, "src"))) else prev
  }

  /** docAuthor sets its text, and the src of its img when it has one. */
  function AuthorRead(a: Option<AuthorElement>, prev: Option<Author>): Option<Author>
  {
    if a.None? then prev
    else
      var img := if a.value.img.Some? then Some(Str(GetAttr(a.value.img.value, "src")))
                 else if prev.Some? then prev.value.img else None;
      Some(Author(a.value.text, img))
  }

  /** readXML: the new fields, given the parsed file and the fields before. */
  function NcxRead(f: NcxFile, s: NcxState): (r: NcxState)
    ensures r.titleText == f.titleText
    ensures |r.navMap| == |s.navMap| + |f.navPoints| && r.navMap[..|s.navMap|] == s.navMap
    ensures |r.pageList| == |s.pageList| + |f.pageTargets| && r.pageList[..|s.pageList|] == s.pageList
    ensures |r.navList| == |s.navList| + |f.navTargets| && r.navList[..|s.navList|] == s.navList
  {
    NcxState(MetaRead(f.meta, s.meta), f.titleText, TitleImgRead(f.titleImg, s.titleImg),
             AuthorRead(f.author, s.author), s.navMap + NavMapRead(f.navPoints),
             s.pageList + PageListRead(f.pageTargets), s.navList + NavListRead(f.navTargets))
  }

  // ---------------------------------------------------------------------------
  // Writing

  function Header(): string
  {
    "<?xml version=\"1.0\" encoding=\"UTF-8\"?>" + "\n"
      + StartTag("ncx", [Attr("xmlns", "http://www.daisy.org/z3986/2005/ncx/"), Attr("version", "2005-1"),
                         Attr("xml:lang", "en-US")])
  }

  function MetaTag(e: Entry<Option<string>>): string
  {
    EmptyTag("meta", [Attr("name", e.key), Attr("content", Str(e.val))])
  }

  function MetaTags(m: Array<Option<string>>): string
  {
    if m == [] then "" else MetaTag(m[0]) + MetaTags(m[1..])
  }

  /** <head> with a <meta> per entry, written only when meta is not empty. */
  function HeadXml(m: Array<Option<string>>): (r: string)
    ensures r == "" <==> m == []
  {
    if m == [] then "" else "<head>" + MetaTags(m) + "</head>"
  }

  /** `$docTitle['img']` as concatenated: '' stays empty, an array prints as "Array". */
  function ImgText(img: Img): (r: string)
    ensures r == "" <==> img.NoImg?
  {
    if img.NoImg? then "" else "Array"
  }

  function TitleXml(text: string, img: Img): (r: string)
    ensures img.NoImg? ==> r == "<docTitle><text>" + text + "</text></docTitle>"
    ensures img.ImgSrc? ==> r == "<docTitle><text>" + text + "</text>" + EmptyTag("img", [Attr("src", "Array")]) + "</docTitle>"
  {
    "<docTitle><text>" + text + "</text>"
      + (if img.ImgSrc? then EmptyTag("img", [Attr("src", ImgText(img))]) else "") + "</docTitle>"
  }

  /** <docAuthor>, written only when there is one with a non-empty text; its img is docTitle's. */
  function AuthorXml(a: Option<Author>, titleImg: Img): (r: string)
    ensures r != "" <==> a.Some? && !Empty(a.value.text)
  {
    if a.Some? && !Empty(a.value.text) then
      "<docAuthor><text>" + a.value.text + "</text>"
        + (if a.value.img.Some? then EmptyTag("img", [Attr("src", ImgText(titleImg))]) else "") + "</docAuthor>"
    else ""
  }

  /** The navMap loop: every navPoint in list order; the first failure propagates. */
  function NavMapXml(ps: seq<NavPoint>): Result<string, Error>
  {
    if ps == [] then Ok("")
    else
      match NavPoint2Xml(ps[0])
      case Err(e) => Err(e)
      case Ok(x) => Prepend(x, NavMapXml(ps[1..]))
  }

  /** The attributes of <pageTarget>: 'type' carries the id; id, value and class only when set. */
  function PageTargetAttrs(t: PageTarget): (a: seq<Attr>)
    ensures |a| >= 2 && a[0] == Attr("type", Str(t.id)) && a[1] == Attr("playOrder", Str(t.playOrder))
  {
    [Attr("type", Str(t.id)), Attr("playOrder", Str(t.playOrder))]
      + OptAttr("id", t.id) + OptAttr("value", t.value) + OptAttr("class", t.className)
  }

  /** The label and content of a pageTarget or navTarget, with the element name <navLavel> as written. */
  function TargetBody(labelText: string, content: string): string
  {
    "<navLavel><text>" + labelText + "</text></navLabel>" + EmptyTag("content", [Attr("src", content)])
  }

  /** One pageTarget: type, playOrder, navLabel and content are checked in that order. */
  function PageTargetXml(t: PageTarget): (r: Result<string, Error>)
    ensures r.Ok? <==> t.kind.Some? && t.playOrder.Some? && t.navLabel.Some? && t.content.Some?
  {
    if t.kind.None? then Err(Missing("type", "pageTarget"))
    else if t.playOrder.None? then Err(Missing("playOrder", "pageTarget"))
    else if t.navLabel.None? then Err(Missing("navLabel", "pageTarget"))
    else if t.content.None? then Err(Missing("content", "pageTarget"))
    else Ok(StartTag("pageTarget", PageTargetAttrs(t)) + TargetBody(t.navLabel.value, t.content.value)
            + "</pageTarget>")
  }

  function PageTargetsXml(ts: seq<PageTarget>): Result<string, Error>
  {
    if ts == [] then Ok("")
    else
      match PageTargetXml(ts[0])
      case Err(e) => Err(e)
      case Ok(x) => Prepend(x, PageTargetsXml(ts[1..]))
  }

  /** The pageTarget `$pageTarget` still holds after the pageList loop: the last one, if any. */
  function LastPage(ts: seq<PageTarget>): (r: Option<PageTarget>)
    ensures r.Some? <==> ts != []
    ensures r.Some? ==> r.value in ts
  {
    if ts == [] then None else Some(ts[|ts| - 1])
  }

  /** The attributes of <navTarget>, all taken from `$pageTarget`. */
  function NavTargetAttrs(pt: PageTarget): seq<Attr>
  {
    [Attr("id", Str(pt.id)), Attr("playOrder", Str(pt.playOrder))] + OptAttr("value", pt.value)
      + OptAttr("class", pt.className)
  }

  /**
   * One navTarget: only its own id is checked; playOrder, navLabel and
   * content are checked, and everything is written, from `$pageTarget`.
   */
  function NavTargetXml(t: NavTarget, last: Option<PageTarget>): (r: Result<string, Error>)
    ensures r.Ok? <==> t.id.Some? && last.Some? && last.value.playOrder.Some? && last.value.navLabel.Some?
                       && last.value.content.Some?
  {
    if t.id.None? then Err(Missing("id", "navTarget"))
    else if last.None? || last.value.playOrder.None? then Err(Missing("playOrder", "navTarget"))
    else if last.value.navLabel.None? then Err(Missing("navLabel", "navTarget"))
    else if last.value.content.None? then Err(Missing("content", "navTarget"))
    else Ok(StartTag("navTarget", NavTargetAttrs(last.value))
            + TargetBody(last.value.navLabel.value, last.value.content.value) + "</navTarget>")
  }

  function NavTargetsXml(ts: seq<NavTarget>, last: Option<PageTarget>): Result<string, Error>
  {
    if ts == [] then Ok("")
    else
      match NavTargetXml(ts[0], last)
      case Err(e) => Err(e)
      case Ok(x) => Prepend(x, NavTargetsXml(ts[1..], last))
  }

  /** `<pageList>` ... `</pageList>` when the list is not empty. */
  function PageListXml(ts: seq<PageTarget>): (r: Result<string, Error>)
    ensures ts == [] ==> r == Ok("")
  {
    if ts == [] then Ok("")
    else
      match PageTargetsXml(ts)
      case Err(e) => Err(e)
      case Ok(x) => Ok("<pageList>" + x + "</pageList>")
  }

  /** `<navList>` ... `</navList>` when the list is not empty. */
  function NavListXml(ts: seq<NavTarget>, last: Option<PageTarget>): (r: Result<string, Error>)
    ensures ts == [] ==> r == Ok("")
  {
    if ts == [] then Ok("")
    else
      match NavTargetsXml(ts, last)
      case Err(e) => Err(e)
      case Ok(x) => Ok("<navList>" + x + "</navList>")
  }

  /** asXML: the text of the document, or the first missing element. */
  function Serialize(s: NcxState): (r: Result<string, Error>)
    ensures r.Ok? <==> NavMapXml(s.navMap).Ok? && PageListXml(s.pageList).Ok?
                       && NavListXml(s.navList, LastPage(s.pageList)).Ok?
  {
    match NavMapXml(s.navMap)
    case Err(e) => Err(e)
    case Ok(nav) =>
      match PageListXml(s.pageList)
      case Err(e) => Err(e)
      case Ok(pages) =>
        match NavListXml(s.navList, LastPage(s.pageList))
        case Err(e) => Err(e)
        case Ok(navs) =>
          Ok(Header() + HeadXml(s.meta) + TitleXml(s.titleText, s.titleImg) + AuthorXml(s.author, s.titleImg)
             + "<navMap>" + nav + "</navMap>" + pages + navs + "</ncx>")
  }

  // ---------------------------------------------------------------------------
  // The writer loops

  method WriteMeta(m: Array<Option<string>>) returns (x: string)
    ensures x == HeadXml(m)
  {
    if m == [] {
      return "";
    }
    var tags := "";
    var i := 0;
    assert m[i..] == m;
    while i < |m|
      invariant 0 <= i <= |m|
      invariant tags + MetaTags(m[i..]) == MetaTags(m)
    {
      Suffix(m, i);
      Assoc(tags, MetaTag(m[i]), MetaTags(m[i + 1..]));
      tags := tags + MetaTag(m[i]);
      i := i + 1;
    }
    assert tags + "" == tags;
    x := "<head>" + tags + "</head>";
  }

  method WriteNavMap(ps: seq<NavPoint>) returns (r: Result<string, Error>)
    ensures r == NavMapXml(ps)
  {
    var x := "";
    var i := 0;
    assert ps[i..] == ps;
    PrependEmpty(NavMapXml(ps));
    while i < |ps|
      invariant 0 <= i <= |ps|
      invariant NavMapXml(ps) == Prepend(x, NavMapXml(ps[i..]))
    {
      Suffix(ps, i);
      var y := NavPoint2Xml(ps[i]);
      if y.Err? {
        return Err(y.error);
      }
      PrependPrepend(x, y.value, NavMapXml(ps[i + 1..]));
      x := x + y.value;
      i := i + 1;
    }
    assert x + "" == x;
    r := Ok(x);
  }

  method WritePageTargets(ts: seq<PageTarget>) returns (r: Result<string, Error>)
    ensures r == PageTargetsXml(ts)
  {
    var x := "";
    var i := 0;
    assert ts[i..] == ts;
    PrependEmpty(PageTargetsXml(ts));
    while i < |ts|
      invariant 0 <= i <= |ts|
      invariant PageTargetsXml(ts) == Prepend(x, PageTargetsXml(ts[i..]))
    {
      Suffix(ts, i);
      var t := ts[i];
      if t.kind.None? {
        return Err(Missing("type", "pageTarget"));
      }
      if t.playOrder.None? {
        return Err(Missing("playOrder", "pageTarget"));
      }
      if t.navLabel.None? {
        return Err(Missing("navLabel", "pageTarget"));
      }
      if t.content.None? {
        return Err(Missing("content", "pageTarget"));
      }
      var y := WritePageTarget(t);
      PrependPrepend(x, y, PageTargetsXml(ts[i + 1..]));
      x := x + y;
      i := i + 1;
    }
    assert x + "" == x;
    r := Ok(x);
  }

  /** The text of one pageTarget that passed the checks. */
  method WritePageTarget(t: PageTarget) returns (y: string)
    requires t.kind.Some? && t.playOrder.Some? && t.navLabel.Some? && t.content.Some?
    ensures PageTargetXml(t) == Ok(y)
  {
    var attrs := [Attr("type", Str(t.id)), Attr("playOrder", t.playOrder.value)];
    if t.id.Some? {
      attrs := attrs + [Attr("id", t.id.value)];
    }
    if t.value.Some? {
      attrs := attrs + [Attr("value", t.value.value)];
    }
    if t.className.Some? {
      attrs := attrs + [Attr("class", t.className.value)];
    }
    assert attrs == PageTargetAttrs(t);
    y := StartTag("pageTarget", attrs) + TargetBody(t.navLabel.value, t.content.value) + "</pageTarget>";
  }

  method WriteNavTargets(ts: seq<NavTarget>, last: Option<PageTarget>) returns (r: Result<string, Error>)
    ensures r == NavTargetsXml(ts, last)
  {
    var x := "";
    var i := 0;
    assert ts[i..] == ts;
    PrependEmpty(NavTargetsXml(ts, last));
    while i < |ts|
      invariant 0 <= i <= |ts|
      invariant NavTargetsXml(ts, last) == Prepend(x, NavTargetsXml(ts[i..], last))
    {
      Suffix(ts, i);
      var y := NavTargetXml(ts[i], last);
      if y.Err? {
        return Err(y.error);
      }
      PrependPrepend(x, y.value, NavTargetsXml(ts[i + 1..], last));
      x := x + y.value;
      i := i + 1;
    }
    assert x + "" == x;
    r := Ok(x);
  }

  // ---------------------------------------------------------------------------
  // The object

  class Document {
    var meta: Array<Option<string>>
    var titleText: string
    var titleImg: Img
    var author: Option<Author>
    var navMap: seq<NavPoint>
    var pageList: seq<PageTarget>
    var navList: seq<NavTarget>

    function Snap(): NcxState
      reads this
    {
      NcxState(meta, titleText, titleImg, author, navMap, pageList, navList)
    }

    /** `new NCX()`, and the object `new NCX($xmlFile)` reads into. */
    constructor ()
      ensures Snap() == Initial()
    {
      meta, titleText, titleImg, author := [], "Untitled", NoImg, None;
      navMap, pageList, navList := [], [], [];
    }

    /** readXML: the meta, navMap, pageList and navList loops append to the fields in document order. */
    method ReadXml(f: NcxFile)
      modifies this
      ensures Snap() == NcxRead(f, old(Snap()))
    {
      ReadMeta(f.meta);
      titleText := f.titleText;
      titleImg := TitleImgRead(f.titleImg, titleImg);
      author := AuthorRead(f.author, author);
      ReadNavMap(f.navPoints);
      ReadPageList(f.pageTargets);
      ReadNavList(f.navTargets);
    }

    /** `$this->meta[name] = content` for each <meta> of <head>. */
    method ReadMeta(items: seq<seq<Attr>>)
      modifies this
      ensures Snap() == old(Snap()).(meta := MetaRead(items, old(meta)))
    {
      var i := 0;
      assert items[i..] == items;
      while i < |items|
        invariant 0 <= i <= |items|
        invariant MetaRead(items[i..], meta) == MetaRead(items, old(meta))
        invariant Snap() == old(Snap()).(meta := meta)
      {
        Suffix(items, i);
        meta := Put(meta, Str(GetAttr(items[i], "name")), GetAttr(items[i], "content"));
        i := i + 1;
      }
    }

    /** `$this->navMap[] = parseNavPoint(...)` for each <navPoint> of <navMap>. */
    method ReadNavMap(es: seq<NavPointElement>)
      modifies this
      ensures Snap() == old(Snap()).(navMap := old(navMap) + NavMapRead(es))
    {
      var i := 0;
      assert old(navMap) + NavMapRead(es[..i]) == navMap;
      while i < |es|
        invariant 0 <= i <= |es|
        invariant Snap() == old(Snap()).(navMap := old(navMap) + NavMapRead(es[..i]))
      {
        assert es[..i + 1][..i] == es[..i];
        Assoc(old(navMap), NavMapRead(es[..i]), [ParseNavPoint(es[i])]);
        navMap := navMap + [ParseNavPoint(es[i])];
        i := i + 1;
      }
      assert es[..i] == es;
    }

    /** `$this->pageList[] = array(...)` for each <pageTarget>. */
    method ReadPageList(ts: seq<TargetElement>)
      modifies this
      ensures Snap() == old(Snap()).(pageList := old(pageList) + PageListRead(ts))
    {
      var i := 0;
      assert old(pageList) + PageListRead(ts[..i]) == pageList;
      while i < |ts|
        invariant 0 <= i <= |ts|
        invariant Snap() == old(Snap()).(pageList := old(pageList) + PageListRead(ts[..i]))
      {
        assert ts[..i + 1][..i] == ts[..i];
        Assoc(old(pageList), PageListRead(ts[..i]), [PageTargetRead(ts[i])]);
        pageList := pageList + [PageTargetRead(ts[i])];
        i := i + 1;
      }
      assert ts[..i] == ts;
    }

    /** `$this->navList[] = array(...)` for each <navTarget>. */
    method ReadNavList(ts: seq<TargetElement>)
      modifies this
      ensures Snap() == old(Snap()).(navList := old(navList) + NavListRead(ts))
    {
      var i := 0;
      assert old(navList) + NavListRead(ts[..i]) == navList;
      while i < |ts|
        invariant 0 <= i <= |ts|
        invariant Snap() == old(Snap()).(navList := old(navList) + NavListRead(ts[..i]))
      {
        assert ts[..i + 1][..i] == ts[..i];
        Assoc(old(navList), NavListRead(ts[..i]), [NavTargetRead(ts[i])]);
        navList := navList + [NavTargetRead(ts[i])];
        i := i + 1;
      }
      assert ts[..i] == ts;
    }

    /** asXML: the text written to the file, or the exception thrown. */
    method AsXml() returns (r: Result<string, Error>)
      ensures r == Serialize(Snap())
    {
      var head := WriteMeta(meta);
      var title := TitleXml(titleText, titleImg);
      var auth := AuthorXml(author, titleImg);
      var nav := WriteNavMap(navMap);
      if nav.Err? {
        return Err(nav.error);
      }
      var pages := "";
      if pageList != [] {
        var p := WritePageTargets(pageList);
        if p.Err? {
          return Err(p.error);
        }
        pages := "<pageList>" + p.value + "</pageList>";
      }
      var navs := "";
      if navList != [] {
        var n := WriteNavTargets(navList, LastPage(pageList));
        if n.Err? {
          return Err(n.error);
        }
        navs := "<navList>" + n.value + "</navList>";
      }
      r := Ok(Header() + head + title + auth + "<navMap>" + nav.value + "</navMap>" + pages + navs + "</ncx>");
    }
  }
}
