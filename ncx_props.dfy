/** What NCX.php promises about navPoint chains, the checks of asXML and the maps readXML builds. */
module NcxProps {
  import opened Php
  import opened Xml
  import opened Ncx

  // ---------------------------------------------------------------------------
  // navPoint chains

  /** Every navPoint of the chain has a navLabel and a content. */
  predicate Complete(p: NavPoint)
  {
    forall i :: 0 <= i < |Chain(p)| ==> Chain(p)[i].navLabel.Some? && Chain(p)[i].content.Some?
  }

  /** navPoint2Xml succeeds exactly when no navPoint of the chain lacks its navLabel or its content. */
  lemma {:induction false} NavPoint2XmlOk(p: NavPoint)
    decreases p
    ensures NavPoint2Xml(p).Ok? <==> Complete(p)
  {
    NavPoint2XmlStep(p);
    CompleteStep(p);
    if p.child.Some? {
      NavPoint2XmlOk(p.child.value);
    }
  }

  /** One level of navPoint2Xml: it succeeds when this level has navLabel and content and the nested one succeeds. */
  lemma NavPoint2XmlStep(p: NavPoint)
    ensures NavPoint2Xml(p).Ok? <==>
      p.navLabel.Some? && p.content.Some? && (p.child.Some? ==> NavPoint2Xml(p.child.value).Ok?)
  {
  }

  /** A chain is complete when its first navPoint is and the rest of the chain is. */
  lemma CompleteStep(p: NavPoint)
    ensures Complete(p) <==>
      p.navLabel.Some? && p.content.Some? && (p.child.Some? ==> Complete(p.child.value))
  {
    var c := Chain(p);
    if p.child.Some? {
      var q := p.child.value;
      assert c[1..] == Chain(q);
      if p.navLabel.Some? && p.content.Some? && Complete(q) {
        forall i | 0 <= i < |c|
          ensures c[i].navLabel.Some? && c[i].content.Some?
        {
          if i > 0 {
            assert c[i] == Chain(q)[i - 1];
          }
        }
      }
      if Complete(p) {
        forall i | 0 <= i < |Chain(q)|
          ensures Chain(q)[i].navLabel.Some? && Chain(q)[i].content.Some?
        {
          assert Chain(q)[i] == c[i + 1];
        }
      }
    } else {
      assert c == [p];
    }
  }

  /** The same element with only its first nested <navPoint> kept, at every level. */
  function FirstChain(e: NavPointElement): (f: NavPointElement)
    ensures ElementDepth(f) == ElementDepth(e)
  {
    e.(children := if e.children == [] then [] else [FirstChain(e.children[0])])
  }

  /** parseNavPoint reads only the first nested <navPoint> of each level; the others are lost. */
  lemma {:induction false} ParseFirstChain(e: NavPointElement)
    decreases e
    ensures ParseNavPoint(FirstChain(e)) == ParseNavPoint(e)
  {
    if e.children != [] {
      ParseFirstChain(e.children[0]);
    }
  }

  /** The <navPoint> element navPoint2Xml writes, as a parser sees it. */
  function Written(p: NavPoint): (e: NavPointElement)
    ensures ElementDepth(e) == Depth(p)
  {
    NavPointElement(NavPointAttrs(p), Str(p.navLabel), [Attr("src", Str(p.content))],
                    if p.child.Some? then [Written(p.child.value)] else [])
  }

  /** A chain that writing then reading gives back unchanged: every key set, labels trimmed, class absent or non-empty. */
  predicate WellFormed(p: NavPoint)
  {
    && p.id.Some? && p.playOrder.Some? && p.navLabel.Some? && Trimmed(p.navLabel.value) && p.content.Some?
    && (p.className.None? || Truthy(p.className))
    && (p.child.Some? ==> WellFormed(p.child.value))
  }

  /** Parsing the element navPoint2Xml writes gives back a well-formed chain unchanged. */
  lemma {:induction false} ParseWritten(p: NavPoint)
    requires WellFormed(p)
    decreases p
    ensures ParseNavPoint(Written(p)) == p
  {
    TrimTrimmed(p.navLabel.value);
    if p.child.Some? {
      ParseWritten(p.child.value);
    }
    var attrs := NavPointAttrs(p);
    if p.className.None? {
      assert GetAttr(attrs, "class") == None;
    }
  }

  /** A well-formed chain, the kind a write-then-read returns, passes every check of navPoint2Xml. */
  lemma {:induction false} WellFormedComplete(p: NavPoint)
    requires WellFormed(p)
    decreases p
    ensures Complete(p)
  {
    var c := Chain(p);
    if p.child.Some? {
      var q := p.child.value;
      WellFormedComplete(q);
      assert c[1..] == Chain(q);
      forall i | 0 <= i < |c|
        ensures c[i].navLabel.Some? && c[i].content.Some?
      {
        if i > 0 {
          assert c[i] == Chain(q)[i - 1];
        }
      }
    } else {
      assert c == [p];
    }
  }

  /** Every level of the element, following the first nested <navPoint>, has a `src` on its <content>. */
  predicate SrcThroughout(e: NavPointElement)
    decreases e
  {
    GetAttr(e.contentAttrs, "src").Some? && (e.children != [] ==> SrcThroughout(e.children[0]))
  }

  /**
   * A parsed chain passes navPoint2Xml's checks exactly when every level's
   * <content> has a `src`; a level without one parses to a navPoint without
   * content, which navPoint2Xml rejects.
   */
  lemma {:induction false} ParseComplete(e: NavPointElement)
    decreases e
    ensures Complete(ParseNavPoint(e)) <==> SrcThroughout(e)
    ensures NavPoint2Xml(ParseNavPoint(e)).Ok? <==> SrcThroughout(e)
  {
    var p := ParseNavPoint(e);
    CompleteStep(p);
    NavPoint2XmlOk(p);
    if e.children != [] {
      ParseComplete(e.children[0]);
    }
  }

  // ---------------------------------------------------------------------------
  // navMap, pageList and navList

  /** The navMap loop succeeds exactly when every navPoint chain is complete. */
  lemma {:induction false} NavMapXmlOk(ps: seq<NavPoint>)
    decreases |ps|
    ensures NavMapXml(ps).Ok? <==> forall i :: 0 <= i < |ps| ==> Complete(ps[i])
  {
    if ps == [] {
      assert NavMapXml(ps) == Ok("");
    } else {
      NavPoint2XmlOk(ps[0]);
      NavMapXmlOk(ps[1..]);
      assert NavMapXml(ps).Ok? <==> NavPoint2Xml(ps[0]).Ok? && NavMapXml(ps[1..]).Ok?;
      assert forall i :: 1 <= i < |ps| ==> ps[i] == ps[1..][i - 1];
    }
  }

  /** navMap entries are written in list order: the text of a concatenation is the concatenation of the texts. */
  lemma {:induction false} NavMapXmlConcat(ps: seq<NavPoint>, qs: seq<NavPoint>)
    decreases |ps|
    ensures NavMapXml(ps + qs).Ok? <==> NavMapXml(ps).Ok? && NavMapXml(qs).Ok?
    ensures NavMapXml(ps + qs).Ok? ==> NavMapXml(ps + qs).value == NavMapXml(ps).value + NavMapXml(qs).value
  {
    if ps == [] {
      assert ps + qs == qs;
    } else {
      assert (ps + qs)[0] == ps[0];
      assert (ps + qs)[1..] == ps[1..] + qs;
      NavMapXmlConcat(ps[1..], qs);
      if NavMapXml(ps + qs).Ok? {
        Assoc(NavPoint2Xml(ps[0]).value, NavMapXml(ps[1..]).value, NavMapXml(qs).value);
      }
    }
  }

  /** A pageTarget has every element asXML requires of it. */
  predicate PageTargetComplete(t: PageTarget)
  {
    t.kind.Some? && t.playOrder.Some? && t.navLabel.Some? && t.content.Some?
  }

  /** The pageList loop succeeds exactly when every pageTarget has type, playOrder, navLabel and content. */
  lemma {:induction false} PageTargetsXmlOk(ts: seq<PageTarget>)
    decreases |ts|
    ensures PageTargetsXml(ts).Ok? <==> forall i :: 0 <= i < |ts| ==> PageTargetComplete(ts[i])
  {
    if ts != [] {
      PageTargetsXmlOk(ts[1..]);
      assert forall i :: 1 <= i < |ts| ==> ts[i] == ts[1..][i - 1];
    }
  }

  /** The first missing element of the first incomplete pageTarget is the error, in the order type, playOrder, navLabel, content. */
  lemma PageTargetXmlError(t: PageTarget)
    ensures t.kind.None? ==> PageTargetXml(t) == Err(Missing("type", "pageTarget"))
    ensures t.kind.Some? && t.playOrder.None? ==> PageTargetXml(t) == Err(Missing("playOrder", "pageTarget"))
    ensures t.kind.Some? && t.playOrder.Some? && t.navLabel.None? ==>
      PageTargetXml(t) == Err(Missing("navLabel", "pageTarget"))
    ensures t.kind.Some? && t.playOrder.Some? && t.navLabel.Some? && t.content.None? ==>
      PageTargetXml(t) == Err(Missing("content", "pageTarget"))
  {
  }

  /** The 'type' attribute of <pageTarget> carries the id, whatever the type is; id, value and class follow when set. */
  lemma PageTargetAttrsLookup(t: PageTarget)
    ensures GetAttr(PageTargetAttrs(t), "type") == Some(Str(t.id))
    ensures GetAttr(PageTargetAttrs(t), "playOrder") == Some(Str(t.playOrder))
    ensures GetAttr(PageTargetAttrs(t), "value") == t.value
    ensures GetAttr(PageTargetAttrs(t), "class") == t.className
  {
    var fixed := [Attr("type", Str(t.id)), Attr("playOrder", Str(t.playOrder))];
    var a := fixed + OptAttr("id", t.id);
    var b := a + OptAttr("value", t.value);
    GetAttrConcat(fixed, OptAttr("id", t.id), "value");
    GetAttrConcat(a, OptAttr("value", t.value), "value");
    GetAttrConcat(fixed, OptAttr("id", t.id), "class");
    GetAttrConcat(a, OptAttr("value", t.value), "class");
    GetAttrConcat(b, OptAttr("class", t.className), "class");
    GetAttrConcat(b, OptAttr("class", t.className), "value");
  }

  /** `$pageTarget` after the pageList loop has every element the navList checks ask of it. */
  predicate LastPageComplete(last: Option<PageTarget>)
  {
    last.Some? && last.value.playOrder.Some? && last.value.navLabel.Some? && last.value.content.Some?
  }

  /**
   * The navList loop checks each navTarget's own id, and everything else on
   * `$pageTarget`: it succeeds exactly when the list is empty, or every
   * navTarget has an id and that pageTarget has playOrder, navLabel and content.
   */
  lemma {:induction false} NavTargetsXmlOk(ts: seq<NavTarget>, last: Option<PageTarget>)
    decreases |ts|
    ensures NavTargetsXml(ts, last).Ok? <==>
      ts == [] || (LastPageComplete(last) && forall i :: 0 <= i < |ts| ==> ts[i].id.Some?)
  {
    if ts != [] {
      NavTargetsXmlOk(ts[1..], last);
      assert forall i :: 1 <= i < |ts| ==> ts[i] == ts[1..][i - 1];
    }
  }

  /**
   * Beyond its id, a navTarget contributes nothing: two navLists of the same
   * length whose entries all have ids are written identically.
   */
  lemma {:induction false} NavTargetsIgnoreEntries(ts: seq<NavTarget>, us: seq<NavTarget>, last: Option<PageTarget>)
    requires |ts| == |us|
    requires forall i :: 0 <= i < |ts| ==> ts[i].id.Some? && us[i].id.Some?
    decreases |ts|
    ensures NavTargetsXml(ts, last) == NavTargetsXml(us, last)
  {
    if ts != [] {
      NavTargetsIgnoreEntries(ts[1..], us[1..], last);
    }
  }

  /** A non-empty navList is written only after a non-empty pageList. */
  lemma NavListNeedsPageList(ts: seq<NavTarget>, pages: seq<PageTarget>)
    requires ts != [] && NavListXml(ts, LastPage(pages)).Ok?
    ensures pages != []
  {
    NavTargetsXmlOk(ts, LastPage(pages));
  }

  /** Every check of asXML in one statement. */
  lemma SerializeOk(s: NcxState)
    ensures Serialize(s).Ok? <==>
      && (forall i :: 0 <= i < |s.navMap| ==> Complete(s.navMap[i]))
      && (forall i :: 0 <= i < |s.pageList| ==> PageTargetComplete(s.pageList[i]))
      && (s.navList == [] ||
          (s.pageList != [] && forall i :: 0 <= i < |s.navList| ==> s.navList[i].id.Some?))
  {
    NavMapXmlOk(s.navMap);
    PageTargetsXmlOk(s.pageList);
    NavTargetsXmlOk(s.navList, LastPage(s.pageList));
    if s.pageList != [] {
      assert PageListXml(s.pageList).Ok? <==> PageTargetsXml(s.pageList).Ok?;
    }
  }

  /** <docAuthor>'s own image never shows: its img is written with docTitle's. */
  lemma AuthorImgFromTitle(text: string, u: string, v: string, titleImg: Img)
    ensures AuthorXml(Some(Author(text, Some(u))), titleImg) == AuthorXml(Some(Author(text, Some(v))), titleImg)
  {
  }

  // ---------------------------------------------------------------------------
  // Reading

  function Names(items: seq<seq<Attr>>): (r: seq<string>)
    ensures |r| == |items| && forall i :: 0 <= i < |items| ==> r[i] == Str(GetAttr(items[i], "name"))
  {
    seq(|items|, i requires 0 <= i < |items| => Str(GetAttr(items[i], "name")))
  }

  /** meta is keyed by name, in first-occurrence order. */
  lemma {:induction false} MetaReadKeys(items: seq<seq<Attr>>, m: Array<Option<string>>)
    decreases |items|
    ensures Keys(MetaRead(items, m)) == AppendNew(Keys(m), Names(items))
  {
    if items != [] {
      MetaReadKeys(items[1..], Put(m, Str(GetAttr(items[0], "name")), GetAttr(items[0], "content")));
      assert Names(items)[1..] == Names(items[1..]);
    }
  }

  /** A name no <meta> has keeps its value. */
  lemma {:induction false} MetaReadOther(items: seq<seq<Attr>>, m: Array<Option<string>>, k: string)
    requires forall j :: 0 <= j < |items| ==> Str(GetAttr(items[j], "name")) != k
    decreases |items|
    ensures Get(MetaRead(items, m), k) == Get(m, k)
  {
    if items != [] {
      PutGet(m, Str(GetAttr(items[0], "name")), GetAttr(items[0], "content"), k);
      assert forall j :: 0 <= j < |items| - 1 ==> items[1..][j] == items[j + 1];
      MetaReadOther(items[1..], Put(m, Str(GetAttr(items[0], "name")), GetAttr(items[0], "content")), k);
    }
  }

  /** Under a name is the content of the last <meta> with that name. */
  lemma {:induction false} MetaReadLast(items: seq<seq<Attr>>, m: Array<Option<string>>, i: nat)
    requires i < |items|
    requires forall j :: i < j < |items| ==> Str(GetAttr(items[j], "name")) != Str(GetAttr(items[i], "name"))
    decreases |items|
    ensures Get(MetaRead(items, m), Str(GetAttr(items[i], "name"))) == Some(GetAttr(items[i], "content"))
  {
    var m' := Put(m, Str(GetAttr(items[0], "name")), GetAttr(items[0], "content"));
    assert forall j :: 0 <= j < |items| - 1 ==> items[1..][j] == items[j + 1];
    if i == 0 {
      var k := Str(GetAttr(items[0], "name"));
      PutGet(m, k, GetAttr(items[0], "content"), k);
      MetaReadOther(items[1..], m', k);
    } else {
      MetaReadLast(items[1..], m', i - 1);
    }
  }

  /**
   * Reading a file into `new NCX()`: each list holds one entry per element in
   * document order, each navPoint chain as deep as the first-child nesting of
   * its element, and meta is keyed by the distinct names.
   */
  lemma ReadInitial(f: NcxFile)
    ensures var s := NcxRead(f, Initial());
      && Keys(s.meta) == Distinct(Names(f.meta))
      && s.titleText == f.titleText
      && |s.navMap| == |f.navPoints|
      && (forall i :: 0 <= i < |f.navPoints| ==>
            s.navMap[i] == ParseNavPoint(f.navPoints[i]) && Depth(s.navMap[i]) == ElementDepth(f.navPoints[i]))
      && s.pageList == PageListRead(f.pageTargets)
      && s.navList == NavListRead(f.navTargets)
      && (s.author.Some? <==> f.author.Some?)
  {
    MetaReadKeys(f.meta, []);
    var s0 := Initial();
    assert s0.navMap + NavMapRead(f.navPoints) == NavMapRead(f.navPoints);
    assert s0.pageList + PageListRead(f.pageTargets) == PageListRead(f.pageTargets);
    assert s0.navList + NavListRead(f.navTargets) == NavListRead(f.navTargets);
    forall i | 0 <= i < |f.navPoints|
      ensures NavMapRead(f.navPoints)[i] == ParseNavPoint(f.navPoints[i])
    {
      NavMapReadAt(f.navPoints, i);
    }
  }
}
