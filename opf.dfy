/**
 * The OPF package document (OPF.php): the metadata, manifest, spine and guide
 * of an Open Packaging Format 2.0.1 publication, read from a parsed package
 * file and written back as package XML after the checks of sections 2.3
 * (manifest), 2.4 (spine) and 2.6 (guide) of OPF 2.0.1.
 *
 * The file system is the predicate `isFile` (is_file), htmlentities() is the
 * function `esc`, and the NCX document the package owns is represented by the
 * file it was loaded from.
 */
module Opf {
  import opened Php
  import opened Xml

  // ---------------------------------------------------------------------------
  // State

  /** A metadata entry: an element with its text and attributes, or the table of `<meta name content>`. */
  datatype MetaItem =
    | Element(value: string, attrs: Array<string>)
    | MetaTable(table: Array<Option<string>>)

  /** A manifest item; every field may be missing (unset in the PHP array). */
  datatype ManifestItem = ManifestItem(
    id: Option<string>, href: Option<string>, mediaType: Option<string>, file: Option<string>,
    fallback: Option<string>, fallbackStyle: Option<string>,
    requiredNamespace: Option<string>, requiredModules: Option<string>)

  datatype SpineItem = SpineItem(href: Option<string>, linear: Option<string>)

  datatype GuideRef = GuideRef(href: Option<string>, kind: Option<string>, title: Option<string>)

  /** The fields of an OPF object. `ncx` is the file the owned NCX document was loaded from. */
  datatype Snapshot = Snapshot(
    uid: Option<string>, version: Option<string>,
    metadata: Array<MetaItem>, manifest: Array<ManifestItem>, spine: Array<SpineItem>,
    guide: seq<GuideRef>, ncx: Option<string>)

  /** The exceptions readXML and asXML throw. */
  datatype Error =
    | ManifestFileMissing(file: string, id: string)
    | SpineIdrefUnknown(idref: string)
    | EmptyManifest
    | ItemAttributesMissing
    | ItemFileMissing(id: string)
    | EmptySpine
    | SpineKeyUnknown(key: string)
    | GuideHrefUnknown(href: string)
    | NcxFilenameUnknown

  /** The state of `new OPF($xmlFile)` when it starts reading. */
  function Blank(): Snapshot
  {
    Snapshot(None, Some("2.0"), [], [], [], [], None)
  }

  /** The metadata every package created without a file starts with. */
  function DefaultMetadata(uid: string): (m: Array<MetaItem>)
    ensures Keys(m) == ["dc:title", "dc:creator", "dc:identifier"]
    ensures Get(m, "dc:title") == Some(Element("Untitled", []))
    ensures Get(m, "dc:creator") ==
      Some(Element("Unknown", [Entry("opf:file-as", "Unknown"), Entry("opf:role", "aut")]))
    ensures Get(m, "dc:identifier") == Some(Element(uid, [Entry("id", "EpubId")]))
    ensures forall k :: k != "dc:title" && k != "dc:creator" && k != "dc:identifier" ==> Get(m, k).None?
  {
    [ Entry("dc:title", Element("Untitled", [])),
      Entry("dc:creator", Element("Unknown", [Entry("opf:file-as", "Unknown"), Entry("opf:role", "aut")])),
      Entry("dc:identifier", Element(uid, [Entry("id", "EpubId")])) ]
  }

  /** The metadata keys are unique; the entry under 'meta' is the name/content table, every other one an element. */
  ghost predicate MetadataConsistent(m: Array<MetaItem>)
  {
    && UniqueKeys(m)
    && (forall i :: 0 <= i < |m| ==> (m[i].key == "meta" <==> m[i].val.MetaTable?))
    && (forall i :: 0 <= i < |m| && m[i].val.MetaTable? ==> UniqueKeys(m[i].val.table))
    && (forall i :: 0 <= i < |m| && m[i].val.Element? ==> UniqueKeys(m[i].val.attrs))
  }

  lemma DefaultMetadataConsistent(uid: string)
    ensures MetadataConsistent(DefaultMetadata(uid))
  {
    LiteralMetadataConsistent(uid, DefaultMetadata(uid));
  }

  /** The default metadata, written out, has distinct keys and attribute names and no 'meta' entry. */
  lemma LiteralMetadataConsistent(uid: string, m: Array<MetaItem>)
    requires m == [Entry("dc:title", Element("Untitled", [])),
                   Entry("dc:creator", Element("Unknown", [Entry("opf:file-as", "Unknown"), Entry("opf:role", "aut")])),
                   Entry("dc:identifier", Element(uid, [Entry("id", "EpubId")]))]
    ensures MetadataConsistent(m)
  {
    var creator := m[1].val.attrs;
    assert |m[0].key| == 8 && |m[1].key| == 10 && |m[2].key| == 13;
    assert NoDup(Keys(m)) by {
      assert Keys(m) == [m[0].key, m[1].key, m[2].key];
    }
    assert UniqueKeys(creator) by {
      assert Keys(creator) == ["opf:file-as", "opf:role"];
      assert |"opf:file-as"| != |"opf:role"|;
    }
    forall i | 0 <= i < |m|
      ensures m[i].key != "meta" && m[i].val.Element? && UniqueKeys(m[i].val.attrs)
    {
      assert |m[i].key| != |"meta"|;
    }
  }

  /** Manifest items are keyed by their id, and the NCX was loaded from the file of the item with id 'ncx'. */
  ghost predicate ManifestConsistent(s: Snapshot)
  {
    && UniqueKeys(s.manifest)
    && (forall i :: 0 <= i < |s.manifest| ==> s.manifest[i].key == Str(s.manifest[i].val.id))
    && (s.ncx.Some? ==> Get(s.manifest, "ncx").Some? && Get(s.manifest, "ncx").value.file == s.ncx)
  }

  /** The invariant every OPF object keeps. */
  ghost predicate Consistent(s: Snapshot)
  {
    MetadataConsistent(s.metadata) && ManifestConsistent(s) && UniqueKeys(s.spine)
  }

  // ---------------------------------------------------------------------------
  // The parsed package file

  /** An attribute together with the namespace prefix it was found under. */
  datatype NsAttr = NsAttr(prefix: string, attr: Attr)

  /**
   * A child of <metadata>, in the order the namespace walk visits them: its
   * prefix and local name, its text, its unqualified attributes and its
   * attributes in every declared namespace.
   */
  datatype MetaChild = MetaChild(prefix: string, name: string, text: string, attrs: seq<Attr>, nsAttrs: seq<NsAttr>)

  /** The parts of a package file that readXML looks at. */
  datatype PackageDoc = PackageDoc(
    attrs: seq<Attr>, metadata: seq<MetaChild>,
    items: seq<seq<Attr>>, itemrefs: seq<seq<Attr>>, references: seq<seq<Attr>>)

  /** `prefix:name`, or the bare name when the prefix is empty. */
  function QName(prefix: string, name: string): string
  {
    if !Empty(prefix) then prefix + ":" + name else name
  }

  // ---------------------------------------------------------------------------
  // Reading

  /** The attribute table of a metadata element: each attribute assigned under its qualified name. */
  function AttrTable(attrs: seq<NsAttr>, acc: Array<string>): Array<string>
    decreases |attrs|
  {
    if attrs == [] then acc
    else AttrTable(attrs[1..], Put(acc, QName(attrs[0].prefix, attrs[0].attr.name), attrs[0].attr.value))
  }

  /** The metadata entry a child produces, or None for x-metadata, which is skipped. */
  function MetaEntry(c: MetaChild): (r: Option<MetaItem>)
    ensures r.None? <==> QName(c.prefix, c.name) == "x-metadata"
    ensures r.Some? ==> (r.value.MetaTable? <==> QName(c.prefix, c.name) == "meta")
    ensures r.Some? && r.value.MetaTable? ==> |r.value.table| == 1
    ensures r.Some? && r.value.Element? ==> r.value.value == c.text && (Empty(c.prefix) ==> r.value.attrs == [])
  {
    var key := QName(c.prefix, c.name);
    if key == "meta" then
      // an existing table is reset before the assignment, so the table holds this element only
      Some(MetaTable(Put([], Str(GetAttr(c.attrs, "name")), GetAttr(c.attrs, "content"))))
    else if key == "x-metadata" then None
    else Some(Element(c.text, if !Empty(c.prefix) then AttrTable(c.nsAttrs, []) else []))
  }

  function MetadataRead(children: seq<MetaChild>, m: Array<MetaItem>): (r: Array<MetaItem>)
    decreases |children|
    ensures forall k :: k in Keys(m) ==> k in Keys(r)
  {
    if children == [] then m
    else
      var c := children[0];
      var m' := match MetaEntry(c)
        case None => m
        case Some(item) => Put(m, QName(c.prefix, c.name), item);
      MetadataRead(children[1..], m')
  }

  /** Reading from child `i` on is reading its entry into the table, then the children after it. */
  lemma MetadataReadStep(children: seq<MetaChild>, i: nat, m: Array<MetaItem>)
    requires i < |children|
    ensures var c := children[i];
      MetadataRead(children[i..], m) == MetadataRead(children[i + 1..],
        if MetaEntry(c).Some? then Put(m, QName(c.prefix, c.name), MetaEntry(c).value) else m)
  {
    assert children[i..][1..] == children[i + 1..];
  }

  /** The manifest record of an <item>, whose file lies in `dir`. */
  function ItemRecord(item: seq<Attr>, dir: string): ManifestItem
  {
    ManifestItem(GetAttr(item, "id"), GetAttr(item, "href"), GetAttr(item, "media-type"),
                 Some(ItemFile(item, dir)), None, None, None, None)
  }

  function ItemFile(item: seq<Attr>, dir: string): string
  {
    dir + "/" + Str(GetAttr(item, "href"))
  }

  function ManifestRead(items: seq<seq<Attr>>, dir: string, isFile: string -> bool, s: Snapshot): Result<Snapshot, Error>
    decreases |items|
  {
    if items == [] then Ok(s)
    else
      var id := GetAttr(items[0], "id");
      var file := ItemFile(items[0], dir);
      if !isFile(file) then Err(ManifestFileMissing(file, Str(id)))
      else ManifestRead(items[1..], dir, isFile, ManifestStep(items[0], dir, s))
  }

  /** One item read into the manifest; the item with id 'ncx' also loads the NCX. */
  function ManifestStep(item: seq<Attr>, dir: string, s: Snapshot): Snapshot
  {
    var id := GetAttr(item, "id");
    s.(manifest := Put(s.manifest, Str(id), ItemRecord(item, dir)),
       ncx := if id == Some("ncx") then Some(ItemFile(item, dir)) else s.ncx)
  }

  function SpineRead(itemrefs: seq<seq<Attr>>, s: Snapshot): Result<Snapshot, Error>
    decreases |itemrefs|
  {
    if itemrefs == [] then Ok(s)
    else
      var key := GetAttr(itemrefs[0], "idref");
      if Truthy(key) && HasKey(s.manifest, key.value) then SpineRead(itemrefs[1..], SpineStep(itemrefs[0], s))
      else Err(SpineIdrefUnknown(Str(key)))
  }

  /** One itemref added to the spine, with the href of the manifest item it names. */
  function SpineStep(itemref: seq<Attr>, s: Snapshot): Snapshot
    requires GetAttr(itemref, "idref").Some? && HasKey(s.manifest, GetAttr(itemref, "idref").value)
  {
    var key := GetAttr(itemref, "idref").value;
    s.(spine := Put(s.spine, key, SpineItem(Get(s.manifest, key).value.href, GetAttr(itemref, "linear"))))
  }

  function Reference(r: seq<Attr>): GuideRef
  {
    GuideRef(GetAttr(r, "href"), GetAttr(r, "type"), GetAttr(r, "title"))
  }

  function GuideRead(references: seq<seq<Attr>>): (g: seq<GuideRef>)
    ensures |g| == |references|
    ensures forall i :: 0 <= i < |g| ==> g[i] == Reference(references[i])
  {
    seq(|references|, i requires 0 <= i < |references| => Reference(references[i]))
  }

  /** What readXML makes of an object in state `s`, reading file `xmlFile`. */
  function PackageRead(doc: PackageDoc, xmlFile: string, isFile: string -> bool, s: Snapshot): Result<Snapshot, Error>
  {
    var s1 := s.(uid := GetAttr(doc.attrs, "unique-identifier"), version := GetAttr(doc.attrs, "version"));
    var s2 := s1.(metadata := MetadataRead(doc.metadata, s1.metadata));
    match ManifestRead(doc.items, Dirname(xmlFile), isFile, s2)
    case Err(e) => Err(e)
    case Ok(s3) =>
      match SpineRead(doc.itemrefs, s3)
      case Err(e) => Err(e)
      case Ok(s4) => Ok(s4.(guide := s4.guide + GuideRead(doc.references)))
  }

  // ---------------------------------------------------------------------------
  // Writing

  /** What asXML produces: the package XML and the file the owned NCX document is written to. */
  datatype Output = Output(xml: string, ncxFile: Option<string>)

  const XmlDeclaration := "<?xml version=\"1.0\" encoding=\"UTF-8\"?>"

  function PackageStart(version: Option<string>, uid: Option<string>): string
  {
    XmlDeclaration + "\n" + StartTag("package", [
      Attr("version", Str(version)), Attr("xmlns", "http://www.idpf.org/2007/opf"),
      Attr("unique-identifier", Str(uid))])
  }

  const MetadataStart := StartTag("metadata", [
    Attr("xmlns:dc", "http://purl.org/dc/elements/1.1/"), Attr("xmlns:opf", "http://www.idpf.org/2007/opf")])

  /** An attribute table with its values escaped. */
  function Escaped(a: Array<string>, esc: string -> string): (r: seq<Attr>)
    ensures |r| == |a|
    ensures forall i :: 0 <= i < |a| ==> r[i] == Attr(a[i].key, esc(a[i].val))
  {
    seq(|a|, i requires 0 <= i < |a| => Attr(a[i].key, esc(a[i].val)))
  }

  function MetaTableXml(t: Array<Option<string>>, esc: string -> string): string
  {
    if t == [] then ""
    else EmptyTag("meta", [Attr("name", t[0].key), Attr("content", esc(Str(t[0].val)))]) + MetaTableXml(t[1..], esc)
  }

  /** A metadata element: self-closing when its value is empty, otherwise wrapping the escaped value. */
  function ElementXml(key: string, value: string, attrs: Array<string>, esc: string -> string): (x: string)
    ensures value == "" ==> x == EmptyTag(key, Escaped(attrs, esc))
    ensures value != "" ==> x == StartTag(key, Escaped(attrs, esc)) + esc(value) + "</" + key + ">"
  {
    "<" + key + AttrsText(Escaped(attrs, esc)) + if value == "" then " />" else ">" + esc(value) + "</" + key + ">"
  }

  function MetaItemXml(e: Entry<MetaItem>, esc: string -> string): string
  {
    match e.val
    case MetaTable(t) => MetaTableXml(t, esc)
    case Element(v, a) => ElementXml(e.key, v, a, esc)
  }

  function MetadataXml(m: Array<MetaItem>, esc: string -> string): string
  {
    if m == [] then "" else MetaItemXml(m[0], esc) + MetadataXml(m[1..], esc)
  }

  /** isset($item[$name]) on the array form of a manifest item. */
  function Field(item: ManifestItem, name: string): Option<string>
  {
    if name == "id" then item.id
    else if name == "href" then item.href
    else if name == "media-type" then item.mediaType
    else if name == "file" then item.file
    else if name == "fallback" then item.fallback
    else if name == "fallback-style" then item.fallbackStyle
    else if name == "required-namespace" then item.requiredNamespace
    else if name == "required-modules" then item.requiredModules
    else None
  }

  /**
   * The attributes of an <item>: id, href, the optional ones, media-type. A
   * fallback is written only when the item's own array has a field named by
   * it; required-modules only together with required-namespace.
   */
  function ItemAttrs(key: string, item: ManifestItem): (a: seq<Attr>)
    ensures 3 <= |a| && a[0] == Attr("id", key) && a[1] == Attr("href", Str(item.href))
    ensures a[|a| - 1] == Attr("media-type", Str(item.mediaType))
  {
    [Attr("id", key), Attr("href", Str(item.href))]
    + OptAttr("fallback", if item.fallback.Some? && Field(item, item.fallback.value).Some? then item.fallback else None)
    + OptAttr("fallback-style", item.fallbackStyle)
    + (if item.requiredNamespace.Some? then
         [Attr("required-namespace", item.requiredNamespace.value)] + OptAttr("required-modules", item.requiredModules)
       else [])
    + [Attr("media-type", Str(item.mediaType))]
  }

  /** What each attribute of an item's <item> element is meant to hold. */
  function ItemAttr(key: string, item: ManifestItem, name: string): Option<string>
  {
    if name == "id" then Some(key)
    else if name == "href" then Some(Str(item.href))
    else if name == "fallback" then
      (if item.fallback.Some? && Field(item, item.fallback.value).Some? then item.fallback else None)
    else if name == "fallback-style" then item.fallbackStyle
    else if name == "required-namespace" then item.requiredNamespace
    else if name == "required-modules" then
      (if item.requiredNamespace.Some? then item.requiredModules else None)
    else if name == "media-type" then Some(Str(item.mediaType))
    else None
  }

  /**
   * The <item> element carries exactly the attributes ItemAttr describes: the
   * fallback only when the item has a field named by it, required-modules only
   * alongside required-namespace, the optional ones only when set.
   */
  lemma ItemAttrsLookup(key: string, item: ManifestItem, name: string)
    ensures GetAttr(ItemAttrs(key, item), name) == ItemAttr(key, item, name)
  {
    // the seven names differ in length
    assert |"id"| == 2 && |"href"| == 4 && |"fallback"| == 8 && |"fallback-style"| == 14;
    assert |"required-namespace"| == 18 && |"required-modules"| == 16 && |"media-type"| == 10;
    var fb := if item.fallback.Some? && Field(item, item.fallback.value).Some? then item.fallback else None;
    var p1 := [Attr("id", key), Attr("href", Str(item.href))];
    var p2 := OptAttr("fallback", fb);
    var p3 := OptAttr("fallback-style", item.fallbackStyle);
    var p4 := if item.requiredNamespace.Some? then
         [Attr("required-namespace", item.requiredNamespace.value)] + OptAttr("required-modules", item.requiredModules)
       else [];
    var p5 := [Attr("media-type", Str(item.mediaType))];
    GetAttrPair(Attr("id", key), Attr("href", Str(item.href)), name);
    assert GetAttr(p4, name) == if name == "required-namespace" then item.requiredNamespace
      else if name == "required-modules" && item.requiredNamespace.Some? then item.requiredModules
      else None by {
      if item.requiredNamespace.Some? {
        GetAttrOne(Attr("required-namespace", item.requiredNamespace.value), name);
        GetAttrConcat([Attr("required-namespace", item.requiredNamespace.value)], OptAttr("required-modules", item.requiredModules), name);
      }
    }
    GetAttrOne(Attr("media-type", Str(item.mediaType)), name);
    assert ItemAttrs(key, item) == p1 + p2 + p3 + p4 + p5;
    GetAttrConcat5(p1, p2, p3, p4, p5, name);
    if name == "id" {
    } else if name == "href" {
    } else if name == "fallback" {
    } else if name == "fallback-style" {
    } else if name == "required-namespace" {
    } else if name == "required-modules" {
    } else if name == "media-type" {
    }
  }

  /** A lookup in a one-element attribute list. */
  lemma GetAttrOne(a: Attr, name: string)
    ensures GetAttr([a], name) == if a.name == name then Some(a.value) else None
  {
    assert [a][1..] == [];
  }

  /** A lookup in a two-element attribute list finds the first that has the name. */
  lemma GetAttrPair(a: Attr, b: Attr, name: string)
    ensures GetAttr([a, b], name) ==
      if a.name == name then Some(a.value) else if b.name == name then Some(b.value) else None
  {
    assert [a, b][1..] == [b];
    GetAttrOne(b, name);
  }

  /** A lookup in five concatenated attribute lists finds the first part that has the name. */
  lemma GetAttrConcat5(p1: seq<Attr>, p2: seq<Attr>, p3: seq<Attr>, p4: seq<Attr>, p5: seq<Attr>, name: string)
    ensures var g1, g2, g3, g4 := GetAttr(p1, name), GetAttr(p2, name), GetAttr(p3, name), GetAttr(p4, name);
      GetAttr(p1 + p2 + p3 + p4 + p5, name) ==
        if g1.Some? then g1 else if g2.Some? then g2 else if g3.Some? then g3 else if g4.Some? then g4
        else GetAttr(p5, name)
  {
    GetAttrConcat(p1, p2, name);
    GetAttrConcat(p1 + p2, p3, name);
    GetAttrConcat(p1 + p2 + p3, p4, name);
    GetAttrConcat(p1 + p2 + p3 + p4, p5, name);
  }

  /** A manifest item can be written when it has id, href and media-type and its file exists. */
  predicate Writable(item: ManifestItem, isFile: string -> bool)
  {
    item.id.Some? && item.href.Some? && item.mediaType.Some? && item.file.Some? && isFile(item.file.value)
  }

  function ItemXml(e: Entry<ManifestItem>, isFile: string -> bool): (r: Result<string, Error>)
    ensures r.Ok? <==> Writable(e.val, isFile)
  {
    var item := e.val;
    if item.id.None? || item.href.None? || item.mediaType.None? then Err(ItemAttributesMissing)
    else if item.file.None? || !isFile(item.file.value) then Err(ItemFileMissing(item.id.value))
    else Ok(EmptyTag("item", ItemAttrs(e.key, item)))
  }

  function ManifestXml(m: Array<ManifestItem>, isFile: string -> bool): Result<string, Error>
  {
    if m == [] then Ok("")
    else match ItemXml(m[0], isFile)
      case Err(e) => Err(e)
      case Ok(x) => Prepend(x, ManifestXml(m[1..], isFile))
  }

  /** $hrefs2ids: each item's href mapped to its key, later items overriding earlier ones. */
  function HrefIndex(m: Array<ManifestItem>, acc: Array<string>): Array<string>
    decreases |m|
  {
    if m == [] then acc else HrefIndex(m[1..], Put(acc, Str(m[0].val.href), m[0].key))
  }

  /** The attributes of <spine>: toc="ncx" exactly when the manifest has an item under 'ncx'. */
  function SpineAttrs(manifest: Array<ManifestItem>): (a: seq<Attr>)
    ensures GetAttr(a, "toc") == if HasKey(manifest, "ncx") then Some("ncx") else None
  {
    if HasKey(manifest, "ncx") then [Attr("toc", "ncx")] else []
  }

  /** The attributes of an <itemref>: linear only when it is set. */
  function ItemrefAttrs(e: Entry<SpineItem>): (a: seq<Attr>)
    ensures 1 <= |a| && a[0] == Attr("idref", e.key)
    ensures GetAttr(a, "idref") == Some(e.key)
    ensures GetAttr(a, "linear") == e.val.linear
  {
    GetAttrConcat([Attr("idref", e.key)], OptAttr("linear", e.val.linear), "linear");
    [Attr("idref", e.key)] + OptAttr("linear", e.val.linear)
  }

  function SpineXml(sp: Array<SpineItem>, manifest: Array<ManifestItem>): Result<string, Error>
  {
    if sp == [] then Ok("")
    else if !HasKey(manifest, sp[0].key) then Err(SpineKeyUnknown(sp[0].key))
    else Prepend(EmptyTag("itemref", ItemrefAttrs(sp[0])), SpineXml(sp[1..], manifest))
  }

  function ReferenceAttrs(g: GuideRef): (a: seq<Attr>)
    ensures GetAttr(a, "type") == Some(Str(g.kind))
    ensures GetAttr(a, "title") == Some(Str(g.title))
    ensures GetAttr(a, "href") == Some(Str(g.href))
  {
    GetAttrConcat([Attr("type", Str(g.kind)), Attr("title", Str(g.title))], [Attr("href", Str(g.href))], "href");
    [Attr("type", Str(g.kind)), Attr("title", Str(g.title))] + [Attr("href", Str(g.href))]
  }

  function GuideXml(guide: seq<GuideRef>, hrefs: Array<string>): Result<string, Error>
  {
    if guide == [] then Ok("")
    else if !HasKey(hrefs, Str(guide[0].href)) then Err(GuideHrefUnknown(Str(guide[0].href)))
    else Prepend(EmptyTag("reference", ReferenceAttrs(guide[0])), GuideXml(guide[1..], hrefs))
  }

  /** The <guide> element, left out altogether when the guide is empty. */
  function GuideSection(guide: seq<GuideRef>, hrefs: Array<string>): (r: Result<string, Error>)
    ensures guide == [] ==> r == Ok("")
  {
    if guide == [] then Ok("")
    else match GuideXml(guide, hrefs)
      case Err(e) => Err(e)
      case Ok(x) => Ok("<guide>" + x + "</guide>")
  }

  /** The <manifest> element; the manifest must not be empty. */
  function ManifestSection(manifest: Array<ManifestItem>, isFile: string -> bool): (r: Result<string, Error>)
    ensures manifest == [] ==> r == Err(EmptyManifest)
  {
    if manifest == [] then Err(EmptyManifest)
    else match ManifestXml(manifest, isFile)
      case Err(e) => Err(e)
      case Ok(items) => Ok("<manifest>" + items + "</manifest>")
  }

  /** The <spine> element; the spine must not be empty. */
  function SpineSection(spine: Array<SpineItem>, manifest: Array<ManifestItem>): (r: Result<string, Error>)
    ensures spine == [] ==> r == Err(EmptySpine)
  {
    if spine == [] then Err(EmptySpine)
    else match SpineXml(spine, manifest)
      case Err(e) => Err(e)
      case Ok(refs) => Ok(StartTag("spine", SpineAttrs(manifest)) + refs + "</spine>")
  }

  /** Where the owned NCX document is written: next to the package, under the href of item 'ncx'. */
  function NcxTarget(s: Snapshot, xmlFile: string): (r: Result<Option<string>, Error>)
    ensures s.ncx.None? ==> r == Ok(None)
    ensures r.Err? ==> s.ncx.Some? && r.error == NcxFilenameUnknown
    ensures r.Ok? && r.value.Some? ==> s.ncx.Some? && Get(s.manifest, "ncx").Some? && Truthy(Get(s.manifest, "ncx").value.href)
  {
    if s.ncx.None? then Ok(None)
    else
      var item := Get(s.manifest, "ncx");
      if item.None? || Empty(Str(item.value.href)) then Err(NcxFilenameUnknown)
      else Ok(Some(Dirname(xmlFile) + "/" + item.value.href.value))
  }

  /** What asXML writes for an object in state `s` to `xmlFile`, or the exception it throws. */
  function Serialize(s: Snapshot, xmlFile: string, esc: string -> string, isFile: string -> bool): (r: Result<Output, Error>)
    ensures r.Ok? <==> ManifestSection(s.manifest, isFile).Ok? && SpineSection(s.spine, s.manifest).Ok?
                       && GuideSection(s.guide, HrefIndex(s.manifest, [])).Ok? && NcxTarget(s, xmlFile).Ok?
    ensures r.Ok? ==> r.value.ncxFile == NcxTarget(s, xmlFile).value
  {
    var head := PackageStart(s.version, s.uid) + MetadataStart + MetadataXml(s.metadata, esc) + "</metadata>";
    match ManifestSection(s.manifest, isFile)
    case Err(e) => Err(e)
    case Ok(manifest) =>
      match SpineSection(s.spine, s.manifest)
      case Err(e) => Err(e)
      case Ok(spine) =>
        match GuideSection(s.guide, HrefIndex(s.manifest, []))
        case Err(e) => Err(e)
        case Ok(guide) =>
          match NcxTarget(s, xmlFile)
          case Err(e) => Err(e)
          case Ok(target) => Ok(Output(head + manifest + spine + guide + "</package>", target))
  }

  method WriteMetaTable(t: Array<Option<string>>, esc: string -> string) returns (x: string)
    ensures x == MetaTableXml(t, esc)
  {
    x := "";
    var i := 0;
    assert t[i..] == t;
    while i < |t|
      invariant 0 <= i <= |t|
      invariant x + MetaTableXml(t[i..], esc) == MetaTableXml(t, esc)
    {
      Suffix(t, i);
      var tag := EmptyTag("meta", [Attr("name", t[i].key), Attr("content", esc(Str(t[i].val)))]);
      Assoc(x, tag, MetaTableXml(t[i + 1..], esc));
      x := x + tag;
      i := i + 1;
    }
    assert x + "" == x;
  }

  method WriteAttrs(attrs: Array<string>, esc: string -> string) returns (x: string)
    ensures x == AttrsText(Escaped(attrs, esc))
  {
    x := "";
    ghost var all := Escaped(attrs, esc);
    var i := 0;
    assert all[i..] == all;
    while i < |attrs|
      invariant 0 <= i <= |attrs|
      invariant x + AttrsText(all[i..]) == AttrsText(all)
    {
      Suffix(all, i);
      var text := " " + attrs[i].key + "=\"" + esc(attrs[i].val) + "\"";
      assert text == AttrText(all[i]);
      Assoc(x, text, AttrsText(all[i + 1..]));
      x := x + text;
      i := i + 1;
    }
    assert x + "" == x;
  }

  method WriteMetadata(m: Array<MetaItem>, esc: string -> string) returns (x: string)
    ensures x == MetadataXml(m, esc)
  {
    x := "";
    var i := 0;
    assert m[i..] == m;
    while i < |m|
      invariant 0 <= i <= |m|
      invariant x + MetadataXml(m[i..], esc) == MetadataXml(m, esc)
    {
      Suffix(m, i);
      var y := WriteMetaItem(m[i], esc);
      Assoc(x, y, MetadataXml(m[i + 1..], esc));
      x := x + y;
      i := i + 1;
    }
    assert x + "" == x;
  }

  /** One metadata entry: the table of the 'meta' key, or one element. */
  method WriteMetaItem(e: Entry<MetaItem>, esc: string -> string) returns (y: string)
    ensures y == MetaItemXml(e, esc)
  {
    match e.val {
      case MetaTable(t) =>
        y := WriteMetaTable(t, esc);
      case Element(v, a) =>
        var attrsText := WriteAttrs(a, esc);
        y := "<" + e.key + attrsText + if v == "" then " />" else ">" + esc(v) + "</" + e.key + ">";
    }
  }

  /** The manifest loop: the <item> elements, and $hrefs2ids when every item could be written. */
  method WriteManifest(m: Array<ManifestItem>, isFile: string -> bool) returns (r: Result<string, Error>, hrefs: Array<string>)
    ensures r == ManifestXml(m, isFile)
    ensures r.Ok? ==> hrefs == HrefIndex(m, [])
  {
    var x := "";
    hrefs := [];
    var i := 0;
    assert m[i..] == m;
    PrependEmpty(ManifestXml(m, isFile));
    while i < |m|
      invariant 0 <= i <= |m|
      invariant ManifestXml(m, isFile) == Prepend(x, ManifestXml(m[i..], isFile))
      invariant HrefIndex(m, []) == HrefIndex(m[i..], hrefs)
    {
      Suffix(m, i);
      var key, item := m[i].key, m[i].val;
      if item.id.None? || item.href.None? || item.mediaType.None? {
        return Err(ItemAttributesMissing), hrefs;
      }
      if item.file.None? || !isFile(item.file.value) {
        return Err(ItemFileMissing(item.id.value)), hrefs;
      }
      hrefs := Put(hrefs, item.href.value, key);
      var attrs := ItemTagAttrs(key, item);
      var tag := EmptyTag("item", attrs);
      PrependPrepend(x, tag, ManifestXml(m[i + 1..], isFile));
      x := x + tag;
      i := i + 1;
    }
    assert x + "" == x;
    r := Ok(x);
  }

  /** The attributes of one <item>, added one `if` at a time. */
  method ItemTagAttrs(key: string, item: ManifestItem) returns (attrs: seq<Attr>)
    requires item.href.Some? && item.mediaType.Some?
    ensures attrs == ItemAttrs(key, item)
  {
    attrs := [Attr("id", key), Attr("href", item.href.value)];
    if item.fallback.Some? && Field(item, item.fallback.value).Some? {
      attrs := attrs + [Attr("fallback", item.fallback.value)];
    }
    if item.fallbackStyle.Some? {
      attrs := attrs + [Attr("fallback-style", item.fallbackStyle.value)];
    }
    if item.requiredNamespace.Some? {
      var ns := [Attr("required-namespace", item.requiredNamespace.value)];
      if item.requiredModules.Some? {
        ns := ns + [Attr("required-modules", item.requiredModules.value)];
      }
      attrs := attrs + ns;
    }
    attrs := attrs + [Attr("media-type", item.mediaType.value)];
  }

  /** The spine loop: an <itemref> per entry, each of whose keys must be a manifest key. */
  method WriteSpine(sp: Array<SpineItem>, manifest: Array<ManifestItem>) returns (r: Result<string, Error>)
    ensures r == SpineXml(sp, manifest)
  {
    var x := "";
    var i := 0;
    assert sp[i..] == sp;
    PrependEmpty(SpineXml(sp, manifest));
    while i < |sp|
      invariant 0 <= i <= |sp|
      invariant SpineXml(sp, manifest) == Prepend(x, SpineXml(sp[i..], manifest))
    {
      Suffix(sp, i);
      if !HasKey(manifest, sp[i].key) {
        return Err(SpineKeyUnknown(sp[i].key));
      }
      var attrs := [Attr("idref", sp[i].key)];
      if sp[i].val.linear.Some? {
        attrs := attrs + [Attr("linear", sp[i].val.linear.value)];
      }
      assert attrs == ItemrefAttrs(sp[i]);
      var tag := EmptyTag("itemref", attrs);
      PrependPrepend(x, tag, SpineXml(sp[i + 1..], manifest));
      x := x + tag;
      i := i + 1;
    }
    assert x + "" == x;
    r := Ok(x);
  }

  /** The guide loop: a <reference> per entry, each of whose hrefs must be a manifest href. */
  method WriteGuide(guide: seq<GuideRef>, hrefs: Array<string>) returns (r: Result<string, Error>)
    ensures r == GuideXml(guide, hrefs)
  {
    var x := "";
    var i := 0;
    assert guide[i..] == guide;
    PrependEmpty(GuideXml(guide, hrefs));
    while i < |guide|
      invariant 0 <= i <= |guide|
      invariant GuideXml(guide, hrefs) == Prepend(x, GuideXml(guide[i..], hrefs))
    {
      Suffix(guide, i);
      var g := guide[i];
      if !HasKey(hrefs, Str(g.href)) {
        return Err(GuideHrefUnknown(Str(g.href)));
      }
      var tag := EmptyTag("reference", ReferenceAttrs(g));
      PrependPrepend(x, tag, GuideXml(guide[i + 1..], hrefs));
      x := x + tag;
      i := i + 1;
    }
    assert x + "" == x;
    r := Ok(x);
  }

  // ---------------------------------------------------------------------------
  // The OPF object

  class Package {
    var uid: Option<string>
    var version: Option<string>
    var metadata: Array<MetaItem>
    var manifest: Array<ManifestItem>
    var spine: Array<SpineItem>
    var guide: seq<GuideRef>
    var ncx: Option<string>

    function Snap(): Snapshot
      reads this
    {
      Snapshot(uid, version, metadata, manifest, spine, guide, ncx)
    }

    ghost predicate Valid()
      reads this
    {
      Consistent(Snap())
    }

    /** `new OPF()`: the identifier 'Epub-' + uniqid() and the default metadata. */
    constructor Create(uniq: string)
      ensures Snap() == Snapshot(Some("Epub-" + uniq), Some("2.0"), DefaultMetadata("Epub-" + uniq), [], [], [], None)
      ensures Valid()
    {
      uid := Some("Epub-" + uniq);
      version := Some("2.0");
      metadata := DefaultMetadata("Epub-" + uniq);
      manifest := [];
      spine := [];
      guide := [];
      ncx := None;
      new;
      DefaultMetadataConsistent("Epub-" + uniq);
    }

    /** The object `new OPF($xmlFile)` reads into. */
    constructor FromFile()
      ensures Snap() == Blank() && Valid()
    {
      uid, version := None, Some("2.0");
      metadata, manifest, spine, guide, ncx := [], [], [], [], None;
    }

    /** readXML: fills the fields from the parsed file `xmlFile`; fails as the first failing check does. */
    method ReadXml(doc: PackageDoc, xmlFile: string, isFile: string -> bool) returns (r: Outcome<Error>)
      modifies this
      ensures r.Pass? <==> PackageRead(doc, xmlFile, isFile, old(Snap())).Ok?
      ensures r.Pass? ==> Snap() == PackageRead(doc, xmlFile, isFile, old(Snap())).value
      ensures r.Fail? ==> PackageRead(doc, xmlFile, isFile, old(Snap())) == Err(r.error)
    {
      uid := GetAttr(doc.attrs, "unique-identifier");
      version := GetAttr(doc.attrs, "version");
      ReadMetadata(doc.metadata);
      r := ReadManifest(doc.items, Dirname(xmlFile), isFile);
      if r.Fail? {
        return;
      }
      r := ReadSpine(doc.itemrefs);
      if r.Fail? {
        return;
      }
      ReadGuide(doc.references);
    }

    /** The walk over the children of <metadata>. */
    method ReadMetadata(children: seq<MetaChild>)
      modifies this
      ensures Snap() == old(Snap()).(metadata := MetadataRead(children, old(metadata)))
    {
      // the table is built locally and stored once; no other field changes
      var m := metadata;
      var i := 0;
      while i < |children|
        invariant 0 <= i <= |children|
        invariant MetadataRead(children, old(metadata)) == MetadataRead(children[i..], m)
        invariant unchanged(this)
      {
        var c := children[i];
        var e := ReadMetaChild(c);
        MetadataReadStep(children, i, m);
        if e.Some? {
          m := Put(m, QName(c.prefix, c.name), e.value);
        }
        i := i + 1;
      }
      assert children[i..] == [];
      metadata := m;
    }

    /** The entry one metadata child produces: the body of the loop in readXML. */
    static method ReadMetaChild(c: MetaChild) returns (e: Option<MetaItem>)
      ensures e == MetaEntry(c)
    {
      var key := QName(c.prefix, c.name);
      if key == "meta" {
        // an existing table is reset first, so the new table starts empty either way
        var table: Array<Option<string>> := [];
        table := Put(table, Str(GetAttr(c.attrs, "name")), GetAttr(c.attrs, "content"));
        e := Some(MetaTable(table));
      } else if key == "x-metadata" {
        e := None;
      } else {
        var attrs: Array<string> := [];
        if !Empty(c.prefix) {
          attrs := ReadAttrTable(c.nsAttrs);
        }
        e := Some(Element(c.text, attrs));
      }
    }

    /** The loop over the manifest items. */
    method ReadManifest(items: seq<seq<Attr>>, dir: string, isFile: string -> bool) returns (r: Outcome<Error>)
      modifies this
      ensures r.Pass? <==> ManifestRead(items, dir, isFile, old(Snap())).Ok?
      ensures r.Pass? ==> Snap() == ManifestRead(items, dir, isFile, old(Snap())).value
      ensures r.Fail? ==> ManifestRead(items, dir, isFile, old(Snap())) == Err(r.error)
    {
      var i := 0;
      while i < |items|
        invariant 0 <= i <= |items|
        invariant ManifestRead(items, dir, isFile, old(Snap())) == ManifestRead(items[i..], dir, isFile, Snap())
      {
        Suffix(items, i);
        var item := items[i];
        var file := dir + "/" + Str(GetAttr(item, "href"));
        if !isFile(file) {
          return Fail(ManifestFileMissing(file, Str(GetAttr(item, "id"))));
        }
        assert ManifestRead(items[i..], dir, isFile, Snap())
          == ManifestRead(items[i + 1..], dir, isFile, ManifestStep(item, dir, Snap()));
        AddItem(item, dir);
        i := i + 1;
      }
      return Pass;
    }

    /** `$this->manifest[$id] = ...` for one <item>, and the NCX when its id is 'ncx'. */
    method AddItem(item: seq<Attr>, dir: string)
      modifies this
      ensures Snap() == ManifestStep(item, dir, old(Snap()))
    {
      var id := GetAttr(item, "id");
      var href := GetAttr(item, "href");
      var file := dir + "/" + Str(href);
      manifest := Put(manifest, Str(id), ManifestItem(id, href, GetAttr(item, "media-type"), Some(file), None, None, None, None));
      if id == Some("ncx") {
        ncx := Some(file);
      }
    }

    /** The loop over the spine itemrefs. */
    method ReadSpine(itemrefs: seq<seq<Attr>>) returns (r: Outcome<Error>)
      modifies this
      ensures r.Pass? <==> SpineRead(itemrefs, old(Snap())).Ok?
      ensures r.Pass? ==> Snap() == SpineRead(itemrefs, old(Snap())).value
      ensures r.Fail? ==> SpineRead(itemrefs, old(Snap())) == Err(r.error)
    {
      var i := 0;
      while i < |itemrefs|
        invariant 0 <= i <= |itemrefs|
        invariant SpineRead(itemrefs, old(Snap())) == SpineRead(itemrefs[i..], Snap())
      {
        Suffix(itemrefs, i);
        var key := GetAttr(itemrefs[i], "idref");
        if Truthy(key) && HasKey(manifest, key.value) {
          spine := Put(spine, key.value, SpineItem(Get(manifest, key.value).value.href, GetAttr(itemrefs[i], "linear")));
        } else {
          return Fail(SpineIdrefUnknown(Str(key)));
        }
        i := i + 1;
      }
      return Pass;
    }

    /** The loop over the guide references, appended in document order. */
    method ReadGuide(references: seq<seq<Attr>>)
      modifies this
      ensures Snap() == old(Snap()).(guide := old(guide) + GuideRead(references))
    {
      var i := 0;
      while i < |references|
        invariant 0 <= i <= |references|
        invariant Snap() == old(Snap()).(guide := old(guide) + GuideRead(references[..i]))
      {
        var ref := references[i];
        guide := guide + [GuideRef(GetAttr(ref, "href"), GetAttr(ref, "type"), GetAttr(ref, "title"))];
        i := i + 1;
        assert GuideRead(references[..i]) == GuideRead(references[..i - 1]) + [Reference(ref)];
      }
      assert references[..i] == references;
    }

    /** asXML: the package XML and where the NCX goes, or the first check that fails. */
    method AsXml(xmlFile: string, esc: string -> string, isFile: string -> bool) returns (r: Result<Output, Error>)
      ensures r == Serialize(Snap(), xmlFile, esc, isFile)
    {
      var xml := PackageStart(version, uid) + MetadataStart;
      var meta := WriteMetadata(metadata, esc);
      xml := xml + meta + "</metadata>";
      if manifest == [] {
        return Err(EmptyManifest);
      }
      var items, hrefs := WriteManifest(manifest, isFile);
      if items.Err? {
        return Err(items.error);
      }
      xml := xml + ("<manifest>" + items.value + "</manifest>");
      if spine == [] {
        return Err(EmptySpine);
      }
      var refs := WriteSpine(spine, manifest);
      if refs.Err? {
        return Err(refs.error);
      }
      xml := xml + (StartTag("spine", SpineAttrs(manifest)) + refs.value + "</spine>");
      var guideXml := "";
      if guide != [] {
        var g := WriteGuide(guide, hrefs);
        if g.Err? {
          return Err(g.error);
        }
        guideXml := "<guide>" + g.value + "</guide>";
      }
      xml := xml + guideXml + "</package>";
      if ncx.None? {
        return Ok(Output(xml, None));
      }
      var ncxItem := Get(manifest, "ncx");
      if ncxItem.None? || Empty(Str(ncxItem.value.href)) {
        return Err(NcxFilenameUnknown);
      }
      return Ok(Output(xml, Some(Dirname(xmlFile) + "/" + ncxItem.value.href.value)));
    }
  }

  /** The attribute table of a metadata element, read attribute by attribute. */
  method ReadAttrTable(attrs: seq<NsAttr>) returns (t: Array<string>)
    ensures t == AttrTable(attrs, [])
  {
    t := [];
    var j := 0;
    while j < |attrs|
      invariant 0 <= j <= |attrs|
      invariant AttrTable(attrs, []) == AttrTable(attrs[j..], t)
    {
      Suffix(attrs, j);
      t := Put(t, QName(attrs[j].prefix, attrs[j].attr.name), attrs[j].attr.value);
      j := j + 1;
    }
  }
}
