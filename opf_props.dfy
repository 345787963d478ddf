/**
 * Properties of the OPF package document: what reading a package file yields,
 * the invariant it keeps, when writing succeeds, and that reading back the
 * elements asXML writes recovers the manifest, spine and guide.
 */
module OpfProps {
  import opened Php
  import opened Xml
  import opened Opf

  /** The manifest keys the items are assigned under, in document order. */
  function Ids(items: seq<seq<Attr>>): (ids: seq<string>)
    ensures |ids| == |items|
    ensures forall i :: 0 <= i < |items| ==> ids[i] == Str(GetAttr(items[i], "id"))
  {
    seq(|items|, i requires 0 <= i < |items| => Str(GetAttr(items[i], "id")))
  }

  /** The spine keys the itemrefs are assigned under, in document order. */
  function Idrefs(itemrefs: seq<seq<Attr>>): (ids: seq<string>)
    ensures |ids| == |itemrefs|
    ensures forall i :: 0 <= i < |itemrefs| ==> ids[i] == Str(GetAttr(itemrefs[i], "idref"))
  {
    seq(|itemrefs|, i requires 0 <= i < |itemrefs| => Str(GetAttr(itemrefs[i], "idref")))
  }

  // ---------------------------------------------------------------------------
  // Reading the metadata

  /** A metadata key that no child is read under keeps its entry. */
  /** No child from position `from` on has the qualified name `k`. */
  predicate NoneNamed(children: seq<MetaChild>, k: string, from: nat)
  {
    forall j :: from <= j < |children| ==> QName(children[j].prefix, children[j].name) != k
  }

  lemma NoneNamedTail(children: seq<MetaChild>, k: string, from: nat)
    requires children != [] && 1 <= from && NoneNamed(children, k, from)
    ensures NoneNamed(children[1..], k, from - 1)
  {
    forall j | from - 1 <= j < |children| - 1
      ensures QName(children[1..][j].prefix, children[1..][j].name) != k
    {
      assert children[1..][j] == children[j + 1];
    }
  }

  lemma {:induction false} MetadataReadOther(children: seq<MetaChild>, m: Array<MetaItem>, k: string)
    requires NoneNamed(children, k, 0)
    decreases |children|
    ensures Get(MetadataRead(children, m), k) == Get(m, k)
  {
    if children != [] {
      var c := children[0];
      var m' := if MetaEntry(c).Some? then Put(m, QName(c.prefix, c.name), MetaEntry(c).value) else m;
      assert Get(m', k) == Get(m, k) by {
        if MetaEntry(c).Some? {
          PutGet(m, QName(c.prefix, c.name), MetaEntry(c).value, k);
        }
      }
      MetadataReadStep(children, 0, m);
      assert children[0..] == children;
      assert NoneNamed(children, k, 1);
      NoneNamedTail(children, k, 1);
      MetadataReadOther(children[1..], m', k);
    }
  }

  /**
   * Only the last <meta> element survives: the table under 'meta' is reset
   * whenever it is already set, so it ends up holding that element's
   * name and content alone.
   */
  lemma MetadataReadMeta(children: seq<MetaChild>, m: Array<MetaItem>, i: nat)
    requires i < |children| && QName(children[i].prefix, children[i].name) == "meta"
    requires NoneNamed(children, "meta", i + 1)
    ensures Get(MetadataRead(children, m), "meta") ==
      Some(MetaTable([Entry(Str(GetAttr(children[i].attrs, "name")), GetAttr(children[i].attrs, "content"))]))
  {
    var pre, post := children[..i], children[i..];
    assert children == pre + post;
    MetadataReadConcat(pre, post, m);
    assert post[0] == children[i];
    assert NoneNamed(post, "meta", 1) by {
      forall j | 1 <= j < |post| ensures post[j] == children[i + j] { }
    }
    MetadataReadMetaFirst(post, MetadataRead(pre, m));
  }

  /** Reading two runs of children one after the other is reading the first, then the second. */
  lemma {:induction false} MetadataReadConcat(a: seq<MetaChild>, b: seq<MetaChild>, m: Array<MetaItem>)
    decreases |a|
    ensures MetadataRead(a + b, m) == MetadataRead(b, MetadataRead(a, m))
  {
    if a == [] {
      assert a + b == b;
    } else {
      var c := a[0];
      var m' := if MetaEntry(c).Some? then Put(m, QName(c.prefix, c.name), MetaEntry(c).value) else m;
      assert (a + b)[0] == c && (a + b)[1..] == a[1..] + b;
      assert MetadataRead(a + b, m) == MetadataRead(a[1..] + b, m');
      MetadataReadConcat(a[1..], b, m');
    }
  }

  /** A first child named 'meta' that no later child repeats leaves its table under 'meta'. */
  lemma MetadataReadMetaFirst(children: seq<MetaChild>, m: Array<MetaItem>)
    requires children != [] && QName(children[0].prefix, children[0].name) == "meta"
    requires NoneNamed(children, "meta", 1)
    ensures Get(MetadataRead(children, m), "meta") ==
      Some(MetaTable([Entry(Str(GetAttr(children[0].attrs, "name")), GetAttr(children[0].attrs, "content"))]))
  {
    var c, rest := children[0], children[1..];
    var table := [Entry(Str(GetAttr(c.attrs, "name")), GetAttr(c.attrs, "content"))];
    assert MetaEntry(c) == Some(MetaTable(table));
    var m' := Put(m, "meta", MetaTable(table));
    MetadataReadStep(children, 0, m);
    assert children[0..] == children;
    assert MetadataRead(children, m) == MetadataRead(rest, m');
    NoneNamedTail(children, "meta", 1);
    PutGet(m, "meta", MetaTable(table), "meta");
    MetadataReadOther(rest, m', "meta");
  }

  lemma {:induction false} AttrTableUnique(attrs: seq<NsAttr>, acc: Array<string>)
    requires UniqueKeys(acc)
    decreases |attrs|
    ensures UniqueKeys(AttrTable(attrs, acc))
  {
    if attrs != [] {
      var a := attrs[0];
      PutUnique(acc, QName(a.prefix, a.attr.name), a.attr.value);
      AttrTableUnique(attrs[1..], Put(acc, QName(a.prefix, a.attr.name), a.attr.value));
    }
  }

  /** Reading metadata keeps its keys unique and 'meta' the only table. */
  lemma {:induction false} MetadataReadConsistent(children: seq<MetaChild>, m: Array<MetaItem>)
    requires MetadataConsistent(m)
    decreases |children|
    ensures MetadataConsistent(MetadataRead(children, m))
  {
    if children != [] {
      var c := children[0];
      var key := QName(c.prefix, c.name);
      var m' := m;
      if MetaEntry(c).Some? {
        var item := MetaEntry(c).value;
        if item.Element? {
          AttrTableUnique(c.nsAttrs, []);
        }
        m' := Put(m, key, item);
        PutMetaConsistent(m, key, item);
      }
      MetadataReadConsistent(children[1..], m');
    }
  }

  /** Recording a metadata entry that keeps the rules keeps the table consistent. */
  lemma PutMetaConsistent(m: Array<MetaItem>, key: string, item: MetaItem)
    requires MetadataConsistent(m)
    requires key == "meta" <==> item.MetaTable?
    requires item.MetaTable? ==> UniqueKeys(item.table)
    requires item.Element? ==> UniqueKeys(item.attrs)
    ensures MetadataConsistent(Put(m, key, item))
  {
    PutUnique(m, key, item);
    PutEntries(m, key, item);
  }

  // ---------------------------------------------------------------------------
  // Reading the manifest

  /** Reading the manifest fails exactly when the file of some item does not exist. */
  lemma {:induction false} ManifestReadOk(items: seq<seq<Attr>>, dir: string, isFile: string -> bool, s: Snapshot)
    decreases |items|
    ensures ManifestRead(items, dir, isFile, s).Ok? <==>
      forall i :: 0 <= i < |items| ==> isFile(ItemFile(items[i], dir))
  {
    if items != [] {
      ManifestReadOk(items[1..], dir, isFile, ManifestStep(items[0], dir, s));
      assert forall i :: 0 <= i < |items| - 1 ==> items[1..][i] == items[i + 1];
    }
  }

  /** Items are keyed by id in first-occurrence order; nothing but the manifest and the NCX changes. */
  lemma {:induction false} ManifestReadKeys(items: seq<seq<Attr>>, dir: string, isFile: string -> bool, s: Snapshot)
    requires ManifestRead(items, dir, isFile, s).Ok?
    decreases |items|
    ensures var r := ManifestRead(items, dir, isFile, s).value;
      && r == s.(manifest := r.manifest, ncx := r.ncx)
      && Keys(r.manifest) == AppendNew(Keys(s.manifest), Ids(items))
  {
    if items != [] {
      ManifestReadKeys(items[1..], dir, isFile, ManifestStep(items[0], dir, s));
      assert Ids(items)[1..] == Ids(items[1..]);
    }
  }

  /** An id that no item has keeps its manifest entry. */
  lemma {:induction false} ManifestReadOther(items: seq<seq<Attr>>, dir: string, isFile: string -> bool, s: Snapshot, k: string)
    requires ManifestRead(items, dir, isFile, s).Ok?
    requires forall j :: 0 <= j < |items| ==> Str(GetAttr(items[j], "id")) != k
    decreases |items|
    ensures Get(ManifestRead(items, dir, isFile, s).value.manifest, k) == Get(s.manifest, k)
  {
    if items != [] {
      PutGet(s.manifest, Str(GetAttr(items[0], "id")), ItemRecord(items[0], dir), k);
      assert forall j :: 0 <= j < |items| - 1 ==> items[1..][j] == items[j + 1];
      ManifestReadOther(items[1..], dir, isFile, ManifestStep(items[0], dir, s), k);
    }
  }

  /** The entry under an id is the record of the last item with that id. */
  lemma {:induction false} ManifestReadLast(items: seq<seq<Attr>>, dir: string, isFile: string -> bool, s: Snapshot, i: nat)
    requires ManifestRead(items, dir, isFile, s).Ok?
    requires i < |items|
    requires forall j :: i < j < |items| ==> Str(GetAttr(items[j], "id")) != Str(GetAttr(items[i], "id"))
    decreases |items|
    ensures Get(ManifestRead(items, dir, isFile, s).value.manifest, Str(GetAttr(items[i], "id"))) ==
      Some(ItemRecord(items[i], dir))
  {
    var s' := ManifestStep(items[0], dir, s);
    assert forall j :: 0 <= j < |items| - 1 ==> items[1..][j] == items[j + 1];
    if i == 0 {
      var k := Str(GetAttr(items[0], "id"));
      PutGet(s.manifest, k, ItemRecord(items[0], dir), k);
      ManifestReadOther(items[1..], dir, isFile, s', k);
    } else {
      ManifestReadLast(items[1..], dir, isFile, s', i - 1);
    }
  }

  /** Without an item with id 'ncx', no NCX is loaded. */
  lemma {:induction false} ManifestReadNoNcx(items: seq<seq<Attr>>, dir: string, isFile: string -> bool, s: Snapshot)
    requires ManifestRead(items, dir, isFile, s).Ok?
    requires forall j :: 0 <= j < |items| ==> GetAttr(items[j], "id") != Some("ncx")
    decreases |items|
    ensures ManifestRead(items, dir, isFile, s).value.ncx == s.ncx
  {
    if items != [] {
      assert forall j :: 0 <= j < |items| - 1 ==> items[1..][j] == items[j + 1];
      ManifestReadNoNcx(items[1..], dir, isFile, ManifestStep(items[0], dir, s));
    }
  }

  /** Reading the manifest keeps items keyed by id and the NCX the file of item 'ncx'. */
  lemma {:induction false} ManifestReadConsistent(items: seq<seq<Attr>>, dir: string, isFile: string -> bool, s: Snapshot)
    requires ManifestConsistent(s)
    requires ManifestRead(items, dir, isFile, s).Ok?
    decreases |items|
    ensures ManifestConsistent(ManifestRead(items, dir, isFile, s).value)
  {
    if items != [] {
      var s' := ManifestStep(items[0], dir, s);
      assert ManifestRead(items, dir, isFile, s) == ManifestRead(items[1..], dir, isFile, s');
      ManifestStepConsistent(items[0], dir, s);
      ManifestReadConsistent(items[1..], dir, isFile, s');
    }
  }

  /** Recording one <item> keeps items keyed by id and the NCX the file of item 'ncx'. */
  lemma ManifestStepConsistent(item: seq<Attr>, dir: string, s: Snapshot)
    requires ManifestConsistent(s)
    ensures ManifestConsistent(ManifestStep(item, dir, s))
  {
    var id := GetAttr(item, "id");
    var rec := ItemRecord(item, dir);
    var s' := ManifestStep(item, dir, s);
    assert s'.manifest == Put(s.manifest, Str(id), rec);
    PutUnique(s.manifest, Str(id), rec);
    PutKeyed(s.manifest, Str(id), rec);
    PutGet(s.manifest, Str(id), rec, "ncx");
  }

  /** Assigning an item under its own id keeps every item keyed by its id. */
  lemma PutKeyed(a: Array<ManifestItem>, k: string, v: ManifestItem)
    requires forall i :: 0 <= i < |a| ==> a[i].key == Str(a[i].val.id)
    requires k == Str(v.id)
    ensures forall i :: 0 <= i < |Put(a, k, v)| ==> Put(a, k, v)[i].key == Str(Put(a, k, v)[i].val.id)
  {
    PutEntries(a, k, v);
  }

  // ---------------------------------------------------------------------------
  // Reading the spine

  /** Every spine entry names a manifest item and carries that item's href. */
  ghost predicate SpineResolved(s: Snapshot)
  {
    forall i :: 0 <= i < |s.spine| ==> EntryResolved(s.spine[i], s.manifest)
  }

  /** A spine entry names a manifest item and carries that item's href. */
  ghost predicate EntryResolved(e: Entry<SpineItem>, manifest: Array<ManifestItem>)
  {
    Get(manifest, e.key).Some? && e.val.href == Get(manifest, e.key).value.href
  }

  /** Assigning a resolved entry to a resolved spine leaves it resolved. */
  lemma PutResolved(sp: Array<SpineItem>, manifest: Array<ManifestItem>, k: string, v: SpineItem)
    requires forall i :: 0 <= i < |sp| ==> EntryResolved(sp[i], manifest)
    requires EntryResolved(Entry(k, v), manifest)
    ensures forall i :: 0 <= i < |Put(sp, k, v)| ==> EntryResolved(Put(sp, k, v)[i], manifest)
  {
    PutEntries(sp, k, v);
  }

  /** The idref of an itemref is non-empty and names a manifest item. */
  predicate IdrefKnown(itemref: seq<Attr>, manifest: Array<ManifestItem>)
  {
    Truthy(GetAttr(itemref, "idref")) && HasKey(manifest, GetAttr(itemref, "idref").value)
  }

  /** Reading the spine fails exactly when some idref is empty or is not a manifest key. */
  lemma {:induction false} SpineReadOk(itemrefs: seq<seq<Attr>>, s: Snapshot)
    decreases |itemrefs|
    ensures SpineRead(itemrefs, s).Ok? <==>
      forall i :: 0 <= i < |itemrefs| ==> IdrefKnown(itemrefs[i], s.manifest)
  {
    if itemrefs != [] {
      AllKnownCons(itemrefs, s.manifest);
      if IdrefKnown(itemrefs[0], s.manifest) {
        var s' := SpineStep(itemrefs[0], s);
        assert s'.manifest == s.manifest;
        assert SpineRead(itemrefs, s) == SpineRead(itemrefs[1..], s');
        SpineReadOk(itemrefs[1..], s');
      }
    }
  }

  /** Every idref is known exactly when the first one is and every later one is. */
  lemma AllKnownCons(itemrefs: seq<seq<Attr>>, manifest: Array<ManifestItem>)
    requires itemrefs != []
    ensures (forall i :: 0 <= i < |itemrefs| ==> IdrefKnown(itemrefs[i], manifest)) <==>
      (IdrefKnown(itemrefs[0], manifest) &&
       forall i :: 0 <= i < |itemrefs[1..]| ==> IdrefKnown(itemrefs[1..][i], manifest))
  {
    forall i | 1 <= i < |itemrefs| ensures itemrefs[1..][i - 1] == itemrefs[i] { }
  }

  /** Spine keys follow the itemrefs in first-occurrence order; only the spine changes. */
  lemma {:induction false} SpineReadKeys(itemrefs: seq<seq<Attr>>, s: Snapshot)
    requires SpineRead(itemrefs, s).Ok?
    decreases |itemrefs|
    ensures var r := SpineRead(itemrefs, s).value;
      && r == s.(spine := r.spine)
      && Keys(r.spine) == AppendNew(Keys(s.spine), Idrefs(itemrefs))
  {
    SpineReadFrame(itemrefs, s);
    if itemrefs == [] {
      assert Idrefs(itemrefs) == [];
    } else {
      var s' := SpineStep(itemrefs[0], s);
      assert SpineRead(itemrefs, s) == SpineRead(itemrefs[1..], s');
      SpineReadKeys(itemrefs[1..], s');
      SpineStepKeys(itemrefs, s);
    }
  }

  /** Reading the spine changes no field but the spine. */
  lemma {:induction false} SpineReadFrame(itemrefs: seq<seq<Attr>>, s: Snapshot)
    requires SpineRead(itemrefs, s).Ok?
    decreases |itemrefs|
    ensures SpineRead(itemrefs, s).value == s.(spine := SpineRead(itemrefs, s).value.spine)
  {
    if itemrefs != [] {
      var s' := SpineStep(itemrefs[0], s);
      assert SpineRead(itemrefs, s) == SpineRead(itemrefs[1..], s');
      SpineReadFrame(itemrefs[1..], s');
    }
  }

  /** One spine step in terms of the keys: the first idref is appended unless already present. */
  lemma SpineStepKeys(itemrefs: seq<seq<Attr>>, s: Snapshot)
    requires itemrefs != []
    requires GetAttr(itemrefs[0], "idref").Some? && HasKey(s.manifest, GetAttr(itemrefs[0], "idref").value)
    ensures AppendNew(Keys(s.spine), Idrefs(itemrefs))
         == AppendNew(Keys(SpineStep(itemrefs[0], s).spine), Idrefs(itemrefs[1..]))
  {
    var xs := Idrefs(itemrefs);
    assert xs[1..] == Idrefs(itemrefs[1..]);
    assert Keys(SpineStep(itemrefs[0], s).spine) == if xs[0] in Keys(s.spine) then Keys(s.spine) else Keys(s.spine) + [xs[0]];
  }

  /** Reading the spine keeps every spine entry resolved against the manifest. */
  lemma {:induction false} SpineReadResolved(itemrefs: seq<seq<Attr>>, s: Snapshot)
    requires SpineResolved(s)
    requires SpineRead(itemrefs, s).Ok?
    decreases |itemrefs|
    ensures SpineResolved(SpineRead(itemrefs, s).value)
  {
    if itemrefs != [] {
      var s' := SpineStep(itemrefs[0], s);
      assert SpineRead(itemrefs, s) == SpineRead(itemrefs[1..], s');
      SpineStepResolved(itemrefs[0], s);
      SpineReadResolved(itemrefs[1..], s');
    }
  }

  /** One spine step keeps every spine entry resolved: the new entry carries its item's href. */
  lemma SpineStepResolved(itemref: seq<Attr>, s: Snapshot)
    requires SpineResolved(s)
    requires GetAttr(itemref, "idref").Some? && HasKey(s.manifest, GetAttr(itemref, "idref").value)
    ensures SpineResolved(SpineStep(itemref, s))
  {
    var key := GetAttr(itemref, "idref").value;
    var item := SpineItem(Get(s.manifest, key).value.href, GetAttr(itemref, "linear"));
    assert SpineStep(itemref, s).spine == Put(s.spine, key, item);
    PutResolved(s.spine, s.manifest, key, item);
  }

  // ---------------------------------------------------------------------------
  // Reading a package

  /** readXML keeps the package invariant. */
  lemma PackageReadConsistent(doc: PackageDoc, xmlFile: string, isFile: string -> bool, s: Snapshot)
    requires Consistent(s)
    requires PackageRead(doc, xmlFile, isFile, s).Ok?
    ensures Consistent(PackageRead(doc, xmlFile, isFile, s).value)
  {
    var s1 := s.(uid := GetAttr(doc.attrs, "unique-identifier"), version := GetAttr(doc.attrs, "version"));
    var s2 := s1.(metadata := MetadataRead(doc.metadata, s1.metadata));
    MetadataReadConsistent(doc.metadata, s1.metadata);
    var dir := Dirname(xmlFile);
    ManifestReadConsistent(doc.items, dir, isFile, s2);
    ManifestReadKeys(doc.items, dir, isFile, s2);
    var s3 := ManifestRead(doc.items, dir, isFile, s2).value;
    SpineReadKeys(doc.itemrefs, s3);
    AppendNewNoDup(Keys(s3.spine), Idrefs(doc.itemrefs));
  }

  /**
   * Opening a package file: the manifest holds one entry per distinct id and
   * the spine one per distinct idref, in document order; every spine entry
   * names a manifest item and carries its href; the guide lists the
   * references in document order.
   */
  lemma OpenPackage(doc: PackageDoc, xmlFile: string, isFile: string -> bool)
    requires PackageRead(doc, xmlFile, isFile, Blank()).Ok?
    ensures var s := PackageRead(doc, xmlFile, isFile, Blank()).value;
      && Consistent(s)
      && s.uid == GetAttr(doc.attrs, "unique-identifier") && s.version == GetAttr(doc.attrs, "version")
      && s.metadata == MetadataRead(doc.metadata, [])
      && Keys(s.manifest) == Distinct(Ids(doc.items))
      && Keys(s.spine) == Distinct(Idrefs(doc.itemrefs))
      && SpineResolved(s)
      && s.guide == GuideRead(doc.references)
  {
    var dir := Dirname(xmlFile);
    var s2 := Blank().(uid := GetAttr(doc.attrs, "unique-identifier"), version := GetAttr(doc.attrs, "version"),
      metadata := MetadataRead(doc.metadata, []));
    var s3 := ManifestRead(doc.items, dir, isFile, s2).value;
    var s4 := SpineRead(doc.itemrefs, s3).value;
    assert PackageRead(doc, xmlFile, isFile, Blank()).value == s4.(guide := s4.guide + GuideRead(doc.references));
    OpenPackageParts(doc, dir, isFile, s2, s3, s4);
  }

  /** OpenPackage, stated over the snapshots after the metadata, the manifest and the spine are read. */
  lemma OpenPackageParts(doc: PackageDoc, dir: string, isFile: string -> bool, s2: Snapshot, s3: Snapshot, s4: Snapshot)
    requires s2 == Blank().(uid := GetAttr(doc.attrs, "unique-identifier"), version := GetAttr(doc.attrs, "version"),
      metadata := MetadataRead(doc.metadata, []))
    requires ManifestRead(doc.items, dir, isFile, s2) == Ok(s3)
    requires SpineRead(doc.itemrefs, s3) == Ok(s4)
    ensures var s := s4.(guide := s4.guide + GuideRead(doc.references));
      && Consistent(s)
      && s.uid == GetAttr(doc.attrs, "unique-identifier") && s.version == GetAttr(doc.attrs, "version")
      && s.metadata == MetadataRead(doc.metadata, [])
      && Keys(s.manifest) == Distinct(Ids(doc.items))
      && Keys(s.spine) == Distinct(Idrefs(doc.itemrefs))
      && SpineResolved(s)
      && s.guide == GuideRead(doc.references)
  {
    assert MetadataConsistent(s2.metadata) by {
      assert MetadataConsistent(Blank().metadata);
      MetadataReadConsistent(doc.metadata, []);
    }
    ManifestReadConsistent(doc.items, dir, isFile, s2);
    ManifestReadKeys(doc.items, dir, isFile, s2);
    SpineReadKeys(doc.itemrefs, s3);
    AppendNewNoDup([], Idrefs(doc.itemrefs));
    SpineReadResolved(doc.itemrefs, s3);
    assert s4.guide == [];
  }

  /**
   * Opening a package file fails exactly when an item's file is missing or an
   * itemref's idref is empty or not the id of any item.
   */
  lemma OpenPackageOk(doc: PackageDoc, xmlFile: string, isFile: string -> bool)
    ensures PackageRead(doc, xmlFile, isFile, Blank()).Ok? <==>
      && (forall i :: 0 <= i < |doc.items| ==> isFile(ItemFile(doc.items[i], Dirname(xmlFile))))
      && (forall j :: 0 <= j < |doc.itemrefs| ==>
            Truthy(GetAttr(doc.itemrefs[j], "idref")) && GetAttr(doc.itemrefs[j], "idref").value in Ids(doc.items))
  {
    var dir := Dirname(xmlFile);
    var s2 := Blank().(uid := GetAttr(doc.attrs, "unique-identifier"), version := GetAttr(doc.attrs, "version"),
      metadata := MetadataRead(doc.metadata, []));
    ManifestReadOk(doc.items, dir, isFile, s2);
    if ManifestRead(doc.items, dir, isFile, s2).Ok? {
      var s3 := ManifestRead(doc.items, dir, isFile, s2).value;
      assert PackageRead(doc, xmlFile, isFile, Blank()).Ok? <==> SpineRead(doc.itemrefs, s3).Ok?;
      SpineOpensOk(doc, dir, isFile, s2, s3);
    }
  }

  /** After the manifest is read from scratch, the spine can be read exactly when every idref is the id of an item. */
  lemma SpineOpensOk(doc: PackageDoc, dir: string, isFile: string -> bool, s2: Snapshot, s3: Snapshot)
    requires s2.manifest == []
    requires ManifestRead(doc.items, dir, isFile, s2) == Ok(s3)
    ensures SpineRead(doc.itemrefs, s3).Ok? <==>
      forall j :: 0 <= j < |doc.itemrefs| ==>
        Truthy(GetAttr(doc.itemrefs[j], "idref")) && GetAttr(doc.itemrefs[j], "idref").value in Ids(doc.items)
  {
    ManifestReadKeys(doc.items, dir, isFile, s2);
    assert Keys(s2.manifest) == [];
    AppendNewMembers([], Ids(doc.items));
    SpineReadOk(doc.itemrefs, s3);
  }

  // ---------------------------------------------------------------------------
  // Writing

  /** Some manifest item has href `h`. */
  predicate HrefListed(m: Array<ManifestItem>, h: string)
  {
    exists j :: 0 <= j < |m| && Str(m[j].val.href) == h
  }

  /** $hrefs2ids has a key for exactly the hrefs of the manifest items. */
  lemma {:induction false} HrefIndexKeys(m: Array<ManifestItem>, acc: Array<string>, h: string)
    decreases |m|
    ensures HasKey(HrefIndex(m, acc), h) <==> HasKey(acc, h) || HrefListed(m, h)
  {
    if m != [] {
      var acc' := Put(acc, Str(m[0].val.href), m[0].key);
      assert HrefIndex(m, acc) == HrefIndex(m[1..], acc');
      assert HasKey(acc', h) <==> HasKey(acc, h) || Str(m[0].val.href) == h;
      HrefIndexKeys(m[1..], acc', h);
      HrefListedCons(m, h);
    }
  }

  /** Some item has href `h` exactly when the first does or one of the others does. */
  lemma HrefListedCons(m: Array<ManifestItem>, h: string)
    requires m != []
    ensures HrefListed(m, h) <==> Str(m[0].val.href) == h || HrefListed(m[1..], h)
  {
    if HrefListed(m[1..], h) {
      var j :| 0 <= j < |m[1..]| && Str(m[1..][j].val.href) == h;
      assert m[1..][j] == m[j + 1];
    }
    if HrefListed(m, h) && Str(m[0].val.href) != h {
      var j :| 0 <= j < |m| && Str(m[j].val.href) == h;
      assert m[1..][j - 1] == m[j];
    }
  }

  /** The <item> elements can be written exactly when every item is writable. */
  lemma {:induction false} ManifestXmlOk(m: Array<ManifestItem>, isFile: string -> bool)
    decreases |m|
    ensures ManifestXml(m, isFile).Ok? <==> forall i :: 0 <= i < |m| ==> Writable(m[i].val, isFile)
  {
    if m != [] {
      ManifestXmlOk(m[1..], isFile);
      assert forall i :: 0 <= i < |m| - 1 ==> m[1..][i] == m[i + 1];
    }
  }

  /** The <itemref> elements can be written exactly when every spine key is a manifest key. */
  lemma {:induction false} SpineXmlOk(sp: Array<SpineItem>, manifest: Array<ManifestItem>)
    decreases |sp|
    ensures SpineXml(sp, manifest).Ok? <==> forall i :: 0 <= i < |sp| ==> HasKey(manifest, sp[i].key)
  {
    if sp != [] {
      SpineXmlOk(sp[1..], manifest);
      assert forall i :: 0 <= i < |sp| - 1 ==> sp[1..][i] == sp[i + 1];
    }
  }

  /** The <reference> elements can be written exactly when every href is in the index. */
  lemma {:induction false} GuideXmlOk(guide: seq<GuideRef>, hrefs: Array<string>)
    decreases |guide|
    ensures GuideXml(guide, hrefs).Ok? <==> forall i :: 0 <= i < |guide| ==> HasKey(hrefs, Str(guide[i].href))
  {
    if guide != [] {
      GuideXmlOk(guide[1..], hrefs);
      GuideIndexedCons(guide, hrefs);
    }
  }

  /** Every href is indexed exactly when the first one is and every later one is. */
  lemma GuideIndexedCons(guide: seq<GuideRef>, hrefs: Array<string>)
    requires guide != []
    ensures (forall i :: 0 <= i < |guide| ==> HasKey(hrefs, Str(guide[i].href))) <==>
      (HasKey(hrefs, Str(guide[0].href)) &&
       forall i :: 0 <= i < |guide[1..]| ==> HasKey(hrefs, Str(guide[1..][i].href)))
  {
    forall i | 1 <= i < |guide| ensures guide[1..][i - 1] == guide[i] { }
  }

  /** asXML succeeds exactly when each of its sections does. */
  lemma SerializeSections(s: Snapshot, xmlFile: string, esc: string -> string, isFile: string -> bool)
    ensures Serialize(s, xmlFile, esc, isFile).Ok? <==>
      && ManifestSection(s.manifest, isFile).Ok? && SpineSection(s.spine, s.manifest).Ok?
      && GuideSection(s.guide, HrefIndex(s.manifest, [])).Ok? && NcxTarget(s, xmlFile).Ok?
    ensures Serialize(s, xmlFile, esc, isFile).Ok? ==>
      Serialize(s, xmlFile, esc, isFile).value.ncxFile == NcxTarget(s, xmlFile).value
  {
  }

  /** The guide can be written exactly when each of its hrefs is the href of a manifest item. */
  lemma GuideSectionOk(s: Snapshot)
    ensures GuideSection(s.guide, HrefIndex(s.manifest, [])).Ok? <==>
      forall i :: 0 <= i < |s.guide| ==> HrefListed(s.manifest, Str(s.guide[i].href))
  {
    var hrefs := HrefIndex(s.manifest, []);
    GuideXmlOk(s.guide, hrefs);
    forall i | 0 <= i < |s.guide|
      ensures HasKey(hrefs, Str(s.guide[i].href)) <==> HrefListed(s.manifest, Str(s.guide[i].href))
    {
      HrefIndexKeys(s.manifest, [], Str(s.guide[i].href));
    }
  }

  /**
   * asXML succeeds exactly when the manifest is non-empty and every item has
   * id, href, media-type and an existing file; the spine is non-empty and
   * every spine key is a manifest key; every guide href is the href of some
   * item; and, when an NCX is owned, the manifest has a non-empty href under
   * 'ncx'. The NCX is then written next to the package under that href.
   */
  lemma SerializeOk(s: Snapshot, xmlFile: string, esc: string -> string, isFile: string -> bool)
    ensures Serialize(s, xmlFile, esc, isFile).Ok? <==>
      && s.manifest != [] && (forall i :: 0 <= i < |s.manifest| ==> Writable(s.manifest[i].val, isFile))
      && s.spine != [] && (forall i :: 0 <= i < |s.spine| ==> HasKey(s.manifest, s.spine[i].key))
      && (forall i :: 0 <= i < |s.guide| ==> HrefListed(s.manifest, Str(s.guide[i].href)))
      && (s.ncx.Some? ==> HasKey(s.manifest, "ncx") && !Empty(Str(Get(s.manifest, "ncx").value.href)))
    ensures Serialize(s, xmlFile, esc, isFile).Ok? ==>
      Serialize(s, xmlFile, esc, isFile).value.ncxFile ==
        if s.ncx.None? then None else Some(Dirname(xmlFile) + "/" + Str(Get(s.manifest, "ncx").value.href))
  {
    SerializeSections(s, xmlFile, esc, isFile);
    ManifestXmlOk(s.manifest, isFile);
    assert ManifestSection(s.manifest, isFile).Ok? <==> s.manifest != [] && ManifestXml(s.manifest, isFile).Ok?;
    SpineXmlOk(s.spine, s.manifest);
    assert SpineSection(s.spine, s.manifest).Ok? <==> s.spine != [] && SpineXml(s.spine, s.manifest).Ok?;
    GuideSectionOk(s);
    NcxTargetOk(s, xmlFile);
  }

  /** The NCX target is known unless an owned NCX has no non-empty href under 'ncx'. */
  lemma NcxTargetOk(s: Snapshot, xmlFile: string)
    ensures NcxTarget(s, xmlFile).Ok? <==>
      (s.ncx.Some? ==> HasKey(s.manifest, "ncx") && !Empty(Str(Get(s.manifest, "ncx").value.href)))
    ensures NcxTarget(s, xmlFile).Ok? ==>
      NcxTarget(s, xmlFile).value ==
        (if s.ncx.None? then None else Some(Dirname(xmlFile) + "/" + Str(Get(s.manifest, "ncx").value.href)))
  {
  }

  /** asXML fails on an empty manifest, and on an empty spine once the manifest was written. */
  lemma SerializeEmpty(s: Snapshot, xmlFile: string, esc: string -> string, isFile: string -> bool)
    ensures s.manifest == [] ==> Serialize(s, xmlFile, esc, isFile) == Err(EmptyManifest)
    ensures s.manifest != [] && ManifestXml(s.manifest, isFile).Ok? && s.spine == [] ==>
      Serialize(s, xmlFile, esc, isFile) == Err(EmptySpine)
  {
  }

  /** For a consistent package that owns an NCX, the final NCX check fails only on an empty href. */
  lemma NcxTargetConsistent(s: Snapshot, xmlFile: string)
    requires Consistent(s) && s.ncx.Some?
    ensures Get(s.manifest, "ncx").Some?
    ensures NcxTarget(s, xmlFile).Err? <==> Empty(Str(Get(s.manifest, "ncx").value.href))
  {
  }

  /** A fallback that names no field of the item's own array is never written. */
  lemma FallbackDropped(key: string, item: ManifestItem)
    requires item.fallback.Some?
    requires item.fallback.value !in ["id", "href", "media-type", "file", "fallback", "fallback-style",
                                      "required-namespace", "required-modules"]
    ensures GetAttr(ItemAttrs(key, item), "fallback") == None
  {
    ItemAttrsLookup(key, item, "fallback");
  }

  /** required-modules is written only alongside required-namespace. */
  lemma RequiredModulesWithNamespace(key: string, item: ManifestItem)
    ensures GetAttr(ItemAttrs(key, item), "required-modules").Some? ==>
      GetAttr(ItemAttrs(key, item), "required-namespace").Some? &&
      GetAttr(ItemAttrs(key, item), "required-modules") == item.requiredModules
  {
    ItemAttrsLookup(key, item, "required-modules");
    ItemAttrsLookup(key, item, "required-namespace");
  }

  // ---------------------------------------------------------------------------
  // Writing, then reading back

  /** The attribute lists of the <item>, <itemref> and <reference> elements asXML writes. */
  function ItemElements(m: Array<ManifestItem>): (r: seq<seq<Attr>>)
    ensures |r| == |m| && forall i :: 0 <= i < |m| ==> r[i] == ItemAttrs(m[i].key, m[i].val)
  {
    seq(|m|, i requires 0 <= i < |m| => ItemAttrs(m[i].key, m[i].val))
  }

  function ItemrefElements(sp: Array<SpineItem>): (r: seq<seq<Attr>>)
    ensures |r| == |sp| && forall i :: 0 <= i < |sp| ==> r[i] == ItemrefAttrs(sp[i])
  {
    seq(|sp|, i requires 0 <= i < |sp| => ItemrefAttrs(sp[i]))
  }

  lemma ItemElementsTail(m: Array<ManifestItem>)
    requires m != []
    ensures ItemElements(m)[0] == ItemAttrs(m[0].key, m[0].val)
    ensures ItemElements(m)[1..] == ItemElements(m[1..])
  {
    var a, b := ItemElements(m)[1..], ItemElements(m[1..]);
    forall i | 0 <= i < |a|
      ensures a[i] == b[i]
    {
      assert m[1..][i] == m[i + 1];
    }
  }

  lemma ItemrefElementsTail(sp: Array<SpineItem>)
    requires sp != []
    ensures ItemrefElements(sp)[0] == ItemrefAttrs(sp[0])
    ensures ItemrefElements(sp)[1..] == ItemrefElements(sp[1..])
  {
    var a, b := ItemrefElements(sp)[1..], ItemrefElements(sp[1..]);
    forall i | 0 <= i < |a|
      ensures a[i] == b[i]
    {
      assert sp[1..][i] == sp[i + 1];
    }
  }

  function ReferenceElements(guide: seq<GuideRef>): (r: seq<seq<Attr>>)
    ensures |r| == |guide| && forall i :: 0 <= i < |guide| ==> r[i] == ReferenceAttrs(guide[i])
  {
    seq(|guide|, i requires 0 <= i < |guide| => ReferenceAttrs(guide[i]))
  }

  /** What reading keeps of a manifest entry: key, href and media type, with the file found in `dir`. */
  function Reloaded(e: Entry<ManifestItem>, dir: string): Entry<ManifestItem>
  {
    Entry(e.key, ManifestItem(Some(e.key), e.val.href, e.val.mediaType, Some(dir + "/" + Str(e.val.href)),
                              None, None, None, None))
  }

  function ReloadedAll(m: Array<ManifestItem>, dir: string): Array<ManifestItem>
  {
    if m == [] then [] else [Reloaded(m[0], dir)] + ReloadedAll(m[1..], dir)
  }

  /** What reading one written <item> element records. */
  lemma ItemElementRead(e: Entry<ManifestItem>, dir: string)
    requires e.val.href.Some? && e.val.mediaType.Some?
    ensures GetAttr(ItemAttrs(e.key, e.val), "id") == Some(e.key)
    ensures ItemFile(ItemAttrs(e.key, e.val), dir) == dir + "/" + e.val.href.value
    ensures ItemRecord(ItemAttrs(e.key, e.val), dir) == Reloaded(e, dir).val
  {
    var attrs := ItemAttrs(e.key, e.val);
    assert GetAttr(attrs, "id") == Some(e.key) by {
      ItemAttrsLookup(e.key, e.val, "id");
    }
    assert GetAttr(attrs, "href") == e.val.href by {
      ItemAttrsLookup(e.key, e.val, "href");
      assert |"href"| != |"id"|;
    }
    assert GetAttr(attrs, "media-type") == e.val.mediaType by {
      ItemAttrsLookup(e.key, e.val, "media-type");
      assert |"media-type"| == 10;
      assert |"id"| == 2 && |"href"| == 4 && |"fallback"| == 8 && |"fallback-style"| == 14;
      assert |"required-namespace"| == 18 && |"required-modules"| == 16;
    }
  }

  /** Reading the first written <item> appends its reloaded entry and leaves the rest to read. */
  lemma ManifestRoundTripHead(m: Array<ManifestItem>, dir: string, isFile: string -> bool, s: Snapshot)
    requires m != [] && UniqueKeys(m)
    requires m[0].val.href.Some? && m[0].val.mediaType.Some? && isFile(dir + "/" + m[0].val.href.value)
    requires forall i :: 0 <= i < |m| ==> m[i].key !in Keys(s.manifest)
    ensures var s' := ManifestStep(ItemAttrs(m[0].key, m[0].val), dir, s);
      && s'.manifest == s.manifest + [Reloaded(m[0], dir)]
      && ManifestRead(ItemElements(m), dir, isFile, s) == ManifestRead(ItemElements(m[1..]), dir, isFile, s')
      && forall i :: 0 <= i < |m[1..]| ==> m[1..][i].key !in Keys(s'.manifest)
  {
    var e := m[0];
    var attrs := ItemAttrs(e.key, e.val);
    ItemElementRead(e, dir);
    UniqueTail(m);
    PutAbsent(s.manifest, e.key, Reloaded(e, dir).val);
    var s' := ManifestStep(attrs, dir, s);
    var items := ItemElements(m);
    ItemElementsTail(m);
    assert ManifestRead(items, dir, isFile, s) == ManifestRead(items[1..], dir, isFile, s');
    forall i | 0 <= i < |m[1..]|
      ensures m[1..][i].key !in Keys(s'.manifest)
    {
      assert m[1..][i].key in Keys(m[1..]);
    }
  }

  /**
   * Reading the <item> elements asXML writes gives back every entry, in
   * order and under its key, with its href and media type; the optional
   * attributes are not read.
   */
  lemma {:induction false} ManifestRoundTrip(m: Array<ManifestItem>, dir: string, isFile: string -> bool, s: Snapshot)
    requires UniqueKeys(m)
    requires forall i :: 0 <= i < |m| ==>
      m[i].val.href.Some? && m[i].val.mediaType.Some? && isFile(dir + "/" + m[i].val.href.value)
    requires forall i :: 0 <= i < |m| ==> m[i].key !in Keys(s.manifest)
    decreases |m|
    ensures ManifestRead(ItemElements(m), dir, isFile, s).Ok?
    ensures ManifestRead(ItemElements(m), dir, isFile, s).value.manifest == s.manifest + ReloadedAll(m, dir)
  {
    if m == [] {
      assert ItemElements(m) == [];
      assert s.manifest + [] == s.manifest;
    } else {
      ManifestRoundTripHead(m, dir, isFile, s);
      var s' := ManifestStep(ItemAttrs(m[0].key, m[0].val), dir, s);
      UniqueTail(m);
      ManifestRoundTrip(m[1..], dir, isFile, s');
      var rest := ReloadedAll(m[1..], dir);
      assert ReloadedAll(m, dir) == [Reloaded(m[0], dir)] + rest;
      Assoc(s.manifest, [Reloaded(m[0], dir)], rest);
    }
  }

  /** Spine entries reading accepts from state `s`: non-empty manifest keys, new to the spine, carrying the manifest href. */
  predicate Resolvable(sp: Array<SpineItem>, s: Snapshot)
  {
    forall i :: 0 <= i < |sp| ==>
      && !Empty(sp[i].key) && HasKey(s.manifest, sp[i].key) && sp[i].key !in Keys(s.spine)
      && sp[i].val.href == Get(s.manifest, sp[i].key).value.href
  }

  /** Reading the first written <itemref> appends its entry and leaves the rest to read. */
  lemma SpineRoundTripHead(sp: Array<SpineItem>, s: Snapshot)
    requires sp != [] && UniqueKeys(sp) && Resolvable(sp, s)
    ensures SpineRead(ItemrefElements(sp), s) == SpineRead(ItemrefElements(sp[1..]), s.(spine := s.spine + [sp[0]]))
    ensures Resolvable(sp[1..], s.(spine := s.spine + [sp[0]]))
  {
    var e := sp[0];
    var attrs := ItemrefAttrs(e);
    UniqueTail(sp);
    PutAbsent(s.spine, e.key, e.val);
    var s' := SpineStep(attrs, s);
    assert s' == s.(spine := s.spine + [e]);
    var items := ItemrefElements(sp);
    ItemrefElementsTail(sp);
    assert GetAttr(attrs, "idref") == Some(e.key);
    assert SpineRead(items, s) == SpineRead(items[1..], s');
    var tail := sp[1..];
    forall i | 0 <= i < |tail|
      ensures && !Empty(tail[i].key) && HasKey(s'.manifest, tail[i].key) && tail[i].key !in Keys(s'.spine)
              && tail[i].val.href == Get(s'.manifest, tail[i].key).value.href
    {
      assert tail[i] == sp[i + 1];
      assert tail[i].key in Keys(tail);
    }
  }

  /**
   * Reading the <itemref> elements asXML writes gives back the spine exactly,
   * when its keys are non-empty manifest keys whose hrefs it carries.
   */
  lemma {:induction false} SpineRoundTrip(sp: Array<SpineItem>, s: Snapshot)
    requires UniqueKeys(sp) && Resolvable(sp, s)
    decreases |sp|
    ensures SpineRead(ItemrefElements(sp), s) == Ok(s.(spine := s.spine + sp))
  {
    if sp == [] {
      assert ItemrefElements(sp) == [];
      assert s.spine + sp == s.spine;
    } else {
      SpineRoundTripHead(sp, s);
      var s' := s.(spine := s.spine + [sp[0]]);
      UniqueTail(sp);
      SpineRoundTrip(sp[1..], s');
      Assoc(s.spine, [sp[0]], sp[1..]);
      assert [sp[0]] + sp[1..] == sp;
    }
  }

  /** Reading the <reference> elements asXML writes gives back a guide whose fields are all set. */
  lemma GuideRoundTrip(guide: seq<GuideRef>)
    requires forall i :: 0 <= i < |guide| ==>
      guide[i].href.Some? && guide[i].kind.Some? && guide[i].title.Some?
    ensures GuideRead(ReferenceElements(guide)) == guide
  {
  }
}
