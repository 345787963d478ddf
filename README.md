# EPUB package model

A Dafny model of the document classes of a PHP 5.3 library that opens, edits and writes
EPUB 2 books:

- `OPF` is the Open Packaging Format 2.0.1 package document. Its state is a metadata table,
  a manifest keyed by item id, a spine keyed by idref in reading order, a guide, and the
  NCX it loaded. `readXML` builds that state. `asXML` checks it and writes it.
- `NCX` is the navigation document of ANSI/NISO Z39.86-2005, section 8. Its state is a
  head meta table, a title and an author, a navMap of nested navPoints (each holding at
  most one nested navPoint, so a chain), a pageList and a navList.
- `OCF` is the `META-INF/container.xml` rootfiles list of OCF 2.0.1, section 3.5.1. Each
  package rootfile holds an `OPF` object.
- `Epub` is the facade: `getChapters`, which joins the navigation with the manifest, and
  the metadata setters and getters.

How PHP is modelled:

- A PHP exception is the `Err`/`Fail` case of a `Result`/`Outcome`.
- A PHP array with string keys is an association list in insertion order (`Php.Array`).
  `$a[$k] = $v` is `Php.Put`: it replaces in place or appends.
- A nullable string is an `Option<string>`. Where the PHP code concatenates one, the model
  uses `Php.Str`, which gives `""` for null.
- The parsed XML a `readXML` walks is a datatype of elements and their attributes.
  `XML::getAttr` is `Xml.GetAttr`.

Each class is a Dafny `class` whose `ReadXml` and `AsXml` methods run the source's loops.
Each method is proved against a specification function: `PackageRead`/`Serialize` in
`opf.dfy`, `NcxRead`/`Serialize` in `ncx.dfy`, `RootFilesRead`/`Serialize` in `ocf.dfy`,
and `Chapters` in `epub.dfy`. The `*_props.dfy` files prove what those functions promise:
exactly when each writer fails and the order of what it writes. Reading back what is
written is proved to give back the manifest's ids, hrefs and media-types, the spine, the
guide, single navPoint chains and the OCF rootfiles.

Several behaviours of the code are kept exactly as written:

- Only the last `<meta>` of the OPF metadata survives, because a second one resets the
  table.
- An OPF item's `fallback` is written only when the item has a field named by the
  fallback's value.
- An NCX pageTarget's `type` attribute is written from its `id`.
- docAuthor's `<img>` prints docTitle's image, and a set image prints as the word `Array`.
- Every navList entry is checked and written through the last pageTarget of the pageList.
- The label elements of pageTargets and navTargets open as `<navLavel>`, and a chapter's
  label field is named `navLavel`.

Files: `php.dfy` (PHP arrays, strings and errors), `xml.dfy` (attributes, tags, `dirname`,
`trim`), `opf.dfy` + `opf_props.dfy`, `ncx.dfy` + `ncx_props.dfy`, `ocf.dfy` +
`ocf_props.dfy`, `epub.dfy` + `epub_props.dfy`.

## Model

| member | source | states |
|---|---|---|
| Xml.GetAttr | XML.php:69-76 | the value of the first attribute with that name; none exactly when no attribute has it |
| Php.DistinctSpec | Epub.php:427 | `array_keys(array_flip(...))` keeps each element once, loses none, in first-occurrence order |
| Opf.DefaultMetadata | OPF.php:110-128 | a new package's metadata is exactly dc:title 'Untitled', dc:creator 'Unknown' (opf:file-as 'Unknown', opf:role 'aut') and dc:identifier = the uid with id 'EpubId', in that order |
| Opf.DefaultMetadataConsistent | OPF.php:110-128 | the default metadata keeps the metadata invariant: distinct keys, none of them 'meta', distinct attribute names |
| Opf.Package.Create | OPF.php:101-130 | a package built without a file has uid 'Epub-' + the unique id, version '2.0', the default metadata, and empty manifest, spine and guide |
| Opf.Package.FromFile | OPF.php:101-106 | the package readXML fills starts blank |
| Opf.Package.ReadXml | OPF.php:139-215 | succeeds exactly when the package reads; the new state is the one read from the old; a failure carries the read's error |
| Opf.Package.ReadMetadata | OPF.php:145-172 | the metadata becomes what the children loop makes of it, and nothing else changes |
| Opf.ReadAttrTable | OPF.php:163-168 | the attributes loop builds the prefixed-name attribute table |
| Opf.Package.ReadManifest | OPF.php:174-191 | succeeds exactly when every item's file exists; the new state is the manifest read |
| Opf.Package.ReadSpine | OPF.php:193-205 | succeeds exactly when every itemref resolves; the new state is the spine read |
| Opf.Package.ReadGuide | OPF.php:206-214 | the guide gains one reference per element, in order, and nothing else changes |
| Opf.GuideRead | OPF.php:207-213 | one guide entry per reference element, in document order, with its href, type and title |
| Opf.MetaEntry | OPF.php:148-169 | the record of one metadata child: none exactly for x-metadata; a table exactly for `meta`, holding one entry, because the table is reset first and only the last `<meta>` survives; otherwise the child's text, with no attributes unless the child is prefixed |
| Opf.MetadataRead | OPF.php:145-172 | the metadata loop: every name already in the table stays in it (each child's record is assigned under its prefixed name in document order; `OpfProps.MetadataReadOther` and `MetadataReadConcat` state the rest) |
| Opf.ManifestRead | OPF.php:174-191 | the item loop; it carries no contract of its own, and `OpfProps.ManifestReadOk`, `ManifestReadKeys`, `ManifestReadLast` and `ManifestReadNoNcx` state what it does |
| Opf.SpineRead | OPF.php:193-205 | the itemref loop; it carries no contract of its own, and `OpfProps.SpineReadOk`, `SpineReadKeys` and `SpineReadResolved` state what it does |
| Opf.PackageRead | OPF.php:139-215 | readXML in order (uid and version, metadata, manifest, spine, guide; the first failure propagates); it carries no contract of its own, and `OpfProps.OpenPackage` and `OpenPackageOk` state what it does |
| OpfProps.MetadataReadOther | OPF.php:146-171 | a metadata name no child carries keeps its old record |
| OpfProps.MetadataReadMeta | OPF.php:149-153 | the meta table holds only the last `<meta>` element's name and content |
| OpfProps.MetadataReadConcat | OPF.php:146-171 | reading two runs of children one after the other is reading the first, then the second from the table the first left |
| OpfProps.AttrTableUnique | OPF.php:163-167 | the attribute table never repeats a name |
| OpfProps.MetadataReadConsistent | OPF.php:145-172 | reading keeps metadata keys unique, 'meta' as the only table entry, and every table free of repeated names |
| OpfProps.ManifestReadOk | OPF.php:174-181 | the manifest reads exactly when every item's file, the package directory + '/' + href, exists |
| OpfProps.ManifestReadKeys | OPF.php:182-187 | the manifest is keyed by id, new ids appended in document order; spine, guide and metadata are untouched |
| OpfProps.ManifestReadOther | OPF.php:182-187 | an id no item carries keeps its old entry |
| OpfProps.ManifestReadLast | OPF.php:182-187 | an id's entry is its last item's id, href, media-type and file |
| OpfProps.ManifestReadNoNcx | OPF.php:188-190 | only an item with id 'ncx' loads the NCX |
| OpfProps.ManifestReadConsistent | OPF.php:174-191 | every manifest entry's id field equals its key, and the NCX is the 'ncx' item's file |
| OpfProps.SpineReadOk | OPF.php:193-205 | the spine reads exactly when every idref is non-empty and a manifest id |
| OpfProps.SpineReadKeys | OPF.php:196-199 | spine keys follow itemref order, repeated idrefs once; nothing else changes |
| OpfProps.SpineReadResolved | OPF.php:196-199 | every spine entry's href is its manifest item's href |
| OpfProps.PackageReadConsistent | OPF.php:139-215 | reading a package keeps the state consistent |
| OpfProps.OpenPackage | OPF.php:139-215 | a package read from scratch has the document's uid and version, manifest keys = distinct item ids, spine keys = distinct idrefs (all resolved), and the guide in order |
| OpfProps.OpenPackageOk | OPF.php:174-205 | a package reads exactly when every item file exists and every idref names an item |
| Opf.NcxTarget | OPF.php:336-342 | where the owned NCX is written: nowhere without an NCX; the only error is 'Cannot determine filename', and only with an NCX; a target exists only when item 'ncx' exists with a non-empty href |
| Opf.Serialize | OPF.php:224-343 | asXML succeeds exactly when the manifest, spine and guide sections write and the NCX target is known, and the NCX target it returns is that target; the NCX's own asXML is not composed in |
| Opf.Package.AsXml | OPF.php:224-343 | the result is the serialisation of the current state |
| Opf.WriteMetaTable | OPF.php:239-242 | the `<meta name content />` loop writes the meta table |
| Opf.WriteAttrs | OPF.php:245-249 | the attribute loop writes each attribute with its value escaped |
| Opf.WriteMetadata | OPF.php:236-253 | the metadata loop writes every record in order |
| Opf.ElementXml | OPF.php:244-250 | an empty value gives a self-closing tag; otherwise open tag, escaped value, close tag |
| Opf.WriteManifest | OPF.php:255-297 | the manifest loop's result equals `ManifestXml`, and on success its href index equals `HrefIndex` |
| Opf.ItemTagAttrs | OPF.php:273-286 | the attribute chain of an `<item>` tag equals `ItemAttrs` |
| Opf.ItemAttrs | OPF.php:273-286 | an `<item>` starts with id and href and ends with media-type |
| Opf.ItemAttrsLookup | OPF.php:273-286 | each optional attribute is written exactly under the source's condition |
| Opf.ItemXml | OPF.php:262-271 | an item writes exactly when it has id, href and media-type and its file exists |
| Opf.SpineAttrs | OPF.php:303-307 | `toc="ncx"` is written exactly when the manifest has key 'ncx' |
| Opf.ItemrefAttrs | OPF.php:312-316 | an `<itemref>` carries its idref, and `linear` only when set |
| Opf.WriteSpine | OPF.php:308-318 | the itemref loop's result equals `SpineXml` |
| Opf.ReferenceAttrs | OPF.php:328-330 | a `<reference>` carries the entry's type, title and href |
| Opf.WriteGuide | OPF.php:323-332 | the reference loop's result equals `GuideXml` |
| Opf.GuideSection | OPF.php:321-333 | an empty guide writes no `<guide>` element |
| Opf.ManifestSection | OPF.php:256-258 | an empty manifest fails |
| Opf.SpineSection | OPF.php:300-302 | an empty spine fails |
| OpfProps.HrefIndexKeys | OPF.php:259-272 | the href index holds exactly the manifest's hrefs |
| OpfProps.ManifestXmlOk | OPF.php:261-271 | the manifest writes exactly when every item is writable |
| OpfProps.SpineXmlOk | OPF.php:308-311 | the spine writes exactly when every spine key is a manifest key |
| OpfProps.GuideXmlOk | OPF.php:323-327 | the guide writes exactly when every reference's href is in the href index |
| OpfProps.SerializeSections | OPF.php:224-343 | asXML succeeds exactly when each section does, and the NCX is written where the 'ncx' href says |
| OpfProps.GuideSectionOk | OPF.php:320-333 | the guide section succeeds exactly when every reference href is some manifest item's href |
| OpfProps.SerializeOk | OPF.php:255-343 | apart from the owned NCX's own asXML checks, asXML succeeds exactly when the manifest is non-empty and writable, the spine is non-empty and resolves, every guide href is listed, and a loaded NCX has a non-empty 'ncx' href |
| OpfProps.SerializeEmpty | OPF.php:256-302 | an empty manifest fails first; a good manifest with an empty spine fails with the spine error |
| OpfProps.NcxTargetConsistent | OPF.php:337-343 | in a read package with an NCX, writing it fails only when the 'ncx' href is empty |
| OpfProps.FallbackDropped | OPF.php:274-276 | a fallback naming no field of the item is not written |
| OpfProps.RequiredModulesWithNamespace | OPF.php:280-285 | required-modules is written only with required-namespace |
| OpfProps.ItemElementRead | OPF.php:175-187 | reading a written `<item>` gives back its id, href, media-type and file |
| OpfProps.ManifestRoundTrip | OPF.php:174-191 | reading the written `<item>` elements gives back each entry's key, href and media-type in order, with file = dir/href; the optional attributes (fallback, fallback-style, required-namespace, required-modules) are not read back and come back unset |
| OpfProps.SpineRoundTrip | OPF.php:193-205 | reading the written `<itemref>` elements gives the spine back, in order |
| OpfProps.GuideRoundTrip | OPF.php:206-213 | reading the written `<reference>` elements gives the guide back |
| Ncx.ParseNavPoint | NCX.php:289-302 | the parsed chain is as deep as the element's first-child nesting, and always has a label |
| Ncx.NavPointAttrs | NCX.php:313-316 | playOrder then id; class only when set and non-empty |
| Ncx.NavPoint2Xml | NCX.php:311-331 | a missing navLabel or content fails with that name; otherwise the opening parts of every navPoint of the chain, then one `</navPoint>` per level |
| NcxProps.NavPoint2XmlOk | NCX.php:318-327 | a navPoint writes exactly when every navPoint of its chain has label and content |
| NcxProps.ParseFirstChain | NCX.php:298-300 | parsing follows only the first nested navPoint of each level |
| NcxProps.ParseWritten | NCX.php:289-331 | parsing the element written for a well-formed chain gives the chain back |
| NcxProps.WellFormedComplete | NCX.php:318-324 | a chain with every key set and a trimmed label (what write-then-read returns) passes navPoint2Xml's checks |
| NcxProps.ParseComplete | NCX.php:289-324 | a parsed chain passes navPoint2Xml's checks exactly when every level's `<content>` has a `src`; a level without one parses to a navPoint without content, which writing rejects |
| Ncx.NcxRead | NCX.php:116-168 | readXML takes the title text read, and extends navMap, pageList and navList by one entry per element read, keeping the old entries in front |
| Ncx.Document.constructor | NCX.php:55-107 | a new document has title 'Untitled' without image and empty meta, author, navMap, pageList and navList |
| Ncx.Document.ReadXml | NCX.php:116-168 | the new state is what the file reads to from the old one |
| Ncx.Document.ReadMeta | NCX.php:120-124 | the meta table gains each `<meta>` name and content, and nothing else changes |
| Ncx.Document.ReadNavMap | NCX.php:138-140 | the navMap gains each parsed navPoint, in order |
| Ncx.Document.ReadPageList | NCX.php:142-154 | the pageList gains each pageTarget read, in order |
| Ncx.Document.ReadNavList | NCX.php:156-167 | the navList gains each navTarget read, in order |
| Ncx.NavMapReadAt | NCX.php:138-140 | the `i`-th navPoint read is the one parsed from the `i`-th <navPoint> element, so the list keeps document order |
| Ncx.PageListReadAt | NCX.php:143-153 | the `i`-th pageList entry is the one read from the `i`-th <pageTarget> element |
| Ncx.NavListReadAt | NCX.php:157-166 | the `i`-th navList entry is the one read from the `i`-th <navTarget> element |
| NcxProps.MetaReadKeys | NCX.php:120-124 | meta keys are the names in first-occurrence order |
| NcxProps.MetaReadOther | NCX.php:120-124 | a name no `<meta>` carries keeps its old content |
| NcxProps.MetaReadLast | NCX.php:120-124 | a name holds its last `<meta>` element's content |
| NcxProps.ReadInitial | NCX.php:116-168 | a document read from scratch has the file's meta names, title, navPoints, pageTargets and navTargets, and an author exactly when the file has one |
| Ncx.HeadXml | NCX.php:187-193 | `<head>` is written exactly when meta is non-empty |
| Ncx.WriteMeta | NCX.php:187-193 | the meta loop writes the head |
| Ncx.ImgText | NCX.php:195-196 | docTitle's image as concatenated is empty exactly when no image is set; a set image prints as `Array`, not as its src |
| Ncx.TitleXml | NCX.php:194-198 | `<docTitle>` holds the text, and an `<img>` only when an image is set; that img's src is the literal `Array` |
| Ncx.AuthorXml | NCX.php:201-207 | `<docAuthor>` is written exactly when there is an author with non-empty text |
| NcxProps.AuthorImgFromTitle | NCX.php:203-205 | the author's own image never affects what is written |
| Ncx.WriteNavMap | NCX.php:209-213 | the navPoint loop's result equals `NavMapXml` |
| NcxProps.NavMapXmlOk | NCX.php:209-213 | the navMap writes exactly when every navPoint does |
| NcxProps.NavMapXmlConcat | NCX.php:209-213 | navPoints are written in list order, one after another |
| Ncx.PageTargetAttrs | NCX.php:230-240 | `type` carries the id, then playOrder |
| NcxProps.PageTargetAttrsLookup | NCX.php:230-240 | type = the id, playOrder, and value and class only when set |
| Ncx.PageTargetXml | NCX.php:218-243 | a pageTarget writes exactly when type, playOrder, navLabel and content are all set |
| NcxProps.PageTargetXmlError | NCX.php:218-229 | the first missing one of type, playOrder, navLabel, content is the error |
| Ncx.WritePageTarget | NCX.php:230-243 | the body writes a complete pageTarget |
| Ncx.WritePageTargets | NCX.php:217-244 | the pageTarget loop's result equals `PageTargetsXml` |
| NcxProps.PageTargetsXmlOk | NCX.php:217-229 | the pageList writes exactly when every pageTarget is complete |
| Ncx.PageListXml | NCX.php:215-246 | an empty pageList writes nothing |
| Ncx.NavListXml | NCX.php:248-276 | an empty navList writes nothing |
| Ncx.LastPage | NCX.php:217-262 | the `$pageTarget` that every navTarget reads after the pageList loop: there is one exactly when the pageList is non-empty, and it is one of its pageTargets |
| Ncx.NavTargetXml | NCX.php:252-273 | a navTarget writes exactly when its own id is set and the last pageTarget exists with playOrder, navLabel and content; no other field of the navTarget is consulted |
| Ncx.WriteNavTargets | NCX.php:250-274 | the navTarget loop's result equals `NavTargetsXml`, checked against the last pageTarget |
| NcxProps.NavTargetsXmlOk | NCX.php:250-262 | a navList writes exactly when every entry has an id and the last pageTarget has playOrder, navLabel and content |
| NcxProps.NavTargetsIgnoreEntries | NCX.php:263-273 | what is written for the navList does not depend on its entries beyond their ids being set |
| NcxProps.NavListNeedsPageList | NCX.php:254-262 | a non-empty navList cannot be written without a pageList |
| NcxProps.SerializeOk | NCX.php:177-280 | asXML succeeds exactly when every navPoint and pageTarget is complete, and a non-empty navList has a pageList and ids |
| Ncx.Serialize | NCX.php:177-280 | asXML succeeds exactly when navMap, pageList and navList all write, the navList being checked against the last pageTarget |
| Ncx.Document.AsXml | NCX.php:177-280 | the result is the serialisation of the current state |
| Ocf.Container.constructor | OCF.php:65-81 | a new container has no rootfiles |
| Ocf.RootFilesRead | OCF.php:93-107 | readXML's rootfile loop: one rootfile per element, in document order, or the first failure (a missing file or an OPF that does not read); `Ocf.RootFilesReadAt` gives each one |
| Ocf.Container.ReadXml | OCF.php:90-108 | succeeds exactly when the rootfiles read; the rootfiles read are appended in order, with fresh OPF objects |
| Ocf.ReadRootFile | OCF.php:94-105 | one rootfile's result agrees with `RootFileRead`, with a freshly read OPF object |
| Ocf.RootFileRead | OCF.php:94-105 | a rootfile read keeps its full-path and media-type, and has an OPF exactly when it is of the package type |
| Ocf.RootFilesReadAt | OCF.php:93-107 | the `i`-th rootfile read has the full-path and media-type of the `i`-th element, and an OPF exactly when it is a package |
| OcfProps.RootFilesReadOk | OCF.php:93-107 | reading succeeds exactly when every rootfile's file exists and every package rootfile's OPF reads |
| OcfProps.RootFileReadMissing | OCF.php:98-101 | a missing rootfile file fails with its full-path |
| Ocf.Container.AsXml | OCF.php:117-157 | the result is the serialisation of the rootfiles |
| Ocf.RootFilesXml | OCF.php:136-152 | asXML's rootfile loop, in list order with the first failure propagating; it carries no contract of its own, and `OcfProps.RootFilesXmlOk` and `RootFilesXmlLayout` state what it does |
| Ocf.WriteRootFiles | OCF.php:136-152 | the rootfile loop's result equals `RootFilesXml` of the rootfiles' current packages |
| Ocf.WriteRootFile | OCF.php:137-151 | one rootfile's result equals `RootFileXml`, including its OPF's serialisation |
| Ocf.RootFileXml | OCF.php:137-151 | a missing full-path, a missing media-type, or a package rootfile without an OPF each fail; otherwise one `<rootfile>` with both attributes |
| Ocf.Serialize | OCF.php:119-121 | an empty rootfiles list fails |
| OcfProps.RootFileXmlOk | OCF.php:137-148 | a rootfile writes exactly when it is writable |
| OcfProps.RootFilesXmlOk | OCF.php:136-152 | apart from an owned NCX's own asXML checks, the rootfile loop succeeds exactly when every rootfile is writable |
| OcfProps.SerializeOk | OCF.php:119-153 | apart from an owned NCX's own asXML checks, asXML succeeds exactly when the list is non-empty and every rootfile is writable |
| OcfProps.RootFilesXmlLayout | OCF.php:136-152 | one `<rootfile>` per entry in list order, and one package document per package rootfile in the same order |
| OcfProps.SerializeLayout | OCF.php:133-153 | the container is the header, the rootfiles in order, then the closing tags |
| OcfProps.RoundTrip | OCF.php:93-107 | reading the written rootfiles gives back their full-paths and media-types in order, with an OPF exactly for the package ones |
| Epub.StripFragment | Epub.php:402-405 | the href up to its first '#': a prefix with no '#', the whole href exactly when it has none |
| Epub.GetChapters | Epub.php:397-432 | the chapter loop returns the chapters of the flipped navId-to-src map, in order |
| Epub.MakeChapter | Epub.php:402-430 | one pass builds the chapter of an href and id |
| Epub.CollectFiles | Epub.php:420-427 | the files loop collects each dependency and its own, then de-duplicates |
| Epub.FilesOf | Epub.php:418-428 | `files` is set exactly when the file-usage map has the chapter's file |
| Epub.Flip | Epub.php:400 | `array_flip`: every key of the result is a value of the input; `EpubProps.FlipKeys` gives the key order |
| Epub.Merge | Epub.php:408-417 | `array_merge` of string-keyed arrays keeps every key of the first array |
| Epub.Expand | Epub.php:420-426 | the files loop before de-duplication lists every direct dependency |
| Epub.ChapterOf | Epub.php:402-428 | one chapter, merging the manifest item for the href without its fragment with the navPoint's five fields (the label field named `navLavel`); it has `files` exactly when the usage map has the chapter's file |
| Epub.Chapters | Epub.php:401-430 | one chapter per flipped navId-to-src entry; `EpubProps.ChaptersAt` gives each one |
| EpubProps.FlipKeys | Epub.php:400 | the flipped map has one key per distinct href, in first-occurrence order |
| EpubProps.FlipGet | Epub.php:400 | an href maps to the last nav id carrying it |
| EpubProps.FlipUnique | Epub.php:400 | the flipped map repeats no href |
| EpubProps.MergeGet | Epub.php:408-417 | a merged field comes from the navPoint fields when named there, from the manifest item otherwise |
| EpubProps.MergeKeys | Epub.php:408-417 | merged keys are the item's, then the new navPoint keys in order |
| EpubProps.ChapterKeys | Epub.php:406-417 | a chapter's keys are the manifest item's, then navId, navLavel, navParent, playOrder, content |
| EpubProps.ChapterNavFields | Epub.php:407-417 | navId, navLavel, navParent, playOrder and content are the navPoint's id, navLabel, parent, playOrder and content |
| EpubProps.ChapterItemField | Epub.php:402-408 | every other field is the manifest item's for the href without its fragment |
| EpubProps.ExpandMembers | Epub.php:420-426 | the collected files are the direct dependencies and their dependencies, one level deep |
| EpubProps.FilesSpec | Epub.php:418-427 | `files` has no repetition, holds exactly the one-level dependencies, in first-occurrence order |
| EpubProps.ChaptersAt | Epub.php:401-430 | the i-th chapter is built from the i-th flipped entry |
| EpubProps.ChapterList | Epub.php:397-432 | one chapter per distinct nav href in first-occurrence order, each joined with the last nav id for that href |
| Epub.CreatorAttrs | Epub.php:156-162 | setCreator's attributes are exactly opf:role = 'aut' and then opf:file-as = fileAs, or the creator when fileAs is null |
| Epub.Lookup | Epub.php:140-143 | a getter gives the stored value when the record exists and null otherwise |
| Epub.Epub.GetMetadata | Epub.php:360-366 | the stored value of the named record, null when there is none |
| Epub.Epub.SetMetadata | Epub.php:350-353 | stores the record without attributes; getMetadata then returns the value |
| Epub.Epub.SetTitle | Epub.php:126-129 | stores 'title' without attributes; getTitle then returns it |
| Epub.Epub.GetTitle | Epub.php:138-144 | the stored title, null when there is none |
| Epub.Epub.SetCreator | Epub.php:154-163 | stores 'creator' with opf:role 'aut' and opf:file-as = fileAs, or the creator when none is given; getCreator then returns it |
| Epub.Epub.GetCreator | Epub.php:170-176 | the stored creator, null when there is none |
| Epub.Epub.SetLanguage | Epub.php:185-193 | stores 'language' with xsi:type 'dcterms:RFC3066'; getLanguage then returns it |
| Epub.Epub.GetLanguage | Epub.php:200-206 | the stored language, null when there is none |
| Epub.Epub.SetIdentifier | Epub.php:215-223 | stores 'identifier' with id 'BookId'; getIdentifier then returns it |
| Epub.Epub.GetIdentifier | Epub.php:230-236 | the stored identifier, null when there is none |
| Epub.Epub.SetPublisher | Epub.php:245-248 | stores 'publisher' without attributes; getPublisher then returns it |
| Epub.Epub.GetPublisher | Epub.php:255-261 | the stored publisher, null when there is none |
| Epub.Epub.SetDate | Epub.php:270-278 | stores 'date' with xsi:type 'dcterms:W3CDTF'; getDate then returns it |
| Epub.Epub.GetDate | Epub.php:285-291 | the stored date, null when there is none |
| Epub.Epub.SetRights | Epub.php:300-303 | stores 'rights' without attributes; getRights then returns it |
| Epub.Epub.GetRights | Epub.php:310-316 | the stored rights, null when there is none |
| Epub.Epub.SetDescription | Epub.php:325-328 | stores 'description' without attributes; getDescription then returns it |
| Epub.Epub.GetDescription | Epub.php:335-341 | the stored description, null when there is none |
| Epub.SetThenGet | PHPUnitTests/ApiTest.php:167-297 | over the store the model assumes for `setMetadata`/`getMetadata` (a name-to-record array written with `Put`), after setting a record its getter returns the value set and every other getter is unchanged; this is a property of that assumed store |

## Left out

- Parsing XML: `XML::loadFile`/`loadString` and libxml errors are not modelled. Each `readXML` takes the parsed element tree as input.
- The final `XML::loadString($xmlStr)->asXML($file)` that re-parses and writes every document is not modelled. The model returns the text written, and (OPF and OCF) where the nested documents go.
- File-system effects are left out: `is_file` is a predicate parameter, and `is_dir`, `is_writable`, `mkdir` and `copy` are not modelled. So the errors for an unwritable directory or a failed copy (OPF.php:227-229, OPF.php:287-295, NCX.php:180-182, OCF.php:122-132) are not modelled, nor is the stray `file_put_contents('opf.xml', ...)`.
- `htmlentities` is the opaque parameter `esc`, and `uniqid` is the parameter `uniq`.
- Metadata namespaces (OPF.php:145-172): the model reads the metadata children as (prefix, name, value, attributes) records with their namespaced attributes, already walked. It does not model `getDocNamespaces`/`children`/`attributes`, nor a child visited once per declared namespace.
- Opf.Package: the `NCX` object an OPF loads is represented by the path of its file. Its own reading and writing are modelled by `Ncx.Document`, which takes its parsed file as input.
- OpfProps.SerializeOk: `asXML` ends by calling the owned NCX's `asXML` (OPF.php:342), which throws for a navPoint without label or content (NCX.php:318-324), an incomplete pageTarget (NCX.php:218-229) or a navList checked through the last pageTarget (NCX.php:250-262). `Opf.Serialize` returns only where that NCX is written, so those failures are not among the conditions of this iff. `NcxProps.SerializeOk` states them for the NCX document on its own.
- OcfProps.SerializeOk: through `Writable`, the same gap: an owned NCX's own failures, reached through OCF.php:148, are not among its conditions.
- OcfProps.RootFilesXmlOk: the same gap as OcfProps.SerializeOk, for the rootfile loop.
- Ocf.Container.ReadXml: an OPF read fails as a `PackageError` result rather than an exception from inside the `OPF` constructor.
- Epub.Epub: `setMetadata`/`getMetadata` of the OPF are not part of this model. The facade keeps the store they reach as a field mapping a name to its value and attributes, and assumes that setting a record stores it under its name.
- Epub.GetChapters: `navId2src`, `getManifestByHref`, `getNavPoint` and `fileUsage` are not part of this model. They are inputs, and both lookups are assumed to return arrays.
- Epub.GetChapters: a manifest item that already has a `files` key keeps it in `fields`. `files` is kept apart from the other fields, so where it sits among them is not modelled.
- `array_flip` and `array_keys` turn numeric-string keys into integers. The model keeps every key a string.
- Epub `__construct`, `open`, `save`, `__destruct`, and Book.php, are left out: temporary directories, zip archives and recursive deletion are all I/O.
- `getSpine`/`setSpine` and `addChapter` are left out: they forward to OPF methods that are not part of this model. Content deduplication, reference counting and play-order assignment are left out for the same reason.
