/**
 * The Epub facade: the chapter listing, which joins the NCX navigation with
 * the OPF manifest, and the metadata setters and getters.
 *
 * The lookups getChapters relies on (the manifest item of an href, the
 * navPoint of an id, the navId-to-src map and the file-usage map) and the
 * metadata store the setters write to belong to the OPF and NCX objects;
 * here they are inputs and fields.
 */
module Epub {
  import opened Php

  // ---------------------------------------------------------------------------
  // PHP array functions getChapters uses

  /** The values of an array, in order. */
  function Values<V>(a: Array<V>): (vs: seq<V>)
    ensures |vs| == |a| && forall i :: 0 <= i < |a| ==> vs[i] == a[i].val
  {
    if a == [] then [] else Values(a[..|a| - 1]) + [a[|a| - 1].val]
  }

  /** array_flip: each value becomes a key holding its key; a repeated value keeps its first place and its last key. */
  function Flip(a: Array<string>): (r: Array<string>)
    ensures forall k :: k in Keys(r) ==> k in Values(a)
  {
    if a == [] then [] else Put(Flip(a[..|a| - 1]), a[|a| - 1].val, a[|a| - 1].key)
  }

  /** The key of the last entry of `a` holding `v`. */
  function LastKeyOf(a: Array<string>, v: string): (r: Option<string>)
    ensures r.Some? <==> v in Values(a)
    ensures r.Some? ==> Entry(r.value, v) in a
  {
    if a == [] then None
    else if a[|a| - 1].val == v then Some(a[|a| - 1].key)
    else
      var r := LastKeyOf(a[..|a| - 1], v);
      assert Values(a) == Values(a[..|a| - 1]) + [a[|a| - 1].val];
      r
  }

  /** array_merge of string-keyed arrays: each entry of `b` in turn overwrites or is appended. */
  function Merge<V>(a: Array<V>, b: Array<V>): (r: Array<V>)
    decreases |b|
    ensures forall k :: k in Keys(a) ==> k in Keys(r)
  {
    if b == [] then a else Merge(Put(a, b[0].key, b[0].val), b[1..])
  }

  /** `$a[$k]` on an array of nullable strings: null when the key is absent. */
  function Field(a: Array<Option<string>>, k: string): Option<string>
  {
    match Get(a, k)
    case Some(v) => v
    case None => None
  }

  // ---------------------------------------------------------------------------
  // getChapters

  /** The href with everything from its first '#' removed. */
  function StripFragment(href: string): (r: string)
    ensures r <= href
    ensures '#' !in r
    ensures |r| < |href| <==> '#' in href
    ensures |r| < |href| ==> href[|r|] == '#'
  {
    if '#' in href then href[..IndexOf(href, '#')] else href
  }

  /** The fields a chapter takes from its navPoint, in this order. */
  function NavFields(navPoint: Array<Option<string>>): Array<Option<string>>
  {
    [ Entry("navId", Field(navPoint, "id")),
      Entry("navLavel", Field(navPoint, "navLabel")),
      Entry("navParent", Field(navPoint, "parent")),
      Entry("playOrder", Field(navPoint, "playOrder")),
      Entry("content", Field(navPoint, "content")) ]
  }

  /** What the file-usage map lists for `f`, nothing when it has no entry. */
  function Deps(usage: Array<seq<string>>, f: string): seq<string>
  {
    match Get(usage, f)
    case Some(d) => d
    case None => []
  }

  /** The files loop: each direct dependency, followed by that file's own dependencies. */
  function Expand(deps: seq<string>, usage: Array<seq<string>>): (r: seq<string>)
    ensures forall x :: x in deps ==> x in r
  {
    if deps == [] then []
    else Expand(deps[..|deps| - 1], usage) + [deps[|deps| - 1]] + Deps(usage, deps[|deps| - 1])
  }

  /** `$chapter['files']`: set only when the file-usage map has the chapter's file. */
  function FilesOf(file: string, usage: Array<seq<string>>): (r: Option<seq<string>>)
    ensures r.Some? <==> HasKey(usage, file)
  {
    if HasKey(usage, file) then Some(Distinct(Expand(Deps(usage, file), usage))) else None
  }

  /** A chapter record: the merged manifest and navPoint fields, and `files` when set. */
  datatype Chapter = Chapter(fields: Array<Option<string>>, files: Option<seq<string>>)

  /** The chapter of one (href, id) pair of the flipped navId-to-src map. */
  function ChapterOf(href: string, id: string, manifestByHref: string -> Array<Option<string>>,
                     navPointOf: string -> Array<Option<string>>, usage: Array<seq<string>>): (r: Chapter)
    ensures r.files.Some? <==> HasKey(usage, Str(Field(r.fields, "file")))
  {
    var fields := Merge(manifestByHref(StripFragment(href)), NavFields(navPointOf(id)));
    Chapter(fields, FilesOf(Str(Field(fields, "file")), usage))
  }

  /** The chapters of the flipped navId-to-src entries, in order. */
  function Chapters(navPoints: Array<string>, manifestByHref: string -> Array<Option<string>>,
                    navPointOf: string -> Array<Option<string>>, usage: Array<seq<string>>): (cs: seq<Chapter>)
    ensures |cs| == |navPoints|
  {
    if navPoints == [] then []
    else
      var last := navPoints[|navPoints| - 1];
      Chapters(navPoints[..|navPoints| - 1], manifestByHref, navPointOf, usage)
        + [ChapterOf(last.key, last.val, manifestByHref, navPointOf, usage)]
  }

  /** The dependency list of one chapter: collected in a loop, then de-duplicated. */
  method CollectFiles(deps: seq<string>, usage: Array<seq<string>>) returns (files: seq<string>)
    ensures files == Distinct(Expand(deps, usage))
  {
    files := [];
    for i := 0 to |deps|
      invariant files == Expand(deps[..i], usage)
    {
      assert deps[..i + 1][..i] == deps[..i];
      files := files + [deps[i]];
      if HasKey(usage, deps[i]) {
        files := files + Get(usage, deps[i]).value;
      }
    }
    assert deps[..|deps|] == deps;
    // array_keys(array_flip(...))
    files := Distinct(files);
  }

  /** One pass of the chapters loop: the merged record and its dependency list. */
  method MakeChapter(href: string, id: string, manifestByHref: string -> Array<Option<string>>,
                     navPointOf: string -> Array<Option<string>>, usage: Array<seq<string>>)
    returns (chapter: Chapter)
    ensures chapter == ChapterOf(href, id, manifestByHref, navPointOf, usage)
  {
    var fields := Merge(manifestByHref(StripFragment(href)), NavFields(navPointOf(id)));
    var files: Option<seq<string>> := None;
    var file := Str(Field(fields, "file"));
    if HasKey(usage, file) {
      var collected := CollectFiles(Get(usage, file).value, usage);
      files := Some(collected);
    }
    chapter := Chapter(fields, files);
  }

  lemma ChaptersSnoc(navPoints: Array<string>, i: nat, manifestByHref: string -> Array<Option<string>>,
                     navPointOf: string -> Array<Option<string>>, usage: Array<seq<string>>)
    requires i < |navPoints|
    ensures Chapters(navPoints[..i + 1], manifestByHref, navPointOf, usage)
      == Chapters(navPoints[..i], manifestByHref, navPointOf, usage)
         + [ChapterOf(navPoints[i].key, navPoints[i].val, manifestByHref, navPointOf, usage)]
  {
    assert navPoints[..i + 1][..i] == navPoints[..i];
  }

  /** getChapters, over the lookups it makes on the OPF and NCX objects. */
  method GetChapters(navId2src: Array<string>, manifestByHref: string -> Array<Option<string>>,
                     navPointOf: string -> Array<Option<string>>, usage: Array<seq<string>>)
    returns (chapters: seq<Chapter>)
    ensures chapters == Chapters(Flip(navId2src), manifestByHref, navPointOf, usage)
  {
    var navPoints := Flip(navId2src);
    chapters := [];
    for i := 0 to |navPoints|
      invariant chapters == Chapters(navPoints[..i], manifestByHref, navPointOf, usage)
    {
      var chapter := MakeChapter(navPoints[i].key, navPoints[i].val, manifestByHref, navPointOf, usage);
      ChaptersSnoc(navPoints, i, manifestByHref, navPointOf, usage);
      chapters := chapters + [chapter];
    }
    assert navPoints[..|navPoints|] == navPoints;
  }

  // ---------------------------------------------------------------------------
  // Metadata facade

  /** One metadata record of the store the setters write: its value and its attributes. */
  datatype Meta = Meta(value: string, attrs: Array<string>)

  /** getMetadata($name) followed by `['value']`: null when there is no such record. */
  function Lookup(store: Array<Meta>, name: string): (r: Option<string>)
    ensures r.Some? <==> HasKey(store, name)
    ensures r.Some? ==> Get(store, name).value.value == r.value
  {
    match Get(store, name)
    case Some(m) => Some(m.value)
    case None => None
  }

  /** The attributes setCreator gives: role 'aut', and file-as defaulting to the creator. */
  function CreatorAttrs(creator: string, fileAs: Option<string>): (r: Array<string>)
    ensures Keys(r) == ["opf:role", "opf:file-as"]
    ensures Get(r, "opf:role") == Some("aut")
    ensures Get(r, "opf:file-as") == Some(if fileAs.None? then creator else fileAs.value)
  {
    [Entry("opf:role", "aut"), Entry("opf:file-as", if fileAs.None? then creator else fileAs.value)]
  }

  class Epub {
    /** The OPF metadata the facade reads and writes, by name. */
    var metadata: Array<Meta>

    constructor (metadata: Array<Meta>)
      ensures this.metadata == metadata
    {
      this.metadata := metadata;
    }

    /** setMetadata($name, $value, $attrs): stores the record under its name. */
    method Store(name: string, value: string, attrs: Array<string>)
      modifies this
      ensures metadata == Put(old(metadata), name, Meta(value, attrs))
      ensures GetMetadata(name) == Some(value)
      ensures forall n :: n != name ==> Lookup(metadata, n) == Lookup(old(metadata), n)
    {
      metadata := Put(metadata, name, Meta(value, attrs));
      SetThenGet(old(metadata), name, value, attrs);
    }

    function GetMetadata(name: string): (r: Option<string>)
      reads this
      ensures r.Some? <==> HasKey(metadata, name)
      ensures r.Some? ==> Get(metadata, name).value.value == r.value
    {
      Lookup(metadata, name)
    }

    method SetMetadata(name: string, value: string)
      modifies this
      ensures metadata == Put(old(metadata), name, Meta(value, []))
      ensures GetMetadata(name) == Some(value)
    {
      Store(name, value, []);
    }

    method SetTitle(title: string)
      modifies this
      ensures metadata == Put(old(metadata), "title", Meta(title, []))
      ensures GetTitle() == Some(title)
    {
      Store("title", title, []);
    }

    function GetTitle(): (r: Option<string>)
      reads this
      ensures r.Some? <==> HasKey(metadata, "title")
      ensures r.Some? ==> Get(metadata, "title").value.value == r.value
    {
      Lookup(metadata, "title")
    }

    method SetCreator(creator: string, fileAs: Option<string>)
      modifies this
      ensures metadata == Put(old(metadata), "creator", Meta(creator, CreatorAttrs(creator, fileAs)))
      ensures GetCreator() == Some(creator)
    {
      Store("creator", creator, CreatorAttrs(creator, fileAs));
    }

    function GetCreator(): (r: Option<string>)
      reads this
      ensures r.Some? <==> HasKey(metadata, "creator")
      ensures r.Some? ==> Get(metadata, "creator").value.value == r.value
    {
      Lookup(metadata, "creator")
    }

    method SetLanguage(language: string)
      modifies this
      ensures metadata == Put(old(metadata), "language", Meta(language, [Entry("xsi:type", "dcterms:RFC3066")]))
      ensures GetLanguage() == Some(language)
    {
      Store("language", language, [Entry("xsi:type", "dcterms:RFC3066")]);
    }

    function GetLanguage(): (r: Option<string>)
      reads this
      ensures r.Some? <==> HasKey(metadata, "language")
      ensures r.Some? ==> Get(metadata, "language").value.value == r.value
    {
      Lookup(metadata, "language")
    }

    method SetIdentifier(identifier: string)
      modifies this
      ensures metadata == Put(old(metadata), "identifier", Meta(identifier, [Entry("id", "BookId")]))
      ensures GetIdentifier() == Some(identifier)
    {
      Store("identifier", identifier, [Entry("id", "BookId")]);
    }

    function GetIdentifier(): (r: Option<string>)
      reads this
      ensures r.Some? <==> HasKey(metadata, "identifier")
      ensures r.Some? ==> Get(metadata, "identifier").value.value == r.value
    {
      Lookup(metadata, "identifier")
    }

    method SetPublisher(publisher: string)
      modifies this
      ensures metadata == Put(old(metadata), "publisher", Meta(publisher, []))
      ensures GetPublisher() == Some(publisher)
    {
      Store("publisher", publisher, []);
    }

    function GetPublisher(): (r: Option<string>)
      reads this
      ensures r.Some? <==> HasKey(metadata, "publisher")
      ensures r.Some? ==> Get(metadata, "publisher").value.value == r.value
    {
      Lookup(metadata, "publisher")
    }

    method SetDate(date: string)
      modifies this
      ensures metadata == Put(old(metadata), "date", Meta(date, [Entry("xsi:type", "dcterms:W3CDTF")]))
      ensures GetDate() == Some(date)
    {
      Store("date", date, [Entry("xsi:type", "dcterms:W3CDTF")]);
    }

    function GetDate(): (r: Option<string>)
      reads this
      ensures r.Some? <==> HasKey(metadata, "date")
      ensures r.Some? ==> Get(metadata, "date").value.value == r.value
    {
      Lookup(metadata, "date")
    }

    method SetRights(rights: string)
      modifies this
      ensures metadata == Put(old(metadata), "rights", Meta(rights, []))
      ensures GetRights() == Some(rights)
    {
      Store("rights", rights, []);
    }

    function GetRights(): (r: Option<string>)
      reads this
      ensures r.Some? <==> HasKey(metadata, "rights")
      ensures r.Some? ==> Get(metadata, "rights").value.value == r.value
    {
      Lookup(metadata, "rights")
    }

    method SetDescription(description: string)
      modifies this
      ensures metadata == Put(old(metadata), "description", Meta(description, []))
      ensures GetDescription() == Some(description)
    {
      Store("description", description, []);
    }

    function GetDescription(): (r: Option<string>)
      reads this
      ensures r.Some? <==> HasKey(metadata, "description")
      ensures r.Some? ==> Get(metadata, "description").value.value == r.value
    {
      Lookup(metadata, "description")
    }
  }

  /** Storing a record makes its name look up the value stored, and leaves every other name as it was. */
  lemma SetThenGet(store: Array<Meta>, name: string, value: string, attrs: Array<string>)
    ensures Lookup(Put(store, name, Meta(value, attrs)), name) == Some(value)
    ensures forall n :: n != name ==> Lookup(Put(store, name, Meta(value, attrs)), n) == Lookup(store, n)
  {
    forall n
      ensures Lookup(Put(store, name, Meta(value, attrs)), n) == if n == name then Some(value) else Lookup(store, n)
    {
      PutGet(store, name, Meta(value, attrs), n);
    }
  }
}
