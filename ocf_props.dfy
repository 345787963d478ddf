/** What OCF.php promises about the rootfiles it reads and the container it writes. */
module OcfProps {
  import opened Php
  import opened Xml
  import Opf
  import opened Ocf

  /** Where asXML writes the package of a rootfile. */
  function PackagePath(rootPath: string, v: RootView): string
  {
    rootPath + "/" + Str(v.fullPath)
  }

  /** A rootfile asXML accepts: full-path and media-type set, and a package rootfile's OPF present and writable. */
  predicate Writable(v: RootView, rootPath: string, esc: string -> string, isFile: string -> bool)
  {
    && v.fullPath.Some? && v.mediaType.Some?
    && (v.mediaType.value == PackageType ==>
          v.opf.Some? && Opf.Serialize(v.opf.value, PackagePath(rootPath, v), esc, isFile).Ok?)
  }

  lemma RootFileXmlOk(v: RootView, rootPath: string, esc: string -> string, isFile: string -> bool)
    ensures RootFileXml(v, rootPath, esc, isFile).Ok? <==> Writable(v, rootPath, esc, isFile)
  {
  }

  /** The rootfiles loop succeeds exactly when every rootfile is writable. */
  lemma {:induction false} RootFilesXmlOk(vs: seq<RootView>, rootPath: string, esc: string -> string, isFile: string -> bool)
    decreases |vs|
    ensures RootFilesXml(vs, rootPath, esc, isFile).Ok? <==> forall i :: 0 <= i < |vs| ==> Writable(vs[i], rootPath, esc, isFile)
  {
    if vs != [] {
      RootFileXmlOk(vs[0], rootPath, esc, isFile);
      RootFilesXmlOk(vs[1..], rootPath, esc, isFile);
      assert forall i :: 1 <= i < |vs| ==> vs[i] == vs[1..][i - 1];
    }
  }

  /** asXML fails on an empty list and on any rootfile it does not accept, and on nothing else. */
  lemma SerializeOk(vs: seq<RootView>, rootPath: string, esc: string -> string, isFile: string -> bool)
    ensures Serialize(vs, rootPath, esc, isFile).Ok? <==>
      vs != [] && forall i :: 0 <= i < |vs| ==> Writable(vs[i], rootPath, esc, isFile)
  {
    RootFilesXmlOk(vs, rootPath, esc, isFile);
  }

  /** One <rootfile> element per rootfile, in list order, with its full-path and media-type. */
  function Tags(vs: seq<RootView>): string
  {
    if vs == [] then "" else EmptyTag("rootfile", RootFileAttrs(Str(vs[0].fullPath), Str(vs[0].mediaType))) + Tags(vs[1..])
  }

  /** The places of the package documents, in list order. */
  function PackagePaths(vs: seq<RootView>, rootPath: string): seq<string>
  {
    if vs == [] then []
    else (if vs[0].mediaType == Some(PackageType) then [PackagePath(rootPath, vs[0])] else [])
         + PackagePaths(vs[1..], rootPath)
  }

  function Paths(ps: seq<PackageFile>): seq<string>
  {
    if ps == [] then [] else [ps[0].path] + Paths(ps[1..])
  }

  lemma {:induction false} PathsConcat(ps: seq<PackageFile>, qs: seq<PackageFile>)
    decreases |ps|
    ensures Paths(ps + qs) == Paths(ps) + Paths(qs)
  {
    if ps == [] {
      assert ps + qs == qs;
    } else {
      assert (ps + qs)[1..] == ps[1..] + qs;
      PathsConcat(ps[1..], qs);
    }
  }

  /**
   * What the rootfiles loop writes: the <rootfile> elements in list order,
   * and one package document per package rootfile, in the same order.
   */
  lemma {:induction false} RootFilesXmlLayout(vs: seq<RootView>, rootPath: string, esc: string -> string, isFile: string -> bool)
    requires RootFilesXml(vs, rootPath, esc, isFile).Ok?
    decreases |vs|
    ensures RootFilesXml(vs, rootPath, esc, isFile).value.xml == Tags(vs)
    ensures Paths(RootFilesXml(vs, rootPath, esc, isFile).value.packages) == PackagePaths(vs, rootPath)
  {
    if vs != [] {
      var w := RootFileXml(vs[0], rootPath, esc, isFile).value;
      var rest := RootFilesXml(vs[1..], rootPath, esc, isFile).value;
      RootFilesXmlLayout(vs[1..], rootPath, esc, isFile);
      PathsConcat(w.packages, rest.packages);
      assert Paths(w.packages) == if vs[0].mediaType == Some(PackageType) then [PackagePath(rootPath, vs[0])] else [];
    }
  }

  /** The container document: header, the rootfiles in order, footer. */
  lemma SerializeLayout(vs: seq<RootView>, rootPath: string, esc: string -> string, isFile: string -> bool)
    requires Serialize(vs, rootPath, esc, isFile).Ok?
    ensures Serialize(vs, rootPath, esc, isFile).value.xml == Header() + Tags(vs) + "</rootfiles></container>"
    ensures Paths(Serialize(vs, rootPath, esc, isFile).value.packages) == PackagePaths(vs, rootPath)
  {
    RootFilesXmlLayout(vs, rootPath, esc, isFile);
  }

  // ---------------------------------------------------------------------------
  // Reading

  /** A <rootfile> readXML accepts: its file exists, and a package one reads as an OPF package. */
  predicate Readable(e: seq<Attr>, xmlFile: string, isFile: string -> bool, parse: string -> Opf.PackageDoc)
  {
    var path := RootFilePath(xmlFile, GetAttr(e, "full-path"));
    && isFile(path)
    && (GetAttr(e, "media-type") == Some(PackageType) ==> Opf.PackageRead(parse(path), path, isFile, Opf.Blank()).Ok?)
  }

  /** readXML succeeds exactly when every rootfile exists and every package rootfile reads. */
  lemma {:induction false} RootFilesReadOk(es: seq<seq<Attr>>, xmlFile: string, isFile: string -> bool,
                                           parse: string -> Opf.PackageDoc)
    decreases |es|
    ensures RootFilesRead(es, xmlFile, isFile, parse).Ok? <==>
      forall i :: 0 <= i < |es| ==> Readable(es[i], xmlFile, isFile, parse)
  {
    if es != [] {
      RootFilesReadOk(es[1..], xmlFile, isFile, parse);
      assert forall i :: 1 <= i < |es| ==> es[i] == es[1..][i - 1];
    }
  }

  /** A rootfile whose file is missing is the error, with its full-path. */
  lemma RootFileReadMissing(e: seq<Attr>, xmlFile: string, isFile: string -> bool, parse: string -> Opf.PackageDoc)
    requires !isFile(RootFilePath(xmlFile, GetAttr(e, "full-path")))
    ensures RootFileRead(e, xmlFile, isFile, parse) == Err(RootfileMissing(Str(GetAttr(e, "full-path"))))
  {
  }

  /** The attributes of the <rootfile> elements asXML writes. */
  function Elements(vs: seq<RootView>): (es: seq<seq<Attr>>)
    ensures |es| == |vs| && forall i :: 0 <= i < |vs| ==> es[i] == RootFileAttrs(Str(vs[i].fullPath), Str(vs[i].mediaType))
  {
    if vs == [] then [] else [RootFileAttrs(Str(vs[0].fullPath), Str(vs[0].mediaType))] + Elements(vs[1..])
  }

  /**
   * Reading back the rootfiles asXML writes gives the same full-paths and
   * media-types in the same order, with an OPF exactly for the package ones.
   */
  lemma RoundTrip(vs: seq<RootView>, xmlFile: string, isFile: string -> bool, parse: string -> Opf.PackageDoc)
    requires forall i :: 0 <= i < |vs| ==> vs[i].fullPath.Some? && vs[i].mediaType.Some?
    requires RootFilesRead(Elements(vs), xmlFile, isFile, parse).Ok?
    ensures var r := RootFilesRead(Elements(vs), xmlFile, isFile, parse).value;
      && |r| == |vs|
      && forall i :: 0 <= i < |vs| ==>
        && r[i].fullPath == vs[i].fullPath && r[i].mediaType == vs[i].mediaType
        && (r[i].opf.Some? <==> vs[i].mediaType == Some(PackageType))
  {
    var es := Elements(vs);
    var r := RootFilesRead(es, xmlFile, isFile, parse).value;
    forall i | 0 <= i < |vs|
      ensures && r[i].fullPath == vs[i].fullPath && r[i].mediaType == vs[i].mediaType
              && (r[i].opf.Some? <==> vs[i].mediaType == Some(PackageType))
    {
      RootFilesReadAt(es, xmlFile, isFile, parse, i);
      assert es[i] == [Attr("full-path", vs[i].fullPath.value), Attr("media-type", vs[i].mediaType.value)];
    }
  }
}
