/**
 * The OCF container (OCF.php): the rootfiles list of META-INF/container.xml.
 * readXML collects the rootfiles and opens an OPF package for each one of
 * the package media type; asXML checks every rootfile, writes the package
 * of each package rootfile and lists them all in the container document.
 */
module Ocf {
  import opened Php
  import opened Xml
  import Opf

  /** The media type of an OPF package document. */
  const PackageType := "application/oebps-package+xml"

  datatype Error =
    | RootfileMissing(fullPath: string)   // 'Rootfile "..." does not exist'
    | PackageError(cause: Opf.Error)       // thrown by `new OPF(...)` or by the package's asXML
    | EmptyRootFiles                       // 'Rootfiles container cannot be empty'
    | FullPathMissing                      // 'Missing "full-path" in rootfile.'
    | MediaTypeMissing                     // 'Missing "media-type" in rootfile.'
    | OpfMissing(fullPath: string)         // 'Missing instance of \Eoub\OPF for rootfile with full-path ...'

  /** A rootfile array: full-path, media-type, and the OPF object of a package rootfile. */
  datatype RootFile = RootFile(fullPath: Option<string>, mediaType: Option<string>, opf: Option<Opf.Package>)

  /** A rootfile with the fields of its OPF object in place of the object. */
  datatype RootView = RootView(fullPath: Option<string>, mediaType: Option<string>, opf: Option<Opf.Snapshot>)

  /** The OPF objects the rootfiles hold. */
  function Packages(rfs: seq<RootFile>): set<Opf.Package>
  {
    set i | 0 <= i < |rfs| && rfs[i].opf.Some? :: rfs[i].opf.value
  }

  function View(rf: RootFile): RootView
    reads if rf.opf.Some? then {rf.opf.value} else {}
  {
    RootView(rf.fullPath, rf.mediaType, if rf.opf.Some? then Some(rf.opf.value.Snap()) else None)
  }

  function Views(rfs: seq<RootFile>): (vs: seq<RootView>)
    reads Packages(rfs)
    ensures |vs| == |rfs|
  {
    if rfs == [] then []
    else
      var n := |rfs| - 1;
      assert Packages(rfs[..n]) <= Packages(rfs) by {
        forall i | 0 <= i < n && rfs[..n][i].opf.Some?
          ensures rfs[..n][i].opf.value in Packages(rfs)
        {
          assert rfs[..n][i] == rfs[i];
        }
      }
      Views(rfs[..n]) + [View(rfs[n])]
  }

  /** The view at a position is the view of the rootfile there. */
  lemma {:induction false} ViewsAt(rfs: seq<RootFile>, i: nat)
    requires i < |rfs|
    decreases |rfs|
    ensures Views(rfs)[i] == View(rfs[i])
  {
    var n := |rfs| - 1;
    if i < n {
      ViewsAt(rfs[..n], i);
    }
  }

  // ---------------------------------------------------------------------------
  // Reading

  /** Where readXML looks for a rootfile: `dirname($xmlFile) . '/../' . full-path`. */
  function RootFilePath(xmlFile: string, fullPath: Option<string>): string
  {
    Dirname(xmlFile) + "/" + ".." + "/" + Str(fullPath)
  }

  /**
   * One <rootfile>: it must exist; one of the package media type is opened
   * as an OPF package, read from `parse(path)`, the parsed file at that path.
   */
  function RootFileRead(e: seq<Attr>, xmlFile: string, isFile: string -> bool,
                        parse: string -> Opf.PackageDoc): (r: Result<RootView, Error>)
    ensures r.Ok? ==> r.value.fullPath == GetAttr(e, "full-path") && r.value.mediaType == GetAttr(e, "media-type")
    ensures r.Ok? ==> (r.value.opf.Some? <==> GetAttr(e, "media-type") == Some(PackageType))
  {
    var fp := GetAttr(e, "full-path");
    var mt := GetAttr(e, "media-type");
    var path := RootFilePath(xmlFile, fp);
    if !isFile(path) then Err(RootfileMissing(Str(fp)))
    else if mt == Some(PackageType) then
      match Opf.PackageRead(parse(path), path, isFile, Opf.Blank())
      case Err(err) => Err(PackageError(err))
      case Ok(s) => Ok(RootView(fp, mt, Some(s)))
    else Ok(RootView(fp, mt, None))
  }

  /** `xs` followed by the rootfiles of `r`, if it has any. */
  function Then<T>(xs: seq<T>, r: Result<seq<T>, Error>): Result<seq<T>, Error>
  {
    match r
    case Ok(ys) => Ok(xs + ys)
    case Err(e) => Err(e)
  }

  /** readXML: the rootfiles in document order, or the first failure. */
  function RootFilesRead(es: seq<seq<Attr>>, xmlFile: string, isFile: string -> bool,
                         parse: string -> Opf.PackageDoc): (r: Result<seq<RootView>, Error>)
    ensures r.Ok? ==> |r.value| == |es|
  {
    if es == [] then Ok([])
    else
      match RootFileRead(es[0], xmlFile, isFile, parse)
      case Err(e) => Err(e)
      case Ok(v) =>
        Then([v], RootFilesRead(es[1..], xmlFile, isFile, parse))
  }

  /** The `i`-th rootfile read has the attributes of the `i`-th element, and an OPF exactly when it is a package. */
  lemma {:induction false} RootFilesReadAt(es: seq<seq<Attr>>, xmlFile: string, isFile: string -> bool,
                                           parse: string -> Opf.PackageDoc, i: nat)
    requires RootFilesRead(es, xmlFile, isFile, parse).Ok? && i < |es|
    decreases |es|
    ensures var v := RootFilesRead(es, xmlFile, isFile, parse).value[i];
      && v.fullPath == GetAttr(es[i], "full-path")
      && v.mediaType == GetAttr(es[i], "media-type")
      && (v.opf.Some? <==> GetAttr(es[i], "media-type") == Some(PackageType))
  {
    var rest := RootFilesRead(es[1..], xmlFile, isFile, parse);
    assert RootFilesRead(es, xmlFile, isFile, parse) == Then([RootFileRead(es[0], xmlFile, isFile, parse).value], rest);
    if i > 0 {
      RootFilesReadAt(es[1..], xmlFile, isFile, parse, i - 1);
      assert es[1..][i - 1] == es[i];
    }
  }

  /** Unfolding RootFilesRead at position `i`. */
  lemma RootFilesReadStep(es: seq<seq<Attr>>, i: nat, xmlFile: string, isFile: string -> bool,
                          parse: string -> Opf.PackageDoc)
    requires i < |es|
    ensures var r := RootFileRead(es[i], xmlFile, isFile, parse);
      RootFilesRead(es[i..], xmlFile, isFile, parse) ==
        if r.Err? then Err(r.error) else Then([r.value], RootFilesRead(es[i + 1..], xmlFile, isFile, parse))
  {
    Suffix(es, i);
  }

  lemma ThenEmpty<T>(r: Result<seq<T>, Error>)
    ensures Then([], r) == r
  {
    if r.Ok? {
      assert [] + r.value == r.value;
    }
  }

  lemma ThenThen<T>(xs: seq<T>, ys: seq<T>, r: Result<seq<T>, Error>)
    ensures Then(xs, Then(ys, r)) == Then(xs + ys, r)
  {
    if r.Ok? {
      Assoc(xs, ys, r.value);
    }
  }

  // ---------------------------------------------------------------------------
  // Writing

  /** A package document asXML writes, and where. */
  datatype PackageFile = PackageFile(path: string, output: Opf.Output)

  /** The container text and the package documents written along with it, in rootfile order. */
  datatype Written = Written(xml: string, packages: seq<PackageFile>)

  function Header(): string
  {
    "<?xml version=\"1.0\" encoding=\"UTF-8\"?>"
      + StartTag("container", [Attr("xmlns", "urn:oasis:names:tc:opendocument:xmlns:container"), Attr("version", "1.0")])
      + "<rootfiles>"
  }

  function RootFileAttrs(fullPath: string, mediaType: string): seq<Attr>
  {
    [Attr("full-path", fullPath), Attr("media-type", mediaType)]
  }

  /** One rootfile: full-path, then media-type, then the OPF of a package rootfile, which is written. */
  function RootFileXml(v: RootView, rootPath: string, esc: string -> string, isFile: string -> bool): (r: Result<Written, Error>)
    ensures v.fullPath.None? ==> r == Err(FullPathMissing)
    ensures v.fullPath.Some? && v.mediaType.None? ==> r == Err(MediaTypeMissing)
    ensures v.fullPath.Some? && v.mediaType == Some(PackageType) && v.opf.None? ==> r == Err(OpfMissing(v.fullPath.value))
    ensures r.Ok? ==> r.value.xml == EmptyTag("rootfile", RootFileAttrs(v.fullPath.value, v.mediaType.value))
  {
    if v.fullPath.None? then Err(FullPathMissing)
    else if v.mediaType.None? then Err(MediaTypeMissing)
    else
      var tag := EmptyTag("rootfile", RootFileAttrs(v.fullPath.value, v.mediaType.value));
      if v.mediaType.value == PackageType then
        if v.opf.None? then Err(OpfMissing(v.fullPath.value))
        else
          var path := rootPath + "/" + v.fullPath.value;
          match Opf.Serialize(v.opf.value, path, esc, isFile)
          case Err(e) => Err(PackageError(e))
          case Ok(o) => Ok(Written(tag, [PackageFile(path, o)]))
      else Ok(Written(tag, []))
  }

  /** `w` followed by what `r` writes, if it succeeds. */
  function Append(w: Written, r: Result<Written, Error>): Result<Written, Error>
  {
    match r
    case Ok(w2) => Ok(Written(w.xml + w2.xml, w.packages + w2.packages))
    case Err(e) => Err(e)
  }

  lemma AppendEmpty(r: Result<Written, Error>)
    ensures Append(Written("", []), r) == r
  {
    if r.Ok? {
      assert "" + r.value.xml == r.value.xml;
      assert [] + r.value.packages == r.value.packages;
    }
  }

  lemma AppendAppend(w: Written, w2: Written, r: Result<Written, Error>)
    ensures Append(w, Append(w2, r)) == Append(Written(w.xml + w2.xml, w.packages + w2.packages), r)
  {
    if r.Ok? {
      Assoc(w.xml, w2.xml, r.value.xml);
      Assoc(w.packages, w2.packages, r.value.packages);
    }
  }

  /** The rootfiles loop: every rootfile in order; the first failure propagates. */
  function RootFilesXml(vs: seq<RootView>, rootPath: string, esc: string -> string, isFile: string -> bool): Result<Written, Error>
  {
    if vs == [] then Ok(Written("", []))
    else
      match RootFileXml(vs[0], rootPath, esc, isFile)
      case Err(e) => Err(e)
      case Ok(w) => Append(w, RootFilesXml(vs[1..], rootPath, esc, isFile))
  }

  /** Writing from rootfile `i` on is writing rootfile `i`, then appending the rest. */
  lemma RootFilesXmlStep(vs: seq<RootView>, i: nat, rootPath: string, esc: string -> string, isFile: string -> bool)
    requires i < |vs|
    ensures RootFilesXml(vs[i..], rootPath, esc, isFile) ==
      match RootFileXml(vs[i], rootPath, esc, isFile)
      case Err(e) => Err(e)
      case Ok(w) => Append(w, RootFilesXml(vs[i + 1..], rootPath, esc, isFile))
  {
    assert vs[i..][0] == vs[i] && vs[i..][1..] == vs[i + 1..];
  }

  /** One pass of the rootfiles loop: a failure is the result, a success is appended. */
  lemma RootFilesXmlNext(vs: seq<RootView>, i: nat, w: Written, rootPath: string, esc: string -> string, isFile: string -> bool)
    requires i < |vs|
    requires RootFilesXml(vs, rootPath, esc, isFile) == Append(w, RootFilesXml(vs[i..], rootPath, esc, isFile))
    ensures var y := RootFileXml(vs[i], rootPath, esc, isFile);
      && (y.Err? ==> RootFilesXml(vs, rootPath, esc, isFile) == Err(y.error))
      && (y.Ok? ==>
            (RootFilesXml(vs, rootPath, esc, isFile) ==
             Append(Written(w.xml + y.value.xml, w.packages + y.value.packages), RootFilesXml(vs[i + 1..], rootPath, esc, isFile))))
  {
    RootFilesXmlStep(vs, i, rootPath, esc, isFile);
    var y := RootFileXml(vs[i], rootPath, esc, isFile);
    if y.Ok? {
      AppendAppend(w, y.value, RootFilesXml(vs[i + 1..], rootPath, esc, isFile));
    }
  }

  /** Once every rootfile is written, the result is what was collected. */
  lemma RootFilesXmlDone(vs: seq<RootView>, w: Written, rootPath: string, esc: string -> string, isFile: string -> bool)
    requires RootFilesXml(vs, rootPath, esc, isFile) == Append(w, RootFilesXml(vs[|vs|..], rootPath, esc, isFile))
    ensures RootFilesXml(vs, rootPath, esc, isFile) == Ok(w)
  {
    assert vs[|vs|..] == [];
    assert w.xml + "" == w.xml && w.packages + [] == w.packages;
  }

  /** asXML: an empty list fails; otherwise the container text around the rootfiles. */
  function Serialize(vs: seq<RootView>, rootPath: string, esc: string -> string, isFile: string -> bool): (r: Result<Written, Error>)
    ensures vs == [] ==> r == Err(EmptyRootFiles)
  {
    if vs == [] then Err(EmptyRootFiles)
    else
      match RootFilesXml(vs, rootPath, esc, isFile)
      case Err(e) => Err(e)
      case Ok(w) => Ok(Written(Header() + w.xml + "</rootfiles></container>", w.packages))
  }

  // ---------------------------------------------------------------------------
  // The object

  class Container {
    var rootFiles: seq<RootFile>

    /** `new OCF()`, and the object `new OCF($xmlFile)` reads into. */
    constructor ()
      ensures rootFiles == []
    {
      rootFiles := [];
    }

    /**
     * readXML of the container file `xmlFile` whose <rootfile> elements have
     * the attributes `es`: each rootfile is appended in document order, with
     * a newly read OPF object when it has the package media type.
     */
    method ReadXml(es: seq<seq<Attr>>, xmlFile: string, isFile: string -> bool, parse: string -> Opf.PackageDoc)
      returns (r: Outcome<Error>)
      modifies this
      ensures r.Pass? <==> RootFilesRead(es, xmlFile, isFile, parse).Ok?
      ensures r.Pass? ==> Views(rootFiles) == old(Views(rootFiles)) + RootFilesRead(es, xmlFile, isFile, parse).value
      ensures r.Fail? ==> RootFilesRead(es, xmlFile, isFile, parse) == Err(r.error)
      ensures fresh(Packages(rootFiles) - old(Packages(rootFiles)))
    {
      ghost var base := Views(rootFiles);
      ghost var start := Packages(rootFiles);
      ghost var done: seq<RootView> := [];
      var i := 0;
      assert es[i..] == es;
      ThenEmpty(RootFilesRead(es, xmlFile, isFile, parse));
      while i < |es|
        invariant 0 <= i <= |es|
        invariant Views(rootFiles) == base + done
        invariant RootFilesRead(es, xmlFile, isFile, parse) == Then(done, RootFilesRead(es[i..], xmlFile, isFile, parse))
        invariant fresh(Packages(rootFiles) - start)
      {
        ghost var prev := Packages(rootFiles);
        var y;
        y, done := ReadStep(es, i, xmlFile, isFile, parse, base, done);
        if y.Fail? {
          return Fail(y.error);
        }
        assert Packages(rootFiles) - start <= (prev - start) + (Packages(rootFiles) - prev);
        i := i + 1;
      }
      assert done + [] == done;
      r := Pass;
    }

    /** One iteration of the readXML loop, stated as the loop invariant carried from `i` to `i + 1`. */
    method ReadStep(es: seq<seq<Attr>>, i: nat, xmlFile: string, isFile: string -> bool, parse: string -> Opf.PackageDoc,
                    ghost base: seq<RootView>, ghost done: seq<RootView>)
      returns (r: Outcome<Error>, ghost done': seq<RootView>)
      requires i < |es|
      requires Views(rootFiles) == base + done
      requires RootFilesRead(es, xmlFile, isFile, parse) == Then(done, RootFilesRead(es[i..], xmlFile, isFile, parse))
      modifies this
      ensures r.Pass? ==> Views(rootFiles) == base + done'
      ensures r.Pass? ==> RootFilesRead(es, xmlFile, isFile, parse) == Then(done', RootFilesRead(es[i + 1..], xmlFile, isFile, parse))
      ensures r.Fail? ==> RootFilesRead(es, xmlFile, isFile, parse) == Err(r.error)
      ensures fresh(Packages(rootFiles) - old(Packages(rootFiles)))
    {
      RootFilesReadStep(es, i, xmlFile, isFile, parse);
      ghost var v;
      r, v := AddRootFile(es[i], xmlFile, isFile, parse);
      done' := done + [v];
      if r.Pass? {
        Assoc(base, done, [v]);
        ThenThen(done, [v], RootFilesRead(es[i + 1..], xmlFile, isFile, parse));
      }
    }

    /** One iteration of the readXML loop: the rootfile read from `e` is appended. */
    method AddRootFile(e: seq<Attr>, xmlFile: string, isFile: string -> bool, parse: string -> Opf.PackageDoc)
      returns (r: Outcome<Error>, ghost v: RootView)
      modifies this
      ensures r.Pass? ==> RootFileRead(e, xmlFile, isFile, parse) == Ok(v)
      ensures r.Pass? ==> Views(rootFiles) == old(Views(rootFiles)) + [v]
      ensures r.Fail? ==> RootFileRead(e, xmlFile, isFile, parse) == Err(r.error)
      ensures fresh(Packages(rootFiles) - old(Packages(rootFiles)))
    {
      v := RootView(None, None, None);
      var y := ReadRootFile(e, xmlFile, isFile, parse);
      if y.Err? {
        return Fail(y.error), v;
      }
      var rf := y.value;
      v := View(rf);
      AppendRootFile(rootFiles, rf);
      Push(rf);
      r := Pass;
    }

    /** Appends a rootfile; the OPF objects keep their fields. */
    method Push(rf: RootFile)
      modifies this
      ensures rootFiles == old(rootFiles) + [rf]
      ensures Views(rootFiles) == old(Views(rootFiles + [rf]))
    {
      var rfs := rootFiles + [rf];
      ghost var vs := Views(rfs);
      assert forall o | o in Packages(rfs) :: allocated(o);
      rootFiles := rfs;
      assert Views(rfs) == vs;
    }

    /** asXML(rootPath): the container text and the package documents it writes, or the exception thrown. */
    method AsXml(rootPath: string, esc: string -> string, isFile: string -> bool) returns (r: Result<Written, Error>)
      ensures r == Serialize(Views(rootFiles), rootPath, esc, isFile)
    {
      if rootFiles == [] {
        return Err(EmptyRootFiles);
      }
      var w := WriteRootFiles(rootFiles, rootPath, esc, isFile);
      if w.Err? {
        return Err(w.error);
      }
      r := Ok(Written(Header() + w.value.xml + "</rootfiles></container>", w.value.packages));
    }
  }

  /** The rootfiles loop of asXML. */
  method WriteRootFiles(rfs: seq<RootFile>, rootPath: string, esc: string -> string, isFile: string -> bool)
    returns (r: Result<Written, Error>)
    ensures r == RootFilesXml(Views(rfs), rootPath, esc, isFile)
  {
    var vs := Views(rfs);
    assert forall o | o in Packages(rfs) :: allocated(o);
    var w := Written("", []);
    var i := 0;
    assert vs[i..] == vs;
    AppendEmpty(RootFilesXml(vs, rootPath, esc, isFile));
    while i < |rfs|
      invariant 0 <= i <= |rfs|
      invariant RootFilesXml(vs, rootPath, esc, isFile) == Append(w, RootFilesXml(vs[i..], rootPath, esc, isFile))
    {
      ViewsAt(rfs, i);
      var y := WriteRootFile(rfs[i], rootPath, esc, isFile);
      RootFilesXmlNext(vs, i, w, rootPath, esc, isFile);
      if y.Err? {
        return Err(y.error);
      }
      w := Written(w.xml + y.value.xml, w.packages + y.value.packages);
      i := i + 1;
    }
    RootFilesXmlDone(vs, w, rootPath, esc, isFile);
    r := Ok(w);
  }

  /** One iteration of the readXML loop: the rootfile read from the attributes `e`. */
  method ReadRootFile(e: seq<Attr>, xmlFile: string, isFile: string -> bool, parse: string -> Opf.PackageDoc)
    returns (r: Result<RootFile, Error>)
    ensures r.Ok? ==> RootFileRead(e, xmlFile, isFile, parse) == Ok(View(r.value))
    ensures r.Ok? && r.value.opf.Some? ==> fresh(r.value.opf.value)
    ensures r.Err? ==> RootFileRead(e, xmlFile, isFile, parse) == Err(r.error)
  {
    var fp := GetAttr(e, "full-path");
    var mt := GetAttr(e, "media-type");
    var path := RootFilePath(xmlFile, fp);
    if !isFile(path) {
      return Err(RootfileMissing(Str(fp)));
    }
    var opf: Option<Opf.Package> := None;
    if mt == Some(PackageType) {
      var p := new Opf.Package.FromFile();
      var pr := p.ReadXml(parse(path), path, isFile);
      if pr.Fail? {
        return Err(PackageError(pr.error));
      }
      opf := Some(p);
    }
    r := Ok(RootFile(fp, mt, opf));
  }

  /** One iteration of the asXML loop. */
  method WriteRootFile(rf: RootFile, rootPath: string, esc: string -> string, isFile: string -> bool)
    returns (r: Result<Written, Error>)
    ensures r == RootFileXml(View(rf), rootPath, esc, isFile)
  {
    if rf.fullPath.None? {
      return Err(FullPathMissing);
    }
    if rf.mediaType.None? {
      return Err(MediaTypeMissing);
    }
    var tag := EmptyTag("rootfile", RootFileAttrs(rf.fullPath.value, rf.mediaType.value));
    if rf.mediaType.value == PackageType {
      if rf.opf.None? {
        return Err(OpfMissing(rf.fullPath.value));
      }
      var path := rootPath + "/" + rf.fullPath.value;
      var o := rf.opf.value.AsXml(path, esc, isFile);
      if o.Err? {
        return Err(PackageError(o.error));
      }
      return Ok(Written(tag, [PackageFile(path, o.value)]));
    }
    r := Ok(Written(tag, []));
  }

  /** Appending a rootfile appends its view, and its OPF object to the objects held. */
  lemma AppendRootFile(rfs: seq<RootFile>, rf: RootFile)
    ensures Views(rfs + [rf]) == Views(rfs) + [View(rf)]
    ensures Packages(rfs + [rf]) == Packages(rfs) + if rf.opf.Some? then {rf.opf.value} else {}
  {
    var rs := rfs + [rf];
    assert rs[..|rfs|] == rfs;
    forall o | o in Packages(rs)
      ensures o in Packages(rfs) + if rf.opf.Some? then {rf.opf.value} else {}
    {
      var i :| 0 <= i < |rs| && rs[i].opf.Some? && rs[i].opf.value == o;
      if i < |rfs| {
        assert rs[i] == rfs[i];
      }
    }
    forall o | o in Packages(rfs)
      ensures o in Packages(rs)
    {
      var i :| 0 <= i < |rfs| && rfs[i].opf.Some? && rfs[i].opf.value == o;
      assert rs[i] == rfs[i];
    }
    if rf.opf.Some? {
      assert rs[|rfs|] == rf;
    }
  }
}
