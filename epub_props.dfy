/** What getChapters promises about the chapter list it builds. */
module EpubProps {
  import opened Php
  import opened Epub

  // ---------------------------------------------------------------------------
  // array_flip

  /** Flipping keeps one key per distinct value, in first-occurrence order. */
  lemma {:induction false} FlipKeys(a: Array<string>)
    ensures Keys(Flip(a)) == Distinct(Values(a))
  {
    if a != [] {
      var init := a[..|a| - 1];
      var last := a[|a| - 1];
      FlipKeys(init);
      PutKeysOrder(Flip(init), last.val, last.key);
      assert Values(a) == Values(init) + [last.val];
      AppendNewConcat([], Values(init), [last.val]);
    }
  }

  /** A flipped value looks up the key of its last occurrence: of several ids sharing an href, the last one wins. */
  lemma {:induction false} FlipGet(a: Array<string>, v: string)
    ensures Get(Flip(a), v) == LastKeyOf(a, v)
  {
    if a != [] {
      var init := a[..|a| - 1];
      var last := a[|a| - 1];
      PutGet(Flip(init), last.val, last.key, v);
      FlipGet(init, v);
    }
  }

  lemma FlipUnique(a: Array<string>)
    ensures UniqueKeys(Flip(a))
  {
    FlipKeys(a);
    DistinctSpec(Values(a));
  }

  // ---------------------------------------------------------------------------
  // array_merge

  /** A merged field comes from the second array when it has the key, from the first otherwise. */
  lemma {:induction false} MergeGet<V>(a: Array<V>, b: Array<V>, k: string)
    requires UniqueKeys(b)
    decreases |b|
    ensures Get(Merge(a, b), k) == if k in Keys(b) then Get(b, k) else Get(a, k)
  {
    if b != [] {
      UniqueTail(b);
      MergeGet(Put(a, b[0].key, b[0].val), b[1..], k);
      PutGet(a, b[0].key, b[0].val, k);
      assert Keys(b) == [b[0].key] + Keys(b[1..]);
    }
  }

  /** The merged keys: those of the first array, then the new ones of the second, in order. */
  lemma {:induction false} MergeKeys<V>(a: Array<V>, b: Array<V>)
    decreases |b|
    ensures Keys(Merge(a, b)) == AppendNew(Keys(a), Keys(b))
  {
    if b != [] {
      MergeKeys(Put(a, b[0].key, b[0].val), b[1..]);
      PutKeysOrder(a, b[0].key, b[0].val);
      assert Keys(b) == [b[0].key] + Keys(b[1..]);
      AppendNewConcat(Keys(a), [b[0].key], Keys(b[1..]));
    }
  }

  // ---------------------------------------------------------------------------
  // One chapter

  function NavKeys(): seq<string>
  {
    ["navId", "navLavel", "navParent", "playOrder", "content"]
  }

  lemma NavKeysDistinct()
    ensures NoDup(NavKeys())
  {
    var ks := NavKeys();
    assert |ks[0]| == 5 && |ks[1]| == 8 && |ks[2]| == 9 && |ks[3]| == 9 && |ks[4]| == 7;
    assert ks[2][0] != ks[3][0];
  }

  lemma NavFieldsKeys(np: Array<Option<string>>)
    ensures Keys(NavFields(np)) == NavKeys()
  {
    var nf := NavFields(np);
    KeysOfFive(nf[0], nf[1], nf[2], nf[3], nf[4]);
    assert nf == [nf[0], nf[1], nf[2], nf[3], nf[4]];
  }

  lemma KeysOfFive<V>(e0: Entry<V>, e1: Entry<V>, e2: Entry<V>, e3: Entry<V>, e4: Entry<V>)
    ensures Keys([e0, e1, e2, e3, e4]) == [e0.key, e1.key, e2.key, e3.key, e4.key]
  {
    var ks := Keys([e0, e1, e2, e3, e4]);
    assert |ks| == 5;
    assert ks[0] == e0.key && ks[1] == e1.key && ks[2] == e2.key && ks[3] == e3.key && ks[4] == e4.key;
  }

  lemma NavFieldsUnique(np: Array<Option<string>>)
    ensures UniqueKeys(NavFields(np))
  {
    NavFieldsKeys(np);
    NavKeysDistinct();
    var ks := Keys(NavFields(np));
    assert ks == NavKeys();
    assert NoDup(ks);
  }

  /** The `i`-th navigation field of a chapter is the `i`-th of NavFields. */
  lemma ChapterNavField(href: string, id: string, manifestByHref: string -> Array<Option<string>>,
                        navPointOf: string -> Array<Option<string>>, usage: Array<seq<string>>, i: nat)
    requires i < 5
    ensures Field(ChapterOf(href, id, manifestByHref, navPointOf, usage).fields, NavKeys()[i])
      == NavFields(navPointOf(id))[i].val
  {
    var nav := NavFields(navPointOf(id));
    NavFieldsKeys(navPointOf(id));
    NavFieldsUnique(navPointOf(id));
    GetAt(nav, i);
    MergeGet(manifestByHref(StripFragment(href)), nav, nav[i].key);
  }

  /** A chapter's keys: the manifest item's, then the navPoint fields not already among them. */
  lemma ChapterKeys(href: string, id: string, manifestByHref: string -> Array<Option<string>>,
                    navPointOf: string -> Array<Option<string>>, usage: Array<seq<string>>)
    ensures Keys(ChapterOf(href, id, manifestByHref, navPointOf, usage).fields)
      == AppendNew(Keys(manifestByHref(StripFragment(href))), NavKeys())
  {
    NavFieldsKeys(navPointOf(id));
    MergeKeys(manifestByHref(StripFragment(href)), NavFields(navPointOf(id)));
  }

  /** A chapter's navigation fields are those of the navPoint of its id. */
  lemma ChapterNavFields(href: string, id: string, manifestByHref: string -> Array<Option<string>>,
                         navPointOf: string -> Array<Option<string>>, usage: Array<seq<string>>)
    ensures var c := ChapterOf(href, id, manifestByHref, navPointOf, usage);
      var np := navPointOf(id);
      && Field(c.fields, "navId") == Field(np, "id")
      && Field(c.fields, "navLavel") == Field(np, "navLabel")
      && Field(c.fields, "navParent") == Field(np, "parent")
      && Field(c.fields, "playOrder") == Field(np, "playOrder")
      && Field(c.fields, "content") == Field(np, "content")
  {
    ChapterNavField(href, id, manifestByHref, navPointOf, usage, 0);
    ChapterNavField(href, id, manifestByHref, navPointOf, usage, 1);
    ChapterNavField(href, id, manifestByHref, navPointOf, usage, 2);
    ChapterNavField(href, id, manifestByHref, navPointOf, usage, 3);
    ChapterNavField(href, id, manifestByHref, navPointOf, usage, 4);
  }

  /** Every other field of a chapter is the manifest item's, looked up by the href without its fragment. */
  lemma ChapterItemField(href: string, id: string, manifestByHref: string -> Array<Option<string>>,
                         navPointOf: string -> Array<Option<string>>, usage: Array<seq<string>>, k: string)
    requires k !in NavKeys()
    ensures Field(ChapterOf(href, id, manifestByHref, navPointOf, usage).fields, k)
      == Field(manifestByHref(StripFragment(href)), k)
  {
    NavFieldsKeys(navPointOf(id));
    NavFieldsUnique(navPointOf(id));
    MergeGet(manifestByHref(StripFragment(href)), NavFields(navPointOf(id)), k);
  }

  // ---------------------------------------------------------------------------
  // The dependency list

  /** `x` is a dependency in `deps`, or a dependency of one of them. */
  predicate OneLevel(deps: seq<string>, usage: Array<seq<string>>, x: string)
  {
    x in deps || exists d :: d in deps && x in Deps(usage, d)
  }

  lemma OneLevelSnoc(deps: seq<string>, usage: Array<seq<string>>, x: string)
    requires deps != []
    ensures OneLevel(deps, usage, x) <==>
      OneLevel(deps[..|deps| - 1], usage, x) || x == deps[|deps| - 1] || x in Deps(usage, deps[|deps| - 1])
  {
    var init, last := deps[..|deps| - 1], deps[|deps| - 1];
    assert deps == init + [last];
    if OneLevel(deps, usage, x) && x !in deps {
      var d :| d in deps && x in Deps(usage, d);
      assert d == last || d in init;
    }
    if OneLevel(init, usage, x) && x !in init {
      var d :| d in init && x in Deps(usage, d);
      assert d in deps;
    }
    if x in Deps(usage, last) {
      assert last in deps;
    }
  }

  /** What the files loop collects: the direct dependencies and their own dependencies, one level deep. */
  lemma {:induction false} ExpandMembers(deps: seq<string>, usage: Array<seq<string>>, x: string)
    ensures x in Expand(deps, usage) <==> OneLevel(deps, usage, x)
  {
    if deps == [] {
      assert Expand(deps, usage) == [];
    } else {
      var init, last := deps[..|deps| - 1], deps[|deps| - 1];
      ExpandMembers(init, usage, x);
      var e, t := Expand(init, usage), Deps(usage, last);
      assert Expand(deps, usage) == e + [last] + t;
      assert x in e + [last] + t <==> x in e || x == last || x in t;
      OneLevelSnoc(deps, usage, x);
    }
  }

  /**
   * `files`, when set: the dependencies of the chapter's file and theirs,
   * each once, in the order the loop first meets them.
   */
  lemma FilesSpec(file: string, usage: Array<seq<string>>)
    requires HasKey(usage, file)
    ensures var deps := Get(usage, file).value;
      var files := FilesOf(file, usage).value;
      var collected := Expand(deps, usage);
      && NoDup(files)
      && (forall x :: x in files <==> OneLevel(deps, usage, x))
      && (forall x :: x in files <==> x in collected)
      && (forall i, j :: 0 <= i < j < |files| ==> IndexOf(collected, files[i]) < IndexOf(collected, files[j]))
  {
    var deps := Get(usage, file).value;
    DistinctSpec(Expand(deps, usage));
    forall x
      ensures x in Expand(deps, usage) <==> OneLevel(deps, usage, x)
    {
      ExpandMembers(deps, usage, x);
    }
  }

  // ---------------------------------------------------------------------------
  // The chapter list

  lemma {:induction false} ChaptersAt(navPoints: Array<string>, manifestByHref: string -> Array<Option<string>>,
                                      navPointOf: string -> Array<Option<string>>, usage: Array<seq<string>>, i: nat)
    requires i < |navPoints|
    ensures Chapters(navPoints, manifestByHref, navPointOf, usage)[i]
      == ChapterOf(navPoints[i].key, navPoints[i].val, manifestByHref, navPointOf, usage)
  {
    if i < |navPoints| - 1 {
      var init := navPoints[..|navPoints| - 1];
      ChaptersAt(init, manifestByHref, navPointOf, usage, i);
    }
  }

  /**
   * getChapters returns one chapter per distinct nav href, in the order the
   * hrefs first occur, each joined with the last nav id carrying that href.
   */
  lemma ChapterList(navId2src: Array<string>, manifestByHref: string -> Array<Option<string>>,
                    navPointOf: string -> Array<Option<string>>, usage: Array<seq<string>>)
    ensures var cs := Chapters(Flip(navId2src), manifestByHref, navPointOf, usage);
      var hrefs := Distinct(Values(navId2src));
      && |cs| == |hrefs|
      && forall i :: 0 <= i < |hrefs| ==>
        LastKeyOf(navId2src, hrefs[i]).Some? &&
        cs[i] == ChapterOf(hrefs[i], LastKeyOf(navId2src, hrefs[i]).value, manifestByHref, navPointOf, usage)
  {
    var flipped := Flip(navId2src);
    var hrefs := Distinct(Values(navId2src));
    FlipKeys(navId2src);
    FlipUnique(navId2src);
    assert |hrefs| == |Keys(flipped)| == |flipped|;
    forall i | 0 <= i < |hrefs|
      ensures LastKeyOf(navId2src, hrefs[i]) == Some(flipped[i].val)
      ensures Chapters(flipped, manifestByHref, navPointOf, usage)[i]
        == ChapterOf(hrefs[i], flipped[i].val, manifestByHref, navPointOf, usage)
    {
      assert hrefs[i] == Keys(flipped)[i] == flipped[i].key;
      GetAt(flipped, i);
      FlipGet(navId2src, hrefs[i]);
      ChaptersAt(flipped, manifestByHref, navPointOf, usage, i);
    }
  }
}
