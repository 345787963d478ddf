/**
 * The PHP value semantics that the package documents are built on: nullable
 * strings, the empty() test, and PHP arrays with string keys, which are
 * ordered maps that keep their insertion order.
 */
module Php {

  datatype Option<+T> = None | Some(value: T)

  datatype Result<+T, +E> = Ok(value: T) | Err(error: E)

  /** The outcome of a void PHP method that may throw. */
  datatype Outcome<+E> = Pass | Fail(error: E)

  /** `$str . <text produced by a step that may throw>`: the error propagates. */
  function Prepend<E>(x: string, r: Result<string, E>): (q: Result<string, E>)
    ensures q.Ok? <==> r.Ok?
    ensures q.Ok? ==> q.value == x + r.value
    ensures q.Err? ==> q.error == r.error
  {
    match r
    case Ok(y) => Ok(x + y)
    case Err(e) => Err(e)
  }

  lemma PrependEmpty<E>(r: Result<string, E>)
    ensures Prepend("", r) == r
  {
    if r.Ok? {
      assert "" + r.value == r.value;
    }
  }

  lemma PrependPrepend<E>(x: string, y: string, r: Result<string, E>)
    ensures Prepend(x, Prepend(y, r)) == Prepend(x + y, r)
  {
    if r.Ok? {
      Assoc(x, y, r.value);
    }
  }

  lemma Assoc<T>(a: seq<T>, b: seq<T>, c: seq<T>)
    ensures a + (b + c) == (a + b) + c
  {
  }

  /** Unfolding a suffix of a sequence by one element. */
  lemma Suffix<T>(s: seq<T>, i: nat)
    requires i < |s|
    ensures s[i..][0] == s[i] && s[i..][1..] == s[i + 1..]
  {
  }

  /** A nullable string as PHP concatenates it or uses it as an array key: null becomes "". */
  function Str(o: Option<string>): string
  {
    if o.Some? then o.value else ""
  }

  /** PHP's empty() on a string: true for "" and for "0". */
  predicate Empty(s: string)
  {
    s == "" || s == "0"
  }

  /** PHP's truth value of a nullable string, as in `if ($key && ...)`. */
  predicate Truthy(o: Option<string>)
  {
    o.Some? && !Empty(o.value)
  }

  predicate NoDup<T(==)>(s: seq<T>)
  {
    forall i, j :: 0 <= i < j < |s| ==> s[i] != s[j]
  }

  /** Position of the first occurrence of `x` in `s`. */
  function IndexOf<T(==)>(s: seq<T>, x: T): (i: nat)
    requires x in s
    ensures i < |s| && s[i] == x && x !in s[..i]
  {
    if s[0] == x then 0 else 1 + IndexOf(s[1..], x)
  }

  lemma IndexOfTail<T>(s: seq<T>, x: T)
    requires |s| > 0 && x in s[1..] && x != s[0]
    ensures IndexOf(s, x) == 1 + IndexOf(s[1..], x)
  {
  }

  /**
   * Appends to `ks`, in order, each element of `xs` that is not there yet.
   * This is the key order a PHP array ends up with when the elements of `xs`
   * are assigned as keys one after another, starting from keys `ks`.
   */
  function AppendNew<T(==)>(ks: seq<T>, xs: seq<T>): seq<T>
    decreases |xs|
  {
    if xs == [] then ks
    else AppendNew(if xs[0] in ks then ks else ks + [xs[0]], xs[1..])
  }

  /** The elements of `xs` without repetitions, each at its first occurrence. */
  function Distinct<T(==)>(xs: seq<T>): seq<T>
  {
    AppendNew([], xs)
  }

  /** Appending new elements from `xs + ys` is appending those of `xs`, then those of `ys`. */
  lemma {:induction false} AppendNewConcat<T>(ks: seq<T>, xs: seq<T>, ys: seq<T>)
    decreases |xs|
    ensures AppendNew(ks, xs + ys) == AppendNew(AppendNew(ks, xs), ys)
  {
    if xs == [] {
      assert xs + ys == ys;
    } else {
      assert (xs + ys)[0] == xs[0] && (xs + ys)[1..] == xs[1..] + ys;
      AppendNewConcat(if xs[0] in ks then ks else ks + [xs[0]], xs[1..], ys);
    }
  }

  /** AppendNew keeps `ks` as a prefix and loses no element of either argument. */
  lemma {:induction false} AppendNewMembers<T>(ks: seq<T>, xs: seq<T>)
    decreases |xs|
    ensures |ks| <= |AppendNew(ks, xs)| && AppendNew(ks, xs)[..|ks|] == ks
    ensures forall x :: x in AppendNew(ks, xs) <==> x in ks || x in xs
  {
    if xs != [] {
      var ks' := if xs[0] in ks then ks else ks + [xs[0]];
      AppendNewMembers(ks', xs[1..]);
      var r := AppendNew(ks', xs[1..]);
      assert r[..|ks|] == ks by {
        assert r[..|ks'|][..|ks|] == r[..|ks|];
      }
      forall x
        ensures x in r <==> x in ks || x in xs
      {
        assert xs == [xs[0]] + xs[1..];
        assert x in xs <==> x == xs[0] || x in xs[1..];
      }
    }
  }

  lemma {:induction false} AppendNewMember<T>(ks: seq<T>, xs: seq<T>, x: T)
    decreases |xs|
    ensures x in AppendNew(ks, xs) <==> x in ks || x in xs
  {
    if xs != [] {
      var ks' := if xs[0] in ks then ks else ks + [xs[0]];
      AppendNewMember(ks', xs[1..], x);
      assert xs == [xs[0]] + xs[1..];
    }
  }

  /** AppendNew adds no duplicate. */
  lemma {:induction false} AppendNewNoDup<T>(ks: seq<T>, xs: seq<T>)
    requires NoDup(ks)
    decreases |xs|
    ensures NoDup(AppendNew(ks, xs))
  {
    if xs != [] {
      var ks' := if xs[0] in ks then ks else ks + [xs[0]];
      assert NoDup(ks');
      AppendNewNoDup(ks', xs[1..]);
    }
  }

  /** What AppendNew adds to `ks` is ordered by first occurrence in `xs`. */
  lemma {:induction false} AppendNewOrder<T>(ks: seq<T>, xs: seq<T>)
    requires NoDup(ks)
    decreases |xs|
    ensures var r := AppendNew(ks, xs);
      forall i, j :: |ks| <= i < j < |r| ==>
        r[i] in xs && r[j] in xs && IndexOf(xs, r[i]) < IndexOf(xs, r[j])
  {
    if xs != [] {
      var x0, rest := xs[0], xs[1..];
      var ks' := if x0 in ks then ks else ks + [x0];
      assert NoDup(ks');
      var r := AppendNew(ks', rest);
      assert |ks'| <= |r| && r[..|ks'|] == ks' by {
        AppendNewMembers(ks', rest);
      }
      // the position of x0 in r, before every added element
      var p := if x0 in ks then IndexOf(ks, x0) else |ks|;
      assert r[p] == x0 by {
        assert r[..|ks'|][p] == ks'[p];
      }
      // an element added after ks' comes from rest and is not x0
      forall q | |ks'| <= q < |r|
        ensures r[q] in rest && r[q] != x0 && IndexOf(xs, r[q]) == 1 + IndexOf(rest, r[q])
      {
        AppendNewAdded(ks', rest, q);
        assert x0 in ks';
        IndexOfTail(xs, r[q]);
      }
      forall i, j | |ks| <= i < j < |r|
        ensures r[i] in xs && r[j] in xs && IndexOf(xs, r[i]) < IndexOf(xs, r[j])
      {
        if i == p {
          assert r[j] in rest;
        } else {
          AppendNewOrder(ks', rest);
        }
      }
    }
  }

  /** An element AppendNew places after `ks` comes from `xs` and is not in `ks`. */
  lemma AppendNewAdded<T>(ks: seq<T>, xs: seq<T>, q: nat)
    requires NoDup(ks)
    requires |ks| <= q < |AppendNew(ks, xs)|
    ensures AppendNew(ks, xs)[q] in xs && AppendNew(ks, xs)[q] !in ks
  {
    var r := AppendNew(ks, xs);
    AppendNewMembers(ks, xs);
    AppendNewNoDup(ks, xs);
    forall k | 0 <= k < |ks|
      ensures ks[k] != r[q]
    {
      assert r[..|ks|][k] == ks[k];
    }
    AppendNewMember(ks, xs, r[q]);
  }

  /** Distinct(xs) holds every element of xs exactly once, in first-occurrence order. */
  lemma DistinctSpec<T>(xs: seq<T>)
    ensures var d := Distinct(xs);
      && NoDup(d)
      && (forall x :: x in d <==> x in xs)
      && (forall i, j :: 0 <= i < j < |d| ==> IndexOf(xs, d[i]) < IndexOf(xs, d[j]))
  {
    AppendNewMembers([], xs);
    AppendNewNoDup([], xs);
    AppendNewOrder([], xs);
  }

  /** One key/value pair of a PHP array. */
  datatype Entry<V> = Entry(key: string, val: V)

  /** A PHP array with string keys: an ordered map, in insertion order. */
  type Array<V> = seq<Entry<V>>

  /** array_keys */
  function Keys<V>(a: Array<V>): (ks: seq<string>)
    ensures |ks| == |a|
    ensures forall i :: 0 <= i < |a| ==> ks[i] == a[i].key
  {
    if a == [] then [] else [a[0].key] + Keys(a[1..])
  }

  /** isset($a[$k]) for an array whose values are never null. */
  predicate HasKey<V>(a: Array<V>, k: string)
  {
    k in Keys(a)
  }

  /** No key occurs twice, as in every PHP array. */
  predicate UniqueKeys<V>(a: Array<V>)
  {
    NoDup(Keys(a))
  }

  /** `$a[$k]`, null when the key is absent. */
  function Get<V>(a: Array<V>, k: string): (r: Option<V>)
    ensures r.Some? <==> k in Keys(a)
    ensures r.Some? ==> Entry(k, r.value) in a
  {
    if a == [] then None
    else if a[0].key == k then Some(a[0].val)
    else Get(a[1..], k)
  }

  /** In an array without repeated keys, each entry is what its key looks up. */
  lemma GetAt<V>(a: Array<V>, i: nat)
    requires UniqueKeys(a) && i < |a|
    ensures Get(a, a[i].key) == Some(a[i].val)
  {
    forall j | 0 <= j < i ensures a[j].key != a[i].key {
      assert Keys(a)[j] != Keys(a)[i];
    }
    GetFirst(a, i);
  }

  /** An entry whose key no earlier entry has is what its key looks up. */
  lemma {:induction false} GetFirst<V>(a: Array<V>, i: nat)
    requires i < |a| && forall j :: 0 <= j < i ==> a[j].key != a[i].key
    ensures Get(a, a[i].key) == Some(a[i].val)
  {
    if i > 0 {
      var tail := a[1..];
      assert tail[i - 1] == a[i];
      forall j | 0 <= j < i - 1 ensures tail[j].key != tail[i - 1].key {
        assert tail[j] == a[j + 1];
      }
      GetFirst(tail, i - 1);
    }
  }

  /** `$a[$k] = $v`: replaces the value in place when the key is present, appends otherwise. */
  function Put<V>(a: Array<V>, k: string, v: V): (r: Array<V>)
    ensures Keys(r) == if k in Keys(a) then Keys(a) else Keys(a) + [k]
  {
    if a == [] then [Entry(k, v)]
    else if a[0].key == k then
      var r := [Entry(k, v)] + a[1..];
      assert r[1..] == a[1..];
      assert Keys(a)[0] == k;
      r
    else
      var tail := Put(a[1..], k, v);
      var r := [a[0]] + tail;
      assert r[1..] == tail;
      assert Keys(r) == [a[0].key] + Keys(tail);
      assert Keys(a) == [a[0].key] + Keys(a[1..]);
      assert k in Keys(a) <==> k in Keys(a[1..]);
      r
  }

  /** After Put, the key holds the new value and every other key its old one. */
  lemma {:induction false} PutGet<V>(a: Array<V>, k: string, v: V, j: string)
    ensures Get(Put(a, k, v), j) == if j == k then Some(v) else Get(a, j)
  {
    if a != [] && a[0].key != k {
      PutGet(a[1..], k, v, j);
      assert Put(a, k, v)[1..] == Put(a[1..], k, v);
    } else if a != [] {
      assert Put(a, k, v)[1..] == a[1..];
    }
  }

  /** Put keeps the keys unique. */
  lemma PutUnique<V>(a: Array<V>, k: string, v: V)
    requires UniqueKeys(a)
    ensures UniqueKeys(Put(a, k, v))
  {
    var ks := Keys(a);
    if k !in ks {
      assert Keys(Put(a, k, v)) == ks + [k];
      forall i, j | 0 <= i < j < |ks + [k]|
        ensures (ks + [k])[i] != (ks + [k])[j]
      {
        if j == |ks| {
          assert (ks + [k])[i] == ks[i];
        }
      }
    }
  }

  /** Assigning a new key appends the pair. */
  lemma {:induction false} PutAbsent<V>(a: Array<V>, k: string, v: V)
    requires k !in Keys(a)
    ensures Put(a, k, v) == a + [Entry(k, v)]
  {
    if a == [] {
      assert Put(a, k, v) == [Entry(k, v)];
    } else {
      assert a[0].key != k;
      assert Keys(a[1..]) == Keys(a)[1..];
      PutAbsent(a[1..], k, v);
      assert Put(a, k, v) == [a[0]] + (a[1..] + [Entry(k, v)]);
      Assoc([a[0]], a[1..], [Entry(k, v)]);
      assert a == [a[0]] + a[1..];
    }
  }

  /** Every pair of Put(a, k, v) is the new pair or the pair of `a` at the same position. */
  lemma {:induction false} PutEntries<V>(a: Array<V>, k: string, v: V)
    decreases |a|
    ensures forall i :: 0 <= i < |Put(a, k, v)| ==> Put(a, k, v)[i] == Entry(k, v) || (i < |a| && Put(a, k, v)[i] == a[i])
  {
    var r := Put(a, k, v);
    if a == [] {
      assert r == [Entry(k, v)];
    } else if a[0].key == k {
      assert r == [Entry(k, v)] + a[1..];
      forall i | 0 <= i < |r| ensures r[i] == Entry(k, v) || (i < |a| && r[i] == a[i]) {
        if i > 0 { assert r[i] == a[i]; }
      }
    } else {
      var t := Put(a[1..], k, v);
      PutEntries(a[1..], k, v);
      assert r == [a[0]] + t;
      forall i | 0 <= i < |r| ensures r[i] == Entry(k, v) || (i < |a| && r[i] == a[i]) {
        if i > 0 {
          assert r[i] == t[i - 1];
          assert i - 1 < |a[1..]| ==> a[1..][i - 1] == a[i];
        }
      }
    }
  }

  /** The tail of an array without repeated keys has none either, nor the head's key. */
  lemma UniqueTail<V>(a: Array<V>)
    requires UniqueKeys(a) && a != []
    ensures UniqueKeys(a[1..]) && a[0].key !in Keys(a[1..])
  {
    assert Keys(a[1..]) == Keys(a)[1..];
    forall j | 0 <= j < |Keys(a[1..])|
      ensures Keys(a[1..])[j] != a[0].key
    {
      assert Keys(a)[0] != Keys(a)[j + 1];
    }
  }

  /** Key order of an array after assigning keys `xs` one after another: AppendNew. */
  lemma PutKeysOrder<V>(a: Array<V>, k: string, v: V)
    ensures Keys(Put(a, k, v)) == AppendNew(Keys(a), [k])
  {
  }
}
