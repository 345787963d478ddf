/**
 * What the documents take from the XML layer and from PHP's string library:
 * attribute lookup on a parsed element (XML::getAttr), the text of attributes
 * and tags as the serialisers concatenate them, dirname() and trim().
 */
module Xml {
  import opened Php

  /** An attribute of a parsed element. */
  datatype Attr = Attr(name: string, value: string)

  /** XML::getAttr: the value of the first attribute called `name`, null when there is none. */
  function GetAttr(attrs: seq<Attr>, name: string): (r: Option<string>)
    ensures r.None? <==> forall i :: 0 <= i < |attrs| ==> attrs[i].name != name
    ensures r.Some? ==> Attr(name, r.value) in attrs
  {
    if attrs == [] then None
    else if attrs[0].name == name then Some(attrs[0].value)
    else GetAttr(attrs[1..], name)
  }

  /** Looking up a name in two attribute lists one after the other. */
  lemma {:induction false} GetAttrConcat(a: seq<Attr>, b: seq<Attr>, name: string)
    ensures GetAttr(a + b, name) == if GetAttr(a, name).Some? then GetAttr(a, name) else GetAttr(b, name)
  {
    if a == [] {
      assert a + b == b;
    } else {
      assert (a + b)[1..] == a[1..] + b;
      GetAttrConcat(a[1..], b, name);
    }
  }

  /** An attribute that is written only when its value is set. */
  function OptAttr(name: string, v: Option<string>): (a: seq<Attr>)
    ensures forall n :: GetAttr(a, n) == if n == name then v else None
  {
    if v.Some? then [Attr(name, v.value)] else []
  }

  /** ` name="value"`, the way every serialiser writes one attribute. */
  function AttrText(a: Attr): string
  {
    " " + a.name + "=\"" + a.value + "\""
  }

  function AttrsText(attrs: seq<Attr>): string
  {
    if attrs == [] then "" else AttrText(attrs[0]) + AttrsText(attrs[1..])
  }

  /** `<name a="v" ... />` */
  function EmptyTag(name: string, attrs: seq<Attr>): string
  {
    "<" + name + AttrsText(attrs) + " />"
  }

  /** `<name a="v" ...>` */
  function StartTag(name: string, attrs: seq<Attr>): string
  {
    "<" + name + AttrsText(attrs) + ">"
  }

  /** Position of the last '/' in `p`, or -1. */
  function LastSlash(p: string): (i: int)
    ensures -1 <= i < |p|
    ensures 0 <= i ==> p[i] == '/'
    ensures forall j :: i < j < |p| ==> p[j] != '/'
  {
    if p == [] then -1
    else if p[|p| - 1] == '/' then |p| - 1
    else LastSlash(p[..|p| - 1])
  }

  /** PHP's dirname() for a path without a trailing slash. */
  function Dirname(p: string): (d: string)
    ensures '/' in p ==> |d| <= |p|
    ensures '/' !in p ==> d == "."
  {
    var i := LastSlash(p);
    if i < 0 then "." else if i == 0 then "/" else p[..i]
  }

  /** The characters PHP's trim() strips. */
  predicate IsSpace(c: char)
  {
    c == ' ' || c == '\t' || c == '\n' || c == '\r' || c == '\0' || c == '\U{B}'
  }

  function TrimLeft(s: string): (r: string)
    ensures r == [] || !IsSpace(r[0])
    ensures |r| <= |s| && r == s[|s| - |r|..]
  {
    if s != [] && IsSpace(s[0]) then TrimLeft(s[1..]) else s
  }

  function TrimRight(s: string): (r: string)
    ensures r == [] || !IsSpace(r[|r| - 1])
    ensures |r| <= |s| && r == s[..|r|]
  {
    if s != [] && IsSpace(s[|s| - 1]) then TrimRight(s[..|s| - 1]) else s
  }

  /** PHP's trim(): no stripped character is left at either end. */
  function Trim(s: string): (r: string)
    ensures r == [] || (!IsSpace(r[0]) && !IsSpace(r[|r| - 1]))
  {
    TrimRight(TrimLeft(s))
  }

  predicate Trimmed(s: string)
  {
    s == [] || (!IsSpace(s[0]) && !IsSpace(s[|s| - 1]))
  }

  /** Trimming text that has no surrounding white space changes nothing. */
  lemma TrimTrimmed(s: string)
    requires Trimmed(s)
    ensures Trim(s) == s
  {
  }
}
