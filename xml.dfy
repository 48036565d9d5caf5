/** A parsed XML element and the parts of ElementTree's path language the
    scripts use: `find`, `findall` and `findtext` with a single step, either
    `tag` (no namespace), `{*}tag` (any namespace or none), or the same
    preceded by `.//` (every element below, in document order). */
module Xml {
  import opened Text

  /** An element as ElementTree holds it: `ns` is the `{uri}` part of the
      tag, `text` the character data before the first child (None when
      there is none). */
  datatype Element = Element(
    ns: Option<string>,
    name: string,
    attrs: map<string, string>,
    text: Option<string>,
    children: seq<Element>)

  /** One path step: `AnyNs("x")` is `{*}x`, `Plain("x")` is `x`. */
  datatype Step = AnyNs(local: string) | Plain(tag: string)

  predicate Matches(e: Element, s: Step) {
    match s
    case AnyNs(local) => e.name == local
    case Plain(tag) => e.ns.None? && e.name == tag
  }

  /** `e.get(key)`. */
  function Get(e: Element, key: string): Option<string> {
    if key in e.attrs then Some(e.attrs[key]) else None
  }

  /** `bool(e)`: an element is truthy exactly when it has children. */
  predicate Truthy(e: Element) {
    |e.children| > 0
  }

  /** Every element strictly below `e`, in document (pre-)order. */
  function Descendants(e: Element): seq<Element>
    decreases e, |e.children| + 1
  {
    DescendantsFrom(e, 0)
  }

  function DescendantsFrom(e: Element, i: nat): seq<Element>
    requires i <= |e.children|
    decreases e, |e.children| - i
  {
    if i == |e.children| then []
    else [e.children[i]] + Descendants(e.children[i]) + DescendantsFrom(e, i + 1)
  }

  function FirstMatch(xs: seq<Element>, s: Step): Option<Element> {
    if xs == [] then None
    else if Matches(xs[0], s) then Some(xs[0])
    else FirstMatch(xs[1..], s)
  }

  function AllMatches(xs: seq<Element>, s: Step): seq<Element> {
    if xs == [] then []
    else (if Matches(xs[0], s) then [xs[0]] else []) + AllMatches(xs[1..], s)
  }

  /** `e.find(step)`: the first matching child. */
  function Find(e: Element, s: Step): Option<Element> {
    FirstMatch(e.children, s)
  }

  /** `e.findall(step)`: the matching children, in order. */
  function FindAll(e: Element, s: Step): seq<Element> {
    AllMatches(e.children, s)
  }

  /** `e.find(".//" + step)`. */
  function FindBelow(e: Element, s: Step): Option<Element> {
    FirstMatch(Descendants(e), s)
  }

  /** `e.findall(".//" + step)`. */
  function FindAllBelow(e: Element, s: Step): seq<Element> {
    AllMatches(Descendants(e), s)
  }

  /** `e.findtext(step, default)`: the default when no child matches, the
      child's text when it has one, and `""` when its text is None. */
  function FindText(e: Element, s: Step, default: string): string {
    match Find(e, s)
    case None => default
    case Some(c) => c.text.GetOr("")
  }

  /** The text of the element a step finds, or `""`: the
      `x.findtext(step, default="").strip()` idiom. */
  function FieldText(e: Element, s: Step): string {
    Strip(FindText(e, s, ""))
  }

  lemma {:induction false} FirstMatchSpec(xs: seq<Element>, s: Step)
    ensures FirstMatch(xs, s).None? <==> forall i :: 0 <= i < |xs| ==> !Matches(xs[i], s)
    ensures FirstMatch(xs, s).Some? ==>
              exists k :: 0 <= k < |xs| && xs[k] == FirstMatch(xs, s).value && Matches(xs[k], s)
                          && forall i :: 0 <= i < k ==> !Matches(xs[i], s)
  {
    if xs != [] && !Matches(xs[0], s) {
      FirstMatchSpec(xs[1..], s);
      if FirstMatch(xs[1..], s).Some? {
        var k :| 0 <= k < |xs[1..]| && xs[1..][k] == FirstMatch(xs, s).value && Matches(xs[1..][k], s)
                 && forall i :: 0 <= i < k ==> !Matches(xs[1..][i], s);
        assert xs[k + 1] == xs[1..][k];
        forall i | 0 <= i < k + 1 ensures !Matches(xs[i], s) {
          if i > 0 {
            assert xs[i] == xs[1..][i - 1];
          }
        }
      }
    } else if xs != [] {
      assert xs[0] == FirstMatch(xs, s).value;
    }
  }

  lemma {:induction false} AllMatchesSpec(xs: seq<Element>, s: Step)
    ensures forall x :: x in AllMatches(xs, s) <==> x in xs && Matches(x, s)
    ensures |AllMatches(xs, s)| <= |xs|
  {
    if xs != [] {
      AllMatchesSpec(xs[1..], s);
      assert xs == [xs[0]] + xs[1..];
    }
  }

  /** `find` returns the first element of what `findall` returns. */
  lemma {:induction false} FirstOfAll(xs: seq<Element>, s: Step)
    ensures FirstMatch(xs, s).None? <==> AllMatches(xs, s) == []
    ensures FirstMatch(xs, s).Some? ==> FirstMatch(xs, s).value == AllMatches(xs, s)[0]
  {
    if xs != [] && !Matches(xs[0], s) {
      FirstOfAll(xs[1..], s);
    }
  }

  /** Children are among the descendants. */
  lemma {:induction false} ChildIsDescendant(e: Element, i: nat)
    requires i < |e.children|
    ensures e.children[i] in Descendants(e)
  {
    ChildInDescendantsFrom(e, 0, i);
  }

  lemma {:induction false} ChildInDescendantsFrom(e: Element, j: nat, i: nat)
    requires j <= i < |e.children|
    ensures e.children[i] in DescendantsFrom(e, j)
    decreases i - j
  {
    if j < i {
      ChildInDescendantsFrom(e, j + 1, i);
    }
  }

  /** Without children there is nothing below an element. */
  lemma NoChildrenNoDescendants(e: Element)
    requires !Truthy(e)
    ensures Descendants(e) == []
  {
  }

  /** The text of a found element when it is a non-empty string: the
      `elem is not None and elem.text` test. */
  function TruthyText(e: Option<Element>): (r: Option<string>)
    ensures r.Some? ==> r.value != ""
  {
    if e.Some? && e.value.text.Some? && e.value.text.value != "" then e.value.text else None
  }

  /** `e.tag == t` for a tag without namespace. */
  predicate HasTag(e: Element, t: string) {
    e.ns.None? && e.name == t
  }

  /** `e.get(key) == value`. */
  predicate AttrIs(e: Element, key: string, value: string) {
    Get(e, key) == Some(value)
  }

  /** `e.text or ""`. */
  function TextOr(e: Element): string {
    if e.text.Some? then e.text.value else ""
  }

  /** `e.get(key)` is a non-empty string. */
  predicate HasTruthyAttr(e: Element, key: string) {
    Get(e, key).Some? && Get(e, key).value != ""
  }
}
