/**
 * `LXJSONElement`: one node of the tree the JSON parser builds. A node has a
 * tag, a value, an array flag, its sub-elements in the order they were
 * added, and a parent link. The parser updates these fields in place.
 */
module JsonTree {
  import opened Wrappers

  class Element {
    var tag: string
    var value: string
    var isArray: bool
    var subelements: seq<Element>
    var parent: Element?

    /** `LXJSONElement()`: empty tag and value, no parent, no sub-elements. */
    constructor ()
      ensures Blank(this) && parent == null
    {
      tag, value, isArray := "", "", false;
      subelements := [];
      parent := null;
    }

    /** `LXJSONElement(p)`: an empty element whose parent is `p`. */
    constructor WithParent(p: Element?)
      ensures Blank(this) && parent == p
    {
      tag, value, isArray := "", "", false;
      subelements := [];
      parent := p;
    }

    /**
     * `LXJSONElement(a, p)`: the array flag is `a`; the parent is left null,
     * because the source chains to the three-argument constructor with
     * `null` and never stores `p`.
     */
    constructor WithArrayFlag(a: bool, p: Element?)
      ensures tag == "" && value == "" && subelements == [] && isArray == a && parent == null
    {
      tag, value, isArray := "", "", a;
      subelements := [];
      parent := null;
    }

    /** `LXJSONElement(t, v, p)`. */
    constructor WithFields(t: string, v: string, p: Element?)
      ensures tag == t && value == v && parent == p && subelements == [] && !isArray
    {
      tag, value, isArray := t, v, false;
      subelements := [];
      parent := p;
    }

    /** `addSubElement`: one new empty element, parent this, appended after the others. */
    method AddSubElement() returns (r: Element)
      modifies this
      ensures GrewBy(this, r)
      ensures tag == old(tag) && value == old(value) && isArray == old(isArray) && parent == old(parent)
    {
      r := new Element.WithParent(this);
      subelements := subelements + [r];
    }

    /** `findSubElement`: the first sub-element whose tag is `s`, or null. */
    method FindSubElement(s: string) returns (r: Element?)
      ensures var k := FirstIndex(TagsOf(subelements), s);
        if k.Some? then r == subelements[k.value] else r == null
    {
      var i := 0;
      while i < |subelements|
        invariant 0 <= i <= |subelements|
        invariant FirstIndex(TagsOf(subelements), s) == FirstIndexFrom(TagsOf(subelements), s, i)
      {
        if subelements[i].tag == s {
          return subelements[i];
        }
        i := i + 1;
      }
      return null;
    }
  }

  /** A fresh element: empty tag and value, not an array, no sub-elements. */
  predicate Blank(e: Element)
    reads e
  {
    e.tag == "" && e.value == "" && !e.isArray && e.subelements == []
  }

  /** `x` gained exactly one sub-element, `y`: new, blank, and pointing back at `x`. */
  twostate predicate GrewBy(x: Element, new y: Element)
    reads x, y
  {
    fresh(y) && Blank(y) && y.parent == x && x.subelements == old(x.subelements) + [y]
  }

  /** The tags of `elems`, in order. */
  function TagsOf(elems: seq<Element>): (r: seq<string>)
    reads elems
    ensures |r| == |elems| && forall i :: 0 <= i < |elems| ==> r[i] == elems[i].tag
  {
    if elems == [] then [] else [elems[0].tag] + TagsOf(elems[1..])
  }

  /** Where the search loop of `findSubElement` stops when it starts at `i`. */
  function FirstIndexFrom(tags: seq<string>, s: string, i: nat): (r: Option<nat>)
    ensures r.Some? ==> i <= r.value < |tags| && tags[r.value] == s
    decreases |tags| - i
  {
    if i >= |tags| then None
    else if tags[i] == s then Some(i)
    else FirstIndexFrom(tags, s, i + 1)
  }

  /** The index of the first tag equal to `s`, if any. */
  function FirstIndex(tags: seq<string>, s: string): (r: Option<nat>)
    ensures r.Some? ==> r.value < |tags| && tags[r.value] == s
  {
    FirstIndexFrom(tags, s, 0)
  }

  // ---- What the search finds ----

  /** The search from `i` finds `k` exactly when `k` is the first match at or after `i`. */
  lemma {:induction false} FirstFromIsFirst(tags: seq<string>, s: string, i: nat, k: nat)
    ensures FirstIndexFrom(tags, s, i) == Some(k) <==>
      i <= k < |tags| && tags[k] == s && forall j :: i <= j < k ==> tags[j] != s
    decreases |tags| - i
  {
    if i < |tags| && tags[i] != s {
      FirstFromIsFirst(tags, s, i + 1, k);
      if i <= k < |tags| && tags[k] == s && forall j :: i + 1 <= j < k ==> tags[j] != s {
        assert k != i;
      }
    }
  }

  /** The search from `i` finds nothing exactly when no tag at or after `i` is `s`. */
  lemma {:induction false} FirstFromNone(tags: seq<string>, s: string, i: nat)
    ensures FirstIndexFrom(tags, s, i) == None <==> forall j :: i <= j < |tags| ==> tags[j] != s
    decreases |tags| - i
  {
    if i < |tags| && tags[i] != s {
      FirstFromNone(tags, s, i + 1);
    }
  }

  /** `findSubElement` finds the first sub-element with the tag, and null only when none has it. */
  lemma FirstIndexIsFirst(tags: seq<string>, s: string, k: nat)
    ensures FirstIndex(tags, s) == Some(k) <==> k < |tags| && tags[k] == s && forall j :: 0 <= j < k ==> tags[j] != s
    ensures FirstIndex(tags, s) == None <==> s !in tags
  {
    FirstFromIsFirst(tags, s, 0, k);
    FirstFromNone(tags, s, 0);
  }

  /**
   * `addSubElement` then `findSubElement`: the new element has the empty
   * tag, so a search finds what it found before, or the new element when
   * it searches for "" and nothing earlier had that tag.
   */
  lemma AddedKeepsFirst(tags: seq<string>, s: string)
    ensures FirstIndex(tags + [""], s)
      == if s in tags then FirstIndex(tags, s) else if s == "" then Some(|tags|) else None
  {
    var t := tags + [""];
    FirstFromNone(tags, s, 0);
    FirstFromNone(t, s, 0);
    if s in tags {
      var k :| FirstIndex(tags, s) == Some(k);
      FirstIndexIsFirst(tags, s, k);
      FirstIndexIsFirst(t, s, k);
    } else if s == "" {
      FirstIndexIsFirst(t, s, |tags|);
    }
  }
}
