/**
 * `LXJSONParser`: a character-driven state machine that builds a tree of
 * elements. It keeps a brace depth, the escape and quote flags, a
 * two-state tag/value switch (0: reading a tag, 1: reading a value), the
 * element being filled and the text gathered so far. A null dereference
 * in the source (a NullPointerException, which `parseString` does not
 * catch) is the `thrown` result here; the fields keep what was assigned
 * before it.
 */
module JsonParser {
  import opened JsonTree
  import opened JsonLex

  /** What `parseString` gives its caller. */
  datatype Parse = Parsed(root: Element?) | Rejected | Threw

  /** The control fields of the parser. */
  datatype Control = Control(state: int, braceCount: int, valid: bool, complete: bool)

  class Parser {
    var state: int
    var braceCount: int
    var escape: bool
    var quote: bool
    var valid: bool
    var complete: bool
    var root: Element?
    var currentElement: Element?
    var currentData: string
    /** Every element this parser has made or been handed. */
    ghost var Repr: set<Element>

    /**
     * The parser's invariant: the element being filled and every parent
     * link stay inside `Repr`, the tag/value switch is 0 or 1 (so the
     * source's `state == 3` branch of ',' is never taken), and the escape
     * and quote flags are never both set.
     */
    ghost predicate Valid()
      reads this, Repr
    {
      && (currentElement != null ==> currentElement in Repr)
      && (forall e :: e in Repr ==> e.parent == null || e.parent in Repr)
      && (state == 0 || state == 1)
      && Consistent(Lex())
    }

    function Lex(): Lexer
      reads this
    {
      Lexer(escape, quote, currentData)
    }

    function Ctl(): Control
      reads this
    {
      Control(state, braceCount, valid, complete)
    }

    /** Once invalid or complete, `parseString` reads no further character. */
    predicate Stopped()
      reads this
    {
      !valid || complete
    }

    /** The elements of `Repr` other than `x` and `y`. */
    ghost function Rest(x: Element?, y: Element?): set<Element>
      reads this
    {
      set e | e in Repr && e != x && e != y
    }

    /** The field initialisers: every flag off, depth 0, no elements. */
    constructor ()
      ensures Valid()
      ensures Ctl() == Control(0, 0, false, false) && Lex() == Lexer(false, false, "")
      ensures root == null && currentElement == null && Repr == {}
    {
      state, braceCount := 0, 0;
      escape, quote, valid, complete := false, false, false, false;
      root, currentElement := null, null;
      currentData := "";
      Repr := {};
    }

    /**
     * `parseString`: the state and depth are reset, the input is marked
     * valid when it is not empty, and characters are fed one by one until
     * the input is used up or the parser is invalid or complete. The
     * result is null when invalid and the root otherwise. `count` is the
     * number of characters read and `before` the control state each of them
     * was read in.
     */
    method ParseString(s: string) returns (r: Parse, ghost count: nat, ghost before: seq<Control>)
      requires Valid()
      modifies this, Repr
      ensures Valid() && old(Repr) <= Repr
      ensures count <= |s| && |before| == count
      ensures count > 0 ==> before[0] == Control(0, 0, true, old(complete))
      ensures forall i :: 1 <= i < count ==> before[i].valid && !before[i].complete
      ensures r.Threw? ==> count >= 1
      ensures !r.Threw? ==> r == (if valid then Parsed(root) else Rejected)
      ensures !r.Threw? ==> count == |s| || Stopped()
      ensures |s| == 0 ==> Ctl() == old(Ctl()).(state := 0, braceCount := 0) && root == old(root)
      ensures |s| == 0 ==> r == (if old(valid) then Parsed(old(root)) else Rejected)
      ensures |s| > 0 && old(complete) ==> count == 1
    {
      state := 0;
      braceCount := 0;
      if |s| > 0 {
        valid := true;
      }
      ghost var start := Ctl();
      before := [];
      var k := 0;
      while k < |s|
        invariant 0 <= k <= |s| && Valid() && old(Repr) <= Repr && fresh(Repr - old(Repr))
        invariant |before| == k
        invariant k > 0 ==> before[0] == start
        invariant forall i :: 1 <= i < k ==> before[i].valid && !before[i].complete
        invariant k == 0 ==> Ctl() == start
        invariant |s| == 0 ==> root == old(root)
        invariant k > 0 ==> valid && !complete
        invariant old(complete) ==> k == 0
        modifies this, Repr
      {
        before := before + [Ctl()];
        var thrown := ProcessCharacter(s[k]);
        if thrown {
          return Threw, k + 1, before;
        }
        k := k + 1;
        if !valid || complete {
          break;
        }
      }
      count := k;
      if !valid {
        return Rejected, count, before;
      }
      return Parsed(root), count, before;
    }

    /**
     * `processCharacter`: a character other than the structural ones moves
     * the character layer as `LexStep` says and changes nothing else; the
     * structural ones go to the helpers below, which state what each does,
     * and leave both flags clear. No character makes the parser valid again
     * or incomplete again.
     */
    method ProcessCharacter(c: char) returns (thrown: bool)
      requires Valid()
      modifies this, Repr
      ensures Valid() && old(Repr) <= Repr && fresh(Repr - old(Repr))
      ensures !IsStructural(old(Lex()), c) ==>
        && !thrown && Lex() == LexStep(old(Lex()), c) && Ctl() == old(Ctl())
        && root == old(root) && currentElement == old(currentElement) && Repr == old(Repr) && unchanged(Repr)
      ensures IsStructural(old(Lex()), c) ==> !escape && !quote
      ensures !old(valid) ==> !valid
      ensures old(complete) ==> complete
    {
      thrown := false;
      if escape {
        currentData := currentData + [c];
        escape := false;
      } else if quote {
        if c == '"' {
          quote := false;
        } else {
          currentData := currentData + [c];
        }
      } else if c == '\\' {
        escape := true;
      } else if c == '{' {
        thrown := ProcessLeftBrace();
      } else if c == '}' {
        thrown := ProcessRightBrace();
      } else if c == '"' {
        quote := true;
      } else if c == ':' {
        thrown := ProcessColon();
      } else if c == ',' {
        thrown := ProcessComma();
      } else if c == '[' {
        thrown := ProcessLeftBracket();
      } else if c == ']' {
        thrown := ProcessRightBracket();
      } else if c == ' ' {
        // an unquoted space is dropped
      } else {
        currentData := currentData + [c];
      }
    }

    /** ':' ends a tag: in state 0 the gathered text becomes the tag and state 1 begins; otherwise the input is invalid. */
    method ProcessColon() returns (thrown: bool)
      requires Valid() && !escape && !quote
      modifies this, Repr
      ensures Valid() && Repr == old(Repr) && unchanged(old(Rest(currentElement, null)))
      ensures root == old(root) && currentElement == old(currentElement) && !escape && !quote
      ensures braceCount == old(braceCount) && complete == old(complete)
      ensures old(state) == 0 ==> state == 1 && valid == old(valid) && (thrown <==> old(currentElement) == null)
      ensures old(state) == 0 && !thrown ==> currentElement.tag == old(currentData) && currentData == ""
      ensures old(state) != 0 ==> !thrown && !valid && state == old(state)
      ensures thrown || old(state) != 0 ==> currentData == old(currentData)
      ensures old(currentElement) != null ==> Kept(old(currentElement), true, false)
    {
      if state == 0 {
        state := 1;
        if currentElement == null {
          return true;
        }
        currentElement.tag := currentData;
        currentData := "";
      } else {
        valid := false;
      }
      return false;
    }

    /**
     * ',' ends a value or an array item and starts a sibling. In state 1
     * the text becomes the value and state 0 begins; in state 0 the text
     * becomes the tag when the parent is an array. Either way the parent
     * gains a new element, which becomes the one being filled.
     */
    method ProcessComma() returns (thrown: bool)
      requires Valid() && !escape && !quote
      modifies this, Repr
      ensures Valid() && unchanged(old(Rest(currentElement, if currentElement == null then null else currentElement.parent)))
      ensures root == old(root) && !escape && !quote
      ensures braceCount == old(braceCount) && complete == old(complete) && valid == old(valid)
      ensures thrown <==> old(currentElement) == null || old(currentElement.parent) == null
      ensures thrown ==> currentElement == old(currentElement) && Repr == old(Repr)
      ensures old(state) == 1 && old(currentElement) != null ==>
        state == 0 && old(currentElement).value == old(currentData) && currentData == ""
      ensures old(state) == 1 && old(currentElement) == null ==> state == 1 && currentData == old(currentData)
      ensures old(state) == 0 ==> state == 0
      ensures old(state) == 0 && !thrown ==>
        if old(currentElement.parent.isArray) then old(currentElement).tag == old(currentData) && currentData == ""
        else currentData == old(currentData)
      ensures !thrown ==> currentElement != null && GrewBy(old(currentElement.parent), currentElement) && Repr == old(Repr) + {currentElement}
    {
      if state == 1 {
        if currentElement == null {
          return true;
        }
        currentElement.value := currentData;
        currentData := "";
        state := 0;
        if currentElement.parent == null {
          return true;
        }
        var nelem := currentElement.parent.AddSubElement();
        Repr := Repr + {nelem};
        currentElement := nelem;
      } else {
        // state is 0 here: the source's branch for state 3 is unreachable
        if currentElement == null || currentElement.parent == null {
          return true;
        }
        if currentElement.parent.isArray {
          currentElement.tag := currentData;
          currentData := "";
        }
        var nelem := currentElement.parent.AddSubElement();
        Repr := Repr + {nelem};
        currentElement := nelem;
      }
      return false;
    }

    /** '[' in state 1 makes the element an array and descends into a new first item; otherwise it is ignored. */
    method ProcessLeftBracket() returns (thrown: bool)
      requires Valid() && !escape && !quote
      modifies this, Repr
      ensures Valid() && unchanged(old(Rest(currentElement, null)))
      ensures root == old(root) && Lex() == old(Lex())
      ensures braceCount == old(braceCount) && complete == old(complete) && valid == old(valid)
      ensures old(state) == 1 ==> state == 0 && (thrown <==> old(currentElement) == null)
      ensures old(state) == 1 && !thrown ==>
        old(currentElement).isArray && currentElement != null && GrewBy(old(currentElement), currentElement) && Repr == old(Repr) + {currentElement}
      ensures old(state) != 1 ==>
        !thrown && state == old(state) && currentElement == old(currentElement) && Repr == old(Repr) && unchanged(Repr)
      ensures thrown ==> currentElement == old(currentElement) && Repr == old(Repr)
    {
      if state == 1 {
        state := 0;
        if currentElement == null {
          return true;
        }
        currentElement.isArray := true;
        var nelem := currentElement.AddSubElement();
        Repr := Repr + {nelem};
        currentElement := nelem;
      }
      return false;
    }

    /** ']' closes an array item: the text becomes its tag and the array is filled next; outside an array it is invalid. */
    method ProcessRightBracket() returns (thrown: bool)
      requires Valid() && !escape && !quote
      modifies this, Repr
      ensures Valid() && Repr == old(Repr) && unchanged(old(Rest(currentElement, null)))
      ensures root == old(root) && !escape && !quote
      ensures state == old(state) && braceCount == old(braceCount) && complete == old(complete)
      ensures thrown <==> old(currentElement) == null || old(currentElement.parent) == null
      ensures !thrown && old(currentElement.parent.isArray) ==>
        valid == old(valid) && old(currentElement).tag == old(currentData) && currentData == ""
        && currentElement == old(currentElement.parent)
      ensures !thrown && !old(currentElement.parent.isArray) ==>
        !valid && currentData == old(currentData) && currentElement == old(currentElement)
      ensures thrown ==> valid == old(valid) && currentData == old(currentData) && currentElement == old(currentElement)
      ensures old(currentElement) != null ==> Kept(old(currentElement), true, false)
    {
      if currentElement == null || currentElement.parent == null {
        return true;
      }
      if currentElement.parent.isArray {
        currentElement.tag := currentData;
        currentData := "";
        currentElement := currentElement.parent;
      } else {
        valid := false;
      }
      return false;
    }

    /**
     * `processLeftBrace`: at depth 0 a new root with one empty child, the
     * element filled next; in state 1 a level down, into a new first child;
     * otherwise the input is invalid.
     */
    method ProcessLeftBrace() returns (thrown: bool)
      requires Valid() && !escape && !quote
      modifies this, Repr
      ensures Valid() && old(Repr) <= Repr && fresh(Repr - old(Repr)) && unchanged(old(Rest(currentElement, null)))
      ensures Lex() == old(Lex()) && complete == old(complete)
      ensures old(braceCount) == 0 ==>
        && !thrown && braceCount == 1 && state == old(state) && valid == old(valid)
        && root != null && fresh(root) && root.tag == "" && root.value == "" && !root.isArray && root.parent == null
        && root.subelements == [currentElement] && fresh(currentElement) && Blank(currentElement)
        && currentElement.parent == root && Repr == old(Repr) + {root, currentElement}
      ensures old(braceCount) != 0 && old(state) == 1 ==>
        && braceCount == old(braceCount) + 1 && state == 0 && valid == old(valid) && root == old(root)
        && (thrown <==> old(currentElement) == null)
      ensures old(braceCount) != 0 && old(state) == 1 && !thrown ==>
        currentElement != null && GrewBy(old(currentElement), currentElement) && Repr == old(Repr) + {currentElement}
      ensures old(braceCount) != 0 && old(state) != 1 ==>
        && !thrown && !valid && braceCount == old(braceCount) && state == old(state) && root == old(root)
        && currentElement == old(currentElement) && Repr == old(Repr) && unchanged(Repr)
      ensures thrown ==> currentElement == old(currentElement) && Repr == old(Repr)
    {
      if braceCount == 0 {
        var top := new Element();
        var first := top.AddSubElement();
        root := top;
        currentElement := first;
        Repr := Repr + {top, first};
        braceCount := braceCount + 1;
      } else if state == 1 {
        braceCount := braceCount + 1;
        state := 0;
        if currentElement == null {
          return true;
        }
        var nelem := currentElement.AddSubElement();
        Repr := Repr + {nelem};
        currentElement := nelem;
      } else {
        valid := false;
      }
      return false;
    }

    /**
     * `processRightBrace`: the depth drops by one; reaching 0 completes the
     * parse. Otherwise a value being read is stored, state 0 begins, and
     * the parent is filled next.
     */
    method ProcessRightBrace() returns (thrown: bool)
      requires Valid() && !escape && !quote
      modifies this, Repr
      ensures Valid() && Repr == old(Repr) && unchanged(old(Rest(currentElement, null)))
      ensures root == old(root) && !escape && !quote && valid == old(valid)
      ensures braceCount == old(braceCount) - 1
      ensures old(braceCount) == 1 ==>
        !thrown && complete && state == old(state) && currentElement == old(currentElement)
        && currentData == old(currentData) && unchanged(Repr)
      ensures old(braceCount) != 1 ==> complete == old(complete) && (thrown <==> old(currentElement) == null)
      ensures old(braceCount) != 1 && thrown ==> state == old(state) && currentData == old(currentData)
      ensures old(braceCount) != 1 && !thrown ==>
        && state == 0 && currentElement == old(currentElement.parent)
        && (if old(state) == 1 then old(currentElement).value == old(currentData) && currentData == ""
            else currentData == old(currentData))
      ensures old(currentElement) != null ==> Kept(old(currentElement), false, true)
    {
      braceCount := braceCount - 1;
      if braceCount == 0 {
        complete := true;
      } else {
        if state == 1 {
          if currentElement == null {
            return true;
          }
          currentElement.value := currentData;
          currentData := "";
        }
        state := 0;
        if currentElement == null {
          return true;
        }
        currentElement := currentElement.parent;
      }
      return false;
    }
  }

  /** `e` kept its links and array flag, and its tag and value unless allowed to change. */
  twostate predicate Kept(e: Element, tagMayChange: bool, valueMayChange: bool)
    reads e
  {
    && e.subelements == old(e.subelements) && e.parent == old(e.parent) && e.isArray == old(e.isArray)
    && (tagMayChange || e.tag == old(e.tag))
    && (valueMayChange || e.value == old(e.value))
  }
}
