/**
 * The character layer of `LXJSONParser.processCharacter`: the escape and
 * quote flags and the text gathered so far. Characters that open or close
 * a level, or end a tag or value, belong to the parser itself and are
 * "structural" here; every other character only changes this layer.
 */
module JsonLex {
  import opened Wrappers

  /** The escape flag, the quote flag and the gathered text (`currentdata`). */
  datatype Lexer = Lexer(escape: bool, quote: bool, data: string)

  /** The characters the parser acts on when they are neither escaped nor quoted. */
  predicate IsPunctuation(c: char)
  {
    c == '{' || c == '}' || c == ':' || c == ',' || c == '[' || c == ']'
  }

  predicate IsStructural(l: Lexer, c: char)
  {
    !l.escape && !l.quote && IsPunctuation(c)
  }

  /** The flags are never both set: a backslash inside quotes is an ordinary character. */
  predicate Consistent(l: Lexer)
  {
    !(l.escape && l.quote)
  }

  /**
   * One character outside the structural ones: an escaped character is kept
   * as it is; inside quotes everything but '"' is kept; outside, '\\' starts
   * an escape, '"' opens a quote, a space is dropped and the rest is kept.
   */
  function LexStep(l: Lexer, c: char): (r: Lexer)
    requires !IsStructural(l, c)
    ensures Consistent(l) ==> Consistent(r)
    ensures r.data == l.data || r.data == l.data + [c]
  {
    if l.escape then Lexer(false, l.quote, l.data + [c])
    else if l.quote then
      if c == '"' then Lexer(false, false, l.data) else Lexer(false, true, l.data + [c])
    else if c == '\\' then Lexer(true, false, l.data)
    else if c == '"' then Lexer(false, true, l.data)
    else if c == ' ' then l
    else Lexer(false, false, l.data + [c])
  }

  /** The layer after the characters of `w`, or None when one of them is structural where it comes. */
  function LexRun(l: Lexer, w: string): Option<Lexer>
    decreases |w|
  {
    if w == [] then Some(l)
    else if IsStructural(l, w[0]) then None
    else LexRun(LexStep(l, w[0]), w[1..])
  }

  /** `w` with its spaces dropped. */
  function WithoutSpaces(w: string): (r: string)
    ensures |r| <= |w|
    ensures ' ' !in r
  {
    if w == [] then [] else (if w[0] == ' ' then [] else [w[0]]) + WithoutSpaces(w[1..])
  }

  /** Plain text: nothing the layer or the parser treats specially, spaces allowed. */
  predicate IsBare(w: string)
  {
    forall i :: 0 <= i < |w| ==> !IsPunctuation(w[i]) && w[i] != '\\' && w[i] != '"'
  }

  // ---- Runs ----

  /** Characters read in two pieces read as the whole. */
  lemma {:induction false} LexRunAppend(l: Lexer, a: string, b: string)
    ensures LexRun(l, a + b) == if LexRun(l, a).Some? then LexRun(LexRun(l, a).value, b) else None
    decreases |a|
  {
    if a != [] {
      assert (a + b)[0] == a[0];
      if !IsStructural(l, a[0]) {
        assert (a + b)[1..] == a[1..] + b;
        LexRunAppend(LexStep(l, a[0]), a[1..], b);
      }
    } else {
      assert a + b == b;
    }
  }

  /** A quoted run: every character up to the closing '"' is kept, even structural ones, and the quote closes. */
  lemma {:induction false} QuotedRun(d: string, w: string)
    requires '"' !in w
    ensures LexRun(Lexer(false, true, d), w + ['"']) == Some(Lexer(false, false, d + w))
    decreases |w|
  {
    if w == [] {
      assert w + ['"'] == ['"'] && d + w == d;
    } else {
      assert (w + ['"'])[0] == w[0];
      assert (w + ['"'])[1..] == w[1..] + ['"'];
      assert d + w == (d + [w[0]]) + w[1..];
      QuotedRun(d + [w[0]], w[1..]);
    }
  }

  /** Bare text outside quotes is kept without its spaces. */
  lemma {:induction false} BareRun(d: string, w: string)
    requires IsBare(w)
    ensures LexRun(Lexer(false, false, d), w) == Some(Lexer(false, false, d + WithoutSpaces(w)))
    decreases |w|
  {
    if w != [] {
      assert IsBare(w[1..]) by {
        forall i | 0 <= i < |w[1..]|
          ensures !IsPunctuation(w[1..][i]) && w[1..][i] != '\\' && w[1..][i] != '"'
        {
          assert w[1..][i] == w[i + 1];
        }
      }
      assert !IsPunctuation(w[0]) && w[0] != '\\' && w[0] != '"';
      if w[0] == ' ' {
        BareRun(d, w[1..]);
        assert WithoutSpaces(w) == WithoutSpaces(w[1..]);
      } else {
        BareRun(d + [w[0]], w[1..]);
        assert d + WithoutSpaces(w) == (d + [w[0]]) + WithoutSpaces(w[1..]);
      }
    } else {
      assert d + WithoutSpaces(w) == d;
    }
  }

  /** A backslash outside quotes keeps the next character whatever it is, structural or not. */
  lemma {:induction false} EscapedChar(d: string, c: char, w: string)
    ensures LexRun(Lexer(false, false, d), ['\\', c] + w) == LexRun(Lexer(false, false, d + [c]), w)
  {
    var l1 := Lexer(true, false, d);
    LexRunAppend(Lexer(false, false, d), ['\\', c], w);
    assert LexRun(l1, [c]) == LexRun(Lexer(false, false, d + [c]), []);
  }
}
