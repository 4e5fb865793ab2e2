/**
 * What the OSC address matcher promises: the split of an address string
 * undoes the join of its parts, bracket lists have a direct set reading,
 * literal patterns match the addresses they start with, `?` takes one char,
 * `*` runs to the end or to the first occurrence of the next pattern char,
 * and brace lists select an alternative.
 */
module OscMatchProperties {
  import opened Wrappers
  import opened OscMatch

  /** The alternatives of a brace list joined with `sep`. */
  function JoinWith(alts: seq<string>, sep: char): string
    requires |alts| >= 1
  {
    if |alts| == 1 then alts[0] else alts[0] + [sep] + JoinWith(alts[1..], sep)
  }

  lemma {:induction false} PiecesWithout(s: string, sep: char)
    requires sep !in s
    ensures Pieces(s, sep) == [s]
    decreases |s|
  {
    if s != [] {
      PiecesWithout(s[1..], sep);
      assert [s[0]] + s[1..] == s;
    }
  }

  /** Splitting at one separator concatenates the pieces of both sides. */
  lemma {:induction false} PiecesAppend(x: string, sep: char, y: string)
    ensures Pieces(x + [sep] + y, sep) == Pieces(x, sep) + Pieces(y, sep)
    decreases |x|
  {
    var s := x + [sep] + y;
    if x == [] {
      assert s[1..] == y;
    } else {
      assert s[1..] == x[1..] + [sep] + y;
      PiecesAppend(x[1..], sep, y);
    }
  }

  lemma {:induction false} PiecesOfJoin(alts: seq<string>, sep: char)
    requires |alts| >= 1
    requires forall i :: 0 <= i < |alts| ==> sep !in alts[i]
    ensures Pieces(JoinWith(alts, sep), sep) == alts
    decreases |alts|
  {
    if |alts| == 1 {
      PiecesWithout(alts[0], sep);
    } else {
      PiecesAppend(alts[0], sep, JoinWith(alts[1..], sep));
      PiecesWithout(alts[0], sep);
      PiecesOfJoin(alts[1..], sep);
    }
  }

  /** `split` undoes a join whose pieces hold no separator and whose last piece is not empty. */
  lemma {:induction false} SplitOfJoin(alts: seq<string>, sep: char)
    requires |alts| >= 1
    requires forall i :: 0 <= i < |alts| ==> sep !in alts[i]
    requires alts[|alts| - 1] != []
    ensures JavaSplit(JoinWith(alts, sep), sep) == alts
  {
    PiecesOfJoin(alts, sep);
  }

  lemma {:induction false} NonEmptyKeeps(parts: seq<string>)
    requires forall i :: 0 <= i < |parts| ==> parts[i] != []
    ensures NonEmpty(parts) == parts
    decreases |parts|
  {
    if parts != [] {
      NonEmptyKeeps(parts[1..]);
    }
  }

  lemma {:induction false} JoinPartsIsJoinWith(parts: seq<string>)
    requires |parts| >= 1
    ensures JoinParts(parts) == ['/'] + JoinWith(parts, '/')
    decreases |parts|
  {
    if |parts| > 1 {
      JoinPartsIsJoinWith(parts[1..]);
      assert JoinParts(parts) == ['/'] + (parts[0] + ['/'] + JoinWith(parts[1..], '/'));
    }
  }

  lemma {:induction false} PiecesOfParts(parts: seq<string>)
    requires |parts| >= 1
    requires forall i :: 0 <= i < |parts| ==> '/' !in parts[i]
    ensures Pieces(JoinParts(parts), '/') == [[]] + parts
  {
    var j := JoinWith(parts, '/');
    var e: string := [];
    calc {
      Pieces(JoinParts(parts), '/');
      { JoinPartsIsJoinWith(parts); assert ['/'] + j == e + ['/'] + j; }
      Pieces(e + ['/'] + j, '/');
      { PiecesAppend(e, '/', j); }
      Pieces(e, '/') + Pieces(j, '/');
      { PiecesOfJoin(parts, '/'); }
      [[]] + parts;
    }
  }

  /**
   * Parts that are non-empty and hold no '/' come back from
   * `addressPatternStringToParts` of "/p0/p1/...".
   */
  lemma {:induction false} PartsOfJoinedAddress(parts: seq<string>)
    requires forall i :: 0 <= i < |parts| ==> parts[i] != [] && '/' !in parts[i]
    ensures AddressPatternStringToParts(JoinParts(parts)) == parts
  {
    if parts == [] {
      assert JoinParts(parts) == [];
    } else {
      PiecesOfParts(parts);
      var ps := [[]] + parts;
      assert ps[|ps| - 1] == parts[|parts| - 1];
      assert NonEmpty(ps) == NonEmpty(ps[1..]);
      assert ps[1..] == parts;
      NonEmptyKeeps(parts);
    }
  }

  /** The scan from dash index `d` finds a range holding `c`, or a final dash, or neither. */
  lemma {:induction false} RangeScanReads(c: char, m: string, d: int, negate: bool)
    requires 1 <= d <= |m| - 2
    ensures RangeScan(c, m, d, negate) ==
      if exists i :: d <= i && InRange(c, m, i) then !negate
      else if TrailingDashReached(m) then false
      else negate
    decreases |m| - d
  {
    var nd := IndexOfFrom(m, '-', d);
    if nd > 0 {
      if |m| == nd + 1 {
        assert !exists i :: d <= i && InRange(c, m, i);
      } else if m[nd - 1] < c < m[nd + 1] {
        assert InRange(c, m, nd);
      } else if nd + 2 >= |m| {
        assert !exists i :: d <= i && InRange(c, m, i);
      } else {
        RangeScanReads(c, m, nd + 1, negate);
        assert (exists i :: d <= i && InRange(c, m, i)) <==> (exists i :: nd + 1 <= i && InRange(c, m, i));
      }
    } else {
      assert !exists i :: d <= i && InRange(c, m, i);
    }
  }

  /**
   * A bracket list read as a set: `c` listed, or strictly inside a range
   * `x-y`, matches (the reverse under '!'); a final dash the scan reaches
   * makes the list match nothing.
   */
  lemma {:induction false} BracketMatchesReads(c: char, blist: string)
    ensures var m := BracketBody(blist);
      var negate := |blist| > 0 && blist[0] == '!';
      BracketMatches(c, blist) ==
        if c in m then !negate
        else if exists i :: InRange(c, m, i) then !negate
        else if TrailingDashReached(m) then false
        else negate
  {
    var m := BracketBody(blist);
    var negate := |blist| > 0 && blist[0] == '!';
    if c !in m && |m| >= 3 {
      RangeScanReads(c, m, 1, negate);
    }
  }

  /** A leading '!' inverts the list, unless the list ends in a dash the scan reaches. */
  lemma {:induction false} BracketNegation(c: char, m: string)
    requires m == [] || m[0] != '!'
    requires !TrailingDashReached(m)
    ensures BracketMatches(c, "!" + m) == !BracketMatches(c, m)
  {
    assert BracketBody("!" + m) == m;
    BracketMatchesReads(c, "!" + m);
    BracketMatchesReads(c, m);
  }

  /**
   * As written, a list ending in a dash throws once the char is above the
   * char before the dash: "[ab-]" against 'z' reads past the list, where the
   * guard meant for this case answers false.
   */
  lemma {:induction false} BracketTrailingDashThrowsAsWritten()
    ensures BracketMatchesAsWritten('z', "ab-") == Fault
    ensures BracketMatches('z', "ab-") == false
  {
    assert IndexOfFrom("ab-", '-', 1) == 2 by {
      assert "ab-"[1] != '-' && "ab-"[2] == '-';
    }
  }

  /**
   * A negated list whose scan reaches a final dash, against a char not above
   * the one before the dash: the code as written never reads past the list,
   * ends the loop and answers true; the corrected scan answers false.
   */
  lemma {:induction false} NegatedTrailingDashAsWritten()
    ensures BracketMatchesAsWritten('A', "!ab-") == Ok(true)
    ensures BracketMatches('A', "!ab-") == false
  {
    assert BracketBody("!ab-") == "ab-";
    assert IndexOfFrom("ab-", '-', 1) == 2 by {
      assert "ab-"[1] != '-' && "ab-"[2] == '-';
    }
  }

  lemma {:induction false} RangeScanAgrees(c: char, m: string, d: int, negate: bool)
    requires 1 <= d <= |m| - 2
    requires !TrailingDashReached(m)
    ensures RangeScanAsWritten(c, m, d, negate) == Ok(RangeScan(c, m, d, negate))
    decreases |m| - d
  {
    var nd := IndexOfFrom(m, '-', d);
    if nd > 0 && nd + 1 < |m| && !(m[nd - 1] < c < m[nd + 1]) && nd + 2 < |m| {
      RangeScanAgrees(c, m, nd + 1, negate);
    }
  }

  /** Away from a final dash the scan reaches, the code as written gives the corrected answer. */
  lemma {:induction false} BracketAsWrittenAgrees(c: char, blist: string)
    requires !TrailingDashReached(BracketBody(blist))
    ensures BracketMatchesAsWritten(c, blist) == Ok(BracketMatches(c, blist))
  {
    var m := BracketBody(blist);
    if c !in m && |m| >= 3 {
      RangeScanAgrees(c, m, 1, |blist| > 0 && blist[0] == '!');
    }
  }

  lemma {:induction false} LiteralWalk(a: string, p: string, i: int)
    requires Literal(p)
    requires 0 <= i <= |a| && i <= |p|
    ensures MatchFrom(a, p, i, i) <==> a[i..] <= p[i..]
    decreases |a| - i
  {
    if i < |a| && i < |p| {
      if p[i] == a[i] {
        LiteralWalk(a, p, i + 1);
      }
    }
  }

  /**
   * A pattern part without `*`, `?`, `[` or `{` matches exactly the address
   * parts it starts with: the pattern chars left over are ignored.
   */
  lemma {:induction false} LiteralPatternMatchesPrefixes(a: string, p: string)
    requires Literal(p)
    ensures PartMatches(a, p) <==> a <= p
  {
    LiteralWalk(a, p, 0);
  }

  /** Every part matches itself. */
  lemma {:induction false} PartMatchesItself(a: string)
    ensures PartMatches(a, a)
  {
  }

  lemma {:induction false} LiteralThenStar(l: string, r: string, i: int)
    requires Literal(l) && 0 <= i <= |l|
    ensures MatchFrom(l + r, l + "*", i, i)
    decreases |l| - i
  {
    if i < |l| {
      LiteralThenStar(l, r, i + 1);
    }
  }

  /** A trailing '*' matches whatever follows a literal prefix. */
  lemma {:induction false} TrailingStarMatchesRest(l: string, r: string)
    requires Literal(l)
    ensures PartMatches(l + r, l + "*")
  {
    LiteralThenStar(l, r, 0);
  }

  lemma {:induction false} LiteralTail(a: string, p: string, i: int, j: int)
    requires 0 <= i <= |a| && 0 <= j <= |p|
    requires a[i..] == p[j..]
    requires forall k :: j <= k < |p| ==> p[k] !in "*?[{"
    ensures MatchFrom(a, p, i, j)
    decreases |a| - i
  {
    if i < |a| && j < |p| {
      assert a[i] == a[i..][0] == p[j..][0] == p[j];
      assert a[i + 1..] == a[i..][1..];
      assert p[j + 1..] == p[j..][1..];
      LiteralTail(a, p, i + 1, j + 1);
    }
  }

  /** '?' takes any one char between literal text. */
  lemma {:induction false} QuestionMarkTakesOneChar(x: string, c: char, y: string)
    requires Literal(x) && Literal(y)
    ensures PartMatches(x + [c] + y, x + "?" + y)
  {
    var a := x + [c] + y;
    var p := x + "?" + y;
    if a != p {
      QuestionMarkWalk(x, c, y, 0);
    }
  }

  lemma {:induction false} QuestionMarkWalk(x: string, c: char, y: string, i: int)
    requires Literal(x) && Literal(y) && 0 <= i <= |x|
    ensures MatchFrom(x + [c] + y, x + "?" + y, i, i)
    decreases |x| - i
  {
    var a := x + [c] + y;
    var p := x + "?" + y;
    if i < |x| {
      QuestionMarkWalk(x, c, y, i + 1);
    } else {
      assert p[i] == '?';
      if a[i] != p[i] {
        assert a[i + 1..] == y && p[i + 1..] == y;
        LiteralTail(a, p, i + 1, i + 1);
      } else {
        assert a[i + 1..] == y && p[i + 1..] == y;
        LiteralTail(a, p, i + 1, i + 1);
      }
    }
  }

  /** `*c` skips the address up to the first `c` and goes on after it. */
  lemma {:induction false} StarSkipsToFirst(x: string, c: char, y: string)
    requires c !in x && c != '*' && Literal(y)
    requires x != []
    ensures PartMatches(x + [c] + y, ['*', c] + y)
  {
    var a := x + [c] + y;
    var p := ['*', c] + y;
    var k := IndexOfFrom(a, c, 0);
    assert a[|x|] == c;
    assert k == |x|;
    assert a[k + 1..] == y && p[2..] == y;
    LiteralTail(a, p, k + 1, 2);
  }

  /** `*c` fails on an address without `c`. */
  lemma {:induction false} StarFailsWithoutNextChar(a: string, c: char, y: string)
    requires a != [] && c !in a && c != '*'
    ensures !PartMatches(a, ['*', c] + y)
  {
    var p := ['*', c] + y;
    assert p[1] == c;
  }

  /** A '{' without a '}' after it matches nothing. */
  lemma {:induction false} MissingCloseBraceFails(a: string, q: string)
    requires '}' !in q
    ensures !BraceMatches(a, q)
  {
  }

  /**
   * `{alt0,alt1,...}` matches the alternative the address equals, provided
   * no earlier alternative is a prefix of it.
   */
  lemma {:induction false} BraceSelectsAlternative(alts: seq<string>, k: int)
    requires 0 <= k < |alts|
    requires forall i :: 0 <= i < |alts| ==> alts[i] != [] && ',' !in alts[i] && '}' !in alts[i]
    requires alts[k][0] != '{'
    requires forall i :: 0 <= i < k ==> !(alts[i] <= alts[k])
    ensures PartMatches(alts[k], "{" + JoinWith(alts, ',') + "}")
  {
    var a := alts[k];
    var j := JoinWith(alts, ',');
    var p := "{" + j + "}";
    JoinHolds(alts, ',', '}');
    assert p[|p| - 1] == '}' && a != p;
    assert MatchFrom(a, p, 0, 0) == BraceMatches(a[0..], p[1..]);
    assert a[0..] == a;
    AfterOpenBrace(j);
    BraceMatchesJoin(alts, k);
  }

  lemma {:induction false} AfterOpenBrace(j: string)
    ensures ("{" + j + "}")[1..] == j + "}"
  {
    var p := "{" + j + "}";
    assert forall i :: 0 <= i < |j| + 1 ==> p[1..][i] == (j + "}")[i];
  }

  /** The text after '{' selects alternative `k`. */
  lemma {:induction false} BraceMatchesJoin(alts: seq<string>, k: int)
    requires 0 <= k < |alts|
    requires forall i :: 0 <= i < |alts| ==> alts[i] != [] && ',' !in alts[i] && '}' !in alts[i]
    requires forall i :: 0 <= i < k ==> !(alts[i] <= alts[k])
    ensures BraceMatches(alts[k], JoinWith(alts, ',') + "}")
  {
    var j := JoinWith(alts, ',');
    JoinHolds(alts, ',', '}');
    CloseBraceAt(j);
    assert (j + "}")[..|j|] == j;
    SplitOfJoin(alts, ',');
    BraceWalk(alts[k], j + "}", |j|, alts, 0, k);
  }

  lemma {:induction false} CloseBraceAt(j: string)
    requires '}' !in j
    ensures IndexOfFrom(j + "}", '}', 0) == |j|
  {
    var q := j + "}";
    assert q[|j|] == '}';
    assert forall k :: 0 <= k < |j| ==> q[k] == j[k];
  }

  lemma {:induction false} JoinHolds(alts: seq<string>, sep: char, c: char)
    requires |alts| >= 1 && c != sep
    requires forall i :: 0 <= i < |alts| ==> c !in alts[i]
    ensures c !in JoinWith(alts, sep)
  {
    if |alts| > 1 {
      JoinHolds(alts[1..], sep, c);
    }
  }

  lemma {:induction false} BraceWalk(a: string, q: string, close: int, alts: seq<string>, i: nat, k: int)
    requires 0 <= close < |q| && i <= k < |alts| && a == alts[k]
    requires forall n :: i <= n < k ==> !(alts[n] <= a)
    ensures BraceAlternatives(a, q, close, alts, i)
    decreases k - i
  {
    if i < k {
      BraceWalk(a, q, close, alts, i + 1, k);
    }
  }
}
