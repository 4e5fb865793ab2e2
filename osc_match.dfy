/**
 * OSC address-pattern matching (LXOSCMessage, lx4p): the string helpers it
 * relies on (`indexOf`, `split`), the split of "/a/b/c" into parts, and the
 * part matcher with its `*`, `?`, `[...]`, `[!...]` and `{a,b}` forms.
 *
 * The matcher is stated here as recursive functions over the cursor pair
 * (ai, pj) of the Java loop; the loops themselves are in module OscMessage
 * and are proved equal to these functions.
 */
module OscMatch {
  import opened Wrappers

  /** `s.indexOf(c, from)`: the first index at or after `from` holding `c`, or -1. */
  function IndexOfFrom(s: string, c: char, from: int): (r: int)
    ensures r == -1 || (0 <= from <= r < |s| && s[r] == c) || (from < 0 && 0 <= r < |s| && s[r] == c)
    ensures r >= 0 ==> forall k :: from <= k < r && 0 <= k ==> s[k] != c
    ensures r == -1 ==> forall k :: from <= k < |s| && 0 <= k ==> s[k] != c
    decreases |s| - from
  {
    if from < 0 then IndexOfFrom(s, c, 0)
    else if from >= |s| then -1
    else if s[from] == c then from
    else IndexOfFrom(s, c, from + 1)
  }

  /** The pieces of `s` between occurrences of `sep`, empty ones included. */
  function Pieces(s: string, sep: char): (r: seq<string>)
    ensures |r| >= 1
    ensures forall i :: 0 <= i < |r| ==> sep !in r[i]
    ensures |r| == 1 <==> sep !in s
  {
    if s == [] then [[]]
    else
      var rest := Pieces(s[1..], sep);
      if s[0] == sep then [[]] + rest
      else [[s[0]] + rest[0]] + rest[1..]
  }

  /** `ps` without its trailing empty strings. */
  function StripTrailingEmpty(ps: seq<string>): (r: seq<string>)
    ensures |r| <= |ps| && r == ps[..|r|]
    ensures r == [] || r[|r| - 1] != []
    ensures forall k :: |r| <= k < |ps| ==> ps[k] == []
  {
    if ps == [] || ps[|ps| - 1] != [] then ps
    else StripTrailingEmpty(ps[..|ps| - 1])
  }

  /**
   * `s.split(sep)` for a one-char separator: the pieces, with trailing empty
   * pieces removed, except that a string without `sep` is returned whole.
   */
  function JavaSplit(s: string, sep: char): (r: seq<string>)
    ensures forall i :: 0 <= i < |r| ==> sep !in r[i]
  {
    var ps := Pieces(s, sep);
    if |ps| == 1 then ps else StripTrailingEmpty(ps)
  }

  /** The non-empty strings of `ps`, in order. */
  function NonEmpty(ps: seq<string>): (r: seq<string>)
    ensures |r| <= |ps|
    ensures forall i :: 0 <= i < |r| ==> r[i] != [] && r[i] in ps
  {
    if ps == [] then []
    else if ps[0] == [] then NonEmpty(ps[1..])
    else [ps[0]] + NonEmpty(ps[1..])
  }

  /** `addressPatternStringToParts`: split on '/' and drop the empty pieces. */
  function AddressPatternStringToParts(pstr: string): (parts: seq<string>)
    ensures forall i :: 0 <= i < |parts| ==> parts[i] != [] && '/' !in parts[i]
  {
    NonEmpty(JavaSplit(pstr, '/'))
  }

  /** The parts written back as an address: "/" before each part. */
  function JoinParts(parts: seq<string>): string
  {
    if parts == [] then [] else "/" + parts[0] + JoinParts(parts[1..])
  }

  /** The range `m[i-1] - m[i+1]` of a bracket list holds `c` strictly between its ends. */
  predicate InRange(c: char, m: string, i: int)
  {
    1 <= i < |m| - 1 && m[i] == '-' && m[i - 1] < c < m[i + 1]
  }

  /** The list ends in a dash that the range scan reaches (no dash just before it). */
  predicate TrailingDashReached(m: string)
  {
    |m| >= 3 && m[|m| - 1] == '-' && m[|m| - 2] != '-'
  }

  /** A bracket list after its optional leading '!'. */
  function BracketBody(blist: string): string
  {
    if |blist| > 0 && blist[0] == '!' then blist[1..] else blist
  }

  /**
   * The range scan of `addressCharMatchesBracketPattern`, with the guard for
   * a dash that ends the list testing the dash found (`nDashIndex + 1`).
   */
  function RangeScan(c: char, m: string, dashIndex: int, negate: bool): bool
    requires 1 <= dashIndex
    decreases |m| - dashIndex
  {
    var nd := IndexOfFrom(m, '-', dashIndex);
    if nd > 0 then
      if |m| == nd + 1 then false
      else if m[nd - 1] < c < m[nd + 1] then !negate
      else if nd + 2 >= |m| then negate
      else RangeScan(c, m, nd + 1, negate)
    else negate
  }

  /**
   * `addressCharMatchesBracketPattern`, corrected: a char listed literally or
   * strictly inside a range matches (the reverse under '!'); a list whose
   * scan reaches a final dash never matches.
   */
  function BracketMatches(c: char, blist: string): bool
  {
    var negate := |blist| > 0 && blist[0] == '!';
    var m := BracketBody(blist);
    if c in m then !negate
    else if |m| < 3 then negate
    else RangeScan(c, m, 1, negate)
  }

  /**
   * The range scan as written: the guard compares the list length with
   * `dashIndex + 1` instead of `nDashIndex + 1`, so a dash at the end of the
   * list is read past (`charAt(nDashIndex + 1)` throws) once the char is
   * above the one before the dash.
   */
  function RangeScanAsWritten(c: char, m: string, dashIndex: int, negate: bool): Result<bool>
    requires 1 <= dashIndex
    decreases |m| - dashIndex
  {
    var nd := IndexOfFrom(m, '-', dashIndex);
    if nd > 0 then
      if |m| == dashIndex + 1 then Ok(false)
      else if m[nd - 1] < c && nd + 1 >= |m| then Fault
      else if m[nd - 1] < c < m[nd + 1] then Ok(!negate)
      else if nd + 2 >= |m| then Ok(negate)
      else RangeScanAsWritten(c, m, nd + 1, negate)
    else Ok(negate)
  }

  /** `addressCharMatchesBracketPattern` as written. */
  function BracketMatchesAsWritten(c: char, blist: string): Result<bool>
  {
    var negate := |blist| > 0 && blist[0] == '!';
    var m := BracketBody(blist);
    if c in m then Ok(!negate)
    else if |m| < 3 then Ok(negate)
    else RangeScanAsWritten(c, m, 1, negate)
  }

  /** `addressPartMatchesPatternPart`: equal strings, or the cursor walk from (0, 0). */
  function PartMatches(a: string, p: string): bool
    decreases |p|, 3, 0
  {
    a == p || MatchFrom(a, p, 0, 0)
  }

  /**
   * The matcher's loop from address index `ai` and pattern index `pj`: true
   * once the address is used up, whatever is left of the pattern.
   */
  function MatchFrom(a: string, p: string, ai: int, pj: int): bool
    requires 0 <= ai <= |a| && 0 <= pj <= |p|
    decreases |p| - pj, 2, 0
  {
    if ai < |a| && pj < |p| then
      if p[pj] == '*' then
        if pj + 1 == |p| then true
        else
          var k := IndexOfFrom(a, p[pj + 1], ai);
          if k < 0 then false else MatchFrom(a, p, k + 1, pj + 2)
      else if p[pj] == a[ai] || p[pj] == '?' then MatchFrom(a, p, ai + 1, pj + 1)
      else if p[pj] == '[' then
        var close := IndexOfFrom(p, ']', pj + 1);
        if close < 0 then false
        else if !BracketMatches(a[ai], p[pj + 1..close]) then false
        else MatchFrom(a, p, ai + 1, close + 1)
      else if p[pj] == '{' then BraceMatches(a[ai..], p[pj + 1..])
      else false
    else ai == |a|
  }

  /**
   * `addressPartMatchesBracePatternPart(a, q)`, `q` being the pattern after
   * '{': the comma-separated alternatives before '}' are tried in order.
   */
  function BraceMatches(a: string, q: string): bool
    decreases |q|, 1, 0
  {
    var close := IndexOfFrom(q, '}', 0);
    if close < 0 then false
    else BraceAlternatives(a, q, close, JavaSplit(q[..close], ','), 0)
  }

  /** The loop over the alternatives, from alternative `i`. */
  function BraceAlternatives(a: string, q: string, close: int, alts: seq<string>, i: nat): bool
    requires 0 <= close < |q|
    decreases |q|, 0, |alts| - i
  {
    if i >= |alts| then false
    else if alts[i] <= a then
      if |a| == |alts[i]| then true
      else if |q| > close + 1 then PartMatches(a[|alts[i]|..], q[close + 1..])
      else BraceAlternatives(a, q, close, alts, i + 1)
    else BraceAlternatives(a, q, close, alts, i + 1)
  }

  /** A pattern part with none of the characters the matcher treats specially. */
  predicate Literal(p: string)
  {
    forall k :: 0 <= k < |p| ==> p[k] !in "*?[{"
  }

  /**
   * `matchesAddressPattern(v)`: the message's address has at least as many
   * parts as the pattern `v`, and each pattern part matches the address part
   * at its index (extra address parts are not looked at).
   */
  predicate MatchesAsPattern(address: seq<string>, pattern: seq<string>)
  {
    |pattern| <= |address| && forall i :: 0 <= i < |pattern| ==> PartMatches(address[i], pattern[i])
  }

  /**
   * `matchesOSCAddress(v)`: the message's pattern and the address `v` have
   * the same number of parts, and each address part matches its pattern part.
   */
  predicate MatchesAsAddress(pattern: seq<string>, address: seq<string>)
  {
    |pattern| == |address| && forall i :: 0 <= i < |address| ==> PartMatches(address[i], pattern[i])
  }
}
