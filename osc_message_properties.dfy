/**
 * What the message-level match operations of LXOSCMessage (lx4p) decide,
 * stated over whole address lists.
 */
module OscMessageProperties {
  import opened OscMatch
  import opened OscMatchProperties

  /**
   * Against a pattern without wildcards, `matchesOSCAddress` accepts exactly
   * the addresses with as many parts, each part a prefix of its pattern
   * part: the matcher stops once the address part is used up.
   */
  lemma {:induction false} LiteralPatternAsAddress(pattern: seq<string>, address: seq<string>)
    requires forall i :: 0 <= i < |pattern| ==> Literal(pattern[i])
    ensures MatchesAsAddress(pattern, address) <==>
      |pattern| == |address| && forall i :: 0 <= i < |address| ==> address[i] <= pattern[i]
  {
    if |pattern| == |address| {
      forall i | 0 <= i < |address|
        ensures PartMatches(address[i], pattern[i]) <==> address[i] <= pattern[i]
      {
        LiteralPatternMatchesPrefixes(address[i], pattern[i]);
      }
    }
  }

  /**
   * `matchesAddressPattern(String)` on an address written out from its
   * parts decides the same as `matchesAddressPattern(Vector)` on the parts.
   */
  lemma {:induction false} PatternStringOfParts(address: seq<string>, parts: seq<string>)
    requires forall i :: 0 <= i < |parts| ==> parts[i] != [] && '/' !in parts[i]
    ensures MatchesAsPattern(address, AddressPatternStringToParts(JoinParts(parts))) == MatchesAsPattern(address, parts)
  {
    PartsOfJoinedAddress(parts);
  }

  /**
   * The prefix filter: a pattern that matches an address also matches every
   * longer address that starts with the same parts.
   */
  lemma {:induction false} PatternIgnoresExtraParts(address: seq<string>, more: seq<string>, pattern: seq<string>)
    ensures MatchesAsPattern(address, pattern) ==> MatchesAsPattern(address + more, pattern)
  {
    if MatchesAsPattern(address, pattern) {
      forall i | 0 <= i < |pattern|
        ensures PartMatches((address + more)[i], pattern[i])
      {
        assert (address + more)[i] == address[i];
      }
    }
  }
}
