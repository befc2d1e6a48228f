/** How long matches can be at a position, and from which length on a match is taken without looking further. */
module MatchLimits {
  import opened BitBuffer
  import opened Slots

  /** Limits the lengths near the end of the input. */
  function AdjustMaxLen(remaining: nat): (maxLen: nat)
    ensures maxLen <= remaining && maxLen <= MAX_MATCH && (maxLen < remaining ==> maxLen == MAX_MATCH)
  {
    if remaining < MAX_MATCH then remaining else MAX_MATCH
  }

  function AdjustNiceLen(niceLen: nat, maxLen: nat): (n: nat)
    ensures n <= maxLen && n <= niceLen
  {
    if niceLen < maxLen then niceLen else maxLen
  }

  function NiceAt(data: seq<u8>, p: nat, niceLen: nat): nat
    requires p <= |data|
  {
    AdjustNiceLen(niceLen, AdjustMaxLen(|data| - p))
  }

  /** The limit has been lowered to no less than what fits at q. */
  predicate NiceFrom(data: seq<u8>, q: nat, niceLen: nat, nice: nat)
    requires q <= |data|
  {
    NiceAt(data, q, nice) <= niceLen <= nice
  }
}
