/** What the near-optimal parser has to choose from at the positions of a block, as a function of the input: where it
    searches, and what it finds there. */
module BlockGraph {
  import opened BitBuffer
  import opened MatchCommon
  import opened MatchLimits
  import opened BtMatchfinder
  import opened BtSearch
  import opened Slots
  import opened MinCostPath

  /** The last match is so long that nothing is searched for at the positions that it covers. */
  ghost predicate EndsSearch(data: seq<u8>, nice: nat, q: nat, ms: seq<LzMatch>)
    requires q <= |data|
  {
    ms != [] && ms[|ms| - 1].length >= MIN_MATCH && ms[|ms| - 1].length >= NiceAt(data, q, nice)
  }

  /** Where the next search is after the one at q. */
  ghost function NextSearch(data: seq<u8>, nice: nat, depth: nat, q: nat): (r: nat)
    ensures r > q
  {
    var ms := MatchesAt(data, nice, depth, q);
    if q <= |data| && EndsSearch(data, nice, q, ms) then q + ms[|ms| - 1].length else q + 1
  }

  ghost function NthSearch(data: seq<u8>, nice: nat, depth: nat, n: nat): (q: nat)
    ensures q >= n
  {
    if n == 0 then 0 else NextSearch(data, nice, depth, NthSearch(data, nice, depth, n - 1))
  }

  ghost predicate IsSearched(data: seq<u8>, nice: nat, depth: nat, q: nat) {
    exists n: nat :: NthSearch(data, nice, depth, n) == q
  }

  /** The matches that have been searched for at q, and the byte there. */
  ghost function ChoicesAt(data: seq<u8>, nice: nat, depth: nat, q: nat): Choices
    requires q < |data|
  {
    Choices(if IsSearched(data, nice, depth, q) then MatchesAt(data, nice, depth, q) else [], data[q])
  }

  /** The choices at the positions from p to e. */
  ghost function GraphOf(data: seq<u8>, nice: nat, depth: nat, p: nat, e: nat): (ps: seq<Choices>)
    requires p <= e <= |data|
    ensures |ps| == e - p && forall i :: 0 <= i < |ps| ==> ps[i] == ChoicesAt(data, nice, depth, p + i)
  {
    seq(e - p, i requires 0 <= i < e - p => ChoicesAt(data, nice, depth, p + i))
  }

  // ---- which positions are searched

  lemma FirstSearched(data: seq<u8>, nice: nat, depth: nat)
    ensures IsSearched(data, nice, depth, 0)
  {
    assert NthSearch(data, nice, depth, 0) == 0;
  }

  lemma NextSearched(data: seq<u8>, nice: nat, depth: nat, q: nat)
    requires IsSearched(data, nice, depth, q)
    ensures IsSearched(data, nice, depth, NextSearch(data, nice, depth, q))
  {
    hide NextSearch;
    var n: nat :| NthSearch(data, nice, depth, n) == q;
    assert NthSearch(data, nice, depth, n + 1) == NextSearch(data, nice, depth, q);
  }

  lemma {:induction false} SearchesAscend(data: seq<u8>, nice: nat, depth: nat, m: nat, n: nat)
    requires m < n
    ensures NthSearch(data, nice, depth, m) < NthSearch(data, nice, depth, n)
  {
    hide NextSearch;
    if m < n - 1 {
      SearchesAscend(data, nice, depth, m, n - 1);
    }
  }

  /** None in between. */
  lemma NotSearched(data: seq<u8>, nice: nat, depth: nat, r: nat, q: nat)
    requires IsSearched(data, nice, depth, r) && r < q < NextSearch(data, nice, depth, r)
    ensures !IsSearched(data, nice, depth, q)
  {
    hide NextSearch;
    var m: nat :| NthSearch(data, nice, depth, m) == r;
    assert NthSearch(data, nice, depth, m + 1) == NextSearch(data, nice, depth, r);
    forall n: nat ensures NthSearch(data, nice, depth, n) != q {
      if n < m {
        SearchesAscend(data, nice, depth, n, m);
      } else if n > m + 1 {
        SearchesAscend(data, nice, depth, m + 1, n);
      }
    }
  }

  /** The last search before q or at it. */
  lemma {:induction false} SearchBefore(data: seq<u8>, nice: nat, depth: nat, q: nat, n: nat) returns (r: nat)
    requires q < NthSearch(data, nice, depth, n)
    ensures IsSearched(data, nice, depth, r) && r <= q < NextSearch(data, nice, depth, r)
  {
    hide NextSearch;
    assert n > 0;
    r := NthSearch(data, nice, depth, n - 1);
    if q < r {
      r := SearchBefore(data, nice, depth, q, n - 1);
    }
  }

  /** A position is searched unless it is covered by a match that has been found before and has niceLen bytes.  If no
      list is longer than the searches are deep, and some position in the window has four bytes or more in common with
      q, then as long a match as that is among the choices at q, or one of niceLen bytes, or q is covered. */
  lemma NoneMissed(data: seq<u8>, nice: nat, depth: nat, q: nat, z: nat) returns (r: nat)
    requires q + BT_REQUIRED_NBYTES <= |data| && nice > 3 && z < q && InReach(z, q) && InTree(data, z, q)
    requires Common(data, z, q, AdjustMaxLen(|data| - q)) >= 4 && DeepEnough(data, depth, q + 1)
    ensures r <= q && var ms := ChoicesAt(data, nice, depth, r).matches;
      if r < q then EndsSearch(data, nice, r, ms) && q < r + ms[|ms| - 1].length
      else
        && ms != []
        && (ms[|ms| - 1].length >= Common(data, z, q, AdjustMaxLen(|data| - q))
            || ms[|ms| - 1].length >= NiceAt(data, q, nice))
  {
    hide Common, InTree, DeepEnough, MatchesAt, InReach, NthSearch, IsSearched;
    SearchesAscend(data, nice, depth, 0, q + 1);
    r := SearchBefore(data, nice, depth, q, q + 1);
    LongestInTrees(data, nice, depth, q, z);
  }
}
