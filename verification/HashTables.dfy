/** What hash tables of positions hold, as a function of the input: the latest position with each hash. */
module HashTables {
  import opened Arith
  import opened BitBuffer
  import opened MatchCommon

  const HASH3_ORDER: nat := 15
  const HASH4_ORDER: nat := 16
  const BUCKET_ORDER: nat := 15
  const TREE_ORDER: nat := 16

  // ---- positions with the same hash

  /** The tables of the hash chains matchfinder, for three and for four bytes, the buckets of the hash table
      matchfinder, and those of the binary tree matchfinder, for three and for four bytes. */
  datatype Kind = Three | Four | Bucket | TreeThree | TreeFour

  function Order(kind: Kind): (bits: nat)
    ensures bits <= 32
  {
    match kind
    case Three => HASH3_ORDER
    case Four => HASH4_ORDER
    case Bucket => BUCKET_ORDER
    case TreeThree => TREE_ORDER
    case TreeFour => TREE_ORDER
  }

  /** The hash of the bytes at a position; the first one goes where the initial hashes say. */
  function Key(data: seq<u8>, kind: Kind, x: nat): (h: nat)
    ensures h < Pow2(Order(kind))
  {
    if x == 0 || x + 4 > |data| then 0
    else LzHash(if kind.Three? || kind.TreeThree? then Le32(data, x) % 0x100_0000 else Le32(data, x), Order(kind))
  }

  /** The latest position before n with this hash, or -1. */
  ghost function Latest(data: seq<u8>, kind: Kind, h: nat, n: nat): (y: int)
    ensures -1 <= y < n && (y >= 0 ==> Key(data, kind, y) == h)
    ensures forall x: nat :: y < x < n ==> Key(data, kind, x) != h
  {
    if n == 0 then -1 else if Key(data, kind, n - 1) == h then n - 1 else Latest(data, kind, h, n - 1)
  }

  /** The last but one position before n with this hash, or -1. */
  ghost function Second(data: seq<u8>, kind: Kind, h: nat, n: nat): (y: int)
    ensures -1 <= y < n
  {
    var y := Latest(data, kind, h, n);
    if y < 0 then -1 else Latest(data, kind, h, y)
  }

  /** z is the last position before n that has the hash of p. */
  ghost predicate LastAlike(data: seq<u8>, kind: Kind, p: nat, n: nat, z: nat) {
    && z < n && Key(data, kind, z) == Key(data, kind, p)
    && forall x: nat :: z < x < n ==> Key(data, kind, x) != Key(data, kind, p)
  }

  lemma LatestIs(data: seq<u8>, kind: Kind, p: nat, n: nat, z: nat)
    requires LastAlike(data, kind, p, n, z)
    ensures Latest(data, kind, Key(data, kind, p), n) == z
  {
    hide Key;
  }

  lemma Nearer(data: seq<u8>, kind: Kind, p: nat, n: nat, z: nat)
    requires LastAlike(data, kind, p, n, z)
    ensures z < n
  {
  }

  /** And the one before that is the last but one. */
  lemma SecondIs(data: seq<u8>, kind: Kind, p: nat, n: nat, y: nat, z: nat)
    requires LastAlike(data, kind, p, n, y) && LastAlike(data, kind, p, y, z)
    ensures Second(data, kind, Key(data, kind, p), n) == z
  {
    hide Key, LastAlike, Latest;
    LatestIs(data, kind, p, n, y);
    LatestIs(data, kind, p, y, z);
  }

  /** How many positions from lo to n have this hash. */
  ghost function Listed(data: seq<u8>, kind: Kind, h: nat, lo: int, n: int): nat
    requires 0 <= lo
    decreases n
  {
    if n <= lo then 0 else Listed(data, kind, h, lo, n - 1) + if Key(data, kind, n - 1) == h then 1 else 0
  }

  /** The least position in the window of p. */
  function Lowest(p: nat): nat {
    if p < WINDOW_SIZE then 0 else p - WINDOW_SIZE + 1
  }

  /** What a table has for a position: nothing if it lies too far back. */
  function Entry(y: int, base: nat): (e: Pos)
    requires y < base + WINDOW_SIZE
    ensures Names(e, base, base + WINDOW_SIZE)
  {
    if y >= 0 && y > base - WINDOW_SIZE then y - base else DEAD
  }

  lemma EntrySlides(y: int, base: nat)
    requires y < base + WINDOW_SIZE
    ensures Slid(Entry(y, base)) == Entry(y, base + WINDOW_SIZE)
  {
  }

  /** An entry is behind the cutoff exactly if its position is out of reach. */
  lemma EntryReach(y: int, base: nat, p: nat)
    requires y < p && base <= p < base + WINDOW_SIZE
    ensures Entry(y, base) <= p - base - WINDOW_SIZE <==> !InReach(y, p)
    ensures InReach(y, p) ==> base + Entry(y, base) == y
  {
  }

  /** The tables hold the latest of the first n positions. */
  ghost predicate Heads(data: seq<u8>, kind: Kind, base: nat, n: nat, tab: seq<Pos>)
    requires n <= base + WINDOW_SIZE
  {
    && |tab| == Pow2(Order(kind))
    && forall h :: 0 <= h < |tab| ==> tab[h] == Entry(Latest(data, kind, h, n), base)
  }

  lemma HeadAt(data: seq<u8>, kind: Kind, base: nat, n: nat, tab: seq<Pos>)
    requires n <= base + WINDOW_SIZE && Heads(data, kind, base, n, tab)
    ensures var h := Key(data, kind, n); h < |tab| && tab[h] == Entry(Latest(data, kind, h, n), base)
  {
    hide Key, Latest, Entry;
  }

  lemma HeadsSlide(data: seq<u8>, kind: Kind, base: nat, n: nat, tab: seq<Pos>, tab': seq<Pos>)
    requires n <= base + WINDOW_SIZE && Heads(data, kind, base, n, tab) && |tab'| == |tab|
    requires forall h :: 0 <= h < |tab| ==> tab'[h] == Slid(tab[h])
    ensures Heads(data, kind, base + WINDOW_SIZE, n, tab')
  {
    forall h | 0 <= h < |tab| ensures tab'[h] == Entry(Latest(data, kind, h, n), base + WINDOW_SIZE) {
      EntrySlides(Latest(data, kind, h, n), base);
    }
  }

  /** The other entries of two-way buckets: the last but one of the first n positions. */
  ghost predicate Formers(data: seq<u8>, kind: Kind, base: nat, n: nat, tab: seq<Pos>)
    requires n <= base + WINDOW_SIZE
  {
    && |tab| == Pow2(Order(kind))
    && forall h :: 0 <= h < |tab| ==> tab[h] == Entry(Second(data, kind, h, n), base)
  }

  lemma FormerAt(data: seq<u8>, kind: Kind, base: nat, n: nat, tab: seq<Pos>)
    requires n <= base + WINDOW_SIZE && Formers(data, kind, base, n, tab)
    ensures var h := Key(data, kind, n); h < |tab| && tab[h] == Entry(Second(data, kind, h, n), base)
  {
    hide Key, Second, Entry;
  }

  lemma FormersSlide(data: seq<u8>, kind: Kind, base: nat, n: nat, tab: seq<Pos>, tab': seq<Pos>)
    requires n <= base + WINDOW_SIZE && Formers(data, kind, base, n, tab) && |tab'| == |tab|
    requires forall h :: 0 <= h < |tab| ==> tab'[h] == Slid(tab[h])
    ensures Formers(data, kind, base + WINDOW_SIZE, n, tab')
  {
    hide Second;
    forall h | 0 <= h < |tab| ensures tab'[h] == Entry(Second(data, kind, h, n), base + WINDOW_SIZE) {
      EntrySlides(Second(data, kind, h, n), base);
    }
  }

  lemma FormersMore(data: seq<u8>, kind: Kind, base: nat, n: nat, tab: seq<Pos>)
    requires n < base + WINDOW_SIZE && Formers(data, kind, base, n, tab)
    ensures var h := Key(data, kind, n);
      Formers(data, kind, base, n + 1, tab[h := Entry(Latest(data, kind, h, n), base)])
  {
    hide Key, Entry;
  }

  lemma HeadsMore(data: seq<u8>, kind: Kind, base: nat, n: nat, tab: seq<Pos>)
    requires base - WINDOW_SIZE < n < base + WINDOW_SIZE && Heads(data, kind, base, n, tab)
    ensures Heads(data, kind, base, n + 1, tab[Key(data, kind, n) := n - base])
  {
  }
}
