/** What the matchfinders share: hashing, extending a match word by word, and sliding the window. */
module MatchCommon {
  import opened Arith
  import opened Bits
  import opened Words
  import opened BitBuffer

  const WINDOW_SIZE: int := 32768

  /** A position relative to the base of the window. */
  type Pos = x: int | -32768 <= x <= 32767

  const DEAD: Pos := -32768

  /** The slot of a position in a ring of the size of the window: its low 15 bits. */
  function Slot(e: Pos): (s: nat)
    ensures s < WINDOW_SIZE
  {
    if e < 0 then e + WINDOW_SIZE else e
  }

  /** A match: how many bytes, and how far back. */
  datatype LzMatch = LzMatch(length: nat, offset: nat)

  // ---- hashing

  function Le32(data: seq<u8>, i: nat): (v: nat)
    requires i + 4 <= |data|
  {
    Value(data[i..i + 4])
  }

  function LzHash(v: nat, bits: nat): (h: nat)
    requires bits <= 32
    ensures h < Pow2(bits)
  {
    var product := v * 0x1E35A7BD % 0x1_0000_0000;
    HashBound(product, bits);
    Shr(product, 32 - bits)
  }

  lemma HashBound(x: nat, bits: nat)
    requires bits <= 32 && x < 0x1_0000_0000
    ensures Shr(x, 32 - bits) < Pow2(bits)
  {
    hide Pow2, Shr;
    WordValues();
    ShrBounds(x, bits, 32 - bits);
  }

  lemma WordValues()
    ensures Pow2(32) == 0x1_0000_0000
  {
    assert Pow2(8) == 256;
    hide Pow2;
    Pow2Add(8, 8);
    Pow2Add(16, 16);
  }

  // ---- the first difference of two words

  /** Bitwise exclusive or. */
  function Xor(x: nat, y: nat): (r: nat) {
    if x == 0 && y == 0 then 0 else (if x % 2 == y % 2 then 0 else 1) + 2 * Xor(x / 2, y / 2)
  }

  /** The position of the lowest set bit. */
  function Bsf(x: nat): nat
    requires x > 0
  {
    if x % 2 == 1 then 0 else 1 + Bsf(x / 2)
  }

  lemma {:induction false} XorZero(x: nat, y: nat)
    ensures Xor(x, y) == 0 <==> x == y
  {
    if !(x == 0 && y == 0) {
      XorZero(x / 2, y / 2);
    }
  }

  /** Below the lowest set bit of the exclusive or the words agree, and there they differ. */
  lemma {:induction false} FirstDifference(x: nat, y: nat)
    requires x != y
    ensures Xor(x, y) > 0 && Low(x, Bsf(Xor(x, y))) == Low(y, Bsf(Xor(x, y)))
    ensures Low(x, Bsf(Xor(x, y)) + 1) != Low(y, Bsf(Xor(x, y)) + 1)
  {
    hide Xor, Low, Bsf;
    XorZero(x, y);
    XorStep(x, y);
    if x % 2 == y % 2 {
      FirstDifference(x / 2, y / 2);
      var n := Bsf(Xor(x / 2, y / 2));
      BsfDouble(Xor(x / 2, y / 2));
      LowNext(x, n);
      LowNext(y, n);
      LowNext(x, n + 1);
      LowNext(y, n + 1);
    } else {
      BsfOdd(Xor(x, y));
      LowNext(x, 0);
      LowNext(y, 0);
      LowNone(x, y);
      LowNone(x / 2, y / 2);
    }
  }

  lemma XorStep(x: nat, y: nat)
    ensures Xor(x, y) == (if x % 2 == y % 2 then 0 else 1) + 2 * Xor(x / 2, y / 2)
  {
  }

  lemma BsfDouble(x: nat)
    requires x > 0
    ensures Bsf(2 * x) == 1 + Bsf(x)
  {
  }

  lemma BsfOdd(x: nat)
    requires x % 2 == 1
    ensures Bsf(x) == 0
  {
  }

  lemma LowNext(x: nat, n: nat)
    ensures Low(x, n + 1) == x % 2 + 2 * Low(x / 2, n)
  {
  }

  lemma LowNone(x: nat, y: nat)
    ensures Low(x, 0) == Low(y, 0) == 0
  {
  }

  lemma {:induction false} LowPrefix(a: seq<u8>, b: seq<u8>, k: nat)
    requires k <= |a| && k <= |b|
    ensures Low(Value(a), 8 * k) == Low(Value(b), 8 * k) <==> a[..k] == b[..k]
  {
    hide Low, Value, Shr;
    ValueSlice(a, 0, k);
    ValueSlice(b, 0, k);
    ShrNothing(Value(a));
    ShrNothing(Value(b));
    if Value(a[..k]) == Value(b[..k]) {
      SameBytes(a[..k], b[..k]);
    }
  }

  lemma {:induction false} SameBytes(a: seq<u8>, b: seq<u8>)
    requires |a| == |b| && Value(a) == Value(b)
    ensures a == b
  {
    if a != [] {
      QuotientIs(Value(a), 256, Value(a[1..]), a[0]);
      QuotientIs(Value(b), 256, Value(b[1..]), b[0]);
      SameBytes(a[1..], b[1..]);
      assert a == [a[0]] + a[1..] && b == [b[0]] + b[1..];
    }
  }

  /** The first differing byte of two words is that of the lowest differing bit. */
  lemma FirstDifferingByte(a: seq<u8>, b: seq<u8>)
    requires |a| == |b| && a != b
    ensures Value(a) != Value(b) && Xor(Value(a), Value(b)) > 0
    ensures var k := Bsf(Xor(Value(a), Value(b))) / 8; k < |a| && a[..k] == b[..k] && a[k] != b[k]
  {
    hide Low, Value, Xor, Bsf;
    if Value(a) == Value(b) {
      SameBytes(a, b);
    }
    var x, y := Value(a), Value(b);
    FirstDifference(x, y);
    var n := Bsf(Xor(x, y));
    var k := n / 8;
    LowOfLow(x, 8 * k, n);
    LowOfLow(y, 8 * k, n);
    assert a[..|a|] == a && b[..|a|] == b;
    LowPrefix(a, b, |a|);
    if k >= |a| {
      LowOfLow(x, 8 * |a|, 8 * k);
      LowOfLow(y, 8 * |a|, 8 * k);
    } else {
      LowPrefix(a, b, k);
      LowPrefix(a, b, k + 1);
      LowOfLow(x, n + 1, 8 * (k + 1));
      LowOfLow(y, n + 1, 8 * (k + 1));
      assert a[..k + 1] == a[..k] + [a[k]] && b[..k + 1] == b[..k] + [b[k]];
    }
  }

  // ---- comparing the bytes at two positions

  /** The n bytes at the two positions are equal. */
  ghost predicate Agree(data: seq<u8>, p: nat, m: nat, n: nat) {
    p + n <= |data| && m + n <= |data| && data[p..p + n] == data[m..m + n]
  }

  lemma AgreeMore(data: seq<u8>, p: nat, m: nat, n: nat, k: nat)
    requires Agree(data, p, m, n) && p + n + k <= |data| && m + n + k <= |data|
    requires data[p + n..p + n + k] == data[m + n..m + n + k]
    ensures Agree(data, p, m, n + k)
  {
    assert data[p..p + n + k] == data[p..p + n] + data[p + n..p + n + k];
    assert data[m..m + n + k] == data[m..m + n] + data[m + n..m + n + k];
  }

  /** len is the number of equal bytes, up to maxLen. */
  ghost predicate Longest(data: seq<u8>, p: nat, m: nat, len: nat, maxLen: nat) {
    && len <= maxLen && p + maxLen <= |data| && m + maxLen <= |data| && Agree(data, p, m, len)
    && (len < maxLen ==> data[p + len] != data[m + len])
  }

  lemma AgreeAt(data: seq<u8>, x: nat, y: nat, k: nat, i: nat)
    requires Agree(data, x, y, k) && i < k
    ensures data[x + i] == data[y + i]
  {
    assert data[x..x + k][i] == data[y..y + k][i];
  }

  lemma AgreeShorter(data: seq<u8>, x: nat, y: nat, k: nat, i: nat)
    requires Agree(data, x, y, k) && i <= k
    ensures Agree(data, x, y, i)
  {
    var a, b := data[x..x + i], data[y..y + i];
    forall j | 0 <= j < i ensures a[j] == b[j] {
      AgreeAt(data, x, y, k, j);
    }
  }

  lemma AgreeInside(data: seq<u8>, x: nat, y: nat, k: nat, i: nat, j: nat)
    requires Agree(data, x, y, k) && i <= j <= k
    ensures data[x + i..x + j] == data[y + i..y + j]
  {
    var a, b := data[x + i..x + j], data[y + i..y + j];
    forall l | 0 <= l < j - i ensures a[l] == b[l] {
      AgreeAt(data, x, y, k, i + l);
    }
  }

  /** How many bytes are equal, up to n. */
  function Common(data: seq<u8>, x: nat, y: nat, n: nat): (k: nat)
    requires x + n <= |data| && y + n <= |data|
    ensures k <= n && Agree(data, x, y, k) && (k < n ==> data[x + k] != data[y + k])
    decreases n
  {
    if n == 0 || data[x] != data[y] then 0
    else
      AgreeStep(data, x, y, Common(data, x + 1, y + 1, n - 1));
      1 + Common(data, x + 1, y + 1, n - 1)
  }

  lemma AgreeStep(data: seq<u8>, x: nat, y: nat, k: nat)
    requires x < |data| && y < |data| && data[x] == data[y] && Agree(data, x + 1, y + 1, k)
    ensures Agree(data, x, y, k + 1)
  {
    assert data[x..x + k + 1] == [data[x]] + data[x + 1..x + 1 + k];
    assert data[y..y + k + 1] == [data[y]] + data[y + 1..y + 1 + k];
  }

  lemma CommonIs(data: seq<u8>, x: nat, y: nat, n: nat, k: nat)
    requires x + n <= |data| && y + n <= |data| && k <= n && Agree(data, x, y, k)
    requires k < n ==> data[x + k] != data[y + k]
    ensures Common(data, x, y, n) == k
  {
    hide Agree;
    var c := Common(data, x, y, n);
    if c < k {
      AgreeAt(data, x, y, k, c);
    } else if k < c {
      AgreeAt(data, x, y, c, k);
    }
  }

  lemma CommonShorter(data: seq<u8>, x: nat, y: nat, n: nat, m: nat)
    requires m <= n && x + n <= |data| && y + n <= |data|
    ensures Common(data, x, y, m) == if Common(data, x, y, n) < m then Common(data, x, y, n) else m
  {
    hide Common;
    var k := Common(data, x, y, n);
    AgreeShorter(data, x, y, k, if k < m then k else m);
    CommonIs(data, x, y, m, if k < m then k else m);
  }

  lemma LongestIsCommon(data: seq<u8>, p: nat, m: nat, len: nat, maxLen: nat)
    requires Longest(data, p, m, len, maxLen)
    ensures Common(data, m, p, maxLen) == len
  {
    hide Common;
    CommonIs(data, m, p, maxLen, len);
  }

  /** A match that is true and in the window. */
  ghost predicate TrueMatch(data: seq<u8>, p: nat, length: nat, offset: nat) {
    1 <= offset <= p && offset < WINDOW_SIZE && Agree(data, p, p - offset, length)
  }

  ghost predicate InReach(y: int, p: nat) {
    y >= 0 && y > p - WINDOW_SIZE
  }

  lemma CommonTrue(data: seq<u8>, p: nat, y: nat, maxLen: nat, k: nat)
    requires y < p && p + maxLen <= |data| && InReach(y, p) && k <= Common(data, y, p, maxLen)
    ensures TrueMatch(data, p, k, p - y)
  {
    hide Common;
    AgreeShorter(data, y, p, Common(data, y, p, maxLen), k);
  }

  /** Comparing the first n bytes tells whether so many are equal. */
  lemma CommonAtLeast(data: seq<u8>, m: nat, p: nat, maxLen: nat, n: nat)
    requires n <= maxLen && m + maxLen <= |data| && p + maxLen <= |data|
    ensures data[m..m + n] == data[p..p + n] <==> Common(data, m, p, maxLen) >= n
  {
    hide Common;
    var k := Common(data, m, p, maxLen);
    if k >= n {
      AgreeShorter(data, m, p, k, n);
    } else {
      assert data[m..m + n][k] != data[p..p + n][k];
    }
  }

  /** The better of a match and k equal bytes at an offset: more than the match has, and at least four. */
  function Better(best: LzMatch, k: nat, offset: nat): (m: LzMatch)
    ensures m == best || (m == LzMatch(k, offset) && k >= 4 && k > best.length)
    ensures m.length >= best.length && (k < 4 || k <= m.length)
  {
    if k >= 4 && k > best.length then LzMatch(k, offset) else best
  }

  // ---- extending a match

  /** Compares one word.  When the words differ, `len` is where. */
  method CompareWord(data: seq<u8>, p: nat, m: nat, len0: nat, maxLen: nat, wordBytes: nat)
    returns (differs: bool, len: nat)
    requires len0 + wordBytes <= maxLen && p + maxLen <= |data| && m + maxLen <= |data| && Agree(data, p, m, len0)
    ensures len0 <= len <= maxLen && Agree(data, p, m, len)
    ensures differs ==> Longest(data, p, m, len, maxLen)
    ensures !differs ==> len == len0 + wordBytes
  {
    hide Xor, Bsf, Value;
    var a, b := data[m + len0..m + len0 + wordBytes], data[p + len0..p + len0 + wordBytes];
    var word := Xor(Value(a), Value(b));
    XorZero(Value(a), Value(b));
    if word != 0 {
      FirstDifferingByte(a, b);
      var k := Bsf(word) / 8;
      assert data[p + len0..p + len0 + k] == b[..k] && data[m + len0..m + len0 + k] == a[..k];
      AgreeMore(data, p, m, len0, k);
      assert data[p + len0 + k] == b[k] && data[m + len0 + k] == a[k];
      return true, len0 + k;
    }
    SameBytes(a, b);
    AgreeMore(data, p, m, len0, wordBytes);
    return false, len0 + wordBytes;
  }

  /** The number of equal bytes at the two positions, given that the first startLen are. */
  method LzExtend(data: seq<u8>, p: nat, m: nat, startLen: nat, maxLen: nat, wordBytes: nat, fast: bool)
    returns (len: nat)
    requires startLen <= maxLen && p + maxLen <= |data| && m + maxLen <= |data| && Agree(data, p, m, startLen)
    requires wordBytes == 4 || wordBytes == 8
    ensures startLen <= len && Longest(data, p, m, len, maxLen)
  {
    hide Agree;
    len := startLen;
    var differs := false;
    if fast {
      if maxLen - len >= 4 * wordBytes {
        var steps := 0;
        while steps < 4
          invariant startLen <= len && 0 <= steps <= 4 && len + (4 - steps) * wordBytes <= maxLen
          invariant Agree(data, p, m, len)
        {
          differs, len := CompareWord(data, p, m, len, maxLen, wordBytes);
          if differs {
            return;
          }
          steps := steps + 1;
        }
      }
      while len + wordBytes <= maxLen
        invariant startLen <= len <= maxLen && Agree(data, p, m, len)
        decreases maxLen - len
      {
        differs, len := CompareWord(data, p, m, len, maxLen, wordBytes);
        if differs {
          return;
        }
      }
    }
    while len < maxLen && data[m + len] == data[p + len]
      invariant startLen <= len <= maxLen && Agree(data, p, m, len)
      decreases maxLen - len
    {
      assert data[p + len..p + len + 1] == [data[p + len]] && data[m + len..m + len + 1] == [data[m + len]];
      AgreeMore(data, p, m, len, 1);
      len := len + 1;
    }
  }

  // ---- sliding the window

  /** One window further, saturating. */
  function Slid(e: Pos): Pos {
    if e < 0 then DEAD else e - WINDOW_SIZE
  }

  /** Slides all entries by one window. */
  method Rebase(tab: array<Pos>)
    modifies tab
    ensures forall i :: 0 <= i < tab.Length ==> tab[i] == Slid(old(tab[i]))
  {
    for i := 0 to tab.Length
      invariant forall j :: 0 <= j < i ==> tab[j] == Slid(old(tab[j]))
      invariant forall j :: i <= j < tab.Length ==> tab[j] == old(tab[j])
    {
      tab[i] := Slid(tab[i]);
    }
  }

  /** An entry is dead or names an earlier position of the input. */
  ghost predicate Names(e: Pos, base: int, cur: int) {
    e == DEAD || 0 <= base + e < cur
  }

  /** Sliding keeps what entries name, or kills them. */
  lemma SlidNames(e: Pos, base: int, cur: int)
    requires Names(e, base, cur)
    ensures Names(Slid(e), base + WINDOW_SIZE, cur)
    ensures Slid(e) != DEAD ==> base + WINDOW_SIZE + Slid(e) == base + e
  {
  }

  // ---- the branch for other window sizes

  /** A 16-bit signed value. */
  function Wrapped(x: int): Pos {
    (x + 32768) % 65536 - 32768
  }

  /** What the code has for windows of other sizes: it subtracts the negated size. */
  function SlidGeneric(e: Pos, window: int): Pos
    requires 0 < window <= 32768
  {
    if e >= 0 then Wrapped(e - (-window)) else -window
  }

  /** That is a saturating subtraction only for the largest window, or for entries already negative. */
  lemma GenericIff(e: Pos, window: int)
    requires 0 < window <= 32768 && -window <= e < window
    ensures SlidGeneric(e, window) == (if e - window < -window then -window else e - window)
      <==> window == 32768 || e < 0
  {
  }
}
