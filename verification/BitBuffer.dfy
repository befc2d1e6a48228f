/** What a bit buffer holds: the low bits of the rest of a stream, least significant bit first. */
module BitBuffer {
  import opened Arith
  import opened Bits
  import opened Words

  type u8 = x: int | 0 <= x < 0x100

  /** Bitwise or. */
  function Or(x: nat, y: nat): (r: nat) {
    if x == 0 && y == 0 then 0 else (if x % 2 == 1 || y % 2 == 1 then 1 else 0) + 2 * Or(x / 2, y / 2)
  }

  /** A byte string as a little-endian number; bit n of it is bit n of the stream, and beyond the
      end there are zeros. */
  function Value(data: seq<u8>): nat {
    if data == [] then 0 else data[0] + 256 * Value(data[1..])
  }

  /** The stream x starts with the bits b. */
  ghost predicate Begins(x: nat, b: Bits) {
    Low(x, |b|) == Le(b)
  }

  lemma ShrNothing(x: nat)
    ensures Shr(x, 0) == x
  {
  }

  lemma {:induction false} ShrShr(x: nat, m: nat, n: nat)
    ensures Shr(Shr(x, m), n) == Shr(x, m + n)
  {
    if m > 0 {
      ShrShr(x / 2, m - 1, n);
    }
  }

  lemma BeginsAppend(x: nat, a: Bits, b: Bits)
    ensures Begins(x, a + b) <==> Begins(x, a) && Begins(Shr(x, |a|), b)
  {
    hide Le, Low, Shr, Pow2;
    LeAppend(a, b);
    LowOfShr(x, |a|, |b|);
    LeBound(a);
    var p := Pow2(|a|);
    if Begins(x, a + b) {
      LowOfLow(x, |a|, |a + b|);
      ShrIs(Le(a + b), |a|, Le(b), Le(a));
      ShrIs(Low(x, |a + b|), |a|, Low(Shr(x, |a|), |b|), Low(x, |a|));
    }
  }

  lemma {:induction false} OrSame(s: nat, m: nat, n: nat)
    ensures Or(Low(s, m), Low(s, n)) == Low(s, if m < n then n else m)
  {
    if m > 0 || n > 0 {
      var m', n' := if m == 0 then 0 else m - 1, if n == 0 then 0 else n - 1;
      OrSame(s / 2, m', n');
      LowHalves(s, m);
      LowHalves(s, n);
      LowHalves(s, if m < n then n else m);
      hide Low;
      OrStep(Low(s, m), Low(s, n));
    }
  }

  lemma LowHalves(s: nat, m: nat)
    ensures Low(s, m) / 2 == Low(s / 2, if m == 0 then 0 else m - 1) && Low(s, m) % 2 == if m == 0 then 0 else s % 2
  {
  }

  /** Putting bits of the stream into a buffer that already has some of them is harmless. */
  lemma {:induction false} OrInto(s: nat, m: nat, b: nat, n: nat)
    requires b <= m
    ensures Or(Low(s, m), Pow2(b) * Low(Shr(s, b), n)) == Low(s, if m < b + n then b + n else m)
  {
    hide Shr, Low, Or, Pow2;
    if b == 0 {
      OrSame(s, m, n);
      NotShifted(s, n);
    } else {
      OrInto(s / 2, m - 1, b - 1, n);
      ShrHalf(s, b);
      var z := Low(Shr(s, b), n);
      HalfShifted(z, b);
      LowHalf(s, m);
      LowHalf(s, if m < b + n then b + n else m);
      OrJoin(Low(s, m), Pow2(b) * z, Low(s / 2, m - 1), Pow2(b - 1) * z);
    }
  }

  lemma NotShifted(s: nat, n: nat)
    ensures Pow2(0) * Low(Shr(s, 0), n) == Low(s, n)
  {
  }

  lemma OrJoin(x: nat, y: nat, x': nat, y': nat)
    requires x / 2 == x' && y / 2 == y' && y % 2 == 0
    ensures Or(x, y) == x % 2 + 2 * Or(x', y')
  {
    OrStep(x, y);
  }

  lemma ShrHalf(s: nat, b: nat)
    requires b > 0
    ensures Shr(s, b) == Shr(s / 2, b - 1)
  {
  }

  lemma LowHalf(s: nat, m: nat)
    requires m > 0
    ensures Low(s, m) / 2 == Low(s / 2, m - 1) && Low(s, m) % 2 == s % 2
    ensures Low(s, m) == s % 2 + 2 * Low(s / 2, m - 1)
  {
  }

  lemma HalfShifted(z: nat, b: nat)
    requires b > 0
    ensures Pow2(b) * z / 2 == Pow2(b - 1) * z && Pow2(b) * z % 2 == 0
  {
    Associate(2, Pow2(b - 1), z);
  }

  lemma OrStep(x: nat, y: nat)
    ensures Or(x, y) == (if x % 2 == 1 || y % 2 == 1 then 1 else 0) + 2 * Or(x / 2, y / 2)
  {
  }

  /** Adding bits above those that a buffer has. */
  lemma {:induction false} OrAbove(x: nat, b: nat, y: nat)
    requires x < Pow2(b)
    ensures Or(x, Pow2(b) * y) == x + Pow2(b) * y
  {
    if b == 0 {
      OrZero(y);
    } else {
      OrAbove(x / 2, b - 1, y);
      Associate(2, Pow2(b - 1), y);
      var z := Pow2(b) * y;
      assert z / 2 == Pow2(b - 1) * y && z % 2 == 0;
      OrStep(x, z);
    }
  }

  lemma {:induction false} OrZero(y: nat)
    ensures Or(0, y) == y
  {
    if y > 0 {
      OrZero(y / 2);
    }
  }

  lemma {:induction false} LowShifted(y: nat, b: nat, n: nat)
    ensures Low(Pow2(b) * y, b + n) == Pow2(b) * Low(y, n)
  {
    if b > 0 {
      LowShifted(y, b - 1, n);
      Associate(2, Pow2(b - 1), y);
      Associate(2, Pow2(b - 1), Low(y, n));
      var z := Pow2(b) * y;
      assert z / 2 == Pow2(b - 1) * y && z % 2 == 0;
    }
  }

  // ---- bytes

  lemma {:induction false} ValueAppend(a: seq<u8>, b: seq<u8>)
    ensures Value(a + b) == Value(a) + Pow2(8 * |a|) * Value(b)
  {
    if a == [] {
      assert a + b == b;
    } else {
      ValueAppend(a[1..], b);
      assert (a + b)[1..] == a[1..] + b;
      BytePow(|a| - 1);
      Associate(256, Pow2(8 * (|a| - 1)), Value(b));
      Distribute(256, Value(a[1..]), Pow2(8 * (|a| - 1)) * Value(b));
    }
  }

  lemma BytePow(n: nat)
    ensures Pow2(8 * (n + 1)) == 256 * Pow2(8 * n)
  {
    hide Pow2;
    Pow2Add(8, 8 * n);
    Pow2Eight();
  }

  lemma Pow2Eight()
    ensures Pow2(8) == 256
  {
  }

  lemma {:induction false} ValueBound(data: seq<u8>)
    ensures Value(data) < Pow2(8 * |data|)
  {
    if data != [] {
      ValueBound(data[1..]);
      BytePow(|data| - 1);
    }
  }

  /** A stretch of the bytes is a stretch of the bits. */
  lemma ValueSlice(data: seq<u8>, i: nat, j: nat)
    requires i <= j <= |data|
    ensures Low(Shr(Value(data), 8 * i), 8 * (j - i)) == Value(data[i..j])
  {
    hide Value, Low, Shr, Pow2;
    assert data == data[..i] + data[i..] && data[i..] == data[i..j] + data[j..];
    ValueAppend(data[..i], data[i..]);
    ValueAppend(data[i..j], data[j..]);
    ValueBound(data[..i]);
    ValueBound(data[i..j]);
    ShrIs(Value(data), 8 * i, Value(data[i..]), Value(data[..i]));
    ShrIs(Value(data[i..]), 8 * (j - i), Value(data[j..]), Value(data[i..j]));
  }

  lemma ValueOne(b: u8)
    ensures Value([b]) == b
  {
    assert [b][1..] == [];
  }

  /** Beyond the end there are zeros. */
  lemma ValueEnds(data: seq<u8>, n: nat)
    requires n >= 8 * |data|
    ensures Shr(Value(data), n) == 0
  {
    hide Value, Shr, Pow2;
    ValueBound(data);
    Pow2Monotone(8 * |data|, n);
    LowFits(Value(data), n);
  }
}
