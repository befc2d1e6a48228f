/** Copying a match word by word, as the decompressor's fast loop does. */
module MatchCopy {
  import opened Arith
  import opened BitBuffer
  import opened BitWriter
  import opened Slots
  import opened Items
  import opened GenericItem

  // ---- the byte-by-byte copy

  lemma {:induction false} CopyPrefix(out: seq<u8>, j: nat, k: nat, offset: nat)
    requires 1 <= offset <= |out| && j <= k
    ensures CopyMatch(out, k, offset)[..|out| + j] == CopyMatch(out, j, offset)
    decreases k
  {
    if j < k {
      CopyStep(out, k - 1, offset);
      CopyPrefix(out, j, k - 1, offset);
      assert CopyMatch(out, k, offset)[..|out| + j] == CopyMatch(out, k - 1, offset)[..|out| + j];
    }
  }

  /** The byte copy, without recursion: every byte is that one offset before it. */
  lemma {:induction false} CopyIs(before: seq<u8>, r: seq<u8>, k: nat, offset: nat)
    requires 1 <= offset <= |before| && |r| == |before| + k && r[..|before|] == before
    requires forall i :: |before| <= i < |r| ==> r[i] == r[i - offset]
    ensures r == CopyMatch(before, k, offset)
    decreases k
  {
    if k == 0 {
      assert r == r[..|before|];
    } else {
      var p := r[..|r| - 1];
      assert p[..|before|] == before;
      CopyIs(before, p, k - 1, offset);
      CopyStep(before, k - 1, offset);
      assert r == p + [p[|p| - offset]];
    }
  }

  /** The bytes from `next` on are copies, up to dst. */
  ghost predicate Copied(out: seq<u8>, before: seq<u8>, next: nat, dst: nat, offset: nat) {
    && 1 <= offset <= next <= dst <= |out| && |before| == |out|
    && out[..next] == before[..next]
    && forall i :: next <= i < dst ==> out[i] == out[i - offset]
  }

  lemma CopiedMatch(out: seq<u8>, before: seq<u8>, next: nat, dst: nat, offset: nat, length: nat)
    requires Copied(out, before, next, dst, offset) && next + length <= dst
    ensures out[..next + length] == CopyMatch(before[..next], length, offset)
  {
    CopyIs(before[..next], out[..next + length], length, offset);
  }

  // ---- words

  /** Loads a word at src and stores it at dst. */
  method CopyWord(out: array<u8>, src: nat, dst: nat, wordBytes: nat)
    requires src + wordBytes <= out.Length && dst + wordBytes <= out.Length
    modifies out
    ensures out[dst..dst + wordBytes] == old(out[src..src + wordBytes])
    ensures forall i :: 0 <= i < out.Length && !(dst <= i < dst + wordBytes) ==> out[i] == old(out[i])
  {
    var word := out[src..src + wordBytes];
    forall i | dst <= i < dst + wordBytes {
      out[i] := word[i - dst];
    }
  }

  /** One word more: of it, the first n bytes are copies if they come from bytes that are there. */
  method CopyStride(out: array<u8>, dst: nat, offset: nat, n: nat, wordBytes: nat, next: nat, ghost before: seq<u8>)
    requires Copied(out[..], before, next, dst, offset) && n <= offset && n <= wordBytes
    requires dst + wordBytes <= out.Length
    requires wordBytes <= out.Length - dst
    modifies out
    ensures Copied(out[..], before, next, dst + n, offset)
    ensures forall i :: dst + wordBytes <= i < out.Length ==> out[i] == old(out[i])
  {
    ghost var was := out[..];
    CopyWord(out, dst - offset, dst, wordBytes);
    forall i | next <= i < dst + n ensures out[i] == out[i - offset] {
      if i < dst {
        assert was[i] == was[i - offset];
      } else {
        assert out[dst..dst + wordBytes][i - dst] == was[dst - offset..dst - offset + wordBytes][i - dst];
      }
    }
  }

  /** Where the last word of a copy may end. */
  function Overrun(next: nat, length: nat, wordBytes: nat): nat
    requires wordBytes >= 1
  {
    next + length + 5 * wordBytes - 1
  }

  /** A copy over a distance of at least a word: words one after the other, five at a time. */
  method CopyFar(out: array<u8>, next: nat, length: nat, offset: nat, wordBytes: nat)
    requires 1 <= wordBytes <= offset <= next && length >= 1 && Overrun(next, length, wordBytes) <= out.Length
    modifies out
    ensures out[..next + length] == CopyMatch(old(out[..next]), length, offset)
    ensures forall i :: Overrun(next, length, wordBytes) <= i < out.Length ==> out[i] == old(out[i])
  {
    ghost var before := out[..];
    var dst := CopyFive(out, next, offset, wordBytes, next, before);
    while dst < next + length
      invariant next + 5 * wordBytes <= dst <= Overrun(next, length, wordBytes)
      invariant Copied(out[..], before, next, dst, offset)
      invariant forall i :: Overrun(next, length, wordBytes) <= i < out.Length ==> out[i] == before[i]
      decreases next + length - dst
    {
      dst := CopyFive(out, dst, offset, wordBytes, next, before);
    }
    CopiedMatch(out[..], before, next, dst, offset, length);
  }

  method CopyFive(out: array<u8>, dst0: nat, offset: nat, wordBytes: nat, next: nat, ghost before: seq<u8>)
    returns (dst: nat)
    requires 1 <= wordBytes <= offset && Copied(out[..], before, next, dst0, offset)
    requires dst0 + 5 * wordBytes <= out.Length
    modifies out
    ensures dst == dst0 + 5 * wordBytes && Copied(out[..], before, next, dst, offset)
    ensures forall i :: dst <= i < out.Length ==> out[i] == old(out[i])
  {
    hide Copied;
    dst := dst0;
    CopyStride(out, dst, offset, wordBytes, wordBytes, next, before);
    dst := dst + wordBytes;
    CopyStride(out, dst, offset, wordBytes, wordBytes, next, before);
    dst := dst + wordBytes;
    CopyStride(out, dst, offset, wordBytes, wordBytes, next, before);
    dst := dst + wordBytes;
    CopyStride(out, dst, offset, wordBytes, wordBytes, next, before);
    dst := dst + wordBytes;
    CopyStride(out, dst, offset, wordBytes, wordBytes, next, before);
    dst := dst + wordBytes;
  }

  /** A copy over less than a word: every word is right for as many bytes as the distance, and the next
      one overwrites the others. */
  method CopyNear(out: array<u8>, next: nat, length: nat, offset: nat, wordBytes: nat)
    requires 2 <= offset < wordBytes && offset <= next && length >= 1 && Overrun(next, length, wordBytes) <= out.Length
    modifies out
    ensures out[..next + length] == CopyMatch(old(out[..next]), length, offset)
    ensures forall i :: Overrun(next, length, wordBytes) <= i < out.Length ==> out[i] == old(out[i])
  {
    ghost var before := out[..];
    var dst := CopyTwo(out, next, offset, wordBytes, next, before);
    dst := CopyTwo(out, dst, offset, wordBytes, next, before);
    while dst < next + length
      invariant next + 4 * offset <= dst <= Overrun(next, length, wordBytes)
      invariant Copied(out[..], before, next, dst, offset)
      invariant forall i :: Overrun(next, length, wordBytes) <= i < out.Length ==> out[i] == before[i]
      decreases next + length - dst
    {
      dst := CopyTwo(out, dst, offset, wordBytes, next, before);
    }
    CopiedMatch(out[..], before, next, dst, offset, length);
  }

  method CopyTwo(out: array<u8>, dst0: nat, offset: nat, wordBytes: nat, next: nat, ghost before: seq<u8>)
    returns (dst: nat)
    requires 1 <= offset < wordBytes && Copied(out[..], before, next, dst0, offset)
    requires dst0 + offset + wordBytes <= out.Length
    modifies out
    ensures dst == dst0 + 2 * offset && Copied(out[..], before, next, dst, offset)
    ensures forall i :: dst0 + offset + wordBytes <= i < out.Length ==> out[i] == old(out[i])
  {
    hide Copied;
    dst := dst0;
    CopyStride(out, dst, offset, offset, wordBytes, next, before);
    dst := dst + offset;
    CopyStride(out, dst, offset, offset, wordBytes, next, before);
    dst := dst + offset;
  }

  // ---- a run of one byte

  /** A word of which every byte is 1. */
  function OnesWord(n: nat): nat {
    if n == 0 then 0 else 1 + 256 * OnesWord(n - 1)
  }

  lemma {:induction false} OnesWordBytes(b: u8, n: nat)
    ensures BytesOf(b * OnesWord(n), n) == seq(n, _ => b)
  {
    if n > 0 {
      OnesWordBytes(b, n - 1);
      var ones := OnesWord(n - 1);
      Distribute(b, 1, 256 * ones);
      Associate(b, 256, ones);
      Associate(256, b, ones);
      QuotientIs(b * OnesWord(n), 256, b * ones, b);
      assert seq(n, _ => b) == [b] + seq(n - 1, _ => b);
    }
  }

  /** Stores the word v at dst. */
  method StoreRun(out: array<u8>, dst: nat, v: nat, b: u8, wordBytes: nat, next: nat, ghost before: seq<u8>)
    requires Copied(out[..], before, next, dst, 1) && dst + wordBytes <= out.Length
    requires v == b * OnesWord(wordBytes) && b == out[next - 1]
    modifies out
    ensures Copied(out[..], before, next, dst + wordBytes, 1) && b == out[next - 1]
    ensures forall i :: dst + wordBytes <= i < out.Length ==> out[i] == old(out[i])
  {
    ghost var was := out[..];
    AllSame(was, before, next, dst);
    OnesWordBytes(b, wordBytes);
    var word := BytesOf(v, wordBytes);
    forall i | dst <= i < dst + wordBytes {
      out[i] := word[i - dst];
    }
    forall i | next <= i < dst + wordBytes ensures out[i] == out[i - 1] {
      if i < dst {
        assert was[i] == was[i - 1];
      }
    }
  }

  /** All bytes of the run are the byte before it. */
  lemma {:induction false} AllSame(out: seq<u8>, before: seq<u8>, next: nat, dst: nat)
    requires Copied(out, before, next, dst, 1)
    ensures forall i :: next <= i < dst ==> out[i] == out[next - 1]
    decreases dst
  {
    if dst > next {
      AllSame(out, before, next, dst - 1);
      assert out[dst - 1] == out[dst - 2];
    }
  }

  method CopyRun(out: array<u8>, next: nat, length: nat, wordBytes: nat)
    requires 1 <= wordBytes && 1 <= next && length >= 1 && Overrun(next, length, wordBytes) <= out.Length
    modifies out
    ensures out[..next + length] == CopyMatch(old(out[..next]), length, 1)
    ensures forall i :: Overrun(next, length, wordBytes) <= i < out.Length ==> out[i] == old(out[i])
  {
    ghost var before := out[..];
    var b := out[next - 1];
    var v := b * OnesWord(wordBytes);
    var dst := StoreFour(out, next, v, b, wordBytes, next, before);
    while dst < next + length
      invariant next + 4 * wordBytes <= dst <= Overrun(next, length, wordBytes) && Copied(out[..], before, next, dst, 1)
      invariant b == out[next - 1]
      invariant forall i :: Overrun(next, length, wordBytes) <= i < out.Length ==> out[i] == before[i]
      decreases next + length - dst
    {
      dst := StoreFour(out, dst, v, b, wordBytes, next, before);
    }
    CopiedMatch(out[..], before, next, dst, 1, length);
  }

  method StoreFour(out: array<u8>, dst0: nat, v: nat, b: u8, wordBytes: nat, next: nat, ghost before: seq<u8>)
    returns (dst: nat)
    requires Copied(out[..], before, next, dst0, 1) && dst0 + 4 * wordBytes <= out.Length
    requires v == b * OnesWord(wordBytes) && b == out[next - 1]
    modifies out
    ensures dst == dst0 + 4 * wordBytes && Copied(out[..], before, next, dst, 1) && b == out[next - 1]
    ensures forall i :: dst <= i < out.Length ==> out[i] == old(out[i])
  {
    dst := dst0;
    StoreRun(out, dst, v, b, wordBytes, next, before);
    dst := dst + wordBytes;
    StoreRun(out, dst, v, b, wordBytes, next, before);
    dst := dst + wordBytes;
    StoreRun(out, dst, v, b, wordBytes, next, before);
    dst := dst + wordBytes;
    StoreRun(out, dst, v, b, wordBytes, next, before);
    dst := dst + wordBytes;
  }

  // ---- all copies

  /** The most bytes that a round of the fast loop writes: two literals and the longest match. */
  function MaxBytesWritten(wordBytes: nat): int {
    2 + MAX_MATCH + 5 * wordBytes - 1
  }

  /** The copy of the fast loop: the same bytes as byte by byte, and behind them nothing more than the
      slack is touched. */
  method CopyMatchFast(out: array<u8>, next: nat, length: nat, offset: nat, wordBytes: nat, fast: bool)
    requires (wordBytes == 4 || wordBytes == 8) && 3 <= length && 1 <= offset <= next
    requires Overrun(next, length, wordBytes) <= out.Length
    modifies out
    ensures out[..next + length] == CopyMatch(old(out[..next]), length, offset)
    ensures forall i :: Overrun(next, length, wordBytes) <= i < out.Length ==> out[i] == old(out[i])
  {
    if fast && offset >= wordBytes {
      CopyFar(out, next, length, offset, wordBytes);
    } else if fast && offset == 1 {
      CopyRun(out, next, length, wordBytes);
    } else if fast {
      CopyNear(out, next, length, offset, wordBytes);
    } else {
      CopyBytes(out, next, length, offset);
    }
  }

  /** Where the fast loop may start a round. */
  function FastloopEnd(outEnd: nat, wordBytes: nat): nat {
    if outEnd < MaxBytesWritten(wordBytes) then 0 else outEnd - MaxBytesWritten(wordBytes)
  }

  /** A round that starts before the end of the fast loop writes within the output: up to two literals
      and then a match of any length. */
  lemma RoundFits(outNext: nat, outEnd: nat, wordBytes: nat, literals: nat, length: nat)
    requires wordBytes == 4 || wordBytes == 8
    requires outNext < FastloopEnd(outEnd, wordBytes) && literals <= 2 && length <= MAX_MATCH
    ensures Overrun(outNext + literals, length, wordBytes) < outEnd
  {
  }
}
