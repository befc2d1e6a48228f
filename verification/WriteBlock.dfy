/** The compressor's output of the literals and matches of a block. */
module WriteBlock {
  import opened Arith
  import opened Packed
  import opened Bits
  import opened Canonical
  import opened Words
  import opened BitBuffer
  import opened BitWriter
  import opened Slots
  import opened Items

  const MAX_LITLEN_LEN: nat := 14
  const MAX_OFFSET_LEN: nat := 15
  const MAX_LENGTH_EXTRA: nat := 5
  const MAX_OFFSET_EXTRA: nat := 13

  /** A run of literals and the match behind it; a length of zero ends the block. */
  datatype Sequence = Sequence(litrunlen: nat, length: nat, offset: nat, offsetSlot: nat)

  /** The stored lengths and codewords of a code, first bit lowest. */
  datatype Coder = Coder(lens: seq<nat>, codewords: seq<u32>)

  /** They are right for every symbol that has a codeword; nothing is said about the others. */
  ghost predicate Codewords(lens: seq<nat>, c: Coder, max: nat) {
    && |c.codewords| >= |c.lens| >= |lens|
    && forall s :: 0 <= s < |lens| && lens[s] > 0 ==> c.lens[s] == lens[s] <= max && c.codewords[s] == Le(Code(lens, s))
  }

  // ---- values and bits

  lemma {:induction false} FrontLe(b: Bits)
    ensures Front(Le(b), |b|) == b
  {
    if b != [] {
      FrontLe(b[1..]);
      assert Le(b) / 2 == Le(b[1..]);
      assert b == [b[0]] + b[1..];
    }
  }

  lemma CodewordBits(lens: seq<nat>, c: Coder, max: nat, s: nat)
    requires Codewords(lens, c, max) && HasCode(lens, s)
    ensures c.lens[s] == lens[s] <= max
    ensures c.codewords[s] < Pow2(lens[s]) && Front(c.codewords[s], lens[s]) == Code(lens, s)
  {
    FrontLe(Code(lens, s));
    LeBound(Code(lens, s));
  }

  /** v holds the n bits of a match length, if its symbol has a codeword. */
  ghost predicate IsFull(ll: seq<nat>, length: nat, v: nat, n: nat) {
    MIN_MATCH <= length <= MAX_MATCH && HasCode(ll, FIRST_LENGTH_SYM + LengthSlot(length)) ==>
      v == Le(LengthBits(ll, length)) && n == |LengthBits(ll, length)| <= MAX_LITLEN_LEN + MAX_LENGTH_EXTRA
  }

  /** A codeword and the extra bits behind it in one value. */
  lemma FullCodeword(ll: seq<nat>, c: Coder, length: nat, slot: nat, s: nat, extra: nat)
    requires Codewords(ll, c, MAX_LITLEN_LEN) && MIN_MATCH <= length <= MAX_MATCH
    requires slot == LengthSlot(length) && s == FIRST_LENGTH_SYM + slot && s < |c.lens| <= |c.codewords|
    requires length == LENGTH_BASE[slot] + extra
    ensures IsFull(ll, length, Or(c.codewords[s], Pow2(c.lens[s]) * extra), c.lens[s] + LENGTH_EXTRA[slot])
  {
    hide Code, Le, Front, Pow2, Or, LengthSlot, Low;
    LengthExtraFits(length);
    LengthExtraSmall(slot);
    if HasCode(ll, s) {
      CodewordBits(ll, c, MAX_LITLEN_LEN, s);
      OrAbove(c.codewords[s], ll[s], extra);
      LeAppend(Code(ll, s), Front(extra, LENGTH_EXTRA[slot]));
      LeFront(extra, LENGTH_EXTRA[slot]);
      LowFits(extra, LENGTH_EXTRA[slot]);
    }
  }

  lemma LengthExtraSmall(slot: nat)
    requires slot < |LENGTH_EXTRA|
    ensures LENGTH_EXTRA[slot] <= MAX_LENGTH_EXTRA
  {
  }

  /** Computes the bits of every match length in advance. */
  method ComputeFullLenCodewords(c: Coder, fullCw: array<nat>, fullLens: array<nat>, ghost ll: seq<nat>)
    requires Codewords(ll, c, MAX_LITLEN_LEN) && |c.lens| >= FIRST_LENGTH_SYM + LENGTH_SLOTS
    requires fullCw.Length == fullLens.Length == MAX_MATCH + 1 && fullCw != fullLens
    modifies fullCw, fullLens
    ensures FullLens(ll, fullCw[..], fullLens[..])
  {
    hide Codewords, Code, Le, Front, Pow2, Or, LengthSlot, LengthBits, IsFull;
    for length := MIN_MATCH to MAX_MATCH + 1
      invariant forall k :: MIN_MATCH <= k < length ==> IsFull(ll, k, fullCw[k], fullLens[k])
    {
      var slot := LengthSlot(length);
      var s := FIRST_LENGTH_SYM + slot;
      LengthExtraFits(length);
      CodewordsLength(ll, c);
      var extra: nat := length - LENGTH_BASE[slot];
      fullCw[length] := Or(c.codewords[s], Pow2(c.lens[s]) * extra);
      fullLens[length] := c.lens[s] + LENGTH_EXTRA[slot];
      FullCodeword(ll, c, length, slot, s, extra);
    }
  }

  lemma CodewordsLength(ll: seq<nat>, c: Coder)
    requires Codewords(ll, c, MAX_LITLEN_LEN)
    ensures |c.codewords| >= |c.lens| >= |ll|
  {
  }

  ghost predicate FullLens(ll: seq<nat>, fullCw: seq<nat>, fullLens: seq<nat>) {
    && |fullCw| == |fullLens| == MAX_MATCH + 1
    && forall k :: MIN_MATCH <= k <= MAX_MATCH ==> IsFull(ll, k, fullCw[k], fullLens[k])
  }

  // ---- writing symbols

  predicate CanBuffer(wordBytes: nat, n: nat) {
    7 + n < 8 * wordBytes
  }

  method WriteSymbol(w: BitWriter, c: Coder, s: nat, ghost lens: seq<nat>, ghost max: nat)
    requires w.Valid() && Codewords(lens, c, max) && HasCode(lens, s) && w.bitcount + max < 8 * w.wordBytes
    modifies w
    ensures w.Valid() && w.bits == old(w.bits) + Code(lens, s) && w.next == old(w.next)
    ensures w.bitcount <= old(w.bitcount) + max
  {
    hide Code, Le, Front, Pow2;
    CodewordBits(lens, c, max, s);
    w.AddBits(c.codewords[s], c.lens[s]);
  }

  lemma WriterWord(w: BitWriter)
    requires w.Valid()
    ensures w.wordBytes == 4 || w.wordBytes == 8
  {
  }

  method WriteMatch(w: BitWriter, fullCw: seq<nat>, fullLens: seq<nat>, oc: Coder, length: nat, offset: nat,
                    offsetSlot: nat, ghost ll: seq<nat>, ghost ol: seq<nat>)
    requires w.Valid() && w.bitcount < 8 && FullLens(ll, fullCw, fullLens) && Codewords(ol, oc, MAX_OFFSET_LEN)
    requires Encodable(ll, ol, Match(length, offset)) && offsetSlot == OffsetSlot(offset)
    modifies w, w.out
    ensures w.Valid() && w.bitcount < 8 && w.bits == old(w.bits) + ItemBits(ll, ol, Match(length, offset))
  {
    hide Code, Le, Front, Pow2, Low, LengthSlot, OffsetSlot, Codewords, ItemBits, LengthBits, OffsetBits, w.Valid;
    WriterWord(w);
    MatchBits(ll, ol, length, offset, offsetSlot);
    assert IsFull(ll, length, fullCw[length], fullLens[length]);
    FrontLe(LengthBits(ll, length));
    LeBound(LengthBits(ll, length));
    w.AddBits(fullCw[length], fullLens[length]);
    if !CanBuffer(w.wordBytes, MAX_LITLEN_LEN + MAX_LENGTH_EXTRA + MAX_OFFSET_LEN + MAX_OFFSET_EXTRA) {
      w.FlushBits();
    }
    WriteSymbol(w, oc, offsetSlot, ol, MAX_OFFSET_LEN);
    if !CanBuffer(w.wordBytes, MAX_OFFSET_LEN + MAX_OFFSET_EXTRA) {
      w.FlushBits();
    }
    OffsetExtraSmall(offsetSlot);
    w.AddBits(offset - OFFSET_BASE[offsetSlot], OFFSET_EXTRA[offsetSlot]);
    w.FlushBits();
  }

  lemma MatchBits(ll: seq<nat>, ol: seq<nat>, length: nat, offset: nat, slot: nat)
    requires Encodable(ll, ol, Match(length, offset)) && slot == OffsetSlot(offset)
    ensures OFFSET_BASE[slot] <= offset && offset - OFFSET_BASE[slot] < Pow2(OFFSET_EXTRA[slot])
    ensures ItemBits(ll, ol, Match(length, offset)) ==
      LengthBits(ll, length) + Code(ol, slot) + Front(offset - OFFSET_BASE[slot], OFFSET_EXTRA[slot])
  {
    hide Code, Front, LengthBits, LengthSlot, OffsetSlot, Pow2;
    OffsetExtraFits(offset);
  }

  lemma OffsetExtraSmall(slot: nat)
    requires slot < |OFFSET_EXTRA|
    ensures OFFSET_EXTRA[slot] <= MAX_OFFSET_EXTRA
  {
  }

  // ---- literals

  ghost function Literals(s: seq<u8>): (items: seq<Item>)
    ensures |items| == |s| && forall k :: 0 <= k < |s| ==> items[k] == Literal(s[k])
  {
    seq(|s|, k requires 0 <= k < |s| => Literal(s[k]))
  }

  lemma {:induction false} ItemsBitsAppend(ll: seq<nat>, ol: seq<nat>, a: seq<Item>, b: seq<Item>)
    requires Encodables(ll, ol, a) && Encodables(ll, ol, b)
    ensures Encodables(ll, ol, a + b)
    ensures ItemsBits(ll, ol, a + b) == ItemsBits(ll, ol, a) + ItemsBits(ll, ol, b)
    decreases |a|
  {
    hide Encodable, ItemBits;
    if a == [] {
      assert a + b == b;
    } else {
      ItemsBitsAppend(ll, ol, a[1..], b);
      assert (a + b)[1..] == a[1..] + b;
    }
  }

  ghost predicate LiteralsEncodable(ll: seq<nat>, data: seq<u8>, p: nat, e: nat)
    requires p <= e <= |data|
  {
    forall k :: p <= k < e ==> HasCode(ll, data[k])
  }

  /** The bits of the literals from p to e. */
  ghost function LiteralBits(ll: seq<nat>, data: seq<u8>, p: nat, e: nat): Bits
    requires p <= e <= |data| && LiteralsEncodable(ll, data, p, e)
  {
    if p == e then [] else LiteralBits(ll, data, p, e - 1) + Code(ll, data[e - 1])
  }

  lemma {:induction false} LiteralBitsAre(ll: seq<nat>, ol: seq<nat>, data: seq<u8>, p: nat, e: nat)
    requires p <= e <= |data| && LiteralsEncodable(ll, data, p, e)
    ensures Encodables(ll, ol, Literals(data[p..e]))
    ensures ItemsBits(ll, ol, Literals(data[p..e])) == LiteralBits(ll, data, p, e)
    decreases e - p
  {
    hide Code;
    if p < e {
      LiteralBitsAre(ll, ol, data, p, e - 1);
      LiteralBitsOne(ll, ol, data[e - 1]);
      var one := [Literal(data[e - 1])];
      assert Literals(data[p..e]) == Literals(data[p..e - 1]) + one;
      ItemsBitsAppend(ll, ol, Literals(data[p..e - 1]), one);
    }
  }

  lemma LiteralBitsOne(ll: seq<nat>, ol: seq<nat>, b: u8)
    requires HasCode(ll, b)
    ensures Encodables(ll, ol, [Literal(b)])
    ensures ItemsBits(ll, ol, [Literal(b)]) == Code(ll, b)
  {
    assert [Literal(b)][1..] == [];
  }

  lemma NoLiterals(ll: seq<nat>, data: seq<u8>, p: nat)
    requires p <= |data|
    ensures LiteralBits(ll, data, p, p) == []
  {
  }

  method WriteLiteral(w: BitWriter, c: Coder, data: seq<u8>, pos: nat, ghost ll: seq<nat>, ghost p: nat,
                      ghost start: Bits)
    requires w.Valid() && Codewords(ll, c, MAX_LITLEN_LEN) && w.bitcount + MAX_LITLEN_LEN < 8 * w.wordBytes
    requires p <= pos < |data| && LiteralsEncodable(ll, data, p, pos + 1)
    requires w.bits == start + LiteralBits(ll, data, p, pos)
    modifies w
    ensures w.Valid() && w.bitcount <= old(w.bitcount) + MAX_LITLEN_LEN && w.next == old(w.next)
    ensures w.bits == start + LiteralBits(ll, data, p, pos + 1)
  {
    hide Codewords, Code;
    WriteSymbol(w, c, data[pos], ll, MAX_LITLEN_LEN);
  }

  /** Writes four literals, or up to three, before it flushes. */
  method WriteFew(w: BitWriter, c: Coder, data: seq<u8>, pos: nat, n: nat, ghost ll: seq<nat>, ghost p: nat,
                  ghost start: Bits)
    requires w.Valid() && Codewords(ll, c, MAX_LITLEN_LEN) && w.bitcount < 8
    requires CanBuffer(w.wordBytes, 4 * MAX_LITLEN_LEN) && 1 <= n <= 4
    requires p <= pos && pos + n <= |data| && LiteralsEncodable(ll, data, p, pos + n)
    requires w.bits == start + LiteralBits(ll, data, p, pos)
    modifies w, w.out
    ensures w.Valid() && w.bitcount < 8 && w.bits == start + LiteralBits(ll, data, p, pos + n)
  {
    hide Codewords, Code, LiteralBits;
    WriteLiteral(w, c, data, pos, ll, p, start);
    if n != 1 {
      WriteLiteral(w, c, data, pos + 1, ll, p, start);
      if n != 2 {
        WriteLiteral(w, c, data, pos + 2, ll, p, start);
        if n != 3 {
          WriteLiteral(w, c, data, pos + 3, ll, p, start);
        }
      }
    }
    w.FlushBits();
  }

  /** Writes a run of literals, four between flushes if the buffer can hold them. */
  method WriteLiterals(w: BitWriter, c: Coder, data: seq<u8>, p: nat, litrunlen: nat, ghost ll: seq<nat>)
    requires w.Valid() && w.bitcount < 8 && Codewords(ll, c, MAX_LITLEN_LEN)
    requires p + litrunlen <= |data| && LiteralsEncodable(ll, data, p, p + litrunlen)
    modifies w, w.out
    ensures w.Valid() && w.bitcount < 8 && w.bits == old(w.bits) + LiteralBits(ll, data, p, p + litrunlen)
  {
    hide Codewords, Code, LiteralBits;
    ghost var start := w.bits;
    var pos: nat, left: nat := p, litrunlen;
    NoLiterals(ll, data, p);
    if CanBuffer(w.wordBytes, 4 * MAX_LITLEN_LEN) {
      while left >= 4
        invariant pos + left == p + litrunlen && p <= pos && w.Valid() && w.bitcount < 8
        invariant w.bits == start + LiteralBits(ll, data, p, pos)
      {
        WriteFew(w, c, data, pos, 4, ll, p, start);
        pos, left := pos + 4, left - 4;
      }
      if left != 0 {
        WriteFew(w, c, data, pos, left, ll, p, start);
      }
    } else {
      while left > 0
        invariant pos + left == p + litrunlen && p <= pos && w.Valid() && w.bitcount < 8
        invariant w.bits == start + LiteralBits(ll, data, p, pos)
      {
        WriteLiteral(w, c, data, pos, ll, p, start);
        w.FlushBits();
        pos, left := pos + 1, left - 1;
      }
    }
  }

  // ---- sequences

  /** The sequences cover the bytes from p to e. */
  ghost predicate Cover(seqs: seq<Sequence>, p: nat, e: nat) {
    && |seqs| > 0
    && var q := seqs[0];
       if q.length == 0 then p + q.litrunlen == e
       else
         && MIN_MATCH <= q.length <= MAX_MATCH && 1 <= q.offset <= MAX_OFFSET && q.offsetSlot == OffsetSlot(q.offset)
         && Cover(seqs[1..], p + q.litrunlen + q.length, e)
  }

  lemma {:induction false} CoverEnd(seqs: seq<Sequence>, p: nat, e: nat)
    requires Cover(seqs, p, e)
    ensures p + seqs[0].litrunlen + seqs[0].length <= e
    decreases |seqs|
  {
    if seqs[0].length != 0 {
      CoverEnd(seqs[1..], p + seqs[0].litrunlen + seqs[0].length, e);
    }
  }

  /** The literals and matches that the sequences stand for; the literals are the bytes of data. */
  ghost function SequenceItems(data: seq<u8>, seqs: seq<Sequence>, p: nat, e: nat): seq<Item>
    requires Cover(seqs, p, e) && e <= |data|
  {
    CoverEnd(seqs, p, e);
    var q := seqs[0];
    var run := Literals(data[p..p + q.litrunlen]);
    if q.length == 0 then run
    else run + [Match(q.length, q.offset)] + SequenceItems(data, seqs[1..], p + q.litrunlen + q.length, e)
  }

  lemma EncodablesSplit(ll: seq<nat>, ol: seq<nat>, a: seq<Item>, b: seq<Item>)
    requires Encodables(ll, ol, a + b)
    ensures Encodables(ll, ol, a) && Encodables(ll, ol, b)
  {
    hide Encodable;
    forall k | 0 <= k < |a| ensures Encodable(ll, ol, a[k]) {
      assert (a + b)[k] == a[k];
    }
    forall k | 0 <= k < |b| ensures Encodable(ll, ol, b[k]) {
      assert (a + b)[|a| + k] == b[k];
    }
  }

  lemma LiteralsHaveCodes(ll: seq<nat>, ol: seq<nat>, data: seq<u8>, p: nat, e: nat)
    requires p <= e <= |data| && Encodables(ll, ol, Literals(data[p..e]))
    ensures LiteralsEncodable(ll, data, p, e)
  {
    hide HasCode;
    forall k | p <= k < e ensures HasCode(ll, data[k]) {
      assert Encodable(ll, ol, Literals(data[p..e])[k - p]);
    }
  }

  /** Appending a run of literals to items that are written. */
  lemma RunWritten(ll: seq<nat>, ol: seq<nat>, done: seq<Item>, data: seq<u8>, p: nat, e: nat)
    requires p <= e <= |data| && Encodables(ll, ol, done + Literals(data[p..e]))
    ensures Encodables(ll, ol, done) && LiteralsEncodable(ll, data, p, e)
    ensures ItemsBits(ll, ol, done + Literals(data[p..e])) == ItemsBits(ll, ol, done) + LiteralBits(ll, data, p, e)
  {
    hide Encodable, ItemsBits, LiteralBits;
    EncodablesSplit(ll, ol, done, Literals(data[p..e]));
    LiteralsHaveCodes(ll, ol, data, p, e);
    LiteralBitsAre(ll, ol, data, p, e);
    ItemsBitsAppend(ll, ol, done, Literals(data[p..e]));
  }

  lemma ItemWritten(ll: seq<nat>, ol: seq<nat>, done: seq<Item>, it: Item)
    requires Encodables(ll, ol, done + [it])
    ensures Encodables(ll, ol, done) && Encodable(ll, ol, it)
    ensures ItemsBits(ll, ol, done + [it]) == ItemsBits(ll, ol, done) + ItemBits(ll, ol, it)
  {
    hide Encodable, ItemBits;
    EncodablesSplit(ll, ol, done, [it]);
    assert Encodable(ll, ol, [it][0]);
    ItemsBitsAppend(ll, ol, done, [it]);
    assert [it][1..] == [];
    assert ItemsBits(ll, ol, [it]) == ItemBits(ll, ol, it) + ItemsBits(ll, ol, []);
  }

  /** The items of the first sequence, behind items that are written. */
  lemma SequenceStep(ll: seq<nat>, ol: seq<nat>, data: seq<u8>, done: seq<Item>, rest: seq<Sequence>, pos: nat, e: nat,
                     q: Sequence)
    requires Cover(rest, pos, e) && e <= |data| && q == rest[0]
    requires Encodables(ll, ol, done + SequenceItems(data, rest, pos, e))
    ensures pos + q.litrunlen + q.length <= e && Encodables(ll, ol, done)
    ensures LiteralsEncodable(ll, data, pos, pos + q.litrunlen)
    ensures q.length == 0 ==>
      ItemsBits(ll, ol, done + SequenceItems(data, rest, pos, e))
      == ItemsBits(ll, ol, done) + LiteralBits(ll, data, pos, pos + q.litrunlen)
    ensures q.length != 0 ==> Encodable(ll, ol, Match(q.length, q.offset)) && q.offsetSlot == OffsetSlot(q.offset)
    ensures q.length != 0 ==> Cover(rest[1..], pos + q.litrunlen + q.length, e)
    ensures q.length != 0 ==>
      var next := done + Literals(data[pos..pos + q.litrunlen]) + [Match(q.length, q.offset)];
      && done + SequenceItems(data, rest, pos, e)
         == next + SequenceItems(data, rest[1..], pos + q.litrunlen + q.length, e)
      && Encodables(ll, ol, next)
      && ItemsBits(ll, ol, next) == ItemsBits(ll, ol, done) + LiteralBits(ll, data, pos, pos + q.litrunlen)
           + ItemBits(ll, ol, Match(q.length, q.offset))
  {
    hide Encodable, Encodables, LiteralsEncodable, ItemsBits, LiteralBits, OffsetSlot;
    CoverEnd(rest, pos, e);
    var run, m := Literals(data[pos..pos + q.litrunlen]), Match(q.length, q.offset);
    if q.length != 0 {
      var more := SequenceItems(data, rest[1..], pos + q.litrunlen + q.length, e);
      assert done + SequenceItems(data, rest, pos, e) == done + run + [m] + more;
      EncodablesSplit(ll, ol, done + run + [m], more);
      EncodablesSplit(ll, ol, done + run, [m]);
      ItemWritten(ll, ol, done + run, m);
    }
    RunWritten(ll, ol, done, data, pos, pos + q.litrunlen);
  }

  /** Writes the literals and matches of a list of sequences. */
  method WriteSequences(w: BitWriter, data: seq<u8>, seqs: seq<Sequence>, p: nat, fullCw: seq<nat>, fullLens: seq<nat>,
                        lc: Coder, oc: Coder, ghost ll: seq<nat>, ghost ol: seq<nat>, ghost e: nat)
    requires w.Valid() && w.bitcount < 8 && Cover(seqs, p, e) && e <= |data|
    requires FullLens(ll, fullCw, fullLens)
    requires Codewords(ll, lc, MAX_LITLEN_LEN) && Codewords(ol, oc, MAX_OFFSET_LEN)
    requires Encodables(ll, ol, SequenceItems(data, seqs, p, e))
    modifies w, w.out
    ensures w.Valid() && w.bitcount < 8
    ensures w.bits == old(w.bits) + ItemsBits(ll, ol, SequenceItems(data, seqs, p, e))
  {
    hide Codewords, FullLens, Encodable, ItemBits, ItemsBits, Encodables, LiteralBits, LiteralsEncodable, Cover,
      SequenceItems, Literals, OffsetSlot;
    ghost var start, all, done := w.bits, SequenceItems(data, seqs, p, e), [];
    var i: nat, pos: nat := 0, p;
    NothingWritten(ll, ol);
    CoverSome(seqs, p, e);
    assert seqs[0..] == seqs && [] + all == all;
    while true
      invariant i < |seqs| && w.Valid() && w.bitcount < 8
      invariant Cover(seqs[i..], pos, e) && all == done + SequenceItems(data, seqs[i..], pos, e)
      invariant Encodables(ll, ol, done) && w.bits == start + ItemsBits(ll, ol, done)
      decreases |seqs| - i
    {
      var q := seqs[i];
      SequenceStep(ll, ol, data, done, seqs[i..], pos, e, q);
      WriteLiterals(w, lc, data, pos, q.litrunlen, ll);
      if q.length == 0 {
        return;
      }
      assert seqs[i..][1..] == seqs[i + 1..];
      CoverSome(seqs[i + 1..], pos + q.litrunlen + q.length, e);
      WriteMatch(w, fullCw, fullLens, oc, q.length, q.offset, q.offsetSlot, ll, ol);
      done := done + Literals(data[pos..pos + q.litrunlen]) + [Match(q.length, q.offset)];
      pos := pos + q.litrunlen + q.length;
      i := i + 1;
    }
  }

  lemma CoverSome(seqs: seq<Sequence>, p: nat, e: nat)
    requires Cover(seqs, p, e)
    ensures |seqs| > 0
  {
  }

  lemma NothingWritten(ll: seq<nat>, ol: seq<nat>)
    ensures Encodables(ll, ol, []) && ItemsBits(ll, ol, []) == []
  {
  }

  // ---- a path through the block

  /** What the path chooses at one position: a literal, which is in `offset`, or a match. */
  datatype Node = Node(length: nat, offset: nat)

  function NodeItem(v: Node): Item
    requires v.length == 1 ==> v.offset < 256
  {
    if v.length == 1 then Literal(v.offset) else Match(v.length, v.offset)
  }

  /** Following the lengths from p on leads exactly to e. */
  ghost predicate Path(nodes: seq<Node>, p: nat, e: nat)
    decreases e - p
  {
    p == e ||
    (p < e && p < |nodes|
     && (if nodes[p].length == 1 then nodes[p].offset < 256 else ValidItem(Match(nodes[p].length, nodes[p].offset)))
     && p + nodes[p].length <= e && Path(nodes, p + nodes[p].length, e))
  }

  ghost function PathItems(nodes: seq<Node>, p: nat, e: nat): seq<Item>
    requires Path(nodes, p, e)
    decreases e - p
  {
    if p == e then [] else [NodeItem(nodes[p])] + PathItems(nodes, p + nodes[p].length, e)
  }

  lemma PathStep(ll: seq<nat>, ol: seq<nat>, nodes: seq<Node>, done: seq<Item>, p: nat, e: nat)
    requires Path(nodes, p, e) && p < e && Encodables(ll, ol, done + PathItems(nodes, p, e))
    ensures p < |nodes| && p + nodes[p].length <= e && nodes[p].length > 0 && Path(nodes, p + nodes[p].length, e)
    ensures nodes[p].length == 1 ==> nodes[p].offset < 256
    ensures var next := done + [NodeItem(nodes[p])];
      && done + PathItems(nodes, p, e) == next + PathItems(nodes, p + nodes[p].length, e)
      && Encodables(ll, ol, done) && Encodable(ll, ol, NodeItem(nodes[p])) && Encodables(ll, ol, next)
      && ItemsBits(ll, ol, next) == ItemsBits(ll, ol, done) + ItemBits(ll, ol, NodeItem(nodes[p]))
  {
    hide Encodable, Encodables, ItemsBits;
    var it, more := NodeItem(nodes[p]), PathItems(nodes, p + nodes[p].length, e);
    assert done + PathItems(nodes, p, e) == done + [it] + more;
    EncodablesSplit(ll, ol, done + [it], more);
    ItemWritten(ll, ol, done, it);
  }

  /** Writes the literals and matches of a path; at least one. */
  method WritePath(w: BitWriter, nodes: seq<Node>, end: nat, fullCw: seq<nat>, fullLens: seq<nat>, lc: Coder, oc: Coder,
                   ghost ll: seq<nat>, ghost ol: seq<nat>)
    requires w.Valid() && w.bitcount < 8 && 0 < end && Path(nodes, 0, end) && FullLens(ll, fullCw, fullLens)
    requires Codewords(ll, lc, MAX_LITLEN_LEN) && Codewords(ol, oc, MAX_OFFSET_LEN)
    requires Encodables(ll, ol, PathItems(nodes, 0, end))
    modifies w, w.out
    ensures w.Valid() && w.bitcount < 8 && w.bits == old(w.bits) + ItemsBits(ll, ol, PathItems(nodes, 0, end))
  {
    hide Codewords, FullLens, Encodables, ItemsBits, PathItems, Path, OffsetSlot, Code, LengthBits, OffsetBits;
    ghost var start, all, done := w.bits, PathItems(nodes, 0, end), [];
    var cur: nat := 0;
    NothingWritten(ll, ol);
    assert [] + all == all;
    while true
      invariant cur < end && w.Valid() && w.bitcount < 8 && Path(nodes, cur, end)
      invariant all == done + PathItems(nodes, cur, end) && Encodables(ll, ol, done)
      invariant w.bits == start + ItemsBits(ll, ol, done)
      decreases end - cur
    {
      PathStep(ll, ol, nodes, done, cur, end);
      var length, offset := nodes[cur].length, nodes[cur].offset;
      if length == 1 {
        WriteSymbol(w, lc, offset, ll, MAX_LITLEN_LEN);
        w.FlushBits();
      } else {
        WriteMatch(w, fullCw, fullLens, oc, length, offset, OffsetSlot(offset), ll, ol);
      }
      done := done + [NodeItem(nodes[cur])];
      cur := cur + length;
      if cur == end {
        PathEnds(nodes, cur);
        assert all == done;
        return;
      }
    }
  }

  lemma PathEnds(nodes: seq<Node>, e: nat)
    requires Path(nodes, e, e)
    ensures PathItems(nodes, e, e) == []
  {
  }

  // ---- the block

  /** What the parser has chosen for the block that starts at p: sequences or a path. */
  datatype Choice = FromSequences(seqs: seq<Sequence>) | FromPath(nodes: seq<Node>)

  ghost predicate Chosen(c: Choice, data: seq<u8>, p: nat, e: nat) {
    p <= e <= |data| &&
    match c
    case FromSequences(seqs) => Cover(seqs, p, e)
    case FromPath(nodes) => p < e && Path(nodes, 0, e - p)
  }

  ghost function ChoiceItems(c: Choice, data: seq<u8>, p: nat, e: nat): seq<Item>
    requires Chosen(c, data, p, e)
  {
    match c
    case FromSequences(seqs) => SequenceItems(data, seqs, p, e)
    case FromPath(nodes) => PathItems(nodes, 0, e - p)
  }

  /** Writes the items of a block and the end-of-block symbol. */
  method WriteItems(w: BitWriter, data: seq<u8>, c: Choice, p: nat, e: nat, lc: Coder, oc: Coder, ghost ll: seq<nat>,
                    ghost ol: seq<nat>)
    requires w.Valid() && w.bitcount < 8 && Chosen(c, data, p, e) && |lc.lens| >= FIRST_LENGTH_SYM + LENGTH_SLOTS
    requires Codewords(ll, lc, MAX_LITLEN_LEN) && Codewords(ol, oc, MAX_OFFSET_LEN)
    requires AllEncodable(ll, ol, ChoiceItems(c, data, p, e))
    modifies w, w.out
    ensures w.Valid() && w.bitcount < 8
    ensures w.bits == old(w.bits) + BlockBits(ll, ol, ChoiceItems(c, data, p, e))
  {
    hide Codewords, FullLens, Encodables, ItemsBits, PathItems, Path, Cover, SequenceItems, Code;
    var fullCw, fullLens := new nat[MAX_MATCH + 1], new nat[MAX_MATCH + 1];
    ComputeFullLenCodewords(lc, fullCw, fullLens, ll);
    match c {
      case FromSequences(seqs) =>
        WriteSequences(w, data, seqs, p, fullCw[..], fullLens[..], lc, oc, ll, ol, e);
      case FromPath(nodes) =>
        WritePath(w, nodes, e - p, fullCw[..], fullLens[..], lc, oc, ll, ol);
    }
    WriteSymbol(w, lc, END_SYM, ll, MAX_LITLEN_LEN);
    w.FlushBits();
  }
}
