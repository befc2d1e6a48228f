/** Compressing and decompressing with nothing taken for granted. */
module EndToEnd {
  import opened Bits
  import opened BitBuffer
  import opened Words
  import opened BitWriter
  import opened WriteBlock
  import opened BuildDecodeTable
  import opened Inflate
  import opened Deflate
  import opened FlushBlock
  import opened Compress
  import opened MinCostPath
  import opened NearOptimal
  import opened InitStatic
  import opened DeflateCompress
  import opened Decompress

  /** Whatever the level and the heuristics, the data compresses into a buffer of the size of the bound,
      and decompresses to itself. */
  method ThereAndBack(level: Level, maxPassthroughSize: nat, minLen: (nat, nat) -> nat, split: (nat, nat) -> bool,
                      h: Heuristics, check: (nat, nat) -> Verdict, wordBytes: nat, fast: bool, data: seq<u8>,
                      ghost maxLiteral: nat)
    returns (compressed: seq<u8>, restored: seq<u8>)
    requires (wordBytes == 4 || wordBytes == 8) && Searching(level) && Sensible(h, maxLiteral)
    requires forall i: nat, j: nat :: minLen(i, j) >= 3
    ensures restored == data && 0 < |compressed| <= CompressBound(|data|)
  {
    hide Encodes, Carries, StaticCoders, Sensible, CompressBound;
    var sl, so := InitStaticCodes();
    var n := CompressBound(|data|);
    var out := new u8[n];
    ghost var bits, bs;
    var size;
    size, bits, bs := DeflateCompress.DeflateCompress(level, maxPassthroughSize, minLen, split, h, check, sl, so,
                                                      wordBytes, fast, data, out, n, maxLiteral);
    compressed := out[..size];
    restored := Back(compressed, wordBytes, fast, |data|, data, bits);
  }

  /** Decompresses to a buffer of the size of the data. */
  method Back(compressed: seq<u8>, wordBytes: nat, fast: bool, size: nat, ghost data: seq<u8>, ghost bits: Bits)
    returns (restored: seq<u8>)
    requires wordBytes == 4 || wordBytes == 8
    requires Carries(compressed, bits) && Encodes([], [], true, bits, data)
    requires size >= |data|
    ensures restored == data
  {
    hide Encodes, Carries, TablesRoomy, Decoder;
    var back := new u8[size];
    var d := new Decompressor(wordBytes, fast);
    var result, inBytes, outBytes := RoundTrip(d, compressed, back, data, bits);
    restored := back[..outBytes];
  }
}
