/** The decompressor's loops over the items of a block: the fast one, then the generic one. */
module DecodeBlock {
  import opened Arith
  import opened Packed
  import opened Words
  import opened BitBuffer
  import opened BitReader
  import opened BuildDecodeTable
  import opened Slots
  import opened Items
  import opened TableLookup
  import opened GenericItem
  import FastLoop

  /** Decodes the literals and matches of a block up to its end.  When it is done, the bits read are
      those of the items and the bytes written are theirs; it is done whenever the block decodes. */
  method DecodeBlock(r: BitReader, litT: array<u32>, litTb: nat, offT: array<u32>, out: array<u8>, outNext0: nat,
                     outEnd: nat, ghost ll: seq<nat>, ghost ol: seq<nat>, ghost max: nat)
    returns (status: Status, outNext: nat, ghost items: seq<Item>, ghost n: nat)
    requires r.Valid() && Accepted(ll, max) && Accepted(ol, max) && max >= 1 && |ll| > 0 && |ol| > 0
    requires Decoder(litT[..], ll, LitlenResults(), litTb) && Decoder(offT[..], ol, OffsetResults(), OFFSET_TABLE_BITS)
    requires outNext0 <= outEnd <= out.Length && out as object != litT && out as object != offT
    requires litTb <= LITLEN_TABLE_BITS
    modifies r, out
    ensures status != Going && outNext0 <= outNext <= outEnd
    ensures forall i :: outEnd <= i < out.Length ==> out[i] == old(out[i])
    ensures status == Done ==>
      && r.Valid() && r.Position() == old(r.Position()) + n && BlockMeans(ll, ol, old(r.Rest()), items, n)
      && Reachable(old(out[..outNext0]), items) && out[..outNext] == Expand(old(out[..outNext0]), items)
    ensures status != Done ==>
      Undecodable(status, ll, ol, old(r.Rest()), 8 * |r.data| - old(r.Position()), old(out[..outNext0]), outEnd)
  {
    hide Low, Shr, Pow2, Means, Decoder, Accepted, ItemMeans, Value, Progress, Round, BlockMeans, Undecodable, Expand,
      Reachable;
    ghost var x, p, before := r.Rest(), r.Position(), out[..outNext0];
    status, outNext, items, n := FastLoop.FastLoop(r, litT, litTb, offT, out, outNext0, outEnd, ll, ol, max);
    while status == Going
      invariant outNext0 <= outNext <= outEnd && forall i :: outEnd <= i < out.Length ==> out[i] == old(out[i])
      invariant status == Going ==> r.Valid() && r.Position() == p + n
      invariant status == Going ==> Progress(ll, ol, x, before, items, n, out[..outNext])
      invariant status == Done ==> r.Valid() && r.Position() == p + n && BlockMeans(ll, ol, x, items, n)
      invariant status == Done ==> Reachable(before, items) && out[..outNext] == Expand(before, items)
      invariant status == NoSpace || status == BadData ==>
        Undecodable(status, ll, ol, x, 8 * |r.data| - p, before, outEnd)
      decreases if status == Going then 1 else 0, 8 * (|r.data| + r.wordBytes) - r.Position()
    {
      ghost var bytes := out[..outNext];
      ShrShr(Value(r.data), p, n);
      ghost var it, k;
      status, outNext, it, k := DecodeItem(r, litT, litTb, offT, out, outNext, outEnd, ll, ol, max);
      RoundParts(ll, ol, Shr(x, n), 8 * |r.data| - p - n, bytes, out[..outNext], outEnd, status, it, k);
      if status == Going {
        ProgressStep(ll, ol, x, before, items, n, bytes, it, k);
        items, n := items + [it], n + k;
      } else if status == Done {
        Finished(ll, ol, x, before, items, n, bytes, k);
        n := n + k;
      } else {
        Refuted(ll, ol, max, x, 8 * |r.data| - p, before, items, n, bytes, out[..outNext], outEnd, status, it, k);
      }
    }
  }
}
