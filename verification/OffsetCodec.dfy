/** The 4-byte compact offset: 21 bits of block, 3 of page, 8 of slot. */
module OffsetCodec {
  import opened Options

  const NumRegions: nat := 32
  const BlockSpan: nat := 0x20_0000
  const PageSpan: nat := 8
  const DataSpan: nat := 256

  type compact = w: int | 0 <= w < 0x1_0000_0000

  const InvalidCompact: compact := 0xFFFF_FFFF

  /** High block bits of each region. */
  type BaseMap = m: seq<nat> | |m| == NumRegions && forall i :: 0 <= i < NumRegions ==> m[i] < 0x1_0000_0000
    witness seq(NumRegions, _ => 0)

  datatype Offset = Offset(block: nat, page: nat, data: nat)

  /** First block of a region; an unknown region has base 0. */
  function Base(m: BaseMap, region: nat): (b: nat) { if region < NumRegions then m[region] * BlockSpan else 0 }

  /** Shifts and bitwise or on fields that do not overlap are multiplication and addition. */
  lemma PackIsSum(low: bv32, page: bv32, data: bv32)
    requires low < 0x20_0000 && page < 8 && data < 256
    ensures (low << 11) | ((page & 7) << 8) | data == low * 2048 + page * 256 + data
  {
  }

  function Encode(o: Offset, region: nat, m: BaseMap): (r: Option<compact>) {
    if region >= NumRegions || o.block < Base(m, region) then None
    else
      var low := o.block - Base(m, region);
      if low >= BlockSpan || o.page >= PageSpan || o.data >= DataSpan then None
      else
        var packed := low * 2048 + o.page * 256 + o.data;
        if packed == InvalidCompact then None else Some(packed)
  }

  function Decode(packed: compact, region: nat, m: BaseMap): (o: Offset) {
    Offset(Base(m, region) + packed / 2048, packed / 256 % 8, packed % 256)
  }

  /** What is encoded decodes to itself, and the word is never the sentinel. */
  lemma DecodeEncode(o: Offset, region: nat, m: BaseMap)
    requires Encode(o, region, m).Some?
    ensures Encode(o, region, m).value != InvalidCompact
    ensures Decode(Encode(o, region, m).value, region, m) == o
  {
    hide Base;
    Fields(o.block - Base(m, region), o.page, o.data);
  }

  lemma Fields(low: nat, page: nat, data: nat)
    requires low < BlockSpan && page < PageSpan && data < DataSpan
    ensures var w := low * 2048 + page * 256 + data;
            w < 0x1_0000_0000 && w / 2048 == low && w / 256 % 8 == page && w % 256 == data
  {
    var w := low * 2048 + page * 256 + data;
    assert w / 256 == low * 8 + page;
  }

  /** Every 32-bit word but the sentinel is the encoding of what it decodes to. */
  lemma EncodeDecode(w: compact, region: nat, m: BaseMap)
    requires w != InvalidCompact && region < NumRegions
    ensures Encode(Decode(w, region, m), region, m) == Some(w)
  {
    hide Base;
    assert w == w / 2048 * 2048 + w / 256 % 8 * 256 + w % 256;
  }

  /** Exactly what can be encoded: fields in range, and not the one combination that would be the sentinel. */
  lemma EncodableIff(o: Offset, region: nat, m: BaseMap)
    ensures Encode(o, region, m).Some? <==>
            && region < NumRegions && Base(m, region) <= o.block < Base(m, region) + BlockSpan
            && o.page < PageSpan && o.data < DataSpan
            && !(o.block == Base(m, region) + BlockSpan - 1 && o.page == PageSpan - 1 && o.data == DataSpan - 1)
  {
    hide Base;
  }

  /** The fields of an encoded word, by their places: 21 bits of the block above the region's high bits, 3 of the page, 8
      of the slot. Nothing is encoded for an unknown region. */
  lemma EncodedFields(o: Offset, region: nat, m: BaseMap)
    requires Encode(o, region, m).Some?
    ensures region < NumRegions
    ensures var w := Encode(o, region, m).value;
            && o.block == m[region] * 0x20_0000 + w / 0x800 && o.page == w / 0x100 % 8 && o.data == w % 0x100
  {
    Fields(o.block - Base(m, region), o.page, o.data);
  }

  /** The fields of a decoded word: the block has the region's high bits above the word's top 21. */
  lemma DecodedFields(w: compact, region: nat, m: BaseMap)
    ensures var o := Decode(w, region, m);
            && o.block / 0x20_0000 == (if region < NumRegions then m[region] else 0) && o.block % 0x20_0000 == w / 0x800
            && o.page == w / 0x100 % 8 && o.data == w % 0x100
  {
    assert w / 0x800 < 0x20_0000;
  }
}
