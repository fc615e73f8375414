/** The 64-byte audit receipt of a dialogue turn (tools/sp_daemon/src/dialogue.rs). */
module ReceiptLayout {
  import opened Common

  const SENTINEL: byte := 0xA5
  const RECEIPT_BYTES: nat := 64

  type u32 = x: int | 0 <= x < 0x1_0000_0000
  type u16 = x: int | 0 <= x < 0x1_0000

  datatype Receipt = Receipt(
    turnIndex: byte, modelId: byte, pad: bytes, wallUs: u32,
    inputHash: bytes, outputHash: bytes, nInput: u32, nOutput: byte,
    reserved: bytes, sentinel: byte)
  {
    predicate Shape() { |pad| == 2 && |inputHash| == 24 && |outputHash| == 24 && |reserved| == 2 }

    predicate SentinelOk() { sentinel == SENTINEL }
  }

  // ---- little-endian numbers ----

  function Le16(x: u16): (b: bytes)
    ensures |b| == 2
  {
    [x % 256, x / 256]
  }

  function FromLe16(b: bytes): u16
    requires |b| == 2
  {
    (b[0] as int) + 256 * (b[1] as int)
  }

  function Le32(x: u32): (b: bytes)
    ensures |b| == 4
  {
    Le16(x % 0x1_0000) + Le16(x / 0x1_0000)
  }

  function FromLe32(b: bytes): u32
    requires |b| == 4
  {
    (FromLe16(b[..2]) as int) + 0x1_0000 * (FromLe16(b[2..]) as int)
  }

  lemma Le16Inverse(x: u16, b: bytes)
    requires |b| == 2
    ensures FromLe16(Le16(x)) == x && Le16(FromLe16(b)) == b
  {}

  lemma Le32Inverse(x: u32, b: bytes)
    requires |b| == 4
    ensures FromLe32(Le32(x)) == x && Le32(FromLe32(b)) == b
  {
    var c := Le32(x);
    assert c[..2] == Le16(x % 0x1_0000) && c[2..] == Le16(x / 0x1_0000);
    Le16Inverse(x % 0x1_0000, b[..2]);
    Le16Inverse(x / 0x1_0000, b[2..]);
    var lo: int, hi: int := FromLe16(b[..2]), FromLe16(b[2..]);
    assert (lo + 0x1_0000 * hi) % 0x1_0000 == lo && (lo + 0x1_0000 * hi) / 0x1_0000 == hi;
    assert b == b[..2] + b[2..];
  }

  // ---- the wire form ----

  /** as_bytes: the packed fields in order. */
  function AsBytes(r: Receipt): (b: bytes)
    requires r.Shape()
    ensures |b| == RECEIPT_BYTES && b[63] == r.sentinel
  {
    [r.turnIndex, r.modelId] + r.pad + Le32(r.wallUs) + r.inputHash + r.outputHash + Le32(r.nInput)
    + [r.nOutput] + r.reserved + [r.sentinel]
  }

  /** receipt_from_bytes. */
  function FromBytes(b: bytes): (r: Receipt)
    requires |b| == RECEIPT_BYTES
    ensures r.Shape() && r.sentinel == b[63]
  {
    Receipt(b[0], b[1], b[2..4], FromLe32(b[4..8]), b[8..32], b[32..56], FromLe32(b[56..60]), b[60], b[61..63], b[63])
  }

  /** Reading back the written bytes gives the receipt. */
  lemma ReadWritten(r: Receipt)
    requires r.Shape()
    ensures FromBytes(AsBytes(r)) == r
  {
    var b := AsBytes(r);
    Le32Inverse(r.wallUs, Le32(0));
    Le32Inverse(r.nInput, Le32(0));
    assert b[2..4] == r.pad && b[4..8] == Le32(r.wallUs) && b[8..32] == r.inputHash;
    assert b[32..56] == r.outputHash && b[56..60] == Le32(r.nInput) && b[61..63] == r.reserved;
  }

  predicate IsNumber(b0: int, b1: int, b2: int, b3: int, x: int) {
    x == b0 + 0x100 * b1 + 0x1_0000 * b2 + 0x100_0000 * b3
  }

  /** Where each field lies in the 64 bytes: numbers of more than one byte have the low byte first. */
  lemma Layout(r: Receipt)
    requires r.Shape()
    ensures var b := AsBytes(r);
            && b[0] == r.turnIndex && b[1] == r.modelId && b[2..4] == r.pad
            && IsNumber(b[4], b[5], b[6], b[7], r.wallUs)
            && b[8..32] == r.inputHash && b[32..56] == r.outputHash
            && IsNumber(b[56], b[57], b[58], b[59], r.nInput)
            && b[60] == r.nOutput && b[61..63] == r.reserved && b[63] == r.sentinel
  {
    FourBytes(r.wallUs);
    FourBytes(r.nInput);
  }

  lemma FourBytes(x: u32)
    ensures IsNumber(Le32(x)[0], Le32(x)[1], Le32(x)[2], Le32(x)[3], x)
  {}

  lemma NinePieces(b: bytes)
    requires |b| == RECEIPT_BYTES
    ensures b[..2] + b[2..4] + b[4..8] + b[8..32] + b[32..56] + b[56..60] + b[60..61] + b[61..63] + b[63..] == b
  {}

  /** Writing what was read gives back any 64 bytes. */
  lemma WriteRead(b: bytes)
    requires |b| == RECEIPT_BYTES
    ensures AsBytes(FromBytes(b)) == b
  {
    Le32Inverse(0, b[4..8]);
    Le32Inverse(0, b[56..60]);
    var r := FromBytes(b);
    assert Le32(r.wallUs) == b[4..8] && Le32(r.nInput) == b[56..60];
    NinePieces(b);
    assert [r.turnIndex, r.modelId] == b[..2] && [r.nOutput] == b[60..61] && [r.sentinel] == b[63..];
  }

  // ---- ranks ----

  function WithSequenceRank(r: Receipt, rank: u16): (s: Receipt)
    requires r.Shape()
    ensures s.Shape()
  {
    r.(reserved := Le16(rank))
  }

  function SequenceRank(r: Receipt): u16
    requires r.Shape()
  {
    FromLe16(r.reserved)
  }

  /** Stamping a rank changes wire bytes 61 and 62 only, and the rank reads back. */
  lemma StampIsLocal(r: Receipt, rank: u16)
    requires r.Shape()
    ensures SequenceRank(WithSequenceRank(r, rank)) == rank
    ensures AsBytes(WithSequenceRank(r, rank)) == AsBytes(r)[..61] + Le16(rank) + [AsBytes(r)[63]]
  {
    Le16Inverse(rank, Le16(rank));
  }

  /** The stored number is the largest one below the bound that is not above the given one. */
  predicate Saturated(given: nat, stored: nat, bound: nat) {
    stored <= given && stored < bound && (given < bound ==> stored == given) && (given >= bound ==> stored + 1 == bound)
  }

  /** mint: counts and times that do not fit saturate; `h` is the truncated hash of a token buffer. */
  function Mint(turn: byte, model: byte, inputHash: bytes, outputHash: bytes, nInput: nat, nOutput: nat,
                wallUs: nat): (r: Receipt)
    requires |inputHash| == 24 && |outputHash| == 24
    ensures r.Shape() && r.SentinelOk() && SequenceRank(r) == 0
    ensures r.turnIndex == turn && r.modelId == model && r.inputHash == inputHash && r.outputHash == outputHash
    ensures Saturated(nInput, r.nInput, 0x1_0000_0000) && Saturated(wallUs, r.wallUs, 0x1_0000_0000)
    ensures Saturated(nOutput, r.nOutput, 0x100)
  {
    Receipt(turn, model, [0, 0], Min(wallUs, 0xFFFF_FFFF), inputHash, outputHash,
            Min(nInput, 0xFFFF_FFFF), Min(nOutput, 255), [0, 0], SENTINEL)
  }
}
