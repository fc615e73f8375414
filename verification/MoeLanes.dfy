/**
 * The 512-bit vector operations used by the CPU expert (src/backends/cuda/moe_cpu_expert.c), on
 * bytes, 32-bit integers and floats, and the arithmetic of one group of 64 packed weight bytes.
 *
 * A float is the tree of operations that made it, so two equal floats were rounded by the same
 * operations in the same order on every machine.
 */
module MoeLanes {

  type int8 = x: int | -128 <= x < 128

  datatype Float =
    | Zero
    | Given(bits: nat)                 // an input, as stored
    | Half(bits: nat)                  // _mm512_cvtph_ps of a 16-bit float
    | OfInt(value: int)                // _mm512_cvtepi32_ps
    | Mul(l: Float, r: Float)
    | Fma(x: Float, y: Float, z: Float)
    | Add(l: Float, r: Float)

  // ---- packed signed nibbles ----

  function Low(b: bv8): bv8 { b & 0x0F }

  function High(b: bv8): bv8 { b >> 4 }

  /** The value of a 4-bit two's complement number. */
  function Signed(n: bv8): int {
    if n < 8 then n as int else n as int - 16
  }

  lemma LowIsNibble(b: bv8)
    ensures Low(b) < 16 && High(b) < 16
  {}

  /** `(n ^ 8)` read as unsigned is the signed nibble plus 8. */
  lemma BiasedNibble(n: bv8)
    requires n < 16
    ensures (n ^ 0x08) as int == Signed(n) + 8
    ensures 0 <= Signed(n) + 8 <= 15
  {}

  // ---- byte and integer vectors ----

  const NO_BYTE: bv8 := 0

  /** Byte p of the word shift: an even byte receives the low bits of its odd neighbour. */
  function ShiftByte(v: seq<bv8>, p: nat): bv8
    requires |v| == 64 && p < 64
  {
    if p % 2 == 0 then (v[p] >> 4) | (v[p + 1] << 4) else v[p] >> 4
  }

  function BiasByte(b: bv8): bv8 { (b & 0x0F) ^ 0x08 }

  /** _mm512_maskz_loadu_epi8 of row + at. */
  function MaskedLoad(mask: seq<bool>, row: seq<bv8>, at: nat): (v: seq<bv8>)
    requires |mask| == 64 && forall p | 0 <= p < 64 && mask[p] :: at + p < |row|
    ensures |v| == 64
  {
    seq(64, p requires 0 <= p < 64 => if mask[p] then row[at + p] else NO_BYTE)
  }

  /** _mm512_srli_epi16(v, 4): every 16-bit word, low byte first, is shifted as a whole. */
  function ShiftWords(v: seq<bv8>): (r: seq<bv8>)
    requires |v| == 64
    ensures |r| == 64
  {
    seq(64, p requires 0 <= p < 64 => ShiftByte(v, p))
  }

  /** _mm512_xor_si512(_mm512_and_si512(v, 0x0F..), 0x08..). */
  function MaskAndBias(v: seq<bv8>): (r: seq<bv8>)
    requires |v| == 64
    ensures |r| == 64
  {
    seq(64, p requires 0 <= p < 64 => BiasByte(v[p]))
  }

  /** One unsigned by signed byte product of _mm512_dpbusd_epi32. */
  function Product(a: bv8, b: int): int { (a as int) * b }

  /** _mm512_dpbusd_epi32. */
  function Dpbusd(src: seq<int>, a: seq<bv8>, b: seq<int>): (r: seq<int>)
    requires |src| == 16 && |a| == 64 && |b| == 64
    ensures |r| == 16
  {
    seq(16, l requires 0 <= l < 16 =>
      src[l] + Product(a[4 * l], b[4 * l]) + Product(a[4 * l + 1], b[4 * l + 1])
             + Product(a[4 * l + 2], b[4 * l + 2]) + Product(a[4 * l + 3], b[4 * l + 3]))
  }

  function Subtract(a: seq<int>, b: seq<int>): (r: seq<int>)
    requires |a| == |b| == 16
    ensures |r| == 16
  {
    seq(16, l requires 0 <= l < 16 => a[l] - b[l])
  }

  function Sum(a: seq<int>, b: seq<int>): (r: seq<int>)
    requires |a| == |b| == 16
    ensures |r| == 16
  {
    seq(16, l requires 0 <= l < 16 => a[l] + b[l])
  }

  /** The lane that _mm512_shuffle_epi32 with immediate `imm` puts in lane j of its group of four. */
  function Selected(imm: nat, j: nat): (s: nat)
    ensures s < 4
  {
    (if j == 0 then imm else if j == 1 then imm / 4 else if j == 2 then imm / 16 else imm / 64) % 4
  }

  function Shuffle(v: seq<int>, imm: nat): (r: seq<int>)
    requires |v| == 16
    ensures |r| == 16
  {
    seq(16, l requires 0 <= l < 16 => v[l - l % 4 + Selected(imm, l % 4)])
  }

  /** The low four lanes of _mm512_permutexvar_epi32(idx, v). */
  function PickFour(idx: seq<nat>, v: seq<int>): (r: seq<int>)
    requires |v| == 16 && |idx| == 4 && forall i | 0 <= i < 4 :: idx[i] < 16
    ensures |r| == 4
  {
    [v[idx[0]], v[idx[1]], v[idx[2]], v[idx[3]]]
  }

  const PA0: seq<nat> := [0, 4, 8, 12]
  const PA1: seq<nat> := [2, 6, 10, 14]

  /** Chunks' first halves sit in lanes 0, 4, 8 and 12. */
  function FirstHalves(acc: seq<int>): (r: seq<int>)
    requires |acc| == 16
    ensures |r| == 4 && r[0] == acc[0] && r[1] == acc[4] && r[2] == acc[8] && r[3] == acc[12]
  {
    PickFour(PA0, acc)
  }

  /** Chunks' second halves sit in lanes 2, 6, 10 and 14. */
  function SecondHalves(acc: seq<int>): (r: seq<int>)
    requires |acc| == 16
    ensures |r| == 4 && r[0] == acc[2] && r[1] == acc[6] && r[2] == acc[10] && r[3] == acc[14]
  {
    PickFour(PA1, acc)
  }

  // ---- one group ----

  /** The accumulator after the two biased dots and the correction. */
  function Corrected(v: seq<bv8>, qe: seq<int>, qo: seq<int>, corr: seq<int>): (acc: seq<int>)
    requires |v| == 64 && |qe| == 64 && |qo| == 64 && |corr| == 16
    ensures |acc| == 16
  {
    Subtract(Dpbusd(Dpbusd(seq(16, _ => 0), MaskAndBias(v), qe), MaskAndBias(ShiftWords(v)), qo), corr)
  }

  /** Every lane plus its neighbour in the pair. */
  function AddPairs(acc: seq<int>): (r: seq<int>)
    requires |acc| == 16
    ensures |r| == 16
  {
    Sum(acc, Shuffle(acc, 0xB1))
  }

  /** What byte p of the group contributes: its two signed weights times their activations. */
  function ByteDot(v: seq<bv8>, qe: seq<int>, qo: seq<int>, p: nat): int
    requires |v| == 64 && |qe| == 64 && |qo| == 64 && p < 64
  {
    Signed(Low(v[p])) * qe[p] + Signed(High(v[p])) * qo[p]
  }

  function FourBytes(v: seq<bv8>, qe: seq<int>, qo: seq<int>, l: nat): int
    requires |v| == 64 && |qe| == 64 && |qo| == 64 && l < 16
  {
    ByteDot(v, qe, qo, 4 * l) + ByteDot(v, qe, qo, 4 * l + 1) + ByteDot(v, qe, qo, 4 * l + 2)
        + ByteDot(v, qe, qo, 4 * l + 3)
  }

  function PairSum(qe: seq<int>, qo: seq<int>, l: nat): int
    requires |qe| == 64 && |qo| == 64 && l < 16
  {
    qe[4 * l] + qo[4 * l] + (qe[4 * l + 1] + qo[4 * l + 1]) + (qe[4 * l + 2] + qo[4 * l + 2])
        + (qe[4 * l + 3] + qo[4 * l + 3])
  }

  lemma Unbias(s: int, q: int)
    ensures (s + 8) * q == s * q + 8 * q
  {}

  /** The neighbour's bits that the 16-bit shift brings in are masked away again. */
  lemma ShiftedNibble(b: bv8, next: bv8)
    ensures ((b >> 4) | (next << 4)) & 0x0F == High(b)
    ensures (b >> 4) & 0x0F == High(b)
  {}

  lemma LoBias(v: seq<bv8>, p: nat, q: int)
    requires |v| == 64 && p < 64
    ensures Product(MaskAndBias(v)[p], q) == Signed(Low(v[p])) * q + 8 * q
  {
    LowIsNibble(v[p]);
    BiasedNibble(Low(v[p]));
    Unbias(Signed(Low(v[p])), q);
  }

  lemma HiBias(v: seq<bv8>, p: nat, q: int)
    requires |v| == 64 && p < 64
    ensures Product(MaskAndBias(ShiftWords(v))[p], q) == Signed(High(v[p])) * q + 8 * q
  {
    if p % 2 == 0 { ShiftedNibble(v[p], v[p + 1]); } else { ShiftedNibble(v[p], 0); }
    LowIsNibble(v[p]);
    BiasedNibble(High(v[p]));
    Unbias(Signed(High(v[p])), q);
  }

  /** Biasing by 8 and subtracting 8 times the activations leaves the signed dot of four bytes. */
  lemma BiasedLane(v: seq<bv8>, qe: seq<int>, qo: seq<int>, corr: seq<int>, l: nat)
    requires |v| == 64 && |qe| == 64 && |qo| == 64 && |corr| == 16 && l < 16
    requires corr[l] == 8 * PairSum(qe, qo, l)
    ensures Corrected(v, qe, qo, corr)[l] == FourBytes(v, qe, qo, l)
  {
    var b := 4 * l;
    LoBias(v, b, qe[b]); LoBias(v, b + 1, qe[b + 1]); LoBias(v, b + 2, qe[b + 2]); LoBias(v, b + 3, qe[b + 3]);
    HiBias(v, b, qo[b]); HiBias(v, b + 1, qo[b + 1]); HiBias(v, b + 2, qo[b + 2]); HiBias(v, b + 3, qo[b + 3]);
  }

  lemma PairAdded(acc: seq<int>, l: nat)
    requires |acc| == 16 && l < 16 && l % 2 == 0
    ensures AddPairs(acc)[l] == acc[l] + acc[l + 1]
  {
    assert l % 4 == 0 || l % 4 == 2;
    assert l - l % 4 + Selected(0xB1, l % 4) == l + 1;
  }

  /** The signed dots of the two lanes of a pair, that is of eight bytes or sixteen weights. */
  lemma GroupSumsAt(v: seq<bv8>, qe: seq<int>, qo: seq<int>, corr: seq<int>, l: nat)
    requires |v| == 64 && |qe| == 64 && |qo| == 64 && |corr| == 16 && l < 16 && l % 2 == 0
    requires corr[l] == 8 * PairSum(qe, qo, l) && corr[l + 1] == 8 * PairSum(qe, qo, l + 1)
    ensures AddPairs(Corrected(v, qe, qo, corr))[l] == FourBytes(v, qe, qo, l) + FourBytes(v, qe, qo, l + 1)
  {
    BiasedLane(v, qe, qo, corr, l);
    BiasedLane(v, qe, qo, corr, l + 1);
    PairAdded(Corrected(v, qe, qo, corr), l);
  }

  /** With 8-bit activations every accumulator stays far inside 32 bits, so no lane wraps or saturates. */
  lemma LanesFit(v: seq<bv8>, q: seq<int>, src: seq<int>, l: nat)
    requires |v| == 64 && |q| == 64 && |src| == 16 && l < 16
    requires forall p | 0 <= p < 64 :: -128 <= q[p] <= 128
    ensures -7680 <= Dpbusd(src, MaskAndBias(v), q)[l] - src[l] <= 7680
  {
    ProductFits(v, 4 * l, q[4 * l]);
    ProductFits(v, 4 * l + 1, q[4 * l + 1]);
    ProductFits(v, 4 * l + 2, q[4 * l + 2]);
    ProductFits(v, 4 * l + 3, q[4 * l + 3]);
  }

  lemma ProductFits(v: seq<bv8>, p: nat, q: int)
    requires |v| == 64 && p < 64 && -128 <= q <= 128
    ensures -1920 <= Product(MaskAndBias(v)[p], q) <= 1920
  {
    LowIsNibble(v[p]);
    BiasedNibble(Low(v[p]));
    SmallProduct(MaskAndBias(v)[p] as int, q);
  }

  lemma SmallProduct(a: int, q: int)
    requires 0 <= a <= 15 && -128 <= q <= 128
    ensures -1920 <= a * q <= 1920
  {
    assert a * q <= a * 128 && -(a * 128) <= a * q;
  }
}
