/**
 * The bit-exact matrix-vector product of the CPU expert (src/backends/cuda/moe_cpu_expert.c):
 * the packed, biased, permuted vector code against a scalar reference.
 */
module MoeGemv {
  import opened MoeLanes

  /** One row of the product: 16 packed bytes and one 16-bit scale per chunk of 32 weights. */
  datatype RowJob = RowJob(row: seq<bv8>, bs: seq<nat>, qx: seq<int8>, sx: seq<Float>) {
    predicate Shape() {
      |bs| <= 128 && |row| == 16 * |bs| && |qx| == 32 * |bs| && |sx| == 2 * |bs|
    }
  }

  // ---- the scalar reference ----

  function Weight(row: seq<bv8>, k: nat): int
    requires k / 2 < |row|
  {
    Signed(if k % 2 == 0 then Low(row[k / 2]) else High(row[k / 2]))
  }

  /** The exact dot of `n` weights with their activations, from weight `start`. */
  function Dot(j: RowJob, start: nat, n: nat): int
    requires j.Shape() && start + n <= |j.qx|
  {
    if n == 0 then 0
    else Dot(j, start, n - 1) + Weight(j.row, start + n - 1) * j.qx[start + n - 1]
  }

  /** Weights in a half-chunk, the unit that has one activation scale. */
  const HALF: nat := 16

  /** fma(a0, s0, a1 * s1) for chunk c, with a0 and a1 the dots of its two halves. */
  function Term(j: RowJob, c: nat): Float
    requires j.Shape() && c < |j.bs|
  {
    Fma(OfInt(Dot(j, 32 * c, HALF)), j.sx[2 * c], Mul(OfInt(Dot(j, 32 * c + 16, HALF)), j.sx[2 * c + 1]))
  }

  /** Lane l after the first n chunks: chunk c goes to lane c mod 32, in increasing c. */
  function Lane(j: RowJob, l: nat, n: nat): Float
    requires j.Shape() && n <= |j.bs|
  {
    if n == 0 then Zero
    else if (n - 1) % 32 == l then Fma(Half(j.bs[n - 1]), Term(j, n - 1), Lane(j, l, n - 1))
    else Lane(j, l, n - 1)
  }

  predicate Level(o: nat) { o == 1 || o == 2 || o == 4 || o == 8 || o == 16 || o == 32 }

  /** Node l of the reduction tree at the level that leaves o lanes. */
  function Tree(lanes: seq<Float>, l: nat, o: nat): Float
    requires |lanes| == 32 && Level(o) && l < o
    decreases 32 - o
  {
    if o == 32 then lanes[l] else Add(Tree(lanes, l + o, 2 * o), Tree(lanes, l, 2 * o))
  }

  function AllLanes(j: RowJob): (lanes: seq<Float>)
    requires j.Shape()
    ensures |lanes| == 32
  {
    seq(32, l requires 0 <= l < 32 => Lane(j, l, |j.bs|))
  }

  function Reference(j: RowJob): Float
    requires j.Shape()
  {
    Tree(AllLanes(j), 0, 1)
  }

  lemma WeightRange(row: seq<bv8>, k: nat)
    requires k / 2 < |row|
    ensures -8 <= Weight(row, k) <= 7
  {
    LowIsNibble(row[k / 2]);
    BiasedNibble(if k % 2 == 0 then Low(row[k / 2]) else High(row[k / 2]));
  }

  lemma ProductRange(w: int, q: int)
    requires -8 <= w <= 7 && -128 <= q < 128
    ensures -1024 <= w * q <= 1024
  {
    if q >= 0 {
      assert -8 * q <= w * q <= 7 * q;
    } else {
      assert 7 * q <= w * q <= -8 * q;
    }
  }

  /** A half-chunk dot is an integer that a 24-bit float mantissa holds exactly. */
  lemma {:induction false} DotIsExactFloat(j: RowJob, start: nat, n: nat)
    requires j.Shape() && start + n <= |j.qx|
    ensures -1024 * n <= Dot(j, start, n) <= 1024 * n
    ensures n <= HALF ==> -0x100_0000 < Dot(j, start, n) < 0x100_0000
  {
    if n > 0 {
      DotIsExactFloat(j, start, n - 1);
      WeightRange(j.row, start + n - 1);
      ProductRange(Weight(j.row, start + n - 1), j.qx[start + n - 1]);
    }
  }

  // ---- the prepared activations ----

  datatype ActX = ActX(
    input: nat, ng: nat, n32: nat,
    qe: seq<seq<int>>, qo: seq<seq<int>>, corr: seq<seq<int>>, lm: seq<seq<bool>>,
    s0: seq<Float>, s1: seq<Float>)

  function At(qx: seq<int8>, i: nat): int8 { if i < |qx| then qx[i] else 0 }

  function ScaleAt(sx: seq<Float>, i: nat): Float { if i < |sx| then sx[i] else Zero }

  /** What actx_from_q leaves in group g. */
  ghost predicate GroupPrepared(qe: seq<int>, qo: seq<int>, corr: seq<int>, lm: seq<bool>, qx: seq<int8>, g: nat) {
    && |qe| == |qo| == |lm| == 64 && |corr| == 16
    && (forall p: nat | p < 64 ::
          qe[p] == At(qx, 2 * (64 * g + p)) && qo[p] == At(qx, 2 * (64 * g + p) + 1)
          && (lm[p] <==> 64 * g + p < |qx| / 2))
    && (forall l: nat | l < 16 :: corr[l] == 8 * PairSum(qe, qo, l))
  }

  ghost predicate Prepared(A: ActX, qx: seq<int8>, sx: seq<Float>) {
    && A.input == |qx| == 32 * A.n32 && |sx| == 2 * A.n32 && A.n32 <= 128
    && A.ng == (A.input + 127) / 128
    && |A.qe| == |A.qo| == |A.corr| == |A.lm| == A.ng
    && (forall g: nat | g < A.ng :: GroupPrepared(A.qe[g], A.qo[g], A.corr[g], A.lm[g], qx, g))
    && |A.s0| == |A.s1| == 128
    && (forall c: nat | c < 128 :: A.s0[c] == ScaleAt(sx, 2 * c) && A.s1[c] == ScaleAt(sx, 2 * c + 1))
  }

  /** The even and odd activations of group g, in the order of the packed weight bytes. */
  method SplitGroup(qx: seq<int8>, g: nat) returns (qe: array<int>, qo: array<int>)
    requires |qx| % 32 == 0
    ensures fresh(qe) && fresh(qo) && qe != qo && qe.Length == qo.Length == 64
    ensures forall p: nat | p < 64 :: qe[p] == At(qx, 2 * (64 * g + p)) && qo[p] == At(qx, 2 * (64 * g + p) + 1)
  {
    qe, qo := new int[64], new int[64];
    for p := 0 to 64
      invariant forall x: nat | x < p :: qe[x] == At(qx, 2 * (64 * g + x)) && qo[x] == At(qx, 2 * (64 * g + x) + 1)
    {
      var chunk, k := 4 * g + p / 16, p % 16;
      var w0 := 32 * chunk + 2 * k;
      assert w0 == 2 * (64 * g + p);
      qe[p] := if w0 < |qx| then qx[w0] else 0;
      qo[p] := if w0 + 1 < |qx| then qx[w0 + 1] else 0;
    }
  }

  method Corrections(qe: array<int>, qo: array<int>) returns (cr: array<int>)
    requires qe.Length == qo.Length == 64
    ensures fresh(cr) && cr.Length == 16
    ensures forall l: nat | l < 16 :: cr[l] == 8 * PairSum(qe[..], qo[..], l)
  {
    cr := new int[16];
    for l := 0 to 16
      invariant forall x: nat | x < l :: cr[x] == 8 * PairSum(qe[..], qo[..], x)
    {
      var s := 0;
      for t := 0 to 4
        invariant t == 0 ==> s == 0
        invariant t == 1 ==> s == qe[4 * l] + qo[4 * l]
        invariant t == 2 ==> s == qe[4 * l] + qo[4 * l] + (qe[4 * l + 1] + qo[4 * l + 1])
        invariant t == 3 ==>
                    s == qe[4 * l] + qo[4 * l] + (qe[4 * l + 1] + qo[4 * l + 1]) + (qe[4 * l + 2] + qo[4 * l + 2])
        invariant t == 4 ==> s == PairSum(qe[..], qo[..], l)
        invariant forall x: nat | x < l :: cr[x] == 8 * PairSum(qe[..], qo[..], x)
      {
        s := s + qe[4 * l + t] + qo[4 * l + t];
      }
      cr[l] := 8 * s;
    }
  }

  /** actx_from_q. */
  method ActxFromQ(qx: seq<int8>, sx: seq<Float>) returns (A: ActX)
    requires |qx| % 32 == 0 && |qx| <= 4096 && 16 * |sx| == |qx|
    ensures Prepared(A, qx, sx)
  {
    var n32, ng := |qx| / 32, (|qx| + 127) / 128;
    var s0 := seq(128, c requires 0 <= c < 128 => if c < n32 then sx[2 * c] else Zero);
    var s1 := seq(128, c requires 0 <= c < 128 => if c < n32 then sx[2 * c + 1] else Zero);
    var qe, qo, corr, lm := [], [], [], [];
    for g := 0 to ng
      invariant |qe| == |qo| == |corr| == |lm| == g
      invariant forall x: nat | x < g :: GroupPrepared(qe[x], qo[x], corr[x], lm[x], qx, x)
    {
      var e, o := SplitGroup(qx, g);
      var cr := Corrections(e, o);
      var bytesLeft := |qx| / 2 - 64 * g;
      var m := seq(64, p => bytesLeft >= 64 || p < bytesLeft);
      GroupIsPrepared(e[..], o[..], cr[..], m, qx, g);
      qe, qo, corr, lm := qe + [e[..]], qo + [o[..]], corr + [cr[..]], lm + [m];
    }
    A := ActX(|qx|, ng, n32, qe, qo, corr, lm, s0, s1);
  }

  lemma GroupIsPrepared(qe: seq<int>, qo: seq<int>, corr: seq<int>, lm: seq<bool>, qx: seq<int8>, g: nat)
    requires |qe| == |qo| == |lm| == 64 && |corr| == 16
    requires forall p: nat | p < 64 :: qe[p] == At(qx, 2 * (64 * g + p)) && qo[p] == At(qx, 2 * (64 * g + p) + 1)
    requires forall p: nat | p < 64 :: lm[p] <==> (|qx| / 2 - 64 * g >= 64 || p < |qx| / 2 - 64 * g)
    requires forall l: nat | l < 16 :: corr[l] == 8 * PairSum(qe, qo, l)
    ensures GroupPrepared(qe, qo, corr, lm, qx, g)
  {}

  // ---- the exact dots ----

  /** The two weights of byte b times their activations. */
  function BytePart(j: RowJob, b: nat): int
    requires j.Shape() && b < |j.row|
  {
    Signed(Low(j.row[b])) * j.qx[2 * b] + Signed(High(j.row[b])) * j.qx[2 * b + 1]
  }

  lemma DotByByte(j: RowJob, b: nat, n: nat)
    requires j.Shape() && b + n < |j.row|
    ensures Dot(j, 2 * b, 2 * n + 2) == Dot(j, 2 * b, 2 * n) + BytePart(j, b + n)
  {
    var k := 2 * b + 2 * n;
    assert k / 2 == b + n && k % 2 == 0 && (k + 1) / 2 == b + n && (k + 1) % 2 == 1;
    assert Dot(j, 2 * b, 2 * n + 2) == Dot(j, 2 * b, 2 * n + 1) + Weight(j.row, k + 1) * j.qx[k + 1];
    assert Dot(j, 2 * b, 2 * n + 1) == Dot(j, 2 * b, 2 * n) + Weight(j.row, k) * j.qx[k];
  }

  function BytesDot(j: RowJob, b: nat, n: nat): int
    requires j.Shape() && b + n <= |j.row|
  {
    if n == 0 then 0 else BytesDot(j, b, n - 1) + BytePart(j, b + n - 1)
  }

  lemma {:induction false} DotIsBytes(j: RowJob, b: nat, n: nat)
    requires j.Shape() && b + n <= |j.row|
    ensures Dot(j, 2 * b, 2 * n) == BytesDot(j, b, n)
  {
    if n > 0 {
      DotIsBytes(j, b, n - 1);
      DotByByte(j, b, n - 1);
    }
  }

  function FourParts(j: RowJob, b: nat): int
    requires j.Shape() && b + 4 <= |j.row|
  {
    BytePart(j, b) + BytePart(j, b + 1) + BytePart(j, b + 2) + BytePart(j, b + 3)
  }

  lemma FourMore(j: RowJob, b: nat, n: nat)
    requires j.Shape() && b + n + 4 <= |j.row|
    ensures BytesDot(j, b, n + 4)
         == BytesDot(j, b, n) + FourParts(j, b + n)
  {
    assert BytesDot(j, b, n + 2) == BytesDot(j, b, n) + BytePart(j, b + n) + BytePart(j, b + n + 1);
  }

  ghost predicate Loaded(j: RowJob, g: nat, v: seq<bv8>) {
    |v| == 64 && forall p: nat | p < 64 && 64 * g + p < |j.row| :: v[p] == j.row[64 * g + p]
  }

  lemma FourBytesAre(j: RowJob, qe: seq<int>, qo: seq<int>, corr: seq<int>, lm: seq<bool>, g: nat, l: nat,
                     v: seq<bv8>, b: nat)
    requires j.Shape() && GroupPrepared(qe, qo, corr, lm, j.qx, g) && Loaded(j, g, v)
    requires l < 16 && b == 64 * g + 4 * l && b + 4 <= |j.row|
    ensures FourBytes(v, qe, qo, l) == FourParts(j, b)
  {
    forall p: nat | 4 * l <= p < 4 * l + 4 ensures ByteDot(v, qe, qo, p) == BytePart(j, 64 * g + p) {
      assert v[p] == j.row[64 * g + p];
    }
  }

  lemma EightBytes(j: RowJob, b: nat)
    requires j.Shape() && b + 8 <= |j.row|
    ensures Dot(j, 2 * b, HALF)
         == FourParts(j, b) + FourParts(j, b + 4)
  {
    FourMore(j, b, 0);
    FourMore(j, b, 4);
    DotIsBytes(j, b, 8);
  }

  lemma TwoParts(j: RowJob, qe: seq<int>, qo: seq<int>, corr: seq<int>, lm: seq<bool>, g: nat, l: nat, v: seq<bv8>,
                 b: nat)
    requires j.Shape() && GroupPrepared(qe, qo, corr, lm, j.qx, g) && Loaded(j, g, v)
    requires l < 15 && b == 64 * g + 4 * l && b + 8 <= |j.row|
    ensures FourBytes(v, qe, qo, l) == FourParts(j, b) && FourBytes(v, qe, qo, l + 1) == FourParts(j, b + 4)
  {
    FourBytesAre(j, qe, qo, corr, lm, g, l, v, b);
    FourBytesAre(j, qe, qo, corr, lm, g, l + 1, v, b + 4);
  }

  /** Lanes l and l + 1 of a group together hold the dot of the sixteen weights packed from byte 4l on. */
  lemma PairDot(j: RowJob, qe: seq<int>, qo: seq<int>, corr: seq<int>, lm: seq<bool>, g: nat, l: nat, v: seq<bv8>)
    requires j.Shape() && GroupPrepared(qe, qo, corr, lm, j.qx, g) && Loaded(j, g, v)
    requires l < 15 && 64 * g + 4 * l + 8 <= |j.row|
    ensures FourBytes(v, qe, qo, l) + FourBytes(v, qe, qo, l + 1) == Dot(j, 128 * g + 8 * l, HALF)
  {
    var b := 64 * g + 4 * l;
    TwoParts(j, qe, qo, corr, lm, g, l, v, b);
    PartsAre(j, b, 128 * g + 8 * l, FourBytes(v, qe, qo, l), FourBytes(v, qe, qo, l + 1));
  }

  lemma PartsAre(j: RowJob, b: nat, start: nat, x: int, y: int)
    requires j.Shape() && b + 8 <= |j.row| && start == 2 * b && x == FourParts(j, b) && y == FourParts(j, b + 4)
    ensures x + y == Dot(j, start, HALF)
  {
    EightBytes(j, b);
  }

  ghost predicate HoldsPairs(acc: seq<int>, v: seq<bv8>, qe: seq<int>, qo: seq<int>)
    requires |v| == 64 && |qe| == 64 && |qo| == 64
  {
    && |acc| == 16
    && forall l: nat | l < 15 && l % 2 == 0 :: acc[l] == FourBytes(v, qe, qo, l) + FourBytes(v, qe, qo, l + 1)
  }

  /** The accumulator of one group. */
  method Accumulate(v: seq<bv8>, qe: seq<int>, qo: seq<int>, corr: seq<int>) returns (acc: seq<int>)
    requires |v| == 64 && |qe| == 64 && |qo| == 64 && |corr| == 16
    requires forall l: nat | l < 16 :: corr[l] == 8 * PairSum(qe, qo, l)
    ensures HoldsPairs(acc, v, qe, qo)
  {
    acc := AddPairs(Corrected(v, qe, qo, corr));
    forall l: nat | l < 15 && l % 2 == 0 ensures acc[l] == FourBytes(v, qe, qo, l) + FourBytes(v, qe, qo, l + 1) {
      GroupSumsAt(v, qe, qo, corr, l);
    }
  }

  ghost predicate DotsUpTo(j: RowJob, a0: seq<int>, a1: seq<int>, n: nat)
    requires j.Shape()
  {
    |a0| == |a1| == 128
    && forall c: nat | c < n && c < |j.bs| :: a0[c] == Dot(j, 32 * c, HALF) && a1[c] == Dot(j, 32 * c + 16, HALF)
  }

  lemma LaneDot(j: RowJob, qe: seq<int>, qo: seq<int>, corr: seq<int>, lm: seq<bool>, g: nat, l: nat, v: seq<bv8>,
                acc: seq<int>, start: nat)
    requires j.Shape() && GroupPrepared(qe, qo, corr, lm, j.qx, g) && Loaded(j, g, v) && HoldsPairs(acc, v, qe, qo)
    requires l < 15 && l % 2 == 0 && 64 * g + 4 * l + 8 <= |j.row| && start == 128 * g + 8 * l
    ensures acc[l] == Dot(j, start, HALF)
  {
    PairDot(j, qe, qo, corr, lm, g, l, v);
  }

  /** The permutations pick chunk 4g + i's two half-chunk dots. */
  lemma PicksDots(j: RowJob, g: nat, i: nat, acc: seq<int>)
    requires j.Shape() && |acc| == 16 && i < 4 && 4 * g + i < |j.bs|
    requires acc[4 * i] == Dot(j, 32 * (4 * g + i), HALF) && acc[4 * i + 2] == Dot(j, 32 * (4 * g + i) + 16, HALF)
    ensures FirstHalves(acc)[i] == Dot(j, 32 * (4 * g + i), HALF)
    ensures SecondHalves(acc)[i] == Dot(j, 32 * (4 * g + i) + 16, HALF)
  {}

  lemma DotsStored(j: RowJob, was0: seq<int>, was1: seq<int>, a0: seq<int>, a1: seq<int>, x0: seq<int>, x1: seq<int>,
                   g: nat)
    requires j.Shape() && DotsUpTo(j, was0, was1, 4 * g) && |a0| == |a1| == 128 && |x0| == |x1| == 4 && 4 * g + 4 <= 128
    requires forall c: nat | c < 128 :: a0[c] == if 4 * g <= c < 4 * g + 4 then x0[c - 4 * g] else was0[c]
    requires forall c: nat | c < 128 :: a1[c] == if 4 * g <= c < 4 * g + 4 then x1[c - 4 * g] else was1[c]
    requires forall i: nat | i < 4 && 4 * g + i < |j.bs| ::
               x0[i] == Dot(j, 32 * (4 * g + i), HALF) && x1[i] == Dot(j, 32 * (4 * g + i) + 16, HALF)
    ensures DotsUpTo(j, a0, a1, 4 * g + 4)
  {
    forall c: nat | c < 4 * g + 4 && c < |j.bs|
      ensures a0[c] == Dot(j, 32 * c, HALF) && a1[c] == Dot(j, 32 * c + 16, HALF)
    {
      if 4 * g <= c {
        var i := c - 4 * g;
        assert x0[i] == Dot(j, 32 * (4 * g + i), HALF);
      }
    }
  }

  method StoreFour(a: array<int>, at: nat, x: seq<int>)
    requires at + 4 <= a.Length && |x| == 4
    modifies a
    ensures forall c: nat | c < a.Length :: a[c] == if at <= c < at + 4 then x[c - at] else old(a[c])
  {
    a[at], a[at + 1], a[at + 2], a[at + 3] := x[0], x[1], x[2], x[3];
  }

  lemma GroupPicks(j: RowJob, qe: seq<int>, qo: seq<int>, corr: seq<int>, lm: seq<bool>, g: nat, v: seq<bv8>,
                   acc: seq<int>)
    requires j.Shape() && GroupPrepared(qe, qo, corr, lm, j.qx, g) && Loaded(j, g, v) && HoldsPairs(acc, v, qe, qo)
    ensures forall i: nat | i < 4 && 4 * g + i < |j.bs| ::
              FirstHalves(acc)[i] == Dot(j, 32 * (4 * g + i), HALF)
              && SecondHalves(acc)[i] == Dot(j, 32 * (4 * g + i) + 16, HALF)
  {
    forall i: nat | i < 4 && 4 * g + i < |j.bs|
      ensures FirstHalves(acc)[i] == Dot(j, 32 * (4 * g + i), HALF)
      ensures SecondHalves(acc)[i] == Dot(j, 32 * (4 * g + i) + 16, HALF)
    {
      LaneDot(j, qe, qo, corr, lm, g, 4 * i, v, acc, 32 * (4 * g + i));
      LaneDot(j, qe, qo, corr, lm, g, 4 * i + 2, v, acc, 32 * (4 * g + i) + 16);
      PicksDots(j, g, i, acc);
    }
  }

  /** One group of 64 weight bytes: four chunks' dots. */
  method GroupDots(A: ActX, g: nat, a0: array<int>, a1: array<int>, j: RowJob)
    requires j.Shape() && Prepared(A, j.qx, j.sx) && g < A.ng
    requires a0 != a1 && DotsUpTo(j, a0[..], a1[..], 4 * g)
    modifies a0, a1
    ensures DotsUpTo(j, a0[..], a1[..], 4 * g + 4)
  {
    assert GroupPrepared(A.qe[g], A.qo[g], A.corr[g], A.lm[g], j.qx, g);
    var v := MaskedLoad(A.lm[g], j.row, 64 * g);
    var acc := Accumulate(v, A.qe[g], A.qo[g], A.corr[g]);
    ghost var was0, was1 := a0[..], a1[..];
    StoreFour(a0, 4 * g, FirstHalves(acc));
    StoreFour(a1, 4 * g, SecondHalves(acc));
    GroupPicks(j, A.qe[g], A.qo[g], A.corr[g], A.lm[g], g, v, acc);
    DotsStored(j, was0, was1, a0[..], a1[..], FirstHalves(acc), SecondHalves(acc), g);
  }

  // ---- lanes ----

  function MaskedInts(cnt: nat, a: seq<int>, at: nat): (v: seq<int>)
    requires at + cnt <= |a| && cnt <= 16
    ensures |v| == 16
  {
    seq(16, i requires 0 <= i < 16 => if i < cnt then a[at + i] else 0)
  }

  function MaskedHalves(cnt: nat, a: seq<nat>, at: nat): (v: seq<nat>)
    requires at + cnt <= |a| && cnt <= 16
    ensures |v| == 16
  {
    seq(16, i requires 0 <= i < 16 => if i < cnt then a[at + i] else 0)
  }

  function CvtInts(v: seq<int>): (r: seq<Float>)
    requires |v| == 16
    ensures |r| == 16
  {
    seq(16, i requires 0 <= i < 16 => OfInt(v[i]))
  }

  function CvtHalves(v: seq<nat>): (r: seq<Float>)
    requires |v| == 16
    ensures |r| == 16
  {
    seq(16, i requires 0 <= i < 16 => Half(v[i]))
  }

  function MulLanes(a: seq<Float>, b: seq<Float>): (r: seq<Float>)
    requires |a| == |b| == 16
    ensures |r| == 16
  {
    seq(16, i requires 0 <= i < 16 => Mul(a[i], b[i]))
  }

  function FmaLanes(a: seq<Float>, b: seq<Float>, c: seq<Float>): (r: seq<Float>)
    requires |a| == |b| == |c| == 16
    ensures |r| == 16
  {
    seq(16, i requires 0 <= i < 16 => Fma(a[i], b[i], c[i]))
  }

  /** _mm512_mask_mov_ps: the first cnt lanes of `b`, the rest of `a`. */
  function MaskMov(a: seq<Float>, cnt: nat, b: seq<Float>): (r: seq<Float>)
    requires |a| == |b| == 16
    ensures |r| == 16
  {
    seq(16, i requires 0 <= i < 16 => if i < cnt then b[i] else a[i])
  }

  ghost predicate LanesAre(j: RowJob, f: seq<Float>, base: nat, n: nat)
    requires j.Shape() && n <= |j.bs|
  {
    |f| == 16 && forall i: nat | i < 16 :: f[i] == Lane(j, base + i, n)
  }

  lemma ModBlock(cb: nat, x: nat)
    requires cb % 32 == 0 && x < 32
    ensures (cb + x) % 32 == x
  {}

  /** Between two multiples of 32 a lane receives one chunk at most. */
  lemma {:induction false} LaneBlock(j: RowJob, l: nat, cb: nat, n: nat)
    requires j.Shape() && l < 32 && cb % 32 == 0 && cb <= n <= cb + 32 && n <= |j.bs|
    ensures Lane(j, l, n)
            == if cb + l < n then Fma(Half(j.bs[cb + l]), Term(j, cb + l), Lane(j, l, cb)) else Lane(j, l, cb)
    decreases n
  {
    if n > cb {
      LaneBlock(j, l, cb, n - 1);
      ModBlock(cb, n - 1 - cb);
    }
  }

  /** The block end reached by an outer step of the chunk loop. */
  function BlockEnd(cb: nat, nb: nat): nat { if cb + 32 < nb then cb + 32 else nb }

  lemma LanesSkipped(j: RowJob, f: seq<Float>, base: nat, cb: nat)
    requires j.Shape() && base <= 16 && cb % 32 == 0 && cb <= |j.bs| <= cb + base && LanesAre(j, f, base, cb)
    ensures LanesAre(j, f, base, |j.bs|)
  {
    forall i: nat | i < 16 ensures f[i] == Lane(j, base + i, |j.bs|) {
      LaneBlock(j, base + i, cb, |j.bs|);
    }
  }

  /** Sixteen chunks from c0 folded into sixteen lanes. */
  method FoldHalf(A: ActX, a0: seq<int>, a1: seq<int>, cb: nat, h: nat, f: seq<Float>, j: RowJob)
    returns (r: seq<Float>)
    requires j.Shape() && Prepared(A, j.qx, j.sx) && DotsUpTo(j, a0, a1, 128)
    requires h < 2 && cb % 32 == 0 && cb + 16 * h < |j.bs| && LanesAre(j, f, 16 * h, cb)
    ensures LanesAre(j, r, 16 * h, BlockEnd(cb, |j.bs|))
  {
    var nb, c0 := |j.bs|, cb + 16 * h;
    var cnt := if nb - c0 < 16 then nb - c0 else 16;
    var x0, x1 := CvtInts(MaskedInts(cnt, a0, c0)), CvtInts(MaskedInts(cnt, a1, c0));
    var s0, s1 := A.s0[c0..c0 + 16], A.s1[c0..c0 + 16];
    var w := CvtHalves(MaskedHalves(cnt, j.bs, c0));
    var t := FmaLanes(x0, s0, MulLanes(x1, s1));
    r := MaskMov(f, cnt, FmaLanes(w, t, f));
    forall i: nat | i < 16 ensures r[i] == Lane(j, 16 * h + i, BlockEnd(cb, nb)) {
      LaneBlock(j, 16 * h + i, cb, BlockEnd(cb, nb));
      if i < cnt {
        assert t[i] == Term(j, c0 + i);
      }
    }
  }

  /** Both halves of one block of 32 chunks. */
  method FoldBlock(A: ActX, a0: seq<int>, a1: seq<int>, cb: nat, g0: seq<Float>, g1: seq<Float>, j: RowJob)
    returns (f0: seq<Float>, f1: seq<Float>)
    requires j.Shape() && Prepared(A, j.qx, j.sx) && DotsUpTo(j, a0, a1, 128)
    requires cb % 32 == 0 && cb < |j.bs| && LanesAre(j, g0, 0, cb) && LanesAre(j, g1, 16, cb)
    ensures LanesAre(j, f0, 0, BlockEnd(cb, |j.bs|)) && LanesAre(j, f1, 16, BlockEnd(cb, |j.bs|))
  {
    f0, f1 := g0, g1;
    var h := 0;
    while h < 2
      invariant 0 <= h <= 2
      invariant LanesAre(j, f0, 0, if h == 0 then cb else BlockEnd(cb, |j.bs|))
      invariant LanesAre(j, f1, 16, if h <= 1 then cb else BlockEnd(cb, |j.bs|))
    {
      var c0 := cb + 16 * h;
      if c0 >= |j.bs| {
        LanesSkipped(j, f1, 16, cb);
        break;
      }
      if h == 0 { f0 := FoldHalf(A, a0, a1, cb, 0, f0, j); } else { f1 := FoldHalf(A, a0, a1, cb, 1, f1, j); }
      h := h + 1;
    }
  }

  method Halve(lane: array<Float>, o: nat)
    requires lane.Length == 32 && o <= 16
    modifies lane
    ensures forall l: nat | l < o :: lane[l] == Add(old(lane[l + o]), old(lane[l]))
  {
    for l := 0 to o
      invariant forall x: nat | x < l :: lane[x] == Add(old(lane[x + o]), old(lane[x]))
      invariant forall x: nat | l <= x < 32 :: lane[x] == old(lane[x])
    {
      lane[l] := Add(lane[l + o], lane[l]);
    }
  }

  ghost predicate AtLevel(now: seq<Float>, lanes: seq<Float>, o: nat) {
    |now| == |lanes| == 32 && Level(o) && forall l: nat | l < o :: now[l] == Tree(lanes, l, o)
  }

  lemma LevelDown(was: seq<Float>, now: seq<Float>, lanes: seq<Float>, o: nat)
    requires Level(o) && o < 32 && AtLevel(was, lanes, 2 * o) && |now| == 32
    requires forall l: nat | l < o :: now[l] == Add(was[l + o], was[l])
    ensures AtLevel(now, lanes, o)
  {
    forall l: nat | l < o ensures now[l] == Tree(lanes, l, o) {
      assert was[l + o] == Tree(lanes, l + o, 2 * o) && was[l] == Tree(lanes, l, 2 * o);
    }
  }

  /** The in-place 16-8-4-2-1 reduction. */
  method Reduce(lane: array<Float>)
    requires lane.Length == 32
    modifies lane
    ensures lane[0] == Tree(old(lane[..]), 0, 1)
  {
    ghost var lanes := lane[..];
    var o: nat := 16;
    while o > 0
      invariant o == 0 || (Level(o) && o < 32)
      invariant AtLevel(lane[..], lanes, if o == 0 then 1 else 2 * o)
      decreases o
    {
      ghost var was := lane[..];
      Halve(lane, o);
      LevelDown(was, lane[..], lanes, o);
      o := o / 2;
    }
  }

  /** One output row. */
  method RowExact(A: ActX, a0: array<int>, a1: array<int>, j: RowJob) returns (y: Float)
    requires j.Shape() && Prepared(A, j.qx, j.sx) && a0 != a1 && a0.Length == a1.Length == 128
    modifies a0, a1
    ensures y == Reference(j)
  {
    for g := 0 to A.ng
      invariant DotsUpTo(j, a0[..], a1[..], 4 * g)
    {
      GroupDots(A, g, a0, a1, j);
    }
    var f0, f1: seq<Float> := seq(16, _ => Zero), seq(16, _ => Zero);
    var cb, nb := 0, |j.bs|;
    while cb < nb
      invariant cb % 32 == 0
      invariant LanesAre(j, f0, 0, if cb < nb then cb else nb) && LanesAre(j, f1, 16, if cb < nb then cb else nb)
      invariant DotsUpTo(j, a0[..], a1[..], 128)
    {
      f0, f1 := FoldBlock(A, a0[..], a1[..], cb, f0, f1, j);
      cb := cb + 32;
    }
    var lane := new Float[32](i requires 0 <= i < 32 => if i < 16 then f0[i] else f1[i - 16]);
    assert lane[..] == AllLanes(j);
    Reduce(lane);
    y := lane[0];
  }

  // ---- rows ----

  predicate HasRow(codes: seq<bv8>, bsc: seq<nat>, qx: seq<int8>, r: nat) {
    (r + 1) * (|qx| / 2) <= |codes| && (r + 1) * (|qx| / 32) <= |bsc|
  }

  /** Row r's share of the packed codes and scales. */
  function RowOf(codes: seq<bv8>, bsc: seq<nat>, qx: seq<int8>, sx: seq<Float>, r: nat): (j: RowJob)
    requires |qx| % 32 == 0 && |qx| <= 4096 && 16 * |sx| == |qx|
    requires HasRow(codes, bsc, qx, r)
    ensures j.Shape()
  {
    var rb, nb := |qx| / 2, |qx| / 32;
    RowBounds(r, rb);
    RowBounds(r, nb);
    RowJob(codes[r * rb..(r + 1) * rb], bsc[r * nb..(r + 1) * nb], qx, sx)
  }

  lemma RowBounds(r: nat, width: nat)
    ensures (r + 1) * width == r * width + width
  {}

  lemma RowFits(r: nat, rows: nat, width: nat)
    requires r < rows
    ensures (r + 1) * width <= rows * width
  {
    assert rows * width == (r + 1) * width + (rows - r - 1) * width;
  }

  ghost predicate Sized(codes: seq<bv8>, bsc: seq<nat>, qx: seq<int8>, sx: seq<Float>, rows: nat) {
    && |qx| % 32 == 0 && |qx| <= 4096 && 16 * |sx| == |qx|
    && forall r: nat | r < rows :: HasRow(codes, bsc, qx, r)
  }

  /** The rows that a call asks for, each the scalar reference. */
  ghost predicate AreRows(codes: seq<bv8>, bsc: seq<nat>, qx: seq<int8>, sx: seq<Float>, want: seq<Float>)
    requires Sized(codes, bsc, qx, sx, |want|)
  {
    forall r: nat | r < |want| :: want[r] == Reference(RowOf(codes, bsc, qx, sx, r))
  }

  method StoreRow(codes: seq<bv8>, bsc: seq<nat>, qx: seq<int8>, sx: seq<Float>, A: ActX, y: array<Float>, r: nat,
                  a0: array<int>, a1: array<int>, ghost want: seq<Float>)
    requires Sized(codes, bsc, qx, sx, |want|) && Prepared(A, qx, sx) && AreRows(codes, bsc, qx, sx, want)
    requires r < |want| == y.Length && a0 != a1 && a0.Length == a1.Length == 128
    modifies y, a0, a1
    ensures y[..] == old(y[..])[r := want[r]]
  {
    var v := RowExact(A, a0, a1, RowOf(codes, bsc, qx, sx, r));
    y[r] := v;
  }

  method RowLoop(codes: seq<bv8>, bsc: seq<nat>, qx: seq<int8>, sx: seq<Float>, A: ActX, y: array<Float>,
                 r0: nat, r1: nat, ghost want: seq<Float>)
    requires Sized(codes, bsc, qx, sx, |want|) && Prepared(A, qx, sx) && AreRows(codes, bsc, qx, sx, want)
    requires r0 <= r1 <= |want| == y.Length
    modifies y
    ensures forall r: nat | r < |want| :: y[r] == if r0 <= r < r1 then want[r] else old(y[r])
  {
    var a0, a1 := new int[128], new int[128];
    for r := r0 to r1
      invariant forall x: nat | x < |want| :: y[x] == if r0 <= x < r then want[x] else old(y[x])
    {
      StoreRow(codes, bsc, qx, sx, A, y, r, a0, a1, want);
    }
  }

  /** gemv_rows_exact: rows r0 to r1 of y, each the scalar reference. */
  method GemvRowsExact(codes: seq<bv8>, bsc: seq<nat>, qx: seq<int8>, sx: seq<Float>, rows: nat, A: ActX,
                       y: array<Float>, r0: nat, r1: nat)
    requires Sized(codes, bsc, qx, sx, rows) && Prepared(A, qx, sx) && r0 <= r1 <= rows == y.Length
    modifies y
    ensures forall r: nat | r < rows ::
              y[r] == if r0 <= r < r1 then Reference(RowOf(codes, bsc, qx, sx, r)) else old(y[r])
  {
    ghost var want := seq(rows, r requires 0 <= r < rows && HasRow(codes, bsc, qx, r) =>
                        Reference(RowOf(codes, bsc, qx, sx, r)));
    RowLoop(codes, bsc, qx, sx, A, y, r0, r1, want);
  }
}
