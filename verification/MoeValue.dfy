/**
 * The number that the matrix-vector product of the CPU expert computes (src/backends/cuda/moe_cpu_expert.c),
 * when its operations are carried out over the reals: the sum of scale, activation scale, weight and
 * activation over the whole row.
 */
module MoeValue {
  import opened Common
  import opened MoeLanes
  import opened MoeGemv
  import Pool = MoePool

  /** What the stored inputs and half-precision scales stand for. */
  datatype Valuation = Valuation(given: nat -> real, half: nat -> real)

  /** The operations as arithmetic. */
  function Value(v: Valuation, f: Float): real {
    match f
    case Zero => 0.0
    case Given(bits) => v.given(bits)
    case Half(bits) => v.half(bits)
    case OfInt(n) => n as real
    case Mul(l, r) => Times(Value(v, l), Value(v, r))
    case Fma(x, y, z) => Times(Value(v, x), Value(v, y)) + Value(v, z)
    case Add(l, r) => Value(v, l) + Value(v, r)
  }

  function Times(a: real, b: real): real { a * b }

  /** Weight k of a packed row: the low half of byte k / 2 for even k, else the high half, as a signed nibble. */
  function Nibble(b: bv8, k: nat): int {
    var n := if k % 2 == 0 then b as int % 16 else b as int / 16;
    if n >= 8 then n - 16 else n
  }

  /** One product of a row: chunk scale, half-chunk scale, weight and activation. */
  function Product(v: Valuation, b: bv8, scale: nat, s: Float, q: int, k: nat): real {
    Scaled(v.half(scale), Value(v, s), Nibble(b, k) * q)
  }

  function Scaled(h: real, s: real, p: int): real { h * s * p as real }

  /** The product of row r for weight k. */
  function ProductAt(v: Valuation, codes: seq<bv8>, bsc: seq<nat>, qx: seq<int8>, sx: seq<Float>, r: nat, k: nat): real
    requires |qx| % 32 == 0 && 16 * |sx| == |qx| && k < |qx| && HasRow(codes, bsc, qx, r)
  {
    InRow(codes, bsc, qx, r, k);
    Product(v, codes[r * (|qx| / 2) + k / 2], bsc[r * (|qx| / 32) + k / 32], sx[k / 16], qx[k], k)
  }

  /** f(0) + .. + f(n - 1). */
  function Total(f: nat -> real, n: nat): real { if n == 0 then 0.0 else Total(f, n - 1) + f(n - 1) }

  lemma {:induction false} SameSum(f: nat -> real, g: nat -> real, n: nat)
    requires forall k: nat | k < n :: f(k) == g(k)
    ensures Total(f, n) == Total(g, n)
  {
    if n > 0 { SameSum(f, g, n - 1); }
  }

  /** part(n) is what f adds from `start` on, for each of the next places. */
  ghost predicate AddsUp(f: nat -> real, part: nat -> real, start: nat, n: nat) {
    part(0) == 0.0 && forall x: nat | x < n :: part(x + 1) == part(x) + f(start + x)
  }

  /** A block of a sum, added up by another function. */
  lemma {:induction false} SumBlock(f: nat -> real, part: nat -> real, start: nat, n: nat, end: nat)
    requires AddsUp(f, part, start, n) && end == start + n
    ensures Total(f, end) == Total(f, start) + part(n)
    decreases n
  {
    if n > 0 { SumBlock(f, part, start, n - 1, end - 1); }
  }

  /** The products of row r, the codes and scales being packed row after row. */
  function RowProducts(v: Valuation, codes: seq<bv8>, bsc: seq<nat>, qx: seq<int8>, sx: seq<Float>, r: nat): nat -> real
    requires |qx| % 32 == 0 && 16 * |sx| == |qx| && HasRow(codes, bsc, qx, r)
  {
    (k: nat) => if k < |qx| then ProductAt(v, codes, bsc, qx, sx, r, k) else 0.0
  }

  lemma InRow(codes: seq<bv8>, bsc: seq<nat>, qx: seq<int8>, r: nat, k: nat)
    requires |qx| % 32 == 0 && k < |qx| && HasRow(codes, bsc, qx, r)
    ensures r * (|qx| / 2) + k / 2 < |codes| && r * (|qx| / 32) + k / 32 < |bsc|
  {
    RowBounds(r, |qx| / 2);
    RowBounds(r, |qx| / 32);
  }

  // ---- one row ----

  /** The products of a row on its own. */
  function JobProducts(v: Valuation, j: RowJob): nat -> real
    requires j.Shape()
  {
    (k: nat) => if k < |j.qx| then ProductOf(v, j, k) else 0.0
  }

  function ProductOf(v: Valuation, j: RowJob, k: nat): real
    requires j.Shape() && k < |j.qx|
  {
    Product(v, j.row[k / 2], j.bs[k / 32], j.sx[k / 16], j.qx[k], k)
  }

  lemma LowHalf(b: bv8)
    ensures Low(b) as int == b as int % 16
  {
    assert b & 0x0F == b % 16;
  }

  lemma HighHalf(b: bv8)
    ensures High(b) as int == b as int / 16
  {
    assert b >> 4 == b / 16;
  }

  lemma WeightIsNibble(row: seq<bv8>, k: nat)
    requires k / 2 < |row|
    ensures Weight(row, k) == Nibble(row[k / 2], k)
  {
    LowHalf(row[k / 2]);
    HighHalf(row[k / 2]);
    LowIsNibble(row[k / 2]);
  }

  lemma ScaledSum(h: real, s: real, a: int, b: int)
    ensures Scaled(h, s, a + b) == Scaled(h, s, a) + Scaled(h, s, b)
  {
    assert (a + b) as real == a as real + b as real;
  }

  lemma ScaledNone(h: real, s: real)
    ensures Scaled(h, s, 0) == 0.0
  {}

  lemma HalfIndex(m: nat, x: nat)
    requires x < 16
    ensures (16 * m + x) / 16 == m && (16 * m + x) / 32 == m / 2
  {}

  lemma ProductIs(v: Valuation, j: RowJob, m: nat, x: nat)
    requires j.Shape() && x < HALF && 16 * m + x < |j.qx| && m < |j.sx|
    ensures ProductOf(v, j, 16 * m + x) == Scaled(v.half(j.bs[m / 2]), Value(v, j.sx[m]),
                                                  Weight(j.row, 16 * m + x) * j.qx[16 * m + x])
  {
    HalfIndex(m, x);
    WeightIsNibble(j.row, 16 * m + x);
  }

  lemma DotStep(j: RowJob, start: nat, x: nat, k: nat)
    requires j.Shape() && k == start + x < |j.qx|
    ensures Dot(j, start, x + 1) == Dot(j, start, x) + Weight(j.row, k) * j.qx[k]
  {}

  /** The sum of the first m half-chunks. */
  function HalfSums(v: Valuation, j: RowJob, m: nat): real
    requires j.Shape() && m <= |j.sx|
  {
    Total(JobProducts(v, j), 16 * m)
  }

  /** What the first n weights of half-chunk m add: their dot, scaled. */
  function HalfOf(v: Valuation, j: RowJob, m: nat, n: nat): real
    requires j.Shape() && n <= HALF && 16 * m + n <= |j.qx| && m < |j.sx|
  {
    Scaled(v.half(j.bs[m / 2]), Value(v, j.sx[m]), Dot(j, 16 * m, n))
  }

  lemma HalfStep(v: Valuation, j: RowJob, m: nat, x: nat, k: nat)
    requires j.Shape() && x < HALF && k == 16 * m + x < |j.qx| && m < |j.sx|
    ensures HalfOf(v, j, m, x + 1) == HalfOf(v, j, m, x) + ProductOf(v, j, k)
  {
    ProductIs(v, j, m, x);
    DotStep(j, 16 * m, x, k);
    ScaledSum(v.half(j.bs[m / 2]), Value(v, j.sx[m]), Dot(j, 16 * m, x), Weight(j.row, k) * j.qx[k]);
  }

  function HalfParts(v: Valuation, j: RowJob, m: nat): nat -> real
    requires j.Shape() && m < |j.sx|
  {
    (n: nat) => if n <= HALF then HalfOf(v, j, m, n) else 0.0
  }

  lemma PartsStart(v: Valuation, j: RowJob, m: nat)
    requires j.Shape() && m < |j.sx|
    ensures HalfParts(v, j, m)(0) == 0.0
  {
    ScaledNone(v.half(j.bs[m / 2]), Value(v, j.sx[m]));
  }

  lemma PartStep(v: Valuation, j: RowJob, m: nat, x: nat)
    requires j.Shape() && x < HALF && m < |j.sx|
    ensures HalfParts(v, j, m)(x + 1) == HalfParts(v, j, m)(x) + JobProducts(v, j)(16 * m + x)
  {
    HalfStep(v, j, m, x, 16 * m + x);
  }

  lemma PartsAddUp(v: Valuation, j: RowJob, m: nat)
    requires j.Shape() && m < |j.sx|
    ensures AddsUp(JobProducts(v, j), HalfParts(v, j, m), 16 * m, HALF)
  {
    PartsStart(v, j, m);
    forall x: nat | x < HALF
      ensures HalfParts(v, j, m)(x + 1) == HalfParts(v, j, m)(x) + JobProducts(v, j)(16 * m + x)
    {
      PartStep(v, j, m, x);
    }
  }

  /** Within a half-chunk the products add up to its dot, scaled. */
  lemma NextHalf(v: Valuation, j: RowJob, m: nat)
    requires j.Shape() && m < |j.sx|
    ensures HalfSums(v, j, m + 1) == HalfSums(v, j, m) + HalfOf(v, j, m, HALF)
  {
    PartsAddUp(v, j, m);
    SumBlock(JobProducts(v, j), HalfParts(v, j, m), 16 * m, HALF, 16 * (m + 1));
  }

  lemma FactorOut(h: real, d0: int, s0: real, d1: int, s1: real)
    ensures Scaled(h, s0, d0) + Scaled(h, s1, d1) == Times(h, Times(d0 as real, s0) + Times(d1 as real, s1))
  {
    assert h * (d0 as real * s0 + d1 as real * s1) == h * s0 * d0 as real + h * s1 * d1 as real;
  }

  lemma TermIs(v: Valuation, j: RowJob, c: nat)
    requires j.Shape() && c < |j.bs|
    ensures Value(v, Term(j, c)) == Times(Dot(j, 32 * c, HALF) as real, Value(v, j.sx[2 * c]))
                                    + Times(Dot(j, 32 * c + 16, HALF) as real, Value(v, j.sx[2 * c + 1]))
  {
    var d0, d1, s0, s1 := Dot(j, 32 * c, HALF), Dot(j, 32 * c + 16, HALF), j.sx[2 * c], j.sx[2 * c + 1];
    assert Term(j, c) == Fma(OfInt(d0), s0, Mul(OfInt(d1), s1));
    assert Value(v, Mul(OfInt(d1), s1)) == Times(d1 as real, Value(v, s1));
  }

  /** What a chunk adds. */
  function ChunkOf(v: Valuation, j: RowJob, c: nat): real
    requires j.Shape() && c < |j.bs|
  {
    Times(v.half(j.bs[c]), Value(v, Term(j, c)))
  }

  lemma HalvesOf(v: Valuation, j: RowJob, c: nat)
    requires j.Shape() && c < |j.bs|
    ensures HalfOf(v, j, 2 * c, HALF) == Scaled(v.half(j.bs[c]), Value(v, j.sx[2 * c]), Dot(j, 32 * c, HALF))
    ensures HalfOf(v, j, 2 * c + 1, HALF)
         == Scaled(v.half(j.bs[c]), Value(v, j.sx[2 * c + 1]), Dot(j, 32 * c + 16, HALF))
  {
    assert 16 * (2 * c) == 32 * c && 16 * (2 * c + 1) == 32 * c + 16;
    assert 2 * c / 2 == c && (2 * c + 1) / 2 == c;
  }

  lemma ChunkIs(v: Valuation, j: RowJob, c: nat)
    requires j.Shape() && c < |j.bs|
    ensures HalfOf(v, j, 2 * c, HALF) + HalfOf(v, j, 2 * c + 1, HALF) == ChunkOf(v, j, c)
  {
    HalvesOf(v, j, c);
    TermIs(v, j, c);
    FactorOut(v.half(j.bs[c]), Dot(j, 32 * c, HALF), Value(v, j.sx[2 * c]), Dot(j, 32 * c + 16, HALF),
              Value(v, j.sx[2 * c + 1]));
  }

  /** A chunk adds its scale times its term. */
  lemma ChunkValue(v: Valuation, j: RowJob, c: nat)
    requires j.Shape() && c < |j.bs|
    ensures HalfSums(v, j, 2 * c + 2) == HalfSums(v, j, 2 * c) + ChunkOf(v, j, c)
  {
    NextHalf(v, j, 2 * c);
    NextHalf(v, j, 2 * c + 1);
    ChunkIs(v, j, c);
  }

  // ---- lanes ----

  /** The sum of the first n lanes whose number leaves l when divided by o. */
  function LaneSum(v: Valuation, lanes: seq<Float>, l: nat, o: nat, n: nat): real
    requires n <= |lanes| && o > 0
  {
    if n == 0 then 0.0
    else LaneSum(v, lanes, l, o, n - 1) + (if (n - 1) % o == l then Value(v, lanes[n - 1]) else 0.0)
  }

  lemma ModIs(i: int, o: int, q: int, r: int)
    requires 0 <= r < o && i == q * o + r
    ensures i % o == r
  {
    var p := i / o;
    assert (p - q) * o == p * o - q * o;
    MulAtLeast(p - q, o);
  }

  lemma ModHalves(i: nat, o: nat, l: nat)
    requires 0 < o && l < o
    ensures i % o == l <==> i % (2 * o) == l || i % (2 * o) == l + o
  {
    var q, r := i / (2 * o), i % (2 * o);
    assert q * (2 * o) == 2 * q * o;
    if r < o {
      ModIs(i, o, 2 * q, r);
    } else {
      assert (2 * q + 1) * o == 2 * q * o + o;
      ModIs(i, o, 2 * q + 1, r - o);
    }
  }

  lemma {:induction false} LanesSplit(v: Valuation, lanes: seq<Float>, l: nat, o: nat, n: nat)
    requires Level(o) && o < 32 && l < o && n <= |lanes|
    ensures LaneSum(v, lanes, l, o, n) == LaneSum(v, lanes, l + o, 2 * o, n) + LaneSum(v, lanes, l, 2 * o, n)
  {
    if n > 0 {
      LanesSplit(v, lanes, l, o, n - 1);
      ModHalves(n - 1, o, l);
    }
  }

  lemma {:induction false} OneLane(v: Valuation, lanes: seq<Float>, l: nat, n: nat)
    requires l < 32 && n <= |lanes| == 32
    ensures LaneSum(v, lanes, l, 32, n) == if l < n then Value(v, lanes[l]) else 0.0
  {
    if n > 0 { OneLane(v, lanes, l, n - 1); }
  }

  /** A node of the reduction tree is the sum of its lanes. */
  lemma {:induction false} TreeValue(v: Valuation, lanes: seq<Float>, l: nat, o: nat)
    requires |lanes| == 32 && Level(o) && l < o
    ensures Value(v, Tree(lanes, l, o)) == LaneSum(v, lanes, l, o, 32)
    decreases 32 - o
  {
    if o == 32 {
      OneLane(v, lanes, l, 32);
    } else {
      TreeValue(v, lanes, l + o, 2 * o);
      TreeValue(v, lanes, l, 2 * o);
      LanesSplit(v, lanes, l, o, 32);
    }
  }

  /** The first m lanes after the first n chunks, added up. */
  function LanesValue(v: Valuation, j: RowJob, n: nat, m: nat): real
    requires j.Shape() && n <= |j.bs|
  {
    if m == 0 then 0.0 else LanesValue(v, j, n, m - 1) + Value(v, Lane(j, m - 1, n))
  }

  lemma {:induction false} LaneSumIs(v: Valuation, j: RowJob, m: nat)
    requires j.Shape() && m <= 32
    ensures LaneSum(v, AllLanes(j), 0, 1, m) == LanesValue(v, j, |j.bs|, m)
  {
    if m > 0 { LaneSumIs(v, j, m - 1); }
  }

  lemma LaneStep(v: Valuation, j: RowJob, l: nat, n: nat)
    requires j.Shape() && n < |j.bs|
    ensures Value(v, Lane(j, l, n + 1))
         == Value(v, Lane(j, l, n)) + (if n % 32 == l then ChunkOf(v, j, n) else 0.0)
  {}

  /** A chunk goes to one lane. */
  lemma {:induction false} OneLaneMore(v: Valuation, j: RowJob, n: nat, m: nat)
    requires j.Shape() && n < |j.bs|
    ensures LanesValue(v, j, n + 1, m)
         == LanesValue(v, j, n, m) + (if n % 32 < m then ChunkOf(v, j, n) else 0.0)
  {
    if m > 0 {
      OneLaneMore(v, j, n, m - 1);
      LaneStep(v, j, m - 1, n);
    }
  }

  lemma {:induction false} NoLanes(v: Valuation, j: RowJob, m: nat)
    requires j.Shape()
    ensures LanesValue(v, j, 0, m) == 0.0
  {
    if m > 0 { NoLanes(v, j, m - 1); }
  }

  lemma {:induction false} LanesAreRow(v: Valuation, j: RowJob, n: nat)
    requires j.Shape() && n <= |j.bs|
    ensures LanesValue(v, j, n, 32) == HalfSums(v, j, 2 * n)
  {
    if n == 0 {
      NoLanes(v, j, 32);
    } else {
      LanesAreRow(v, j, n - 1);
      OneLaneMore(v, j, n - 1, 32);
      ChunkValue(v, j, n - 1);
    }
  }

  /** The scalar reference stands for the sum over the row. */
  lemma ReferenceValue(v: Valuation, j: RowJob)
    requires j.Shape()
    ensures Value(v, Reference(j)) == Total(JobProducts(v, j), |j.qx|)
  {
    TreeValue(v, AllLanes(j), 0, 1);
    LaneSumIs(v, j, 32);
    LanesAreRow(v, j, |j.bs|);
  }

  // ---- rows of the matrix ----

  lemma StripAt<T>(s: seq<T>, r: nat, width: nat, i: nat)
    requires i < width && (r + 1) * width <= |s|
    ensures r * width <= (r + 1) * width && r * width + i < |s|
    ensures s[r * width..(r + 1) * width][i] == s[r * width + i]
  {
    RowBounds(r, width);
  }

  lemma RowSlices(codes: seq<bv8>, bsc: seq<nat>, qx: seq<int8>, sx: seq<Float>, r: nat, k: nat)
    requires Sized(codes, bsc, qx, sx, r + 1) && k < |qx|
    ensures var j := RowOf(codes, bsc, qx, sx, r);
            && r * (|qx| / 2) + k / 2 < |codes| && r * (|qx| / 32) + k / 32 < |bsc|
            && j.row[k / 2] == codes[r * (|qx| / 2) + k / 2] && j.bs[k / 32] == bsc[r * (|qx| / 32) + k / 32]
  {
    InRow(codes, bsc, qx, r, k);
    StripAt(codes, r, |qx| / 2, k / 2);
    StripAt(bsc, r, |qx| / 32, k / 32);
  }

  lemma SameProduct(v: Valuation, codes: seq<bv8>, bsc: seq<nat>, qx: seq<int8>, sx: seq<Float>, r: nat, k: nat)
    requires Sized(codes, bsc, qx, sx, r + 1) && k < |qx|
    ensures ProductOf(v, RowOf(codes, bsc, qx, sx, r), k) == ProductAt(v, codes, bsc, qx, sx, r, k)
  {
    RowSlices(codes, bsc, qx, sx, r, k);
  }

  /** Row r of the product is the sum over its weights. */
  lemma RowIsSum(v: Valuation, codes: seq<bv8>, bsc: seq<nat>, qx: seq<int8>, sx: seq<Float>, r: nat)
    requires Sized(codes, bsc, qx, sx, r + 1)
    ensures Value(v, Reference(RowOf(codes, bsc, qx, sx, r))) == Total(RowProducts(v, codes, bsc, qx, sx, r), |qx|)
  {
    var j := RowOf(codes, bsc, qx, sx, r);
    ReferenceValue(v, j);
    forall k: nat | k < |qx| ensures JobProducts(v, j)(k) == RowProducts(v, codes, bsc, qx, sx, r)(k) {
      SameProduct(v, codes, bsc, qx, sx, r, k);
    }
    SameSum(JobProducts(v, j), RowProducts(v, codes, bsc, qx, sx, r), |qx|);
  }

  // ---- the whole product ----

  /**
   * sp_moe_cpu_gemv: the shares of all n threads, here one after the other; MoeRun.Replay has them
   * in every interleaving. A refused width leaves y alone.
   */
  method Gemv(ready: bool, n: nat, codes: seq<bv8>, bsc: seq<nat>, qx: seq<int8>, sx: seq<Float>, y: array<Float>)
    returns (rc: int)
    requires n > 0
    requires |qx| % 32 == 0 && |qx| <= 4096 ==>
               16 * |sx| == |qx| && y.Length * (|qx| / 2) <= |codes| && y.Length * (|qx| / 32) <= |bsc|
    modifies y
    ensures rc == if ready && |qx| % 32 == 0 && |qx| <= 4096 then 0 else -1
    ensures rc == 0 ==> forall r: nat | r < y.Length :: HasRow(codes, bsc, qx, r)
    ensures rc == 0 ==> forall r: nat | r < y.Length :: y[r] == Reference(RowOf(codes, bsc, qx, sx, r))
    ensures rc == 0 ==> forall v: Valuation, r: nat | r < y.Length ::
              Value(v, y[r]) == Total(RowProducts(v, codes, bsc, qx, sx, r), |qx|)
    ensures rc != 0 ==> y[..] == old(y[..])
  {
    if !ready || |qx| % 32 != 0 || |qx| > 4096 { return -1; }
    var A := ActxFromQ(qx, sx);
    var rows := y.Length;
    forall r: nat | r < rows ensures HasRow(codes, bsc, qx, r) {
      RowFits(r, rows, |qx| / 2);
      RowFits(r, rows, |qx| / 32);
    }
    Pool.StartEnds(rows, n);
    for t := 0 to n
      invariant forall r: nat | r < rows && r < Pool.Start(rows, t, n) ::
                y[r] == Reference(RowOf(codes, bsc, qx, sx, r))
    {
      Pool.ShareInside(rows, n, t);
      GemvRowsExact(codes, bsc, qx, sx, rows, A, y, Pool.Start(rows, t, n), Pool.Start(rows, t + 1, n));
    }
    forall v: Valuation, r: nat | r < rows
      ensures Value(v, y[r]) == Total(RowProducts(v, codes, bsc, qx, sx, r), |qx|)
    {
      RowIsSum(v, codes, bsc, qx, sx, r);
    }
    rc := 0;
  }
}
