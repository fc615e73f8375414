/**
 * The order of the floating-point operations behind one row of the product
 * (src/backends/cuda/moe_cpu_expert.c), which must be the one of the other kernel bit for bit: a chain of
 * chunks for each of 32 lanes, and the lanes halved five times.
 */
module MoeOrder {
  import opened MoeLanes
  import opened MoeGemv
  import opened MoeValue

  /** f(start) + .. + f(start + n - 1). */
  function IntSum(f: nat -> int, start: nat, n: nat): int {
    if n == 0 then 0 else IntSum(f, start, n - 1) + f(start + n - 1)
  }

  /** Weight k times activation k. */
  function IntProducts(j: RowJob): nat -> int
    requires j.Shape()
  {
    (k: nat) => if j.Shape() && k < |j.qx| then IntProduct(j, k) else 0
  }

  function IntProduct(j: RowJob, k: nat): int
    requires j.Shape() && k < |j.qx|
  {
    Nibble(j.row[k / 2], k) * j.qx[k]
  }

  /** Chunk c into an accumulator: one half fused over the other one's product, then fused with the chunk scale. */
  function Folded(j: RowJob, c: nat, acc: Float): Float
    requires j.Shape() && c < |j.bs|
  {
    var first := OfInt(IntSum(IntProducts(j), 32 * c, 16));
    var second := OfInt(IntSum(IntProducts(j), 32 * c + 16, 16));
    Fma(Half(j.bs[c]), Fma(first, j.sx[2 * c], Mul(second, j.sx[2 * c + 1])), acc)
  }

  /** The accumulators of lane l: zero, and after each of the chunks l, l + 32, l + 64 and so on. */
  predicate IsChain(j: RowJob, l: nat, accs: seq<Float>)
    requires j.Shape()
  {
    && accs != [] && accs[0] == Zero && 32 * (|accs| - 1) + l >= |j.bs|
    && forall i: nat | i + 1 < |accs| :: 32 * i + l < |j.bs| && accs[i + 1] == Folded(j, 32 * i + l, accs[i])
  }

  ghost predicate IsLane(j: RowJob, l: nat, f: Float)
    requires j.Shape()
  {
    exists accs :: EndsChain(j, l, accs, f)
  }

  predicate EndsChain(j: RowJob, l: nat, accs: seq<Float>, f: Float)
    requires j.Shape()
  {
    IsChain(j, l, accs) && f == accs[|accs| - 1]
  }

  /** Each place of the shorter list is the upper half's value plus the lower half's. */
  predicate Halved(a: seq<Float>, b: seq<Float>) {
    |a| == 2 * |b| && forall l | 0 <= l < |b| :: b[l] == Add(a[|b| + l], a[l])
  }

  ghost predicate AreLanes(j: RowJob, lanes: seq<Float>)
    requires j.Shape()
  {
    |lanes| == 32 && forall l: nat | l < 32 :: IsLane(j, l, lanes[l])
  }

  /** How a row's float comes about. */
  ghost predicate InOrder(j: RowJob, y: Float)
    requires j.Shape()
  {
    exists lanes, a, b, c, d :: AreLanes(j, lanes) && HalvedTo(lanes, a, b, c, d, y)
  }

  predicate HalvedTo(lanes: seq<Float>, a: seq<Float>, b: seq<Float>, c: seq<Float>, d: seq<Float>, y: Float) {
    Halved(lanes, a) && Halved(a, b) && Halved(b, c) && Halved(c, d) && Halved(d, [y])
  }

  lemma {:induction false} DotIsSum(j: RowJob, start: nat, n: nat)
    requires j.Shape() && start + n <= |j.qx|
    ensures Dot(j, start, n) == IntSum(IntProducts(j), start, n)
  {
    if n > 0 {
      DotIsSum(j, start, n - 1);
      WeightIsNibble(j.row, start + n - 1);
    }
  }

  lemma TermIsFolded(j: RowJob, c: nat, acc: Float)
    requires j.Shape() && c < |j.bs|
    ensures Fma(Half(j.bs[c]), Term(j, c), acc) == Folded(j, c, acc)
  {
    DotIsSum(j, 32 * c, 16);
    DotIsSum(j, 32 * c + 16, 16);
  }

  function Upto(j: RowJob, i: nat): nat
    requires j.Shape()
  {
    if 32 * i < |j.bs| then 32 * i else |j.bs|
  }

  lemma ChainStep(j: RowJob, l: nat, i: nat)
    requires j.Shape() && l < 32 && 32 * i + l < |j.bs|
    ensures Lane(j, l, Upto(j, i + 1)) == Folded(j, 32 * i + l, Lane(j, l, Upto(j, i)))
  {
    LaneBlock(j, l, 32 * i, Upto(j, i + 1));
    TermIsFolded(j, 32 * i + l, Lane(j, l, 32 * i));
  }

  lemma ChainEnd(j: RowJob, l: nat, i: nat)
    requires j.Shape() && l < 32 && 32 * i + l >= |j.bs|
    ensures Lane(j, l, |j.bs|) == Lane(j, l, Upto(j, i))
  {
    if 32 * i < |j.bs| { LaneBlock(j, l, 32 * i, |j.bs|); }
  }

  /** Every lane of the reference is such a chain. */
  lemma LaneIsChain(j: RowJob, l: nat)
    requires j.Shape() && l < 32
    ensures IsLane(j, l, Lane(j, l, |j.bs|))
  {
    var k := if |j.bs| <= l then 0 else (|j.bs| - l + 31) / 32;
    var accs := seq(k + 1, i requires 0 <= i <= k => Lane(j, l, Upto(j, i)));
    forall i: nat | i < k ensures 32 * i + l < |j.bs| && accs[i + 1] == Folded(j, 32 * i + l, accs[i]) {
      ChainStep(j, l, i);
    }
    ChainEnd(j, l, k);
    assert EndsChain(j, l, accs, Lane(j, l, |j.bs|));
  }

  lemma {:induction false} ChainIs(j: RowJob, l: nat, accs: seq<Float>, i: nat)
    requires j.Shape() && l < 32 && IsChain(j, l, accs) && i < |accs|
    ensures accs[i] == Lane(j, l, Upto(j, i))
  {
    if i > 0 {
      ChainIs(j, l, accs, i - 1);
      ChainMeets(j, l, accs, i - 1);
    }
  }

  lemma ChainMeets(j: RowJob, l: nat, accs: seq<Float>, i: nat)
    requires j.Shape() && l < 32 && IsChain(j, l, accs) && i + 1 < |accs| && accs[i] == Lane(j, l, Upto(j, i))
    ensures accs[i + 1] == Lane(j, l, Upto(j, i + 1))
  {
    ChainNext(j, l, accs, i);
    ChainStep(j, l, i);
  }

  lemma ChainNext(j: RowJob, l: nat, accs: seq<Float>, i: nat)
    requires j.Shape() && IsChain(j, l, accs) && i + 1 < |accs|
    ensures 32 * i + l < |j.bs| && accs[i + 1] == Folded(j, 32 * i + l, accs[i])
  {}

  lemma ChainIsLane(j: RowJob, l: nat, f: Float)
    requires j.Shape() && l < 32 && IsLane(j, l, f)
    ensures f == Lane(j, l, |j.bs|)
  {
    var accs :| EndsChain(j, l, accs, f);
    ChainIs(j, l, accs, |accs| - 1);
    ChainEnd(j, l, |accs| - 1);
  }

  function TreeLevel(lanes: seq<Float>, o: nat): (t: seq<Float>)
    requires |lanes| == 32 && Level(o)
    ensures |t| == o
  {
    seq(o, l requires 0 <= l < o => Tree(lanes, l, o))
  }

  lemma TreeStep(lanes: seq<Float>, l: nat, o: nat)
    requires |lanes| == 32 && Level(o) && o < 32 && l < o
    ensures Tree(lanes, l, o) == Add(Tree(lanes, o + l, 2 * o), Tree(lanes, l, 2 * o))
  {}

  lemma TreeHalves(lanes: seq<Float>, o: nat, h: nat)
    requires |lanes| == 32 && Level(o) && Level(h) && h == 2 * o
    ensures Halved(TreeLevel(lanes, h), TreeLevel(lanes, o))
  {
    forall l: nat | l < o ensures Tree(lanes, l, o) == Add(Tree(lanes, o + l, h), Tree(lanes, l, h)) {
      TreeStep(lanes, l, o);
    }
  }

  lemma TreeEnds(lanes: seq<Float>)
    requires |lanes| == 32
    ensures TreeLevel(lanes, 32) == lanes && TreeLevel(lanes, 1) == [Tree(lanes, 0, 1)]
  {}

  lemma ReferenceHalves(lanes: seq<Float>)
    requires |lanes| == 32
    ensures HalvedTo(lanes, TreeLevel(lanes, 16), TreeLevel(lanes, 8), TreeLevel(lanes, 4), TreeLevel(lanes, 2),
                     Tree(lanes, 0, 1))
  {
    TreeHalves(lanes, 16, 32);
    TreeHalves(lanes, 8, 16);
    TreeHalves(lanes, 4, 8);
    TreeHalves(lanes, 2, 4);
    TreeHalves(lanes, 1, 2);
    TreeEnds(lanes);
  }

  lemma SameHalves(x: seq<Float>, a: seq<Float>, b: seq<Float>)
    requires Halved(x, a) && Halved(x, b)
    ensures a == b
  {
    forall l | 0 <= l < |a| ensures a[l] == b[l] { assert b[l] == Add(x[|b| + l], x[l]); }
  }

  lemma HalvesOnce(lanes: seq<Float>, a: seq<Float>, b: seq<Float>, c: seq<Float>, d: seq<Float>, y: Float)
    requires |lanes| == 32 && HalvedTo(lanes, a, b, c, d, y)
    ensures y == Tree(lanes, 0, 1)
  {
    ReferenceHalves(lanes);
    SameHalves(lanes, a, TreeLevel(lanes, 16));
    SameHalves(a, b, TreeLevel(lanes, 8));
    SameHalves(b, c, TreeLevel(lanes, 4));
    SameHalves(c, d, TreeLevel(lanes, 2));
    SameHalves(d, [y], [Tree(lanes, 0, 1)]);
  }

  lemma AreOwnLanes(j: RowJob)
    requires j.Shape()
    ensures AreLanes(j, AllLanes(j))
  {
    forall l: nat | l < 32 ensures IsLane(j, l, AllLanes(j)[l]) { LaneIsChain(j, l); }
  }

  lemma LanesAreOwn(j: RowJob, lanes: seq<Float>)
    requires j.Shape() && AreLanes(j, lanes)
    ensures lanes == AllLanes(j)
  {
    forall l: nat | l < 32 ensures lanes[l] == AllLanes(j)[l] { ChainIsLane(j, l, lanes[l]); }
  }

  /** A float comes about in this order exactly when it is the reference. */
  lemma ReferenceInOrder(j: RowJob, y: Float)
    requires j.Shape()
    ensures InOrder(j, y) <==> y == Reference(j)
  {
    AreOwnLanes(j);
    ReferenceHalves(AllLanes(j));
    if InOrder(j, y) {
      var lanes, a, b, c, d :| AreLanes(j, lanes) && HalvedTo(lanes, a, b, c, d, y);
      LanesAreOwn(j, lanes);
      HalvesOnce(lanes, a, b, c, d, y);
    }
  }
}
