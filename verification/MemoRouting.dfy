/**
 * Sparse memory routing (tools/sp_daemon/src/memo_routing.rs): a Fisher-Yates shuffle per layer,
 * driven by SplitMix64, whose first k entries are the active heads.
 */
module MemoRouting {
  import opened Common

  // ---- 64-bit bitmaps ----

  /** A u64 as its bits, least significant first. */
  type u64 = b: seq<bool> | |b| == 64 witness Clear()

  const WIDTH: nat := 64

  function Clear(): (b: seq<bool>)
    ensures |b| == 64 && forall h | 0 <= h < 64 :: !b[h]
  {
    seq(64, _ => false)
  }

  /** `x | (1u64 << h)`. */
  function SetBit(x: u64, h: nat): u64
    requires h < WIDTH
  {
    x[h := true]
  }

  function Xor(x: u64, y: u64): (z: u64)
    ensures forall h: nat | h < WIDTH :: z[h] <==> x[h] != y[h]
  {
    seq(64, h requires 0 <= h < 64 => x[h] != y[h])
  }

  function And(x: u64, y: u64): (z: u64)
    ensures forall h: nat | h < WIDTH :: z[h] <==> x[h] && y[h]
  {
    seq(64, h requires 0 <= h < 64 => x[h] && y[h])
  }

  /** count_ones of the low n bits. */
  function Ones(x: u64, n: nat): nat
    requires n <= WIDTH
  {
    if n == 0 then 0 else Ones(x, n - 1) + (if x[n - 1] then 1 else 0)
  }

  function CountOnes(x: u64): nat { Ones(x, WIDTH) }

  lemma {:induction false} SetBitCounts(x: u64, h: nat, n: nat)
    requires h < WIDTH && !x[h] && n <= WIDTH
    ensures Ones(SetBit(x, h), n) == Ones(x, n) + (if h < n then 1 else 0)
  {
    if n > 0 { SetBitCounts(x, h, n - 1); }
  }

  /** |x xor y| + 2 |x and y| = |x| + |y|. */
  lemma {:induction false} XorCounts(x: u64, y: u64, n: nat)
    requires n <= WIDTH
    ensures Ones(Xor(x, y), n) + 2 * Ones(And(x, y), n) == Ones(x, n) + Ones(y, n)
  {
    if n > 0 { XorCounts(x, y, n - 1); }
  }

  // ---- draws ----

  /** The generator's outputs for one layer, in the order they are drawn. */
  type Stream = nat -> nat

  /** The draw for position i: one output modulo i + 1. */
  function Pick(rng: Stream, at: nat, i: nat): (j: nat)
    ensures j <= i
  {
    rng(at) % (i + 1)
  }

  /** The indices drawn for positions i, i - 1, .., 1 when `at` outputs are already used. */
  function Draws(rng: Stream, at: nat, i: nat): (js: seq<nat>)
    ensures |js| == i && ValidDraws(js)
    decreases i
  {
    if i == 0 then [] else [Pick(rng, at, i)] + Draws(rng, at + 1, i - 1)
  }

  // ---- the shuffle ----

  /** Draw t is for position |js| - t and may be that position or any below. */
  predicate ValidDraws(js: seq<nat>) {
    forall t | 0 <= t < |js| :: js[t] <= |js| - t
  }

  function Swap(p: seq<nat>, i: nat, j: nat): (q: seq<nat>)
    requires i < |p| && j < |p|
    ensures |q| == |p| && q[i] == p[j] && q[j] == p[i]
    ensures forall x | 0 <= x < |p| && x != i && x != j :: q[x] == p[x]
  {
    p[i := p[j]][j := p[i]]
  }

  /** The swaps of one shuffle, from position |js| down to 1. */
  function Shuffled(p: seq<nat>, js: seq<nat>): (q: seq<nat>)
    requires |js| < |p| && ValidDraws(js)
    ensures |q| == |p|
    ensures forall x | |js| < x < |p| :: q[x] == p[x]
    decreases |js|
  {
    if js == [] then p else Shuffled(Swap(p, |js|, js[0]), js[1..])
  }

  lemma SwapKeeps(p: seq<nat>, i: nat, j: nat)
    requires i < |p| && j < |p|
    ensures multiset(Swap(p, i, j)) == multiset(p)
  {}

  /** A shuffle only rearranges. */
  lemma {:induction false} ShuffledKeeps(p: seq<nat>, js: seq<nat>)
    requires |js| < |p| && ValidDraws(js)
    ensures multiset(Shuffled(p, js)) == multiset(p)
    decreases |js|
  {
    if js != [] {
      SwapKeeps(p, |js|, js[0]);
      ShuffledKeeps(Swap(p, |js|, js[0]), js[1..]);
    }
  }

  predicate Distinct(p: seq<nat>) {
    forall x, y | 0 <= x < y < |p| :: p[x] != p[y]
  }

  lemma SwapDistinct(p: seq<nat>, i: nat, j: nat)
    requires i < |p| && j < |p| && Distinct(p)
    ensures Distinct(Swap(p, i, j))
  {
    var q := Swap(p, i, j);
    forall x, y | 0 <= x < y < |q| ensures q[x] != q[y] {
      var x' := if x == i then j else if x == j then i else x;
      var y' := if y == i then j else if y == j then i else y;
      assert q[x] == p[x'] && q[y] == p[y'];
    }
  }

  lemma {:induction false} ShuffledDistinct(p: seq<nat>, js: seq<nat>)
    requires |js| < |p| && ValidDraws(js) && Distinct(p)
    ensures Distinct(Shuffled(p, js))
    decreases |js|
  {
    if js != [] {
      SwapDistinct(p, |js|, js[0]);
      ShuffledDistinct(Swap(p, |js|, js[0]), js[1..]);
    }
  }

  /** The first draw decides what ends up in the last position. */
  lemma TopIsDrawn(p: seq<nat>, js: seq<nat>)
    requires 0 < |js| < |p| && ValidDraws(js)
    ensures Shuffled(p, js)[|js|] == p[js[0]]
    ensures Shuffled(p, js) == Shuffled(Swap(p, |js|, js[0]), js[1..])
  {}

  /** Different draws give different arrangements. */
  lemma {:induction false} ShuffleInjective(p: seq<nat>, js: seq<nat>, js': seq<nat>)
    requires |js| == |js'| < |p| && ValidDraws(js) && ValidDraws(js') && Distinct(p)
    requires Shuffled(p, js) == Shuffled(p, js')
    ensures js == js'
    decreases |js|
  {
    if js != [] {
      var i := |js|;
      TopIsDrawn(p, js);
      TopIsDrawn(p, js');
      SwapDistinct(p, i, js[0]);
      ShuffleInjective(Swap(p, i, js[0]), js[1..], js'[1..]);
      assert js == [js[0]] + js[1..] && js' == [js'[0]] + js'[1..];
    }
  }

  lemma IndexIn(p: seq<nat>, q: seq<nat>, i: nat) returns (j: nat)
    requires |p| == |q| && i < |p| && multiset(p) == multiset(q) && Distinct(q)
    requires forall x | i < x < |p| :: p[x] == q[x]
    ensures j <= i && p[j] == q[i]
  {
    assert q[i] in multiset(q);
    assert q[i] in p;
    j :| 0 <= j < |p| && p[j] == q[i];
  }

  /** Every arrangement is reached by some draws. */
  lemma {:induction false} ShuffleSurjective(p: seq<nat>, q: seq<nat>, i: nat) returns (js: seq<nat>)
    requires i < |p| == |q| && multiset(p) == multiset(q) && Distinct(q)
    requires forall x | i < x < |p| :: p[x] == q[x]
    ensures |js| == i && ValidDraws(js) && Shuffled(p, js) == q
    decreases i
  {
    var j := IndexIn(p, q, i);
    if i == 0 {
      js := [];
      assert p == q;
    } else {
      SwapKeeps(p, i, j);
      var rest := ShuffleSurjective(Swap(p, i, j), q, i - 1);
      js := [j] + rest;
      ShuffledCons(p, j, rest);
    }
  }

  lemma ShuffledCons(p: seq<nat>, j: nat, rest: seq<nat>)
    requires |rest| + 1 < |p| && j <= |rest| + 1 && ValidDraws(rest)
    ensures ValidDraws([j] + rest) && Shuffled(p, [j] + rest) == Shuffled(Swap(p, |rest| + 1, j), rest)
  {
    var js := [j] + rest;
    assert js[1..] == rest;
    forall t | 0 <= t < |js| ensures js[t] <= |js| - t { assert t > 0 ==> js[t] == rest[t - 1]; }
  }

  function Iota(n: nat): (p: seq<nat>)
    ensures |p| == n && forall x | 0 <= x < n :: p[x] == x
  {
    seq(n, x => x)
  }

  lemma IotaDistinct(n: nat)
    ensures Distinct(Iota(n))
  {}

  /** Draw vectors and permutations of n heads correspond one to one. */
  lemma DrawsArePermutations(n: nat, q: seq<nat>) returns (js: seq<nat>)
    requires n > 0 && multiset(q) == multiset(Iota(n)) && |q| == n && Distinct(q)
    ensures |js| == n - 1 && ValidDraws(js) && Shuffled(Iota(n), js) == q
    ensures forall ks: seq<nat> | |ks| == n - 1 && ValidDraws(ks) && Shuffled(Iota(n), ks) == q :: ks == js
  {
    IotaDistinct(n);
    js := ShuffleSurjective(Iota(n), q, n - 1);
    forall ks: seq<nat> | |ks| == n - 1 && ValidDraws(ks) && Shuffled(Iota(n), ks) == q ensures ks == js {
      ShuffleInjective(Iota(n), ks, js);
    }
  }

  // ---- masks ----

  ghost predicate HeadsOk(heads: seq<nat>, n: nat) {
    Distinct(heads) && forall x | 0 <= x < |heads| :: heads[x] < n
  }

  /** The bitmap of a list of heads. */
  ghost function MaskOf(heads: seq<nat>): u64
    requires HeadsOk(heads, WIDTH)
    decreases |heads|
  {
    if heads == [] then Clear() else SetBit(MaskOf(heads[..|heads| - 1]), heads[|heads| - 1])
  }

  /** A head is active exactly when it is listed. */
  lemma {:induction false} MaskHas(heads: seq<nat>, h: nat)
    requires HeadsOk(heads, WIDTH) && h < WIDTH
    ensures MaskOf(heads)[h] <==> h in heads
    decreases |heads|
  {
    if heads != [] {
      var k := |heads| - 1;
      MaskHas(heads[..k], h);
      assert heads == heads[..k] + [heads[k]];
    }
  }

  lemma {:induction false} NoOnes(n: nat)
    requires n <= WIDTH
    ensures Ones(Clear(), n) == 0
  {
    if n > 0 { NoOnes(n - 1); }
  }

  lemma {:induction false} MaskCount(heads: seq<nat>)
    requires HeadsOk(heads, WIDTH)
    ensures CountOnes(MaskOf(heads)) == |heads|
    decreases |heads|
  {
    if heads == [] {
      NoOnes(WIDTH);
    } else {
      var k := |heads| - 1;
      MaskCount(heads[..k]);
      MaskHas(heads[..k], heads[k]);
      SetBitCounts(MaskOf(heads[..k]), heads[k], WIDTH);
    }
  }

  /** A layer mask: k bits, none at n or above. */
  ghost predicate LayerOk(bits: u64, n: nat, k: nat) {
    CountOnes(bits) == k && forall h: nat | n <= h < WIDTH :: !bits[h]
  }

  /** The heads in the order one layer's draws leave them. */
  function Arrangement(rng: Stream, at: nat, n: nat): (q: seq<nat>)
    ensures |q| == n
  {
    if n == 0 then [] else Shuffled(Iota(n), Draws(rng, at, n - 1))
  }

  lemma ArrangementOk(rng: Stream, at: nat, n: nat, k: nat)
    requires k <= n <= WIDTH
    ensures HeadsOk(Arrangement(rng, at, n)[..k], n)
  {
    var q := Arrangement(rng, at, n);
    if n > 0 {
      IotaDistinct(n);
      ShuffledDistinct(Iota(n), Draws(rng, at, n - 1));
      ShuffledKeeps(Iota(n), Draws(rng, at, n - 1));
    }
    forall x | 0 <= x < n ensures q[x] < n {
      assert q[x] in multiset(q);
      assert q[x] in Iota(n);
    }
  }

  lemma HeadsMaskOk(heads: seq<nat>, n: nat)
    requires HeadsOk(heads, n) && n <= WIDTH
    ensures LayerOk(MaskOf(heads), n, |heads|)
  {
    MaskCount(heads);
    forall h: nat | n <= h < WIDTH ensures !MaskOf(heads)[h] {
      MaskHas(heads, h);
    }
  }

  lemma StartOfShuffle(p: seq<nat>, rng: Stream, at: nat)
    requires p != [] && p == Iota(|p|)
    ensures Drawn(p, rng, at, |p| - 1) == Arrangement(rng, at, |p|)
  {
    DrawnIsShuffled(p, rng, at, |p| - 1);
  }

  /** The in-place shuffle of one layer's heads. */
  method Shuffle(perm: array<nat>, rng: Stream, seedDraws: nat)
    requires perm[..] == Iota(perm.Length)
    modifies perm
    ensures perm[..] == Arrangement(rng, seedDraws, perm.Length)
  {
    var n, at := perm.Length, seedDraws;
    if n > 0 {
      var i := n - 1;
      ghost var goal := Arrangement(rng, seedDraws, n);
      StartOfShuffle(perm[..], rng, at);
      while i > 0
        invariant 0 <= i < n
        invariant Drawn(perm[..], rng, at, i) == goal
      {
        OneDraw(perm, rng, at, i);
        at := at + 1;
        i := i - 1;
      }
    }
  }

  /** One draw and its swap. */
  method OneDraw(perm: array<nat>, rng: Stream, at: nat, i: nat)
    requires 0 < i < perm.Length
    modifies perm
    ensures Drawn(perm[..], rng, at + 1, i - 1) == old(Drawn(perm[..], rng, at, i))
  {
    SwapAt(perm, i, Pick(rng, at, i));
  }

  /** The swaps still to do from position i down. */
  function Drawn(p: seq<nat>, rng: Stream, at: nat, i: nat): (q: seq<nat>)
    requires i == 0 || i < |p|
    decreases i
  {
    if i == 0 then p else Drawn(Swap(p, i, Pick(rng, at, i)), rng, at + 1, i - 1)
  }

  lemma {:induction false} DrawnIsShuffled(p: seq<nat>, rng: Stream, at: nat, i: nat)
    requires i < |p|
    ensures Drawn(p, rng, at, i) == Shuffled(p, Draws(rng, at, i))
    decreases i
  {
    if i > 0 {
      OneSwap(p, rng, at, i);
      DrawnIsShuffled(Swap(p, i, Pick(rng, at, i)), rng, at + 1, i - 1);
    }
  }

  method SwapAt(perm: array<nat>, i: nat, j: nat)
    requires i < perm.Length && j < perm.Length
    modifies perm
    ensures perm[..] == Swap(old(perm[..]), i, j)
  {
    perm[i], perm[j] := perm[j], perm[i];
  }

  lemma OneSwap(p: seq<nat>, rng: Stream, at: nat, i: nat)
    requires 0 < i < |p|
    ensures Shuffled(p, Draws(rng, at, i)) == Shuffled(Swap(p, i, Pick(rng, at, i)), Draws(rng, at + 1, i - 1))
  {
    var js := Draws(rng, at, i);
    assert js[0] == Pick(rng, at, i) && js[1..] == Draws(rng, at + 1, i - 1);
    TopIsDrawn(p, js);
  }

  method SetBits(perm: array<nat>, k: nat) returns (bits: u64)
    requires k <= perm.Length && HeadsOk(perm[..k], WIDTH)
    ensures bits == MaskOf(perm[..k])
  {
    bits := Clear();
    for x := 0 to k
      invariant HeadsOk(perm[..x], WIDTH) && bits == MaskOf(perm[..x])
    {
      assert HeadsOk(perm[..k], WIDTH) && perm[..k][x] == perm[x];
      ghost var heads := perm[..x + 1];
      assert heads[..x] == perm[..x] && heads[x] == perm[x];
      assert HeadsOk(heads, WIDTH) by { PrefixOk(perm[..k], x + 1); assert perm[..k][..x + 1] == heads; }
      bits := SetBit(bits, perm[x]);
    }
  }

  lemma PrefixOk(heads: seq<nat>, x: nat)
    requires HeadsOk(heads, WIDTH) && x <= |heads|
    ensures HeadsOk(heads[..x], WIDTH)
  {}

  /** One layer: one generator step to mix the seed, the shuffle, the first k heads. */
  method LayerMask(rng: Stream, nHeads: nat, k: nat) returns (bits: u64)
    requires k <= nHeads <= WIDTH
    ensures LayerIs(bits, rng, nHeads, k) && LayerOk(bits, nHeads, k)
  {
    var perm := new nat[nHeads](x => x);
    assert perm[..] == Iota(nHeads);
    Shuffle(perm, rng, 1);
    assert perm[..k] == Arrangement(rng, 1, nHeads)[..k];
    ArrangementOk(rng, 1, nHeads, k);
    HeadsMaskOk(perm[..k], nHeads);
    bits := SetBits(perm, k);
  }

  // ---- what one layer does ----

  /** q is p with the entries i and j exchanged. */
  predicate Exchanged(p: seq<nat>, q: seq<nat>, i: nat, j: nat) {
    && i < |p| == |q| && j < |p| && q[i] == p[j] && q[j] == p[i]
    && forall x | 0 <= x < |p| && x != i && x != j :: q[x] == p[x]
  }

  /**
   * The lists of heads of one layer: from the heads in order, position n - 1 - t is exchanged with the
   * one that output t + 1 of the generator names modulo n - t.
   */
  predicate IsShuffling(rng: Stream, n: nat, lists: seq<seq<nat>>) {
    && |lists| == (if n == 0 then 1 else n) && |lists[0]| == n && (forall h | 0 <= h < n :: lists[0][h] == h)
    && forall t: nat | t + 1 < |lists| :: Exchanged(lists[t], lists[t + 1], n - 1 - t, rng(t + 1) % (n - t))
  }

  /** The bits set are the first k of the list. */
  predicate ShowsFirst(bits: u64, heads: seq<nat>, k: nat) {
    k <= |heads| && forall h: nat | h < WIDTH :: bits[h] <==> h in heads[..k]
  }

  ghost predicate RoutingLaw(bits: u64, rng: Stream, n: nat, k: nat) {
    exists lists :: IsShuffling(rng, n, lists) && ShowsFirst(bits, lists[|lists| - 1], k)
  }

  /** One draw: position i, and output `at`. */
  predicate Stepped(rng: Stream, at: nat, i: nat, p: seq<nat>, q: seq<nat>) { Exchanged(p, q, i, Pick(rng, at, i)) }

  lemma ExchangeIsSwap(p: seq<nat>, q: seq<nat>, i: nat, j: nat)
    ensures i < |p| && j < |p| ==> Exchanged(p, Swap(p, i, j), i, j)
    ensures Exchanged(p, q, i, j) ==> q == Swap(p, i, j)
  {}

  /** The list after t draws. */
  function After(p: seq<nat>, rng: Stream, t: nat): (q: seq<nat>)
    requires t < |p|
    ensures |q| == |p|
  {
    if t == 0 then p else Swap(After(p, rng, t - 1), |p| - t, Pick(rng, t, |p| - t))
  }

  lemma AfterStep(p: seq<nat>, rng: Stream, t: nat)
    requires t + 1 < |p|
    ensures Exchanged(After(p, rng, t), After(p, rng, t + 1), |p| - 1 - t, rng(t + 1) % (|p| - t))
  {
    ExchangeIsSwap(After(p, rng, t), After(p, rng, t + 1), |p| - 1 - t, Pick(rng, t + 1, |p| - 1 - t));
  }

  /** Where the draws after the first t lead. */
  function Goal(p: seq<nat>, rng: Stream, t: nat): seq<nat>
    requires t < |p|
  {
    Drawn(p, rng, t + 1, |p| - 1 - t)
  }

  lemma GoalStays(p: seq<nat>, q: seq<nat>, rng: Stream, t: nat)
    requires 0 < t < |p| && Stepped(rng, t, |p| - t, p, q)
    ensures |q| == |p| && Goal(q, rng, t) == Goal(p, rng, t - 1)
  {
    ExchangeIsSwap(p, q, |p| - t, Pick(rng, t, |p| - t));
  }

  /** Any lists that are exchanged as the generator says lead to where the first one does. */
  lemma {:induction false} ListsEnd(rng: Stream, n: nat, lists: seq<seq<nat>>, t: nat)
    requires IsShuffling(rng, n, lists) && t < n
    ensures |lists[t]| == n && Goal(lists[t], rng, t) == Goal(lists[0], rng, 0)
  {
    if t == 0 {
    } else {
      ListsEnd(rng, n, lists, t - 1);
      ShufflingStep(rng, n, lists, t);
      GoalStays(lists[t - 1], lists[t], rng, t);
    }
  }

  lemma ShufflingStep(rng: Stream, n: nat, lists: seq<seq<nat>>, t: nat)
    requires IsShuffling(rng, n, lists) && 0 < t < n
    ensures Stepped(rng, t, n - t, lists[t - 1], lists[t])
  {
    var s := t - 1;
    assert Exchanged(lists[s], lists[s + 1], n - 1 - s, rng(s + 1) % (n - s));
  }

  lemma FirstKept(bits: u64, heads: seq<nat>, k: nat)
    requires k <= |heads| && HeadsOk(heads[..k], WIDTH)
    ensures ShowsFirst(bits, heads, k) <==> bits == MaskOf(heads[..k])
  {
    forall h: nat | h < WIDTH ensures MaskOf(heads[..k])[h] <==> h in heads[..k] { MaskHas(heads[..k], h); }
  }

  lemma {:induction false} ShufflingEnds(rng: Stream, n: nat, lists: seq<seq<nat>>)
    requires IsShuffling(rng, n, lists)
    ensures lists[|lists| - 1] == Arrangement(rng, 1, n)
  {
    assert lists[0] == Iota(n);
    if n > 0 {
      ListsEnd(rng, n, lists, n - 1);
      StartOfShuffle(Iota(n), rng, 1);
    }
  }

  lemma HasShuffling(rng: Stream, n: nat) returns (lists: seq<seq<nat>>)
    ensures IsShuffling(rng, n, lists)
  {
    lists := if n == 0 then [[]] else seq(n, t requires 0 <= t < n => After(Iota(n), rng, t));
    forall t: nat | t + 1 < |lists| ensures Exchanged(lists[t], lists[t + 1], n - 1 - t, rng(t + 1) % (n - t)) {
      AfterStep(Iota(n), rng, t);
    }
  }

  /** The mask of a layer is the one of the law, and no other is. */
  lemma LayerKeepsLaw(bits: u64, rng: Stream, n: nat, k: nat)
    requires k <= n <= WIDTH
    ensures LayerIs(bits, rng, n, k) <==> RoutingLaw(bits, rng, n, k)
  {
    ArrangementOk(rng, 1, n, k);
    FirstKept(bits, Arrangement(rng, 1, n), k);
    var own := HasShuffling(rng, n);
    ShufflingEnds(rng, n, own);
    if RoutingLaw(bits, rng, n, k) {
      var lists :| IsShuffling(rng, n, lists) && ShowsFirst(bits, lists[|lists| - 1], k);
      ShufflingEnds(rng, n, lists);
    }
  }

  datatype RoutingMask = RoutingMask(active: seq<u64>, kPerLayer: nat, nLayers: nat, nHeads: nat)

  datatype RoutingError = TooManyActive | TooManyHeads | NoLayers

  ghost predicate MaskOk(m: RoutingMask) {
    && |m.active| == m.nLayers && m.kPerLayer <= m.nHeads <= WIDTH
    && forall l | 0 <= l < |m.active| :: LayerOk(m.active[l], m.nHeads, m.kPerLayer)
  }

  /** The mask of layer `rng`: the first k heads of that layer's arrangement. */
  ghost predicate LayerIs(bits: u64, rng: Stream, n: nat, k: nat) {
    && k <= n <= WIDTH
    && HeadsOk(Arrangement(rng, 1, n)[..k], WIDTH)
    && bits == MaskOf(Arrangement(rng, 1, n)[..k])
  }

  ghost predicate IsRouted(bits: u64, rng: Stream, n: nat, k: nat) {
    LayerIs(bits, rng, n, k) && LayerOk(bits, n, k) && RoutingLaw(bits, rng, n, k)
  }

  ghost predicate AreRouted(active: seq<u64>, rngs: seq<Stream>, n: nat, k: nat)
    requires |active| <= |rngs|
  {
    active == [] || (var l := |active| - 1;
                     IsRouted(active[l], rngs[l], n, k) && AreRouted(active[..l], rngs, n, k))
  }

  lemma RoutedWhole(active: seq<u64>, rngs: seq<Stream>, n: nat, k: nat, l: nat)
    requires |active| == l + 1 <= |rngs| && AreRouted(active[..l], rngs, n, k) && IsRouted(active[l], rngs[l], n, k)
    ensures AreRouted(active, rngs, n, k)
  {}

  lemma RoutedSnoc(active: seq<u64>, rngs: seq<Stream>, n: nat, k: nat, bits: u64)
    requires |active| < |rngs| && AreRouted(active, rngs, n, k) && IsRouted(bits, rngs[|active|], n, k)
    ensures AreRouted(active + [bits], rngs, n, k)
  {
    var all: seq<u64> := active + [bits];
    assert all[..|active|] == active && all[|active|] == bits;
    RoutedWhole(all, rngs, n, k, |active|);
  }

  lemma {:induction false} RoutedAt(active: seq<u64>, rngs: seq<Stream>, n: nat, k: nat, x: nat)
    requires x < |active| <= |rngs| && AreRouted(active, rngs, n, k)
    ensures IsRouted(active[x], rngs[x], n, k)
    decreases |active|
  {
    if x < |active| - 1 { RoutedAt(active[..|active| - 1], rngs, n, k, x); }
  }

  lemma RoutedAre(active: seq<u64>, rngs: seq<Stream>, n: nat, k: nat)
    requires |active| == |rngs| && AreRouted(active, rngs, n, k)
    ensures forall l: nat | l < |rngs| :: LayerIs(active[l], rngs[l], n, k)
    ensures forall l: nat | l < |rngs| :: LayerOk(active[l], n, k)
    ensures forall l: nat | l < |rngs| :: RoutingLaw(active[l], rngs[l], n, k)
  {
    forall l: nat | l < |rngs|
      ensures LayerIs(active[l], rngs[l], n, k) && LayerOk(active[l], n, k) && RoutingLaw(active[l], rngs[l], n, k)
    {
      RoutedAt(active, rngs, n, k, l);
    }
  }

  /** compute_memory_routing; rngs[l] is the generator seeded for layer l. */
  method ComputeMemoryRouting(rngs: seq<Stream>, nHeads: nat, k: nat) returns (r: Result<RoutingMask, RoutingError>)
    ensures r.Err? <==> k > nHeads || nHeads > 64 || |rngs| == 0
    ensures r.Err? ==> r.error == if k > nHeads then TooManyActive else if nHeads > 64 then TooManyHeads else NoLayers
    ensures r.Ok? ==> MaskOk(r.value) && r.value.nLayers == |rngs| && r.value.nHeads == nHeads && r.value.kPerLayer == k
    ensures r.Ok? ==> forall l: nat | l < |rngs| :: LayerIs(r.value.active[l], rngs[l], nHeads, k)
    ensures r.Ok? ==> forall l: nat | l < |rngs| :: RoutingLaw(r.value.active[l], rngs[l], nHeads, k)
  {
    if k > nHeads { return Err(TooManyActive); }
    if nHeads > 64 { return Err(TooManyHeads); }
    if |rngs| == 0 { return Err(NoLayers); }
    var active: seq<u64> := [];
    for l := 0 to |rngs|
      invariant |active| == l && AreRouted(active, rngs, nHeads, k)
    {
      var bits := LayerMask(rngs[l], nHeads, k);
      LayerKeepsLaw(bits, rngs[l], nHeads, k);
      RoutedSnoc(active, rngs, nHeads, k, bits);
      active := active + [bits];
    }
    RoutedAre(active, rngs, nHeads, k);
    r := Ok(RoutingMask(active, k, |rngs|, nHeads));
  }

  // ---- totals and distance ----

  function TotalActive(active: seq<u64>): nat {
    if active == [] then 0 else CountOnes(active[0]) + TotalActive(active[1..])
  }

  function Distance(a: seq<u64>, b: seq<u64>): nat {
    if a == [] || b == [] then 0 else CountOnes(Xor(a[0], b[0])) + Distance(a[1..], b[1..])
  }

  /** hamming; None where the source panics. */
  function Hamming(a: RoutingMask, b: RoutingMask): Option<nat> {
    if a.nLayers != b.nLayers || a.nHeads != b.nHeads then None else Some(Distance(a.active, b.active))
  }

  lemma {:induction false} TotalIsProduct(active: seq<u64>, n: nat, k: nat)
    requires forall l | 0 <= l < |active| :: LayerOk(active[l], n, k)
    ensures TotalActive(active) == |active| * k
  {
    if active != [] {
      TotalIsProduct(active[1..], n, k);
      assert |active| * k == |active[1..]| * k + k;
    }
  }

  lemma {:induction false} DistanceIsEven(a: seq<u64>, b: seq<u64>, n: nat, k: nat)
    requires |a| == |b|
    requires forall l | 0 <= l < |a| :: LayerOk(a[l], n, k) && LayerOk(b[l], n, k)
    ensures Distance(a, b) % 2 == 0 && Distance(a, b) <= 2 * k * |a|
  {
    if a != [] {
      DistanceIsEven(a[1..], b[1..], n, k);
      LayerDistance(a[0], b[0], n, k);
      TwiceNext(k, |a[1..]|);
    }
  }

  lemma TwiceNext(k: nat, len: nat)
    ensures 2 * k * (len + 1) == 2 * k * len + 2 * k
  {}

  lemma LayerDistance(x: u64, y: u64, n: nat, k: nat)
    requires LayerOk(x, n, k) && LayerOk(y, n, k)
    ensures CountOnes(Xor(x, y)) % 2 == 0 && CountOnes(Xor(x, y)) <= 2 * k
  {
    XorCounts(x, y, WIDTH);
  }

  /** Masks with the same shape and k differ in an even number of bits, at most 2k a layer. */
  lemma HammingIsEven(a: RoutingMask, b: RoutingMask)
    requires MaskOk(a) && MaskOk(b) && a.nLayers == b.nLayers && a.nHeads == b.nHeads && a.kPerLayer == b.kPerLayer
    ensures Hamming(a, b).Some? && Hamming(a, b).value % 2 == 0 && Hamming(a, b).value <= 2 * a.kPerLayer * a.nLayers
    ensures TotalActive(a.active) == a.nLayers * a.kPerLayer
  {
    DistanceIsEven(a.active, b.active, a.nHeads, a.kPerLayer);
    TotalIsProduct(a.active, a.nHeads, a.kPerLayer);
  }
}
