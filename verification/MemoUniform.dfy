/**
 * The choice of memory heads is fair (tools/sp_daemon/src/memo_routing.rs): under the shuffle every set
 * of k heads is the result of equally many draw vectors.
 */
module MemoUniform {
  import opened MemoRouting

  // ---- sets and listings ----

  function Elems(q: seq<nat>): set<nat> { set x | x in q }

  lemma IotaElems(n: nat)
    ensures forall x: nat :: x in Elems(Iota(n)) <==> x < n
  {
    forall x: nat ensures x in Elems(Iota(n)) <==> x < n {
      if x < n { assert Iota(n)[x] == x; }
    }
  }

  function Range(n: nat): (r: set<nat>)
    ensures forall x: nat :: x in r <==> x < n
  {
    IotaElems(n);
    Elems(Iota(n))
  }

  lemma ElemsSnoc(q: seq<nat>, x: nat)
    ensures Elems(q + [x]) == Elems(q) + {x}
  {}

  lemma {:induction false} DistinctElems(q: seq<nat>)
    requires Distinct(q)
    ensures |Elems(q)| == |q| && multiset(q) == multiset(Elems(q))
    decreases |q|
  {
    if q != [] {
      var m := |q| - 1;
      DistinctElems(q[..m]);
      assert q == q[..m] + [q[m]];
      ElemsSnoc(q[..m], q[m]);
      assert q[m] !in Elems(q[..m]);
    }
  }

  lemma RangeSize(n: nat)
    ensures |Range(n)| == n
  {
    IotaDistinct(n);
    DistinctElems(Iota(n));
  }

  lemma SubsetSame(s: set<nat>, t: set<nat>)
    requires s <= t && |s| == |t|
    ensures s == t
  {
    assert t == s + (t - s);
    assert |t| == |s| + |t - s|;
  }

  /** An arrangement of the heads 0 to n - 1. */
  predicate IsArrangement(q: seq<nat>, n: nat) { |q| == n && Distinct(q) && forall x | 0 <= x < n :: q[x] < n }

  lemma ArrangementElems(q: seq<nat>, n: nat)
    requires IsArrangement(q, n)
    ensures Elems(q) == Range(n) && multiset(q) == multiset(Iota(n))
  {
    DistinctElems(q);
    RangeSize(n);
    SubsetSame(Elems(q), Range(n));
    IotaDistinct(n);
    DistinctElems(Iota(n));
    SubsetSame(Elems(Iota(n)), Range(n));
  }

  lemma {:induction false} Listing(s: set<nat>) returns (l: seq<nat>)
    ensures |l| == |s| && Distinct(l) && Elems(l) == s
    decreases |s|
  {
    if s == {} {
      l := [];
    } else {
      var x: nat :| x in s;
      var rest := Listing(s - {x});
      l := rest + [x];
      ElemsSnoc(rest, x);
    }
  }

  /** An arrangement that begins with the heads of s. */
  lemma ListingFirst(s: set<nat>, n: nat) returns (a: seq<nat>)
    requires s <= Range(n)
    ensures IsArrangement(a, n) && |s| <= n && Elems(a[..|s|]) == s
  {
    var l := Listing(s);
    var r := Listing(Range(n) - s);
    a := l + r;
    RangeSize(n);
    assert |Range(n)| == |s| + |Range(n) - s| by { assert Range(n) == s + (Range(n) - s); }
    assert a[..|s|] == l;
    forall x | 0 <= x < |a| ensures a[x] < n {
      assert if x < |l| then a[x] in Elems(l) else a[x] in Elems(r);
    }
    forall x, y | 0 <= x < y < |a| ensures a[x] != a[y] {
      if x < |l| <= y { assert a[x] in Elems(l) && a[y] in Elems(r); }
    }
  }

  // ---- relabelling ----

  function Find(a: seq<nat>, v: nat): (i: nat)
    requires v in a
    ensures i < |a| && a[i] == v
  {
    if a[0] == v then 0 else 1 + Find(a[1..], v)
  }

  /** Every head of q renamed from a to b: what stands i-th in a becomes what stands i-th in b. */
  function Renamed(q: seq<nat>, a: seq<nat>, b: seq<nat>): (r: seq<nat>)
    requires |a| == |b| && forall x | 0 <= x < |q| :: q[x] in a
    ensures |r| == |q| && forall x | 0 <= x < |q| :: r[x] == b[Find(a, q[x])]
  {
    seq(|q|, x requires 0 <= x < |q| => b[Find(a, q[x])])
  }

  lemma AllFound(q: seq<nat>, a: seq<nat>, n: nat)
    requires IsArrangement(q, n) && IsArrangement(a, n)
    ensures forall x | 0 <= x < n :: q[x] in a
  {
    ArrangementElems(a, n);
    forall x | 0 <= x < n ensures q[x] in a { assert q[x] in Range(n); assert q[x] in Elems(a); }
  }

  lemma RenamedArranges(q: seq<nat>, a: seq<nat>, b: seq<nat>, n: nat)
    requires IsArrangement(q, n) && IsArrangement(a, n) && IsArrangement(b, n)
    ensures (forall x | 0 <= x < n :: q[x] in a) && IsArrangement(Renamed(q, a, b), n)
  {
    AllFound(q, a, n);
    var r := Renamed(q, a, b);
    forall x, y | 0 <= x < y < n ensures r[x] != r[y] {
      assert a[Find(a, q[x])] != a[Find(a, q[y])];
      assert Find(a, q[x]) != Find(a, q[y]);
    }
  }

  /** Renaming back gives the arrangement back, so different ones stay different. */
  lemma RenamedBack(q: seq<nat>, a: seq<nat>, b: seq<nat>, n: nat)
    requires IsArrangement(q, n) && IsArrangement(a, n) && IsArrangement(b, n)
    ensures (forall x | 0 <= x < n :: q[x] in a) && (forall x | 0 <= x < n :: Renamed(q, a, b)[x] in b)
    ensures Renamed(Renamed(q, a, b), b, a) == q
  {
    RenamedArranges(q, a, b, n);
    var r := Renamed(q, a, b);
    AllFound(r, b, n);
    forall x | 0 <= x < n ensures Find(b, r[x]) == Find(a, q[x]) {
      assert b[Find(b, r[x])] == b[Find(a, q[x])];
    }
  }

  /** If the first k heads of q are those of a, the first k of the renamed arrangement are those of b. */
  lemma RenamedFirst(q: seq<nat>, a: seq<nat>, b: seq<nat>, n: nat, k: nat)
    requires IsArrangement(q, n) && IsArrangement(a, n) && IsArrangement(b, n) && k <= n
    requires Elems(q[..k]) == Elems(a[..k])
    ensures (forall x | 0 <= x < n :: q[x] in a) && Elems(Renamed(q, a, b)[..k]) == Elems(b[..k])
  {
    RenamedArranges(q, a, b, n);
    var r := Renamed(q, a, b);
    forall x | 0 <= x < k ensures r[x] in Elems(b[..k]) {
      assert q[..k][x] in Elems(a[..k]);
      var i: nat :| i < k && a[..k][i] == q[x];
      assert Find(a, q[x]) == i;
      assert b[..k][i] == r[x];
    }
    FirstDistinct(r, k);
    FirstDistinct(b, k);
    assert Elems(r[..k]) <= Elems(b[..k]);
    SubsetSame(Elems(r[..k]), Elems(b[..k]));
  }

  lemma FirstDistinct(q: seq<nat>, k: nat)
    requires Distinct(q) && k <= |q|
    ensures |Elems(q[..k])| == k
  {
    DistinctElems(q[..k]);
  }

  // ---- draw vectors ----

  /** All draw vectors for positions m down to 1. */
  ghost function AllDraws(m: nat): (ds: set<seq<nat>>)
    ensures forall js: seq<nat> :: js in ds <==> |js| == m && ValidDraws(js)
  {
    if m == 0 then NoDraws(); {[]} else
      DrawsSplit(m, AllDraws(m - 1));
      set j, rest | j in Range(m + 1) && rest in AllDraws(m - 1) :: [j] + rest
  }

  lemma NoDraws()
    ensures forall js: seq<nat> :: js in {[]} <==> |js| == 0 && ValidDraws(js)
  {}

  lemma DrawsSplit(m: nat, rest: set<seq<nat>>)
    requires m > 0 && forall js: seq<nat> :: js in rest <==> |js| == m - 1 && ValidDraws(js)
    ensures forall js: seq<nat> :: js in (set j, r | j in Range(m + 1) && r in rest :: [j] + r)
              <==> |js| == m && ValidDraws(js)
  {
    var all := set j, r | j in Range(m + 1) && r in rest :: [j] + r;
    forall js: seq<nat> ensures js in all <==> |js| == m && ValidDraws(js) {
      if js in all {
        var j: nat, r: seq<nat> :| j in Range(m + 1) && r in rest && js == [j] + r;
        forall t | 0 <= t < m ensures js[t] <= m - t { if t > 0 { assert js[t] == r[t - 1]; } }
      }
      if |js| == m && ValidDraws(js) {
        forall t | 0 <= t < m - 1 ensures js[1..][t] <= m - 1 - t { assert js[1..][t] == js[t + 1]; }
        assert js == [js[0]] + js[1..] && js[0] in Range(m + 1) && js[1..] in rest;
      }
    }
  }

  /** The heads that a draw vector makes active. */
  ghost function Active(n: nat, k: nat, js: seq<nat>): set<nat>
    requires k <= n && |js| == n - 1 && ValidDraws(js)
  {
    Elems(Shuffled(Iota(n), js)[..k])
  }

  /** These are the bits that one layer's mask has set. */
  lemma MaskIsActive(rng: Stream, at: nat, n: nat, k: nat, h: nat)
    requires 0 < n <= WIDTH && k <= n && h < WIDTH
    ensures HeadsOk(Arrangement(rng, at, n)[..k], WIDTH)
    ensures MaskOf(Arrangement(rng, at, n)[..k])[h] <==> h in Active(n, k, Draws(rng, at, n - 1))
  {
    ArrangementOk(rng, at, n, k);
    MaskHas(Arrangement(rng, at, n)[..k], h);
  }

  /** The draw vectors that make exactly the heads of s active. */
  ghost function Hits(n: nat, k: nat, s: set<nat>): set<seq<nat>>
    requires 0 < n && k <= n
  {
    set js | js in AllDraws(n - 1) && Active(n, k, js) == s
  }

  lemma ShuffledArranges(n: nat, js: seq<nat>)
    requires 0 < n && |js| == n - 1 && ValidDraws(js)
    ensures IsArrangement(Shuffled(Iota(n), js), n)
  {
    var q := Shuffled(Iota(n), js);
    IotaDistinct(n);
    ShuffledDistinct(Iota(n), js);
    ShuffledKeeps(Iota(n), js);
    forall x | 0 <= x < n ensures q[x] < n {
      assert q[x] in multiset(q);
      assert q[x] in Iota(n);
    }
  }

  /** The arrangement of ks is that of js renamed. */
  ghost predicate MovesTo(n: nat, a: seq<nat>, b: seq<nat>, js: seq<nat>, ks: seq<nat>)
    requires 0 < n && IsArrangement(a, n) && IsArrangement(b, n) && |js| == n - 1 && ValidDraws(js)
  {
    var q := Shuffled(Iota(n), js);
    && |ks| == n - 1 && ValidDraws(ks)
    && (forall x | 0 <= x < n :: q[x] in a) && Shuffled(Iota(n), ks) == Renamed(q, a, b)
  }

  lemma SomeMoved(n: nat, a: seq<nat>, b: seq<nat>, js: seq<nat>)
    requires 0 < n && IsArrangement(a, n) && IsArrangement(b, n) && |js| == n - 1 && ValidDraws(js)
    ensures exists ks :: MovesTo(n, a, b, js, ks)
  {
    var q := Shuffled(Iota(n), js);
    ShuffledArranges(n, js);
    RenamedArranges(q, a, b, n);
    ArrangementElems(Renamed(q, a, b), n);
    var ks := DrawsArePermutations(n, Renamed(q, a, b));
    assert MovesTo(n, a, b, js, ks);
  }

  lemma MovesApart(n: nat, a: seq<nat>, b: seq<nat>, js: seq<nat>, js': seq<nat>, ks: seq<nat>)
    requires 0 < n && IsArrangement(a, n) && IsArrangement(b, n)
    requires |js| == |js'| == n - 1 && ValidDraws(js) && ValidDraws(js')
    requires MovesTo(n, a, b, js, ks) && MovesTo(n, a, b, js', ks)
    ensures js == js'
  {
    ShuffledArranges(n, js);
    ShuffledArranges(n, js');
    RenamedBack(Shuffled(Iota(n), js), a, b, n);
    RenamedBack(Shuffled(Iota(n), js'), a, b, n);
    IotaDistinct(n);
    ShuffleInjective(Iota(n), js, js');
  }

  lemma MovedActive(n: nat, k: nat, a: seq<nat>, b: seq<nat>, js: seq<nat>, ks: seq<nat>)
    requires 0 < n && k <= n && IsArrangement(a, n) && IsArrangement(b, n) && |js| == n - 1 && ValidDraws(js)
    requires MovesTo(n, a, b, js, ks) && Active(n, k, js) == Elems(a[..k])
    ensures Active(n, k, ks) == Elems(b[..k])
  {
    ShuffledArranges(n, js);
    RenamedFirst(Shuffled(Iota(n), js), a, b, n, k);
  }

  ghost function Moved(n: nat, a: seq<nat>, b: seq<nat>, js: seq<nat>): (ks: seq<nat>)
    requires 0 < n && IsArrangement(a, n) && IsArrangement(b, n) && |js| == n - 1 && ValidDraws(js)
    ensures MovesTo(n, a, b, js, ks)
  {
    SomeMoved(n, a, b, js);
    var ks :| MovesTo(n, a, b, js, ks);
    ks
  }

  predicate Into<T>(f: map<T, T>, to: set<T>) { forall x | x in f :: f[x] in to }

  predicate Injective<T>(f: map<T, T>) { forall x, y | x in f && y in f && f[x] == f[y] :: x == y }

  /** A set that a one-to-one map takes into another is not larger. */
  lemma {:induction false} OneToOne<T>(f: map<T, T>, to: set<T>)
    requires Into(f, to) && Injective(f)
    ensures |f.Keys| <= |to|
    decreases |f.Keys|
  {
    if f.Keys != {} {
      var x: T :| x in f.Keys;
      var g := f - {x};
      assert g.Keys == f.Keys - {x};
      OneToOne(g, to - {f[x]});
    }
  }

  lemma MovedHits(n: nat, k: nat, a: seq<nat>, b: seq<nat>, js: seq<nat>)
    requires 0 < n && k <= n && IsArrangement(a, n) && IsArrangement(b, n) && js in Hits(n, k, Elems(a[..k]))
    ensures Moved(n, a, b, js) in Hits(n, k, Elems(b[..k]))
  {
    MovedActive(n, k, a, b, js, Moved(n, a, b, js));
  }

  lemma MovedOnce(n: nat, a: seq<nat>, b: seq<nat>, js: seq<nat>, js': seq<nat>)
    requires 0 < n && IsArrangement(a, n) && IsArrangement(b, n)
    requires |js| == |js'| == n - 1 && ValidDraws(js) && ValidDraws(js')
    ensures Moved(n, a, b, js) == Moved(n, a, b, js') ==> js == js'
  {
    if Moved(n, a, b, js) == Moved(n, a, b, js') { MovesApart(n, a, b, js, js', Moved(n, a, b, js)); }
  }

  predicate AreDraws(n: nat, ds: set<seq<nat>>) { forall js | js in ds :: |js| + 1 == n && ValidDraws(js) }

  ghost function MoveAll(n: nat, a: seq<nat>, b: seq<nat>, ds: set<seq<nat>>): (f: map<seq<nat>, seq<nat>>)
    requires 0 < n && IsArrangement(a, n) && IsArrangement(b, n) && AreDraws(n, ds)
    ensures f.Keys == ds && forall js | js in ds :: f[js] == Moved(n, a, b, js)
  {
    map js | js in ds :: Moved(n, a, b, js)
  }

  lemma MoveAllInjective(n: nat, a: seq<nat>, b: seq<nat>, ds: set<seq<nat>>)
    requires 0 < n && IsArrangement(a, n) && IsArrangement(b, n) && AreDraws(n, ds)
    ensures Injective(MoveAll(n, a, b, ds))
  {
    var f := MoveAll(n, a, b, ds);
    forall js, js' | js in f && js' in f && f[js] == f[js'] ensures js == js' { MovedOnce(n, a, b, js, js'); }
  }

  lemma HitsAtMost(n: nat, k: nat, a: seq<nat>, b: seq<nat>)
    requires 0 < n && k <= n && IsArrangement(a, n) && IsArrangement(b, n)
    ensures |Hits(n, k, Elems(a[..k]))| <= |Hits(n, k, Elems(b[..k]))|
  {
    var from, to := Hits(n, k, Elems(a[..k])), Hits(n, k, Elems(b[..k]));
    var f := MoveAll(n, a, b, from);
    forall js | js in from ensures f[js] in to { MovedHits(n, k, a, b, js); }
    MoveAllInjective(n, a, b, from);
    OneToOne(f, to);
  }

  /** Every set of k heads is made active by equally many draw vectors. */
  lemma SubsetsAreUniform(n: nat, k: nat, s: set<nat>, t: set<nat>)
    requires 0 < n && k <= n && s <= Range(n) && t <= Range(n) && |s| == |t| == k
    ensures |Hits(n, k, s)| == |Hits(n, k, t)|
  {
    var a := ListingFirst(s, n);
    var b := ListingFirst(t, n);
    HitsAtMost(n, k, a, b);
    HitsAtMost(n, k, b, a);
  }
}
