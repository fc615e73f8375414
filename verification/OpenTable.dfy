/**
 * Open addressing with linear probing, as used by the vocabulary / merge-line table
 * (src/tokenizer/tokenizer.c) and by the id-pair table (src/tokenizer/gemma4_bpe.c).
 * Everything is proved for an arbitrary hash function.
 */
module OpenTable {
  import opened Common

  datatype Slot<+K, +V> = Empty | Used(key: K, val: V)

  /** The slot that probe number `d` of a key hashing to `h` looks at. */
  function At(cap: nat, h: nat, d: nat): (p: nat)
    requires cap > 0
    ensures p < cap
  {
    (h + d) % cap
  }

  /** The first `d` probes of key `k` hit slots taken by other keys. */
  ghost predicate Chain<K, V>(slots: seq<Slot<K, V>>, h: nat, d: nat, k: K)
    requires |slots| > 0
  {
    forall j: nat | j < d :: slots[At(|slots|, h, j)].Used? && slots[At(|slots|, h, j)].key != k
  }

  /** Linear probing from `h` reaches an entry (k, v) before any empty slot. */
  ghost predicate Stored<K, V>(slots: seq<Slot<K, V>>, h: nat, k: K, v: V)
    requires |slots| > 0
  {
    exists d: nat :: Chain(slots, h, d, k) && slots[At(|slots|, h, d)] == Used(k, v)
  }

  function UsedCount<K, V>(slots: seq<Slot<K, V>>): (n: nat)
    ensures n <= |slots|
  {
    if slots == [] then 0 else UsedCount(slots[1..]) + (if slots[0].Used? then 1 else 0)
  }

  /** The slots represent exactly the finite map `m`, and at least one slot is free. */
  ghost predicate Refines<K(!new), V>(slots: seq<Slot<K, V>>, hash: K -> nat, m: map<K, V>) {
    && |m| < |slots|
    && UsedCount(slots) == |m|
    && Sound(slots, m) && Complete(slots, hash, m)
  }

  ghost predicate Sound<K, V>(slots: seq<Slot<K, V>>, m: map<K, V>) {
    forall i | 0 <= i < |slots| && slots[i].Used? :: slots[i].key in m && m[slots[i].key] == slots[i].val
  }

  ghost predicate Complete<K(!new), V>(slots: seq<Slot<K, V>>, hash: K -> nat, m: map<K, V>)
    requires |slots| > 0
  {
    forall k | k in m :: Stored(slots, hash(k), k, m[k])
  }

  /** The slot after slot `i`, wrapping at the capacity: (i + 1) & mask for a power of two. */
  function Next(cap: nat, i: nat): (p: nat)
    requires i < cap
    ensures p < cap
  {
    (i + 1) % cap
  }

  lemma ModUnique(x: nat, cap: nat, q: nat, r: nat)
    requires r < cap && x == q * cap + r
    ensures x % cap == r
  {
    var q', r' := x / cap, x % cap;
    assert x == q' * cap + r';
    assert (q' - q) * cap == r - r';
    MulAtLeast(q' - q, cap);
  }

  lemma NextAt(cap: nat, h: nat, d: nat)
    requires cap > 0
    ensures Next(cap, At(cap, h, d)) == At(cap, h, d + 1)
  {
    var x := h + d;
    var q, r := x / cap, x % cap;
    assert x == q * cap + r;
    if r + 1 < cap {
      ModUnique(r + 1, cap, 0, r + 1);
      ModUnique(x + 1, cap, q, r + 1);
    } else {
      assert (q + 1) * cap == q * cap + cap;
      ModUnique(r + 1, cap, 1, 0);
      ModUnique(x + 1, cap, q + 1, 0);
    }
  }

  /** Probing visits every slot: slot `p` is reached after fewer than `cap` steps. */
  lemma ProbeReaches(cap: nat, h: nat, p: nat) returns (d: nat)
    requires p < cap
    ensures d < cap && At(cap, h, d) == p
  {
    var q, r := h / cap, h % cap;
    assert h == q * cap + r;
    if p >= r {
      d := p - r;
      ModUnique(h + d, cap, q, p);
    } else {
      d := p + cap - r;
      assert (q + 1) * cap == q * cap + cap;
      ModUnique(h + d, cap, q + 1, p);
    }
  }

  lemma {:induction false} FreeSlot<K, V>(slots: seq<Slot<K, V>>) returns (p: nat)
    requires UsedCount(slots) < |slots|
    ensures p < |slots| && slots[p].Empty?
  {
    if slots[0].Empty? {
      p := 0;
    } else {
      p := FreeSlot(slots[1..]);
      p := p + 1;
    }
  }

  lemma {:induction false} UsedCountFill<K, V>(slots: seq<Slot<K, V>>, p: nat, k: K, v: V)
    requires p < |slots| && slots[p].Empty?
    ensures UsedCount(slots[p := Used(k, v)]) == UsedCount(slots) + 1
  {
    if p == 0 {
      assert slots[p := Used(k, v)][1..] == slots[1..];
    } else {
      UsedCountFill(slots[1..], p - 1, k, v);
      assert slots[p := Used(k, v)][1..] == slots[1..][p - 1 := Used(k, v)];
    }
  }

  lemma {:induction false} UsedCountEmpty<K, V>(slots: seq<Slot<K, V>>)
    requires forall i | 0 <= i < |slots| :: slots[i].Empty?
    ensures UsedCount(slots) == 0
  {
    if slots != [] {
      UsedCountEmpty(slots[1..]);
    }
  }

  /** How far a probe for any key can go: to some free slot `stop` steps away. */
  lemma ProbeBound<K, V>(slots: seq<Slot<K, V>>, h: nat) returns (stop: nat)
    requires UsedCount(slots) < |slots|
    ensures stop < |slots| && slots[At(|slots|, h, stop)].Empty?
  {
    var p := FreeSlot(slots);
    stop := ProbeReaches(|slots|, h, p);
  }

  /** Reaching an empty slot proves the key absent. */
  lemma MissIsAbsent<K(!new), V>(slots: seq<Slot<K, V>>, hash: K -> nat, m: map<K, V>, k: K, d: nat)
    requires Refines(slots, hash, m)
    requires Chain(slots, hash(k), d, k) && slots[At(|slots|, hash(k), d)].Empty?
    ensures k !in m
  {
    var h := hash(k);
    forall d': nat, v: V
      ensures !(Chain(slots, h, d', k) && slots[At(|slots|, h, d')] == Used(k, v))
    {
      assert Chain(slots, h, d', k) ==> d' <= d;
    }
  }

  /** Filling an empty slot disturbs no stored entry. */
  lemma FillKeeps<K, V>(slots: seq<Slot<K, V>>, p: nat, k: K, v: V, h: nat, x: K, y: V)
    requires p < |slots| && slots[p].Empty? && Stored(slots, h, x, y) && x != k
    ensures Stored(slots[p := Used(k, v)], h, x, y)
  {
    var e: nat :| Chain(slots, h, e, x) && slots[At(|slots|, h, e)] == Used(x, y);
    var slots' := slots[p := Used(k, v)];
    assert Chain(slots', h, e, x);
    assert slots'[At(|slots'|, h, e)] == Used(x, y);
  }

  lemma FillStores<K, V>(slots: seq<Slot<K, V>>, k: K, v: V, h: nat, d: nat)
    requires |slots| > 0 && Chain(slots, h, d, k) && slots[At(|slots|, h, d)].Empty?
    ensures Stored(slots[At(|slots|, h, d) := Used(k, v)], h, k, v)
  {
    var slots' := slots[At(|slots|, h, d) := Used(k, v)];
    assert Chain(slots', h, d, k);
    assert slots'[At(|slots'|, h, d)] == Used(k, v);
  }

  lemma FillComplete<K(!new), V>(slots: seq<Slot<K, V>>, hash: K -> nat, m: map<K, V>, p: nat, k: K, v: V)
    requires p < |slots| && slots[p].Empty? && Complete(slots, hash, m)
    requires Stored(slots[p := Used(k, v)], hash(k), k, v)
    ensures Complete(slots[p := Used(k, v)], hash, m[k := v])
  {
    var m' := m[k := v];
    forall x | x in m' ensures Stored(slots[p := Used(k, v)], hash(x), x, m'[x]) {
      if x != k {
        FillKeeps(slots, p, k, v, hash(x), x, m[x]);
      }
    }
  }

  lemma FillSound<K, V>(slots: seq<Slot<K, V>>, m: map<K, V>, p: nat, k: K, v: V)
    requires p < |slots| && Sound(slots, m) && k !in m
    ensures Sound(slots[p := Used(k, v)], m[k := v])
  {}

  /** Filling the empty slot that ends the probe of a new key adds that key and nothing else. */
  lemma FillRefines<K(!new), V>(slots: seq<Slot<K, V>>, hash: K -> nat, m: map<K, V>, k: K, v: V, d: nat)
    requires Refines(slots, hash, m) && |m| + 1 < |slots| && k !in m
    requires Chain(slots, hash(k), d, k) && slots[At(|slots|, hash(k), d)].Empty?
    ensures Refines(slots[At(|slots|, hash(k), d) := Used(k, v)], hash, m[k := v])
  {
    var p := At(|slots|, hash(k), d);
    UsedCountFill(slots, p, k, v);
    OneMoreKey(m, k, v);
    FillSound(slots, m, p, k, v);
    FillStores(slots, k, v, hash(k), d);
    FillComplete(slots, hash, m, p, k, v);
  }

  lemma OneMoreKey<K, V>(m: map<K, V>, k: K, v: V)
    requires k !in m
    ensures |m[k := v]| == |m| + 1
  {
    assert m[k := v].Keys == m.Keys + {k};
  }

  /** The capacity the tables start from: a power of two at least 16 and at least 2 * want. */
  method TableCapacity(want: nat) returns (cap: nat)
    ensures 16 <= cap && want * 2 <= cap
    ensures exists k: nat :: cap == Shl1(k)
  {
    cap := 16;
    ghost var k: nat := 4;
    assert Shl1(4) == 16;
    while cap < want * 2
      invariant 16 <= cap == Shl1(k)
      decreases want * 2 - cap
    {
      cap := cap * 2;
      k := k + 1;
    }
  }

  function Shl1(k: nat): nat { if k == 0 then 1 else 2 * Shl1(k - 1) }

  /** sp_hmap: byte strings to numbers; the first writer of a key wins. */
  class StringMap {
    var e: array<Slot<bytes, int>>
    const hash: bytes -> nat
    ghost var m: map<bytes, int>

    ghost predicate Valid()
      reads this, e
    {
      e.Length > 0 && Refines(e[..], hash, m)
    }

    constructor (hash: bytes -> nat, want: nat)
      ensures Valid() && fresh(e) && this.hash == hash
      ensures m == map[] && e.Length >= 16 && e.Length >= 2 * want
    {
      var cap := TableCapacity(want);
      var slots := new Slot<bytes, int>[cap](_ => Empty);
      this.hash := hash;
      e := slots;
      m := map[];
      new;
      UsedCountEmpty(e[..]);
    }

    method Put(k: bytes, v: int)
      requires Valid() && |m| + 1 < e.Length
      modifies this`m, e
      ensures Valid() && e == old(e)
      ensures m == if k in old(m) then old(m) else old(m)[k := v]
    {
      ghost var slots := e[..];
      ghost var stop := ProbeBound(slots, hash(k));
      ghost var d: nat := 0;
      var i := At(e.Length, hash(k), 0);
      while e[i].Used?
        invariant d <= stop && i == At(e.Length, hash(k), d)
        invariant e[..] == slots && Valid() && m == old(m)
        invariant Chain(slots, hash(k), d, k)
        decreases stop - d
      {
        if e[i].key == k { return; }
        NextAt(e.Length, hash(k), d);
        i, d := Next(e.Length, i), d + 1;
      }
      Fill(i, k, v, d);
    }

    /** Enter a key into the empty slot that ends its probe. */
    method Fill(i: nat, k: bytes, v: int, ghost d: nat)
      requires Valid() && |m| + 1 < e.Length && i == At(e.Length, hash(k), d)
      requires Chain(e[..], hash(k), d, k) && e[i].Empty?
      modifies this`m, e
      ensures Valid() && e == old(e) && k !in old(m) && m == old(m)[k := v]
    {
      ghost var slots := e[..];
      MissIsAbsent(slots, hash, m, k, d);
      FillRefines(slots, hash, m, k, v, d);
      e[i] := Used(k, v);
      m := m[k := v];
      assert e[..] == slots[i := Used(k, v)];
    }

    method Get(k: bytes, dflt: int) returns (v: int)
      requires Valid()
      ensures v == if k in m then m[k] else dflt
    {
      ghost var stop := ProbeBound(e[..], hash(k));
      ghost var d: nat := 0;
      var i := At(e.Length, hash(k), 0);
      while e[i].Used?
        invariant d <= stop && i == At(e.Length, hash(k), d)
        invariant Chain(e[..], hash(k), d, k)
        decreases stop - d
      {
        if e[i].key == k { return e[i].val; }
        NextAt(e.Length, hash(k), d);
        i, d := Next(e.Length, i), d + 1;
      }
      MissIsAbsent(e[..], hash, m, k, d);
      return dflt;
    }
  }

  const U32: nat := 0x1_0000_0000
  const I32: nat := 0x8000_0000
  /** SP_G4_EMPTY_KEY: the all-ones 64-bit word marks a free slot. */
  const EMPTY_KEY: int := 0xFFFF_FFFF_FFFF_FFFF

  /** The 64-bit key of an id pair: both ids cast to unsigned 32 bits (a negative id wraps). */
  function PairKey(l: int, r: int): (k: nat)
    ensures k < 0x1_0000_0000_0000_0000
  {
    (l % U32) * U32 + r % U32
  }

  /** For ids that exist, the key determines the pair and is never the free-slot marker. */
  lemma PairKeyInjective(l: int, r: int, l': int, r': int)
    requires 0 <= l < I32 && 0 <= r < I32 && 0 <= l' < I32 && 0 <= r' < I32
    ensures PairKey(l, r) != EMPTY_KEY
    ensures PairKey(l, r) == PairKey(l', r') <==> l == l' && r == r'
  {}

  /** What parallel key and rank arrays stand for. */
  function PairSlots(keys: seq<int>, ranks: seq<int>): (s: seq<Slot<int, int>>)
    requires |keys| == |ranks|
    ensures |s| == |keys|
    ensures forall i | 0 <= i < |s| :: s[i] == if keys[i] == EMPTY_KEY then Empty else Used(keys[i], ranks[i])
  {
    seq(|keys|, i requires 0 <= i < |keys| => if keys[i] == EMPTY_KEY then Empty else Used(keys[i], ranks[i]))
  }

  lemma PairSlotsUpdate(keys: seq<int>, ranks: seq<int>, i: nat, key: int, rank: int)
    requires |keys| == |ranks| && i < |keys| && key != EMPTY_KEY
    ensures PairSlots(keys[i := key], ranks[i := rank]) == PairSlots(keys, ranks)[i := Used(key, rank)]
  {}

  /** The id-pair table: parallel key and rank arrays, a free slot carrying EMPTY_KEY. */
  class PairTable {
    var keys: array<int>
    var ranks: array<int>
    const hash: int -> nat
    ghost var m: map<int, int>

    ghost function View(): seq<Slot<int, int>>
      requires keys.Length == ranks.Length
      reads this, keys, ranks
    {
      PairSlots(keys[..], ranks[..])
    }

    ghost predicate Valid()
      reads this, keys, ranks
    {
      && keys != ranks && keys.Length == ranks.Length > 0
      && Refines(View(), hash, m)
      && EMPTY_KEY !in m
    }

    constructor (hash: int -> nat, want: nat)
      ensures Valid() && fresh(keys) && fresh(ranks) && this.hash == hash
      ensures m == map[] && keys.Length >= 16 && keys.Length >= 2 * want
    {
      var cap := TableCapacity(want);
      var ks := new int[cap](_ => EMPTY_KEY);
      var rs := new int[cap];
      this.hash := hash;
      keys, ranks := ks, rs;
      m := map[];
      new;
      UsedCountEmpty(View());
    }

    method Store(i: nat, key: int, rank: int)
      requires keys != ranks && i < keys.Length == ranks.Length
      modifies keys, ranks
      ensures keys[..] == old(keys[..])[i := key] && ranks[..] == old(ranks[..])[i := rank]
    {
      keys[i], ranks[i] := key, rank;
    }

    method Put(key: int, rank: int)
      requires Valid() && key != EMPTY_KEY && |m| + 1 < keys.Length
      modifies this`m, keys, ranks
      ensures Valid() && keys == old(keys) && ranks == old(ranks)
      ensures m == if key in old(m) then old(m) else old(m)[key := rank]
    {
      ghost var slots := View();
      ghost var stop := ProbeBound(slots, hash(key));
      ghost var d: nat := 0;
      var i := At(keys.Length, hash(key), 0);
      while keys[i] != EMPTY_KEY
        invariant d <= stop && i == At(keys.Length, hash(key), d)
        invariant View() == slots && Valid() && m == old(m)
        invariant Chain(slots, hash(key), d, key)
        decreases stop - d
      {
        if keys[i] == key { return; }
        NextAt(keys.Length, hash(key), d);
        i, d := Next(keys.Length, i), d + 1;
      }
      Fill(i, key, rank, d);
    }

    /** Enter a key into the free slot that ends its probe. */
    method Fill(i: nat, key: int, rank: int, ghost d: nat)
      requires Valid() && key != EMPTY_KEY && |m| + 1 < keys.Length && i == At(keys.Length, hash(key), d)
      requires Chain(View(), hash(key), d, key) && keys[i] == EMPTY_KEY
      modifies this`m, keys, ranks
      ensures Valid() && keys == old(keys) && ranks == old(ranks) && key !in old(m) && m == old(m)[key := rank]
    {
      MissIsAbsent(View(), hash, m, key, d);
      FillRefines(View(), hash, m, key, rank, d);
      PairSlotsUpdate(keys[..], ranks[..], i, key, rank);
      Store(i, key, rank);
      m := m[key := rank];
    }

    /** g4_pair_rank: the rank stored for a key, or -1. */
    method Rank(key: int) returns (rank: int)
      requires Valid() && key != EMPTY_KEY
      ensures rank == if key in m then m[key] else -1
    {
      ghost var stop := ProbeBound(View(), hash(key));
      ghost var d: nat := 0;
      var i := At(keys.Length, hash(key), 0);
      while keys[i] != EMPTY_KEY
        invariant d <= stop && i == At(keys.Length, hash(key), d)
        invariant Chain(View(), hash(key), d, key)
        decreases stop - d
      {
        if keys[i] == key { return ranks[i]; }
        NextAt(keys.Length, hash(key), d);
        i, d := Next(keys.Length, i), d + 1;
      }
      MissIsAbsent(View(), hash, m, key, d);
      return -1;
    }
  }
}
