/**
 * The array binary heap both merge loops keep their candidate pairs in
 * (g4_heap_* in src/tokenizer/gemma4_bpe.c, spm_push / spm_pop in src/tokenizer/tokenizer.c):
 * the element that comes `before` all others is at the root.
 */
module BinaryHeap {

  /** `before` is a strict order whose incomparable elements are interchangeable. */
  ghost predicate StrictWeakOrder<E(!new)>(before: (E, E) -> bool) {
    && (forall a, b :: before(a, b) ==> !before(b, a))
    && (forall a, b, c :: !before(b, a) && !before(c, b) ==> !before(c, a))
  }

  function Parent(i: nat): nat
    requires i > 0
  {
    (i - 1) / 2
  }

  ghost predicate IsHeap<E>(s: seq<E>, before: (E, E) -> bool) {
    forall j | 0 < j < |s| :: !before(s[j], s[Parent(j)])
  }

  lemma {:induction false} RootIsFirst<E(!new)>(s: seq<E>, before: (E, E) -> bool, j: nat)
    requires StrictWeakOrder(before) && IsHeap(s, before) && j < |s|
    ensures !before(s[j], s[0])
  {
    if j > 0 {
      RootIsFirst(s, before, Parent(j));
    }
  }

  function Swapped<E>(s: seq<E>, i: nat, j: nat): (t: seq<E>)
    requires i < |s| && j < |s|
    ensures |t| == |s|
  {
    s[i := s[j]][j := s[i]]
  }

  /** A heap but for the link from `i` up to its parent. */
  ghost predicate RisingAt<E>(s: seq<E>, i: nat, before: (E, E) -> bool) {
    && (forall j | 0 < j < |s| && j != i :: !before(s[j], s[Parent(j)]))
    && (forall j | 0 < i < j < |s| && Parent(j) == i :: !before(s[j], s[Parent(i)]))
  }

  /** A heap but for the links from `i` down to its children. */
  ghost predicate SinkingAt<E>(s: seq<E>, i: nat, before: (E, E) -> bool) {
    && (forall j | 0 < j < |s| && Parent(j) != i :: !before(s[j], s[Parent(j)]))
    && (forall j | 0 < i < j < |s| && Parent(j) == i :: !before(s[j], s[Parent(i)]))
  }

  lemma NotBefore<E(!new)>(before: (E, E) -> bool, a: E, b: E, c: E)
    requires StrictWeakOrder(before)
    ensures before(a, b) ==> !before(b, a)
    ensures !before(b, a) && !before(c, b) ==> !before(c, a)
  {}

  lemma RiseStep<E(!new)>(s: seq<E>, i: nat, before: (E, E) -> bool)
    requires StrictWeakOrder(before) && RisingAt(s, i, before)
    requires 0 < i < |s| && before(s[i], s[Parent(i)])
    ensures RisingAt(Swapped(s, i, Parent(i)), Parent(i), before)
  {
    var p := Parent(i);
    var t := Swapped(s, i, p);
    forall j | 0 < j < |t| && j != p ensures !before(t[j], t[Parent(j)]) {
      NotBefore(before, s[i], s[p], s[j]);
    }
    forall j | 0 < p < j < |t| && Parent(j) == p ensures !before(t[j], t[Parent(p)]) {
      NotBefore(before, s[Parent(p)], s[p], s[j]);
    }
  }

  lemma SinkStep<E(!new)>(s: seq<E>, i: nat, m: nat, before: (E, E) -> bool)
    requires StrictWeakOrder(before) && SinkingAt(s, i, before)
    requires i < m < |s| && Parent(m) == i && before(s[m], s[i])
    requires forall j | 0 < j < |s| && Parent(j) == i :: !before(s[j], s[m])
    ensures SinkingAt(Swapped(s, i, m), m, before)
  {
    var t := Swapped(s, i, m);
    forall j | 0 < j < |t| && Parent(j) != m ensures !before(t[j], t[Parent(j)]) {
      if j == m {
        NotBefore(before, s[m], s[i], s[m]);
      }
    }
  }

  lemma LastForFirst<E>(first: E, mid: seq<E>, last: E)
    ensures multiset([last] + mid) == multiset([first] + mid + [last]) - multiset{first}
  {
    assert multiset([first] + mid + [last]) == multiset{first} + multiset(mid) + multiset{last};
    assert multiset([last] + mid) == multiset{last} + multiset(mid);
  }

  class Heap<E(!new, 0)> {
    var e: array<E>
    var n: nat
    const before: (E, E) -> bool

    ghost predicate Valid()
      reads this, e
    {
      n <= e.Length && StrictWeakOrder(before) && IsHeap(e[..n], before)
    }

    ghost function Contents(): multiset<E>
      requires n <= e.Length
      reads this, e
    {
      multiset(e[..n])
    }

    constructor (before: (E, E) -> bool, cap: nat)
      requires StrictWeakOrder(before)
      ensures Valid() && fresh(e) && n == 0 && e.Length == cap && this.before == before
      ensures Contents() == multiset{}
    {
      e := new E[cap];
      n := 0;
      this.before := before;
    }

    method Swap(i: nat, j: nat)
      requires i < n && j < n <= e.Length && i != j
      modifies e
      ensures e[..n] == Swapped(old(e[..n]), i, j)
      ensures Contents() == old(Contents())
    {
      ghost var s := e[..n];
      e[i], e[j] := e[j], e[i];
      assert e[..n] == Swapped(s, i, j);
    }

    /** Double a full buffer (64 slots at first), keeping the contents. */
    method Grow()
      requires Valid() && n == e.Length
      modifies this`e
      ensures Valid() && fresh(e) && n < e.Length && Contents() == old(Contents())
    {
      var bigger := new E[if e.Length > 0 then e.Length * 2 else 64];
      for i := 0 to n
        invariant n == old(n) && e == old(e)
        invariant bigger[..i] == e[..i]
      {
        bigger[i] := e[i];
      }
      assert bigger[..n] == e[..n];
      e := bigger;
    }

    method Push(x: E)
      requires Valid() && n < e.Length
      modifies this`n, e
      ensures Valid() && e == old(e) && n == old(n) + 1
      ensures Contents() == old(Contents()) + multiset{x}
    {
      ghost var s := e[..n];
      var i := n;
      e[i] := x;
      n := n + 1;
      assert e[..n] == s + [x];
      while i > 0
        invariant i < n == old(n) + 1 && n <= e.Length && e == old(e)
        invariant Contents() == multiset(s) + multiset{x}
        invariant RisingAt(e[..n], i, before)
      {
        var p := Parent(i);
        if !before(e[i], e[p]) { break; }
        RiseStep(e[..n], i, before);
        Swap(i, p);
        i := p;
      }
    }

    method Pop() returns (top: E)
      requires Valid() && n > 0
      modifies this`n, e
      ensures Valid() && e == old(e) && n == old(n) - 1
      ensures top in old(Contents()) && Contents() == old(Contents()) - multiset{top}
      ensures forall x | x in old(Contents()) :: !before(x, top)
    {
      ghost var s := e[..n];
      top := e[0];
      forall x | x in s ensures !before(x, top) {
        var j :| 0 <= j < |s| && s[j] == x;
        RootIsFirst(s, before, j);
      }
      n := n - 1;
      e[0] := e[n];
      TakeLast(s, e[..n]);
      SiftDown();
    }

    lemma TakeLast(s: seq<E>, t: seq<E>)
      requires |s| > 0 && |t| == |s| - 1
      requires |t| > 0 ==> t == s[0 := s[|s| - 1]][..|s| - 1]
      ensures multiset(t) == multiset(s) - multiset{s[0]}
    {
      if |t| == 0 {
        assert s == [s[0]];
      } else {
        var first, last, mid := s[0], s[|s| - 1], s[1..|s| - 1];
        assert s == [first] + mid + [last] && t == [last] + mid;
        LastForFirst(first, mid, last);
      }
    }

    method SiftDown()
      requires n <= e.Length && StrictWeakOrder(before)
      requires SinkingAt(e[..n], 0, before)
      modifies e
      ensures Valid() && Contents() == old(Contents())
    {
      var i := 0;
      while true
        invariant (i == 0 || i < n) && n <= e.Length
        invariant Contents() == old(Contents())
        invariant SinkingAt(e[..n], i, before)
        decreases n - i
      {
        var l, r, m := 2 * i + 1, 2 * i + 2, i;
        if l < n && before(e[l], e[m]) { m := l; }
        if r < n && before(e[r], e[m]) { m := r; }
        ghost var s := e[..n];
        FirstChild(s, i, m, before);
        if m == i { break; }
        SinkStep(s, i, m, before);
        Swap(i, m);
        i := m;
      }
    }
  }

  /** The child picked by SiftDown comes before neither its sibling nor its parent's place-taker. */
  lemma FirstChild<E(!new)>(s: seq<E>, i: nat, m: nat, before: (E, E) -> bool)
    requires StrictWeakOrder(before) && (i < |s| || |s| == 0) && (m < |s| || m == i)
    requires var l, r := 2 * i + 1, 2 * i + 2;
             var m1 := if l < |s| && before(s[l], s[i]) then l else i;
             m == if r < |s| && before(s[r], s[m1]) then r else m1
    ensures m == i || (i < m && Parent(m) == i && before(s[m], s[i]))
    ensures forall j | 0 < j < |s| && Parent(j) == i :: !before(s[j], s[m])
  {
    if |s| > 0 {
      var l, r := 2 * i + 1, 2 * i + 2;
      forall j | 0 < j < |s| && Parent(j) == i ensures !before(s[j], s[m]) {
        assert j == l || j == r;
        NotBefore(before, s[m], s[i], s[j]);
        NotBefore(before, s[m], s[j], s[i]);
        NotBefore(before, s[j], s[j], s[j]);
        if l < |s| { NotBefore(before, s[m], s[l], s[i]); }
      }
      if m == r && l < |s| && before(s[l], s[i]) {
        NotBefore(before, s[m], s[l], s[i]);
        NotBefore(before, s[i], s[m], s[l]);
        NotBefore(before, s[l], s[i], s[m]);
      }
    }
  }
}
