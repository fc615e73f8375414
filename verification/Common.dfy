/** Vocabulary shared by the other modules: bytes, optional results, and a few facts about sequences. */
module Common {

  datatype Option<+T> = None | Some(value: T)

  datatype Result<+T, +E> = Ok(value: T) | Err(error: E)

  /** One byte of text. */
  type byte = x: int | 0 <= x < 256

  type bytes = seq<byte>

  const SPACE: byte := 0x20
  const CR: byte := 0x0D
  const LF: byte := 0x0A

  function Min(a: int, b: int): int { if a < b then a else b }

  function Max(a: int, b: int): int { if a > b then a else b }

  /** The concatenation of a list of strings. */
  function Flatten<T>(parts: seq<seq<T>>): seq<T> {
    if parts == [] then [] else parts[0] + Flatten(parts[1..])
  }

  lemma {:induction false} FlattenConcat<T>(a: seq<seq<T>>, b: seq<seq<T>>)
    ensures Flatten(a + b) == Flatten(a) + Flatten(b)
  {
    if a == [] {
      assert a + b == b;
    } else {
      assert (a + b)[0] == a[0] && (a + b)[1..] == a[1..] + b;
      FlattenConcat(a[1..], b);
    }
  }

  lemma FlattenThree<T>(a: seq<seq<T>>, b: seq<seq<T>>, c: seq<seq<T>>)
    ensures Flatten(a + b + c) == Flatten(a) + Flatten(b) + Flatten(c)
  {
    FlattenConcat(a + b, c);
    FlattenConcat(a, b);
  }

  lemma FlattenOne<T>(x: seq<T>)
    ensures Flatten([x]) == x
  {
    var one := [x];
    assert one[1..] == [];
  }

  lemma FlattenPair<T>(x: seq<T>, y: seq<T>)
    ensures Flatten([x, y]) == x + y
  {
    var two := [x, y];
    assert two[1..] == [y];
    FlattenOne(y);
  }

  lemma FlattenSnoc<T>(a: seq<seq<T>>, x: seq<T>)
    ensures Flatten(a + [x]) == Flatten(a) + x
  {
    FlattenConcat(a, [x]);
    FlattenOne(x);
  }

  lemma Regroup<T>(a: seq<T>, x: seq<T>, b: seq<T>, whole: seq<T>)
    requires a + (x + b) == whole
    ensures (a + x) + b == whole
  {}

  lemma Assoc<T>(a: seq<T>, b: seq<T>, c: seq<T>)
    ensures a + b + c == a + (b + c)
  {}

  lemma TakeTail<T>(s: seq<T>, i: nat)
    requires 0 < i < |s|
    ensures s[..i + 1][1..] == s[1..][..i] && s[..i][1..] == s[1..][..i - 1]
  {}

  lemma MulAtLeast(d: int, cap: int)
    requires cap > 0
    ensures d >= 1 ==> d * cap >= cap
    ensures d <= -1 ==> d * cap <= -cap
  {
    if d >= 1 {
      assert d * cap == (d - 1) * cap + cap;
    } else if d <= -1 {
      assert d * cap == (d + 1) * cap - cap;
    }
  }
}
