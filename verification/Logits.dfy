/** Logits with the minus infinity that masking writes, suppression, and the two ways of naming a maximum. */
module Logits {
  datatype Logit = NegInf | Fin(value: real)

  predicate AtMost(a: Logit, b: Logit) { a.NegInf? || (b.Fin? && a.value <= b.value) }

  predicate IsMax(row: seq<Logit>, r: int) {
    0 <= r < |row| && forall i | 0 <= i < |row| :: AtMost(row[i], row[r])
  }

  predicate IsFirstMax(row: seq<Logit>, r: int) {
    IsMax(row, r) && forall i | 0 <= i < r :: !AtMost(row[r], row[i])
  }

  predicate IsLastMax(row: seq<Logit>, r: int) {
    IsMax(row, r) && forall i | r < i < |row| :: !AtMost(row[r], row[i])
  }

  /** The last maximum of a row is the first one exactly when the maximum occurs once. */
  lemma LastIsFirst(row: seq<Logit>, r: int)
    requires IsLastMax(row, r)
    ensures IsFirstMax(row, r) <==> forall i | 0 <= i < |row| && i != r :: row[i] != row[r]
  {
    forall i | 0 <= i < r && row[i] != row[r] ensures !AtMost(row[r], row[i]) {
      assert AtMost(row[i], row[r]);
    }
  }

  /** The shortest row on which the two differ. */
  lemma TieGoesLast(l: Logit)
    ensures IsLastMax([l, l], 1) && !IsFirstMax([l, l], 1) && IsFirstMax([l, l], 0)
  {
    assert AtMost([l, l][1], [l, l][0]);
  }

  /** Forces the logits of `ids` to minus infinity. */
  method Suppress(row: array<Logit>, ids: seq<int>)
    modifies row
    ensures forall i | 0 <= i < row.Length :: row[i] == if i in ids then NegInf else old(row[i])
  {
    for x := 0 to |ids|
      invariant forall i | 0 <= i < row.Length :: row[i] == if i in ids[..x] then NegInf else old(row[i])
    {
      if 0 <= ids[x] < row.Length { row[ids[x]] := NegInf; }
      assert ids[..x + 1] == ids[..x] + [ids[x]];
    }
  }
}
