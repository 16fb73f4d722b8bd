/** Numbers that several modules use. */
module Arith {
  type byte = x: int | 0 <= x < 256

  function Min(a: int, b: int): int {
    if a < b then a else b
  }

  function Max(a: int, b: int): int {
    if a > b then a else b
  }

  /** k times x, by repeated addition. */
  function Multiple(k: nat, x: nat): nat {
    if k == 0 then 0 else Multiple(k - 1, x) + x
  }

  lemma {:induction false} MultipleIs(k: nat, x: nat)
    ensures Multiple(k, x) == k * x
  {
    if k > 0 {
      MultipleIs(k - 1, x);
      assert k * x == (k - 1) * x + x;
    }
  }

  lemma MultipleStep(k: nat, x: nat)
    ensures Multiple(0, x) == 0 && Multiple(1, x) == x
    ensures Multiple(k + 1, x) == Multiple(k, x) + x
    ensures k > 0 ==> Multiple(k, x) == Multiple(k - 1, x) + x
  {
  }

  lemma {:induction false} MultipleAdd(a: nat, b: nat, x: nat)
    ensures Multiple(a + b, x) == Multiple(a, x) + Multiple(b, x)
  {
    if a > 0 {
      MultipleAdd(a - 1, b, x);
    }
  }

  lemma {:induction false} MultipleGrows(k: nat, x: nat, y: nat)
    requires x <= y
    ensures Multiple(k, x) <= Multiple(k, y)
    ensures k > 0 ==> (Multiple(k, x) == Multiple(k, y) <==> x == y)
  {
    if k > 0 {
      MultipleGrows(k - 1, x, y);
    }
  }

  lemma {:induction false} NextMultiple(i: nat, j: nat, x: nat)
    requires i < j
    ensures Multiple(i, x) + x <= Multiple(j, x)
  {
    if i < j - 1 {
      NextMultiple(i, j - 1, x);
    }
  }
}
