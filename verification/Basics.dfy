/** Definitions shared by all components. */
module Basics {

  datatype Option<+T> = None | Some(value: T)

  /** C's unsigned integers: a value of these types has not wrapped. */
  type UInt16 = x: int | 0 <= x < 0x1_0000

  type UInt32 = x: int | 0 <= x < 0x1_0000_0000

  const TWO31: nat := 0x8000_0000

  const TWO32: nat := 0x1_0000_0000

  function Min(a: int, b: int): int {
    if a < b then a else b
  }

  lemma MulMono(a: int, b: int, c: nat)
    requires a <= b
    ensures a * c <= b * c
  {
  }

  lemma DivMod(n: nat, p: nat)
    requires p > 0
    ensures n == n / p * p + n % p && 0 <= n % p < p && 0 <= n / p
  {
  }

  /** The list without an element. */
  function Without(list: seq<nat>, x: nat): seq<nat> {
    if list == [] then []
    else if list[0] == x then Without(list[1..], x)
    else [list[0]] + Without(list[1..], x)
  }

  lemma {:induction false} WithoutMembers(list: seq<nat>, x: nat)
    ensures forall y :: y in Without(list, x) <==> y in list && y != x
    ensures |Without(list, x)| <= |list|
    ensures x !in list ==> Without(list, x) == list
  {
    if list != [] {
      WithoutMembers(list[1..], x);
      assert list == [list[0]] + list[1..];
    }
  }
}
