/** Bytes, and a little arithmetic. */
module Common {
  newtype byte = x: int | 0 <= x < 256

  type Bytes = seq<byte>

  function Min(a: nat, b: nat): nat { if a < b then a else b }

  lemma SubsetCount<T>(a: set<T>, b: set<T>)
    requires a <= b
    ensures |a| <= |b|
  {
    assert b == a + (b - a);
  }

  lemma {:induction false} AtLeastOne(d: int, u: int)
    requires d >= 1 && u > 0
    ensures d * u >= u
  {
    if d > 1 {
      AtLeastOne(d - 1, u);
      assert d * u == (d - 1) * u + u;
    }
  }

  lemma MultiplesApart(x: int, y: int, u: int)
    requires u > 0
    ensures x > y ==> x * u >= y * u + u
  {
    if x > y {
      AtLeastOne(x - y, u);
      assert (x - y) * u == x * u - y * u;
    }
  }
}
