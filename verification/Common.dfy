/** Small notions that several parts of the model share. */
module Common {

  datatype Option<+T> = None | Some(value: T)

  type byte = x: int | 0 <= x < 256

  function Least(a: nat, b: nat): nat { if a < b then a else b }

  /** The sequence without the element at place `p`. */
  function Without<T>(s: seq<T>, p: nat): (r: seq<T>)
    requires p < |s|
    ensures |r| == |s| - 1
    ensures forall i {:trigger r[i]} :: 0 <= i < p ==> r[i] == s[i]
    ensures forall i {:trigger r[i]} :: p <= i < |r| ==> r[i] == s[i + 1]
  {
    s[..p] + s[p + 1..]
  }

  predicate Distinct(s: seq<int>) {
    forall i, j :: 0 <= i < j < |s| ==> s[i] != s[j]
  }

  /** Multiples of `b` are apart by as much at least. */
  lemma Apart(i: int, j: int, b: nat)
    ensures i < j ==> i * b + b <= j * b
    ensures i >= j ==> i * b >= j * b
  {
    if i < j {
      ProductNotNegative(j - i - 1, b);
      assert (j - i - 1) * b == j * b - i * b - b;
    } else {
      ProductNotNegative(i - j, b);
      assert (i - j) * b == i * b - j * b;
    }
  }

  lemma ProductNotNegative(x: nat, b: nat)
    ensures x * b >= 0
  { }
}
