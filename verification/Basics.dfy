/** Types that all parts of the model share. */
module Basics {
  type byte = x: int | 0 <= x < 256
  type Bytes = seq<byte>

  const NUL: byte := '\0' as int

  datatype Option<+T> = None | Some(value: T)

  lemma CutAt<T>(s: seq<T>, k: nat)
    requires k <= |s|
    ensures s[..k] + s[k..] == s
  {
  }

  lemma NilConcat<T>(s: seq<T>)
    ensures [] + s == s && s + [] == s
  {
  }

  /** A subset of the same size is the whole set. */
  lemma SubsetSameSize<T>(a: set<T>, b: set<T>)
    requires a <= b && |a| == |b|
    ensures a == b
  {
    assert b == a + (b - a);
    assert b - a == {};
  }
}
