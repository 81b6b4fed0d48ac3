/** Small value types shared by every module of the model. */
module Values {

  /** A C# reference that may be null: `None` stands for null. */
  datatype Option<+T> = None | Some(value: T)

  /** The outcome of a step that either yields a value or raises a fault. */
  datatype Result<+T, +E> = Ok(value: T) | Err(error: E)

  /** An unsigned 8-bit value, as in C#'s `byte`. */
  newtype byte = x: int | 0 <= x < 256

  /** The smaller of two integers, as C#'s `Math.Min`. */
  function Min(a: int, b: int): (m: int)
    ensures m <= a && m <= b
    ensures m == a || m == b
  {
    if a <= b then a else b
  }

  /** A prefix of `s` followed by the slice after it is the longer prefix. */
  lemma PrefixJoin<T>(s: seq<T>, d: nat, e: nat)
    requires d <= e <= |s|
    ensures s[..d] + s[d..e] == s[..e]
  {
    assert forall i :: 0 <= i < e ==> (s[..d] + s[d..e])[i] == s[i];
  }

  /** `f` applied to every element, in order (LINQ's `Select`). */
  function MapAll<A, B>(xs: seq<A>, f: A -> B): (ys: seq<B>)
    ensures |ys| == |xs|
    ensures forall i :: 0 <= i < |xs| ==> ys[i] == f(xs[i])
  {
    seq(|xs|, i requires 0 <= i < |xs| => f(xs[i]))
  }

  lemma MapAllAppend<A, B>(a: seq<A>, b: seq<A>, f: A -> B)
    ensures MapAll(a + b, f) == MapAll(a, f) + MapAll(b, f)
  {
    var ab, ys := MapAll(a + b, f), MapAll(a, f) + MapAll(b, f);
    forall i | 0 <= i < |ab| ensures ab[i] == ys[i] {
      if i < |a| {
        assert (a + b)[i] == a[i];
      } else {
        assert (a + b)[i] == b[i - |a|];
      }
    }
  }
}
