/** What several models share. */
module Basics {
  datatype Option<T> = None | Some(value: T)

  /** Put an element in front of a result, if there is one. */
  function Prepend<T>(x: T, r: Option<seq<T>>): Option<seq<T>> {
    if r.None? then None else Some([x] + r.value)
  }

  function First<T>(s: seq<T>, n: nat): (r: seq<T>)
    ensures |r| <= n && |r| <= |s|
  {
    if |s| <= n then s else s[..n]
  }

  predicate Prefix<T(==)>(p: seq<T>, s: seq<T>) {
    |p| <= |s| && s[..|p|] == p
  }

  lemma Regroup<T>(a: seq<T>, b: seq<T>, c: seq<T>)
    ensures a + (b + c) == a + b + c
  {
  }
}
