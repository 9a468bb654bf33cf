/** Character buffers that hold C strings. */
module CStrings {
  predicate NoNul(s: string) {
    '\0' !in s
  }

  /** From position `from` on, the buffer holds the string `s`. */
  predicate HoldsFrom(a: array<char>, from: nat, s: string)
    reads a
  {
    && from <= |s| < a.Length && a[|s|] == '\0'
    && forall k :: from <= k < |s| ==> a[k] == s[k] && a[k] != '\0'
  }

  predicate Holds(a: array<char>, s: string)
    reads a
  {
    HoldsFrom(a, 0, s)
  }

  /** The C string that starts at `start`. */
  predicate StringAt(a: array<char>, start: nat, s: string)
    reads a
  {
    && start + |s| < a.Length && a[start + |s|] == '\0'
    && forall k :: start <= k < start + |s| ==> a[k] == s[k - start] && a[k] != '\0'
  }

  /** strncpy into a zeroed buffer of `size` characters. */
  function Cut(s: string, size: nat): string
    requires size > 0
  {
    if |s| < size then s else s[..size - 1]
  }
}
