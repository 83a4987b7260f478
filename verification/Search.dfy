/** Searching a sequence for a pattern, as bytes.Index and strings.Index do. */
module Search {

  predicate OccursAt<T(==)>(s: seq<T>, pattern: seq<T>, i: nat) {
    i + |pattern| <= |s| && s[i..i + |pattern|] == pattern
  }

  /** The leftmost occurrence from i on, or -1. */
  function IndexFrom<T(==)>(s: seq<T>, pattern: seq<T>, i: nat): (r: int)
    ensures r == -1 || (r >= i && OccursAt(s, pattern, r))
    ensures forall k: nat :: i <= k && OccursAt(s, pattern, k) ==> 0 <= r <= k
    decreases |s| - i
  {
    if i + |pattern| > |s| then -1
    else if s[i..i + |pattern|] == pattern then i
    else IndexFrom(s, pattern, i + 1)
  }

  function Index<T(==)>(s: seq<T>, pattern: seq<T>): (r: int)
    ensures -1 <= r && (r >= 0 ==> OccursAt(s, pattern, r))
    ensures forall i: nat :: OccursAt(s, pattern, i) ==> 0 <= r <= i
  {
    IndexFrom(s, pattern, 0)
  }

  /** The first n elements, or all of them. */
  function First<T>(xs: seq<T>, n: nat): seq<T> {
    if |xs| <= n then xs else xs[..n]
  }
}
