/** What the other modules share: an optional value, the clock, digits and permutations. */
module Basics {
  datatype Option<+T> = None | Some(value: T)

  /** A clock reading, in nanoseconds. */
  type Instant = int

  const SECOND: int := 1_000_000_000

  predicate IsDigit(c: char) {
    '0' <= c <= '9'
  }

  /** `s` without its element at `i`. */
  function Without<T>(s: seq<T>, i: nat): seq<T>
    requires i < |s|
  {
    s[..i] + s[i + 1..]
  }

  /** A sequence is a permutation of another when its head occurs there and the
      rest is a permutation of what is left. */
  lemma HeadOfPermutation<T>(a: seq<T>, b: seq<T>) returns (i: nat)
    requires |a| > 0 && multiset(a) == multiset(b)
    ensures i < |b| && b[i] == a[0]
    ensures multiset(a[1..]) == multiset(Without(b, i))
    ensures b == b[..i] + ([b[i]] + b[i + 1..])
  {
    assert a[0] in multiset(b);
    i :| 0 <= i < |b| && b[i] == a[0];
    assert a == [a[0]] + a[1..];
    assert b == b[..i] + ([b[i]] + b[i + 1..]);
    assert multiset(a[1..]) == multiset(a) - multiset{a[0]};
    assert multiset(Without(b, i)) == multiset(b) - multiset{a[0]};
  }
}
