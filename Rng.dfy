/** Python's `random` module, seen only through what the stages ask of it.
    The generator is an oracle: after `random.seed(seed)` its t-th draw is
    `o(seed, t)`, and `randbelow(bound)` is that draw reduced below the bound.
    Mersenne Twister itself is not modelled. */
module Rng {
  import opened Text

  type Oracle = (int, nat) -> nat

  function Below(o: Oracle, seed: int, t: nat, bound: nat): (r: nat)
    requires bound > 0
    ensures r < bound
  {
    o(seed, t) % bound
  }

  lemma {:induction false} DistinctCounts(s: seq<string>)
    ensures Distinct(s) <==> forall x :: multiset(s)[x] <= 1
  {
    if s == [] {
    } else {
      DistinctCounts(s[1..]);
      assert s == [s[0]] + s[1..];
      if Distinct(s) {
        assert Distinct(s[1..]) by {
          forall i, j | 0 <= i < j < |s| - 1 ensures s[1..][i] != s[1..][j] {
            assert s[1..][i] == s[i + 1] && s[1..][j] == s[j + 1];
          }
        }
        assert s[0] !in s[1..];
      }
      if forall x :: multiset(s)[x] <= 1 {
        forall i, j | 0 <= i < j < |s| ensures s[i] != s[j] {
          assert s == s[..j] + s[j..];
          assert s[i] in s[..j] && s[j] in s[j..];
          assert multiset(s)[s[j]] == multiset(s[..j])[s[j]] + multiset(s[j..])[s[j]];
        }
      }
    }
  }

  /** What a sample without replacement keeps of a list of distinct names. */
  lemma SubMultisetDistinct(r: seq<string>, pool: seq<string>)
    requires multiset(r) <= multiset(pool) && Distinct(pool)
    ensures Distinct(r) && forall x :: x in r ==> x in pool
  {
    DistinctCounts(pool);
    DistinctCounts(r);
    forall x | x in r ensures x in pool {
      assert x in multiset(r);
    }
  }

  lemma RemoveAt(pool: seq<string>, j: nat)
    requires j < |pool|
    ensures multiset(pool[j := pool[|pool| - 1]][..|pool| - 1]) + multiset{pool[j]} == multiset(pool)
  {
    var n := |pool|;
    var moved := pool[j := pool[n - 1]];
    if j == n - 1 {
      assert pool == moved[..n - 1] + [pool[j]];
    } else {
      assert pool == pool[..j] + [pool[j]] + pool[j + 1..n - 1] + [pool[n - 1]];
      assert moved[..n - 1] == pool[..j] + [pool[n - 1]] + pool[j + 1..n - 1];
    }
  }

  /** `random.sample(pool, k)` by CPython's pool algorithm: draw j below the
      number of names still unused, take `pool[j]`, and move the last unused
      name into its place. */
  function Sample(pool: seq<string>, k: nat, o: Oracle, seed: int, t: nat): (r: seq<string>)
    requires k <= |pool|
    ensures |r| == k
    decreases k
  {
    if k == 0 then []
    else
      var n := |pool|;
      var j := Below(o, seed, t, n);
      [pool[j]] + Sample(pool[j := pool[n - 1]][..n - 1], k - 1, o, seed, t + 1)
  }

  /** A sample takes each name at most as often as the pool holds it, and
      a sample of the whole pool is a permutation of it. */
  lemma {:induction false} SampleSpec(pool: seq<string>, k: nat, o: Oracle, seed: int, t: nat)
    requires k <= |pool|
    ensures multiset(Sample(pool, k, o, seed, t)) <= multiset(pool)
    ensures k == |pool| ==> multiset(Sample(pool, k, o, seed, t)) == multiset(pool)
    decreases k
  {
    if k > 0 {
      var n := |pool|;
      var j := Below(o, seed, t, n);
      var rest := pool[j := pool[n - 1]][..n - 1];
      RemoveAt(pool, j);
      SampleSpec(rest, k - 1, o, seed, t + 1);
      assert Sample(pool, k, o, seed, t) == [pool[j]] + Sample(rest, k - 1, o, seed, t + 1);
    }
  }

  /** The draws `random.shuffle` takes for a list of length `n`. */
  function ShuffleDraws(n: nat): nat {
    if n == 0 then 0 else n - 1
  }

  /** The Fisher–Yates steps of `random.shuffle` from index `i` down to 1:
      swap position `i` with a position drawn below `i + 1`. */
  function ShuffleFrom<T>(s: seq<T>, i: int, o: Oracle, seed: int, t: nat): seq<T>
    requires i < |s|
    decreases i
  {
    if i < 1 then s
    else
      var j := Below(o, seed, t, i + 1);
      ShuffleFrom(s[i := s[j]][j := s[i]], i - 1, o, seed, t + 1)
  }

  /** `random.shuffle(x)` on a list, as a value. */
  function Shuffled<T>(s: seq<T>, o: Oracle, seed: int, t: nat): seq<T> {
    ShuffleFrom(s, |s| - 1, o, seed, t)
  }

  /** A shuffle keeps the length and every element with its multiplicity. */
  lemma {:induction false} ShuffleFromPermutes<T>(s: seq<T>, i: int, o: Oracle, seed: int, t: nat)
    requires i < |s|
    ensures |ShuffleFrom(s, i, o, seed, t)| == |s|
    ensures multiset(ShuffleFrom(s, i, o, seed, t)) == multiset(s)
    decreases i
  {
    if i >= 1 {
      var j := Below(o, seed, t, i + 1);
      var swapped := s[i := s[j]][j := s[i]];
      SwapPermutes(s, i, j);
      ShuffleFromPermutes(swapped, i - 1, o, seed, t + 1);
    }
  }

  lemma SwapPermutes<T>(s: seq<T>, i: nat, j: nat)
    requires i < |s| && j < |s|
    ensures multiset(s[i := s[j]][j := s[i]]) == multiset(s)
  {
    var u := s[i := s[j]];
    assert multiset(u) == multiset(s) - multiset{s[i]} + multiset{s[j]};
    assert u[j] == s[j] || i == j;
  }

  lemma ShuffledPermutes<T>(s: seq<T>, o: Oracle, seed: int, t: nat)
    ensures |Shuffled(s, o, seed, t)| == |s|
    ensures multiset(Shuffled(s, o, seed, t)) == multiset(s)
  {
    ShuffleFromPermutes(s, |s| - 1, o, seed, t);
  }

  /** `random.shuffle(a)` in place: for i from the last index down to 1,
      swap `a[i]` with `a[j]` for j drawn below i + 1. Returns the next
      draw position. */
  method Shuffle<T>(a: array<T>, o: Oracle, seed: int, t: nat) returns (next: nat)
    modifies a
    ensures a[..] == Shuffled(old(a[..]), o, seed, t)
    ensures next == t + ShuffleDraws(a.Length)
  {
    var i := a.Length - 1;
    next := t;
    while i >= 1
      invariant -1 <= i < a.Length && (a.Length > 0 ==> i >= 0)
      invariant next == t + (a.Length - 1 - i)
      invariant ShuffleFrom(a[..], i, o, seed, next) == Shuffled(old(a[..]), o, seed, t)
    {
      var j := Below(o, seed, next, i + 1);
      a[i], a[j] := a[j], a[i];
      next := next + 1;
      i := i - 1;
    }
  }
}
