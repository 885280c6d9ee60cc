/** The global random generator of numpy and of Python's `random` module,
    made an explicit input. A generator is a stream of draws; the draw at
    position t is read as a real in [0, 1) by `rand()` and as a natural number
    by `choice` and `shuffle`. Every caller threads the stream position through,
    so a property proved for all streams holds for every outcome of the draws. */
module Randomness {

  datatype Rng = Rng(uniform: nat -> real, integer: nat -> nat) {

    /** `np.random.rand()` yields a value in [0, 1). */
    ghost predicate Valid() {
      forall t :: 0.0 <= uniform(t) < 1.0
    }
  }

  /** `prob > np.random.rand()`: the coin that fires with probability `prob`.
      A probability of at most 0 never fires and one of at least 1 always does. */
  function Fires(prob: real, rng: Rng, t: nat): (r: bool)
    ensures rng.Valid() && prob <= 0.0 ==> !r
    ensures rng.Valid() && prob >= 1.0 ==> r
  {
    prob > rng.uniform(t)
  }

  /** `np.random.choice(n)`: a draw from [0, n); numpy raises on n == 0. */
  function Choice(rng: Rng, t: nat, n: nat): (r: nat)
    requires n > 0
    ensures r < n
  {
    rng.integer(t) % n
  }

  function Swap<T>(s: seq<T>, i: nat, j: nat): (r: seq<T>)
    requires i < |s| && j < |s|
    ensures |r| == |s| && r[i] == s[j] && r[j] == s[i]
    ensures forall k :: 0 <= k < |s| && k != i && k != j ==> r[k] == s[k]
  {
    s[i := s[j]][j := s[i]]
  }

  /** The Fisher-Yates pass of `np.random.shuffle` and `random.shuffle`, from
      position i down to 1: swap s[i] with s[j] for j drawn from [0, i]. */
  function ShuffleDown<T>(s: seq<T>, i: nat, draw: nat -> nat, t: nat): (r: (seq<T>, nat))
    requires i < |s|
    ensures |r.0| == |s| && r.1 == t + i
    decreases i
  {
    if i == 0 then (s, t)
    else ShuffleDown(Swap(s, i, draw(t) % (i + 1)), i - 1, draw, t + 1)
  }

  /** An in-place shuffle of s; returns the shuffled sequence and the next
      stream position (a sequence of n >= 1 elements takes n - 1 draws). */
  function Shuffle<T>(s: seq<T>, draw: nat -> nat, t: nat): (r: (seq<T>, nat))
    ensures |r.0| == |s|
    ensures r.1 == if |s| == 0 then t else t + |s| - 1
  {
    if |s| == 0 then (s, t) else ShuffleDown(s, |s| - 1, draw, t)
  }

  ghost predicate Distinct<T>(s: seq<T>) {
    forall i, j :: 0 <= i < j < |s| ==> s[i] != s[j]
  }

  lemma SwapPermutes<T>(s: seq<T>, i: nat, j: nat)
    requires i < |s| && j < |s|
    ensures multiset(Swap(s, i, j)) == multiset(s)
    ensures Distinct(s) ==> Distinct(Swap(s, i, j))
  {
    SwapMultiset(s, i, j);
    if Distinct(s) {
      SwapDistinct(s, i, j);
    }
  }

  lemma SwapMultiset<T>(s: seq<T>, i: nat, j: nat)
    requires i < |s| && j < |s|
    ensures multiset(Swap(s, i, j)) == multiset(s)
  {
    if i != j {
      var u := s[i := s[j]];
      assert multiset(u) == multiset(s) - multiset{s[i]} + multiset{s[j]};
      assert Swap(s, i, j) == u[j := s[i]];
      assert multiset(u[j := s[i]]) == multiset(u) - multiset{s[j]} + multiset{s[i]};
    }
  }

  lemma SwapDistinct<T>(s: seq<T>, i: nat, j: nat)
    requires i < |s| && j < |s| && Distinct(s)
    ensures Distinct(Swap(s, i, j))
  {
    var r := Swap(s, i, j);
    forall a, b | 0 <= a < b < |r| ensures r[a] != r[b] {
      var a' := if a == i then j else if a == j then i else a;
      var b' := if b == i then j else if b == j then i else b;
      assert r[a] == s[a'] && r[b] == s[b'] && a' != b';
    }
  }

  /** Shuffling permutes: the result holds the same elements, each as often,
      and a sequence without repeats stays without repeats. */
  lemma {:induction false} ShufflePermutes<T>(s: seq<T>, draw: nat -> nat, t: nat)
    ensures multiset(Shuffle(s, draw, t).0) == multiset(s)
    ensures Distinct(s) ==> Distinct(Shuffle(s, draw, t).0)
  {
    if |s| > 0 {
      ShuffleDownPermutes(s, |s| - 1, draw, t);
    }
  }

  lemma {:induction false} ShuffleDownPermutes<T>(s: seq<T>, i: nat, draw: nat -> nat, t: nat)
    requires i < |s|
    ensures multiset(ShuffleDown(s, i, draw, t).0) == multiset(s)
    ensures Distinct(s) ==> Distinct(ShuffleDown(s, i, draw, t).0)
    decreases i
  {
    if i > 0 {
      var j := draw(t) % (i + 1);
      SwapPermutes(s, i, j);
      ShuffleDownPermutes(Swap(s, i, j), i - 1, draw, t + 1);
    }
  }
}
