/**
 * Tours as permutations of 0..n-1: the identity tour built by `iota`, the
 * exchange of two positions used to propose a neighbour, and the shuffle
 * that produces the starting tour.
 *
 * The pseudo-random generator is a stream `rng: nat -> nat`; the k-th draw
 * is `rng(k)`. Nothing is required of its values.
 */
module Permutations {

  /** The tour 0, 1, ..., n-1. */
  function Identity(n: nat): (r: seq<nat>)
    ensures |r| == n
    ensures forall i :: 0 <= i < n ==> r[i] == i
  {
    seq(n, i requires 0 <= i => i)
  }

  /** t is a permutation of 0..n-1: n entries, each below n, no two equal. */
  ghost predicate IsTour(t: seq<nat>, n: nat) {
    && |t| == n
    && (forall k :: 0 <= k < n ==> t[k] < n)
    && (forall k, l :: 0 <= k < l < n ==> t[k] != t[l])
  }

  /** The set of indices a sequence holds. */
  ghost function Elements(t: seq<nat>): set<nat> {
    set k | 0 <= k < |t| :: t[k]
  }

  lemma SubsetSize(a: set<nat>, b: set<nat>)
    requires a <= b
    ensures |a| <= |b|
  {
    assert b == a + (b - a);
    assert a * (b - a) == {};
  }

  /** A sequence without repetitions holds as many distinct indices as it is long. */
  lemma {:induction false} DistinctElementsSize(t: seq<nat>)
    requires forall k, l :: 0 <= k < l < |t| ==> t[k] != t[l]
    ensures |Elements(t)| == |t|
  {
    if |t| > 0 {
      var u := t[..|t| - 1];
      DistinctElementsSize(u);
      assert Elements(t) == Elements(u) + {t[|t| - 1]};
      assert t[|t| - 1] !in Elements(u);
    }
  }

  /** A tour omits no point: by counting, each of 0..n-1 occurs in it. */
  lemma TourCoversAll(t: seq<nat>, n: nat)
    requires IsTour(t, n)
    ensures forall v :: 0 <= v < n ==> v in t
  {
    var all := Elements(Identity(n));
    DistinctElementsSize(t);
    DistinctElementsSize(Identity(n));
    forall v | 0 <= v < n
      ensures v in t
    {
      assert Identity(n)[v] == v;
      if v !in Elements(t) {
        assert v in all;
        assert |all - {v}| == n - 1;
        assert Elements(t) <= all - {v} by {
          forall x | x in Elements(t)
            ensures x in all - {v}
          {
            var k :| 0 <= k < |t| && t[k] == x;
            assert Identity(n)[x] == x;
          }
        }
        SubsetSize(Elements(t), all - {v});
        assert false;
      }
    }
  }

  /** s with the entries at positions i and j exchanged. */
  function Swapped(s: seq<nat>, i: nat, j: nat): (r: seq<nat>)
    requires i < |s| && j < |s|
    ensures |r| == |s|
    ensures r[i] == s[j] && r[j] == s[i]
    ensures forall k :: 0 <= k < |s| && k != i && k != j ==> r[k] == s[k]
  {
    s[i := s[j]][j := s[i]]
  }

  /** Exchanging a position with itself changes nothing; in general an exchange keeps the multiset. */
  lemma SwapPermutes(s: seq<nat>, i: nat, j: nat)
    requires i < |s| && j < |s|
    ensures multiset(Swapped(s, i, j)) == multiset(s)
    ensures i == j ==> Swapped(s, i, j) == s
  {
  }

  /** An exchange of two positions of a tour of n points is again a tour of n points. */
  lemma SwapKeepsTour(s: seq<nat>, n: nat, i: nat, j: nat)
    requires IsTour(s, n)
    requires i < n && j < n
    ensures IsTour(Swapped(s, i, j), n)
  {
  }

  /** The random position rng() % bound, for a bound of at least 1. */
  function Pick(draw: nat, bound: nat): (r: nat)
    requires bound > 0
    ensures r < bound
  {
    draw % bound
  }

  /** std::iota: the buffer 0, 1, ..., n-1, filled in one pass. */
  method Iota(n: nat) returns (s: seq<nat>)
    ensures s == Identity(n)
  {
    s := [];
    for k := 0 to n
      invariant s == Identity(k)
    {
      s := s + [k];
    }
  }

  /**
   * The first m steps of a Fisher-Yates pass over s that uses draws k, k+1, ...:
   * step m (counting from 1) exchanges position |s| - m with position
   * rng(k + m - 1) % (|s| - m + 1). A full pass has |s| - 1 steps and ends at position 1.
   */
  function ShuffleSteps(s: seq<nat>, rng: nat -> nat, k: nat, m: nat): (r: seq<nat>)
    requires m < |s|
    ensures |r| == |s|
  {
    if m == 0 then s
    else Swapped(ShuffleSteps(s, rng, k, m - 1), |s| - m, Pick(rng(k + m - 1), |s| - m + 1))
  }

  /** Every step of the pass is an exchange, so a pass over a tour yields a tour. */
  lemma {:induction false} ShuffleKeepsTour(s: seq<nat>, n: nat, rng: nat -> nat, k: nat, m: nat)
    requires IsTour(s, n)
    requires m < n
    ensures IsTour(ShuffleSteps(s, rng, k, m), n)
  {
    if m > 0 {
      var prev := ShuffleSteps(s, rng, k, m - 1);
      var j := Pick(rng(k + m - 1), n - m + 1);
      ShuffleKeepsTour(s, n, rng, k, m - 1);
      SwapKeepsTour(prev, n, n - m, j);
      assert ShuffleSteps(s, rng, k, m) == Swapped(prev, n - m, j);
    }
  }

  /** The starting tour: the identity tour of n points after a full pass with draws 0, 1, .... */
  function Shuffled(n: nat, rng: nat -> nat): (r: seq<nat>)
    ensures IsTour(r, n)
  {
    if n == 0 then []
    else
      ShuffleKeepsTour(Identity(n), n, rng, 0, n - 1);
      ShuffleSteps(Identity(n), rng, 0, n - 1)
  }

  /** std::shuffle of a whole buffer, with draws from `draw` on; also returns the next unused draw. */
  method Shuffle(s: seq<nat>, rng: nat -> nat, draw: nat) returns (t: seq<nat>, next: nat)
    ensures |s| == 0 ==> t == s && next == draw
    ensures |s| > 0 ==> t == ShuffleSteps(s, rng, draw, |s| - 1) && next == draw + |s| - 1
  {
    t, next := s, draw;
    if |s| == 0 {
      return;
    }
    var m := 0;
    while m < |s| - 1
      invariant m < |s|
      invariant next == draw + m
      invariant t == ShuffleSteps(s, rng, draw, m)
    {
      var i := |s| - 1 - m;
      var j := Pick(rng(next), i + 1);
      assert ShuffleSteps(s, rng, draw, m + 1) == Swapped(ShuffleSteps(s, rng, draw, m), i, j);
      t := Swapped(t, i, j);
      m, next := m + 1, next + 1;
    }
  }
}
