/** The random number generator the generators thread through as
    `&mut R`, reduced to a stream of draws: every call consumes the next
    draw. The stream stands for the generator's state; which numbers it
    yields is not modelled. */
module Random {
  import opened Wrappers

  /** A generator: the draws it will yield, and how many it has yielded. */
  class Rng {
    const draws: nat -> nat
    var position: nat

    constructor (draws: nat -> nat)
      ensures this.draws == draws && position == 0
    {
      this.draws := draws;
      position := 0;
    }

    /** The next draw, unconsumed. */
    function Peek(): nat
      reads this
    {
      Draw(draws, position)
    }

    /** `gen_range(lo..hi)`: a value in the half-open range, which must not
        be empty. */
    method GenRange(lo: int, hi: int) returns (r: int)
      requires lo < hi
      modifies this
      ensures lo <= r < hi
      ensures r == lo + old(Peek()) % (hi - lo)
      ensures position == old(position) + 1
    {
      r := lo + draws(position) % (hi - lo);
      position := position + 1;
    }

    /** `gen::<Direction>()`: one of the eight directions, as an index
        into the clockwise order starting at north. */
    method GenDirection() returns (d: nat)
      modifies this
      ensures d < 8 && d == Draw(draws, old(position)) % 8
      ensures position == old(position) + 1
    {
      d := draws(position) % 8;
      position := position + 1;
    }

    /** A coin standing for `gen::<f64>() < p`, for some probability `p`. */
    method Coin() returns (b: bool)
      modifies this
      ensures b <==> old(Peek()) % 2 == 0
      ensures position == old(position) + 1
    {
      b := draws(position) % 2 == 0;
      position := position + 1;
    }

    /** `SliceRandom::shuffle`: from the last index down to 1, swap each
        element with one at a drawn index no greater than it. */
    method Shuffle<T>(s: seq<T>) returns (r: seq<T>)
      modifies this
      ensures r == Shuffled(s, draws, old(position))
      ensures position == old(position) + ShuffleDraws(|s|)
      ensures multiset(r) == multiset(s) && |r| == |s|
    {
      r := s;
      var i := |s|;
      while i > 1
        invariant 0 <= i <= |s| && |r| == |s|
        invariant ShuffledFrom(r, i, draws, position) == Shuffled(s, draws, old(position))
        invariant position + ShuffleDraws(i) == old(position) + ShuffleDraws(|s|)
      {
        i := i - 1;
        var j := GenRange(0, i + 1);
        r := r[i := r[j]][j := r[i]];
      }
      ShuffledPermutes(s, |s|, draws, old(position));
    }

    /** `SliceRandom::choose`: a drawn element, or `None` when empty. */
    method Choose<T>(s: seq<T>) returns (r: Option<T>)
      modifies this
      ensures s == [] <==> r.None?
      ensures r.Some? ==> r.value in s
      ensures s == [] ==> position == old(position)
      ensures s != [] ==> r == Some(s[old(Peek()) % |s|]) && position == old(position) + 1
    {
      if s == [] {
        return None;
      }
      var i := GenRange(0, |s|);
      r := Some(s[i]);
    }
  }

  /** The order `Rng.Shuffle` leaves `r` in when the first `i` places
      are still to be shuffled and the next draw is `draws(pos)`. */
  function ShuffledFrom<T>(r: seq<T>, i: nat, draws: nat -> nat, pos: nat): seq<T>
    requires i <= |r|
    decreases i
  {
    if i <= 1 then r
    else
      var j := draws(pos) % i;
      ShuffledFrom(r[i - 1 := r[j]][j := r[i - 1]], i - 1, draws, pos + 1)
  }

  /** `s` shuffled with the draws from `pos` on. */
  function Shuffled<T>(s: seq<T>, draws: nat -> nat, pos: nat): seq<T> {
    ShuffledFrom(s, |s|, draws, pos)
  }

  /** Draw `i` of a stream. */
  function Draw(draws: nat -> nat, i: nat): nat {
    draws(i)
  }

  /** How many draws shuffling `n` elements consumes. */
  function ShuffleDraws(n: nat): nat {
    if n <= 1 then 0 else n - 1
  }

  /** Shuffling only reorders. */
  lemma {:induction false} ShuffledPermutes<T>(r: seq<T>, i: nat, draws: nat -> nat, pos: nat)
    requires i <= |r|
    ensures multiset(ShuffledFrom(r, i, draws, pos)) == multiset(r)
    ensures |ShuffledFrom(r, i, draws, pos)| == |r|
    decreases i
  {
    if i > 1 {
      var j := draws(pos) % i;
      var r' := r[i - 1 := r[j]][j := r[i - 1]];
      assert multiset(r') == multiset(r) by {
        SwapPermutes(r, i - 1, j);
      }
      ShuffledPermutes(r', i - 1, draws, pos + 1);
    }
  }

  /** Swapping two places keeps the multiset. */
  lemma SwapPermutes<T>(r: seq<T>, i: nat, j: nat)
    requires i < |r| && j < |r|
    ensures multiset(r[i := r[j]][j := r[i]]) == multiset(r)
  {
    if i != j {
      var t := r[i := r[j]];
      assert multiset(t) == multiset(r) - multiset{r[i]} + multiset{r[j]};
      assert multiset(t[j := r[i]]) == multiset(t) - multiset{t[j]} + multiset{r[i]};
    }
  }

  /** The elements of a hash set in its iteration order, which the model
      leaves open: any order, each element once. */
  method HashOrder<T>(s: set<T>) returns (r: seq<T>)
    ensures forall x :: x in r <==> x in s
    ensures |r| == |s|
  {
    r := [];
    var rest := s;
    while rest != {}
      invariant rest <= s
      invariant forall x :: x in r <==> x in s - rest
      invariant |r| == |s - rest|
      decreases |rest|
    {
      var x :| x in rest;
      assert s - (rest - {x}) == (s - rest) + {x};
      r := r + [x];
      rest := rest - {x};
    }
  }
}
