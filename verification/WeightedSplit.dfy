/**
 Weighted random selection (pkg/proxy/handler.go): the loop shared by selectTarget for
 `targets_weighted` and by selectWASMMiddleware. The random draw is a parameter.
 */
module WeightedSplit {
  import opened Options

  datatype Weighted = Weighted(name: string, weight: int)

  /** The sum of the first n weights. */
  function Prefix(ts: seq<Weighted>, n: nat): int
    requires n <= |ts|
  {
    if n == 0 then 0 else Prefix(ts, n - 1) + ts[n - 1].weight
  }

  function Total(ts: seq<Weighted>): int { Prefix(ts, |ts|) }

  ghost predicate Passed(ts: seq<Weighted>, i: nat, r: int)
    requires i <= |ts|
  {
    forall k: nat :: 0 < k <= i ==> Prefix(ts, k) <= r
  }

  /** Draw r belongs to index i: i is the first index whose running sum exceeds r. */
  ghost predicate Owns(ts: seq<Weighted>, i: nat, r: int)
    requires i < |ts|
  {
    r < Prefix(ts, i + 1) && Passed(ts, i, r)
  }

  method TotalWeight(ts: seq<Weighted>) returns (total: int)
    ensures total == Total(ts)
  {
    total := 0;
    for k := 0 to |ts|
      invariant total == Prefix(ts, k)
    {
      total := total + ts[k].weight;
    }
  }

  /** The accumulating loop with its trailing fallback to the first target. */
  method PickIndex(ts: seq<Weighted>, r: int) returns (i: nat, ghost fellBack: bool)
    requires ts != []
    ensures i < |ts|
    ensures !fellBack ==> Owns(ts, i, r)
    ensures fellBack ==> i == 0 && forall j: nat :: j < |ts| ==> !Owns(ts, j, r)
    ensures 0 <= r < Total(ts) ==> !fellBack
  {
    var accum := 0;
    for k := 0 to |ts|
      invariant accum == Prefix(ts, k)
      invariant Passed(ts, k, r)
    {
      accum := accum + ts[k].weight;
      if r < accum {
        return k, false;
      }
    }
    assert ts == ts[..|ts|] && Prefix(ts, |ts|) <= r;
    return 0, true;
  }

  /** The weighted branch of selectTarget; None means the next balancing policy decides. */
  method SelectWeightedTarget(ts: seq<Weighted>, draw: int) returns (url: Option<string>, ghost index: nat)
    requires Total(ts) > 0 ==> 0 <= draw < Total(ts)
    ensures url.None? <==> Total(ts) <= 0
    ensures url.Some? ==> index < |ts| && Owns(ts, index, draw) && url.value == ts[index].name
  {
    url, index := None, 0;
    if |ts| > 0 {
      var total := TotalWeight(ts);
      if total > 0 {
        var i;
        ghost var fellBack;
        i, fellBack := PickIndex(ts, draw);
        url, index := Some(ts[i].name), i;
      }
    }
  }

  /** selectWASMMiddleware; a missing split is an empty one. */
  method SelectWASMMiddleware(middleware: string, ts: seq<Weighted>, draw: int) returns (name: string, ghost index: nat)
    requires Total(ts) > 0 ==> 0 <= draw < Total(ts)
    ensures Total(ts) <= 0 ==> name == middleware
    ensures Total(ts) > 0 ==> index < |ts| && Owns(ts, index, draw) && name == ts[index].name
  {
    index := 0;
    if |ts| == 0 {
      return middleware, 0;
    }
    var total := TotalWeight(ts);
    if total <= 0 {
      return middleware, 0;
    }
    var i;
    ghost var fellBack;
    i, fellBack := PickIndex(ts, draw);
    return ts[i].name, i;
  }

  // ----- how many draws an index owns -----

  /** The draws in [0, Total) that select index i. */
  ghost function Draws(ts: seq<Weighted>, i: nat): set<int>
    requires i < |ts|
  {
    set r: int | 0 <= r < Total(ts) && Owns(ts, i, r)
  }

  /** The largest running sum before index i, and zero. */
  function Reached(ts: seq<Weighted>, i: nat): nat
    requires i <= |ts|
  {
    if i == 0 then 0
    else
      var before := Reached(ts, i - 1);
      if Prefix(ts, i) > before then Prefix(ts, i) else before
  }

  function Min(a: int, b: int): int { if a <= b then a else b }

  function Max(a: int, b: int): int { if a >= b then a else b }

  ghost predicate Between(lo: int, r: int, hi: int) { lo <= r < hi }

  ghost function Interval(lo: int, hi: int): set<int> { set r: int | lo <= r < hi && Between(lo, r, hi) }

  lemma {:induction false} IntervalSize(lo: int, hi: int)
    ensures |Interval(lo, hi)| == Max(0, hi - lo)
    decreases Max(0, hi - lo)
  {
    if lo < hi {
      IntervalSize(lo, hi - 1);
      assert Interval(lo, hi) == Interval(lo, hi - 1) + {hi - 1};
    } else {
      assert Interval(lo, hi) == {};
    }
  }

  lemma {:induction false} ReachedIsMaximum(ts: seq<Weighted>, i: nat, r: int)
    requires i <= |ts| && 0 <= r
    ensures r >= Reached(ts, i) <==> Passed(ts, i, r)
  {
    if i > 0 {
      ReachedIsMaximum(ts, i - 1, r);
      assert r >= Reached(ts, i) <==> r >= Reached(ts, i - 1) && r >= Prefix(ts, i);
    }
  }

  /** For any integer weights: index i owns exactly the draws from the old maximum to its own sum. */
  lemma DrawsAreAnInterval(ts: seq<Weighted>, i: nat)
    requires i < |ts|
    ensures Draws(ts, i) == Interval(Reached(ts, i), Min(Total(ts), Prefix(ts, i + 1)))
    ensures |Draws(ts, i)| == Max(0, Min(Total(ts), Prefix(ts, i + 1)) - Reached(ts, i))
  {
    var lo, hi := Reached(ts, i), Min(Total(ts), Prefix(ts, i + 1));
    forall r: int ensures r in Draws(ts, i) <==> r in Interval(lo, hi) {
      if r >= 0 {
        ReachedIsMaximum(ts, i, r);
        assert Owns(ts, i, r) <==> Between(lo, r, Prefix(ts, i + 1));
      }
      assert r in Interval(lo, hi) <==> Between(lo, r, hi);
      assert r in Draws(ts, i) <==> 0 <= r < Total(ts) && Owns(ts, i, r);
    }
    IntervalSize(lo, hi);
  }

  /** A target of weight zero or less is never selected, whatever the other weights. */
  lemma ZeroWeightIsNeverPicked(ts: seq<Weighted>, i: nat, r: int)
    requires i < |ts| && ts[i].weight <= 0 && 0 <= r
    ensures !Owns(ts, i, r)
  {
    if Owns(ts, i, r) {
      assert Prefix(ts, i) <= r;
      assert false;
    }
  }

  /** Every draw selects exactly one index, so the trailing fallback is unreachable. */
  lemma {:induction false} EveryDrawHasOneOwner(ts: seq<Weighted>, r: int, n: nat) returns (i: nat)
    requires n <= |ts| && 0 <= r < Prefix(ts, n)
    ensures i < n && Owns(ts, i, r)
    ensures forall j: nat :: j < |ts| && Owns(ts, j, r) ==> j == i
    decreases n
  {
    if n > 1 && exists k :: 0 < k < n && r < Prefix(ts, k) {
      var k :| 0 < k < n && r < Prefix(ts, k);
      i := EveryDrawHasOneOwner(ts, r, k);
    } else {
      i := n - 1;
    }
  }

  ghost predicate NonNegative(ts: seq<Weighted>) { forall i :: 0 <= i < |ts| ==> ts[i].weight >= 0 }

  lemma {:induction false} PrefixesGrow(ts: seq<Weighted>, m: nat, n: nat)
    requires m <= n <= |ts| && NonNegative(ts)
    ensures 0 <= Prefix(ts, m) <= Prefix(ts, n) && Reached(ts, m) == Prefix(ts, m)
    decreases n, m
  {
    if m < n {
      PrefixesGrow(ts, m, n - 1);
    } else if 0 < m {
      PrefixesGrow(ts, m - 1, m - 1);
    }
  }

  /** The split is exact, every index owning as many draws as its weight, iff no weight is negative. */
  lemma SplitIsExactIffNonNegative(ts: seq<Weighted>)
    requires Total(ts) > 0
    ensures (forall i :: 0 <= i < |ts| ==> |Draws(ts, i)| == ts[i].weight) <==> NonNegative(ts)
  {
    if NonNegative(ts) {
      forall i | 0 <= i < |ts| ensures |Draws(ts, i)| == ts[i].weight {
        DrawsAreAnInterval(ts, i);
        PrefixesGrow(ts, i, i + 1);
        PrefixesGrow(ts, i + 1, |ts|);
      }
    } else {
      var i :| 0 <= i < |ts| && ts[i].weight < 0;
      assert |Draws(ts, i)| >= 0;
    }
  }

  /** With weights 2 and -1 the total is 1, and the first target owns one draw. */
  lemma NegativeWeightSkewsTheSplit(a: string, b: string)
    ensures var ts := [Weighted(a, 2), Weighted(b, -1)];
            Total(ts) == 1 && |Draws(ts, 0)| == 1
  {
    var ts := [Weighted(a, 2), Weighted(b, -1)];
    assert Prefix(ts, 1) == 2 && Prefix(ts, 2) == 1;
    DrawsAreAnInterval(ts, 0);
  }
}
