/**
  Index bookkeeping behind the numpy calls of the observation validator:
  `count_nonzero` of a mask, `nonzero` and `unique` (ascending index lists),
  and `delete` along one axis.
*/
module Indices {
  import opened Common

  /** The members of `s` below `n`. */
  function Below(s: set<nat>, n: nat): set<nat>
  {
    set i | i in s && i < n
  }

  lemma BelowStep(s: set<nat>, n: nat)
    requires n > 0
    ensures Below(s, n) == Below(s, n - 1) + (if n - 1 in s then {n - 1} else {})
    ensures n - 1 !in Below(s, n - 1)
  {
  }

  /** The members of `s` below `n`, ascending. */
  function Ascending(n: nat, s: set<nat>): (r: seq<nat>)
    ensures StrictlyIncreasing(r)
    ensures forall i: nat :: i in r <==> i < n && i in s
    ensures forall k :: 0 <= k < |r| ==> r[k] < n
  {
    if n == 0 then []
    else
      var prefix := Ascending(n - 1, s);
      assert forall k :: 0 <= k < |prefix| ==> prefix[k] in prefix;
      prefix + (if n - 1 in s then [n - 1] else [])
  }

  /** `Ascending` lists each member of `s` below `n` exactly once. */
  lemma {:induction false} AscendingLength(n: nat, s: set<nat>)
    ensures |Ascending(n, s)| == |Below(s, n)|
  {
    if n > 0 {
      AscendingLength(n - 1, s);
      BelowStep(s, n);
    }
  }

  lemma {:induction false} AscendingEmpty(n: nat)
    ensures Ascending(n, {}) == []
  {
    if n > 0 {
      AscendingEmpty(n - 1);
    }
  }

  /** A strict upper bound of the elements of `xs`. */
  function Bound(xs: seq<nat>): (b: nat)
    ensures forall x :: x in xs ==> x < b
  {
    if xs == [] then 0
    else
      var rest := Bound(xs[1..]);
      assert forall x :: x in xs ==> x == xs[0] || x in xs[1..];
      if xs[0] < rest then rest else xs[0] + 1
  }

  /** `np.unique(xs)`: the distinct elements of `xs`, ascending. */
  function Unique(xs: seq<nat>): (r: seq<nat>)
    ensures StrictlyIncreasing(r)
    ensures forall x :: x in r <==> x in xs
  {
    Ascending(Bound(xs), Elements(xs))
  }

  /** `np.unique(np.concatenate((a, b, c)))` holds exactly the members of the three lists. */
  lemma UniqueOfConcatenation(a: seq<nat>, b: seq<nat>, c: seq<nat>)
    ensures Elements(Unique(a + b + c)) == Elements(a) + Elements(b) + Elements(c)
  {
    var u := Unique(a + b + c);
    forall x | x in Elements(a) + Elements(b) + Elements(c)
      ensures x in Elements(u)
    {
      assert x in a + b + c;
    }
  }

  /** The positions below `n` that are not in `drop`, ascending: what `np.delete` keeps. */
  function Survivors(n: nat, drop: set<nat>): (r: seq<nat>)
    ensures StrictlyIncreasing(r)
    ensures forall i: nat :: i in r <==> i < n && i !in drop
    ensures forall k :: 0 <= k < |r| ==> r[k] < n
  {
    if n == 0 then []
    else
      var prefix := Survivors(n - 1, drop);
      assert forall k :: 0 <= k < |prefix| ==> prefix[k] in prefix;
      prefix + (if n - 1 in drop then [] else [n - 1])
  }

  /** Every position below `n` either survives or is dropped. */
  lemma {:induction false} SurvivorsLength(n: nat, drop: set<nat>)
    ensures |Survivors(n, drop)| == n - |Below(drop, n)|
    ensures |Below(drop, n)| <= n
  {
    if n > 0 {
      SurvivorsLength(n - 1, drop);
      BelowStep(drop, n);
    }
  }

  /** `np.delete(s, drop)` along one axis: the elements of `s` whose positions are not in `drop`. */
  function Delete<T>(s: seq<T>, drop: set<nat>): seq<T>
  {
    if s == [] then []
    else Delete(s[..|s| - 1], drop) + (if |s| - 1 in drop then [] else [s[|s| - 1]])
  }

  /** `np.delete` keeps one element per surviving position. */
  lemma {:induction false} DeleteCount<T>(s: seq<T>, drop: set<nat>)
    ensures |Delete(s, drop)| == |Survivors(|s|, drop)|
  {
    if s != [] {
      DeleteCount(s[..|s| - 1], drop);
    }
  }

  /** `np.delete` shortens the axis by the number of dropped positions on it. */
  lemma DeleteLength<T>(s: seq<T>, drop: set<nat>)
    ensures |Delete(s, drop)| == |s| - |Below(drop, |s|)|
  {
    DeleteCount(s, drop);
    SurvivorsLength(|s|, drop);
  }

  lemma DeleteStep<T>(s: seq<T>, drop: set<nat>)
    requires s != []
    ensures Delete(s, drop) == Delete(s[..|s| - 1], drop) + (if |s| - 1 in drop then [] else [s[|s| - 1]])
  {
  }

  lemma SurvivorsStep(n: nat, drop: set<nat>)
    requires n > 0
    ensures Survivors(n, drop) == Survivors(n - 1, drop) + (if n - 1 in drop then [] else [n - 1])
  {
  }

  /** The k-th element kept by `np.delete` is the element at the k-th surviving position. */
  lemma {:induction false} DeleteSelects<T>(s: seq<T>, drop: set<nat>, k: nat)
    requires k < |Delete(s, drop)|
    ensures |Delete(s, drop)| == |Survivors(|s|, drop)|
    ensures Survivors(|s|, drop)[k] < |s| && Delete(s, drop)[k] == s[Survivors(|s|, drop)[k]]
  {
    DeleteCount(s, drop);
    var n := |s|;
    var init := s[..n - 1];
    DeleteCount(init, drop);
    DeleteStep(s, drop);
    SurvivorsStep(n, drop);
    var kept, keptBefore := Delete(s, drop), Delete(init, drop);
    var survivors, survivorsBefore := Survivors(n, drop), Survivors(n - 1, drop);
    if k < |keptBefore| {
      DeleteSelects(init, drop, k);
      assert kept[k] == keptBefore[k] && survivors[k] == survivorsBefore[k];
      assert init[survivorsBefore[k]] == s[survivorsBefore[k]];
    } else {
      assert n - 1 !in drop;
      assert kept[k] == s[n - 1] && survivors[k] == n - 1;
    }
  }

  /** Deleting nothing keeps the sequence as it is. */
  lemma {:induction false} DeleteNothing<T>(s: seq<T>, drop: set<nat>)
    requires forall i :: i in drop ==> i >= |s|
    ensures Delete(s, drop) == s
  {
    if s != [] {
      DeleteNothing(s[..|s| - 1], drop);
      assert s[..|s| - 1] + [s[|s| - 1]] == s;
    }
  }

  /** How many elements of `s` satisfy `p`: `count_nonzero` of a mask, or the size of `s[mask]`. */
  function CountIf<T>(s: seq<T>, p: T -> bool): (c: nat)
    ensures c <= |s|
  {
    if s == [] then 0
    else CountIf(s[..|s| - 1], p) + (if p(s[|s| - 1]) then 1 else 0)
  }

  /** The positions of `s` whose elements satisfy `p`. */
  function Where<T>(s: seq<T>, p: T -> bool): set<nat>
  {
    set i: nat | i < |s| && p(s[i])
  }

  /** The running count is the number of positions that satisfy the mask. */
  lemma {:induction false} CountIfIsCardinality<T>(s: seq<T>, p: T -> bool)
    ensures CountIf(s, p) == |Where(s, p)|
  {
    if s != [] {
      var n := |s|;
      var init := s[..n - 1];
      CountIfIsCardinality(init, p);
      assert Where(s, p) == Where(init, p) + (if p(s[n - 1]) then {n - 1} else {});
      assert n - 1 !in Where(init, p);
    }
  }

  /** A strictly increasing sequence has as many elements as it has members. */
  lemma {:induction false} StrictlyIncreasingCard(s: seq<nat>)
    requires StrictlyIncreasing(s)
    ensures |Elements(s)| == |s|
  {
    if s != [] {
      var init := s[..|s| - 1];
      StrictlyIncreasingCard(init);
      assert Elements(s) == Elements(init) + {s[|s| - 1]};
      assert s[|s| - 1] !in Elements(init);
    }
  }

  /** `np.unique` of lists of positions below `n` holds positions below `n`. */
  lemma UniqueBelow(a: seq<nat>, b: seq<nat>, c: seq<nat>, n: nat)
    requires forall x :: x in a ==> x < n
    requires forall x :: x in b ==> x < n
    requires forall x :: x in c ==> x < n
    ensures forall x :: x in Unique(a + b + c) ==> x < n
  {
    assert forall x :: x in a + b + c ==> x in a || x in b || x in c;
  }

  /** Deleting a sorted list of positions of `s` shortens `s` by the length of the list. */
  lemma DeleteSortedLength<T>(s: seq<T>, drop: seq<nat>)
    requires StrictlyIncreasing(drop)
    requires forall x :: x in drop ==> x < |s|
    ensures |Delete(s, Elements(drop))| == |s| - |drop|
  {
    DeleteLength(s, Elements(drop));
    StrictlyIncreasingCard(drop);
    assert Below(Elements(drop), |s|) == Elements(drop);
  }

  /** When every element satisfies the mask, the count is the length. */
  lemma {:induction false} CountIfAll<T>(s: seq<T>, p: T -> bool)
    requires forall k :: 0 <= k < |s| ==> p(s[k])
    ensures CountIf(s, p) == |s|
  {
    if s != [] {
      CountIfAll(s[..|s| - 1], p);
    }
  }
}
