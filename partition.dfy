/**
  The rank partition of `run_append.py`: the deduplicated reach ids are cut
  into `size` contiguous blocks of `total // size` ids, and the `total % size`
  ids left over are dealt one per rank starting at rank 0. `log_reaches`
  counts what each rank received.
*/
module Partition {
  import opened Common
  import opened ReachIds

  /** `reach_dict`: rank -> the reach ids it processes. */
  type ReachDict = map<nat, seq<string>>

  /** Block `rank` ends no later than block `size` starts. */
  lemma BlockEnd(size: nat, q: nat, rank: nat)
    requires rank < size
    ensures rank * q + q <= size * q
  {
    assert size * q == rank * q + q + (size - rank - 1) * q;
  }

  /** One more block: `n * q == (n - 1) * q + q`. */
  lemma MulStep(n: nat, q: nat)
    requires n > 0
    ensures n * q == (n - 1) * q + q
  {
  }

  /** Whole blocks fit in the list: `size * (total // size) <= total`. */
  lemma BlocksFit(total: nat, size: nat)
    requires size >= 1
    ensures size * (total / size) + total % size == total
    ensures total % size < size
  {
  }

  /** Rank `rank`'s contiguous block `reach_list[rank*q : (rank+1)*q]`, where `q = total // size`. */
  function Block(reachList: seq<string>, size: nat, rank: nat): (b: seq<string>)
    requires size >= 1 && rank < size
    ensures |b| == |reachList| / size
  {
    var q := |reachList| / size;
    BlockEnd(size, q, rank);
    BlocksFit(|reachList|, size);
    reachList[rank * q..rank * q + q]
  }

  /**
    What rank `rank` holds at the end of `get_reach_dict`: its block, then one
    leftover id when `rank` is below the remainder.
  */
  function Share(reachList: seq<string>, size: nat, rank: nat): (r: seq<string>)
    requires size >= 1 && rank < size
    ensures |r| == |reachList| / size + (if rank < |reachList| % size then 1 else 0)
  {
    BlocksFit(|reachList|, size);
    Block(reachList, size, rank) + (if rank < |reachList| % size then [reachList[size * (|reachList| / size) + rank]] else [])
  }

  /**
    `get_reach_dict` once the directory has been listed: `names` are the entry
    names and `reachList` is the order `list(set(...))` produced. Keys are the
    ranks 0 .. size-1 and each rank holds its `Share`.
  */
  method GetReachDict(names: seq<string>, reachList: seq<string>, size: nat) returns (reachDict: ReachDict)
    requires size >= 1
    requires Named(names) && Deduplicates(reachList, IdsOf(names))
    ensures forall rank: nat :: rank in reachDict <==> rank < size
    ensures forall rank: nat :: rank < size ==> reachDict[rank] == Share(reachList, size, rank)
  {
    var reachCount;
    reachDict, reachCount := DealBlocks(reachList, size);
    if |reachList| % size != 0 {
      reachDict := DealRemainder(reachList, size, reachDict, reachCount);
    }
  }

  /**
    The first loop of `get_reach_dict`: rank `i` gets the `i`-th block of
    `total // size` ids, and the counter ends after the last block.
  */
  method DealBlocks(reachList: seq<string>, size: nat) returns (reachDict: ReachDict, reachCount: nat)
    requires size >= 1
    ensures reachCount == size * (|reachList| / size)
    ensures forall rank: nat :: rank in reachDict <==> rank < size
    ensures forall rank: nat :: rank < size ==> reachDict[rank] == Block(reachList, size, rank)
  {
    var total := |reachList|;
    var reachPerRank := total / size;

    reachDict := map[];
    reachCount := 0;
    for i := 0 to size
      invariant reachCount == i * reachPerRank
      invariant forall rank: nat :: rank in reachDict <==> rank < i
      invariant forall rank: nat :: rank < i ==> reachDict[rank] == Block(reachList, size, rank)
    {
      BlockAt(reachList, size, i);
      var start := reachCount;
      var end := reachCount + reachPerRank;
      reachDict := reachDict[i := reachList[start..end]];
      reachCount := reachCount + reachPerRank;
    }
  }

  /**
    The second loop of `get_reach_dict`: the `total % size` ids left after
    the blocks go one each to ranks 0, 1, ... in turn.
  */
  method DealRemainder(reachList: seq<string>, size: nat, blocksDict: ReachDict, blocks: nat) returns (reachDict: ReachDict)
    requires size >= 1 && blocks == size * (|reachList| / size)
    requires forall rank: nat :: rank in blocksDict <==> rank < size
    requires forall rank: nat :: rank < size ==> blocksDict[rank] == Block(reachList, size, rank)
    ensures forall rank: nat :: rank in reachDict <==> rank < size
    ensures forall rank: nat :: rank < size ==> reachDict[rank] == Share(reachList, size, rank)
  {
    BlocksFit(|reachList|, size);
    reachDict := blocksDict;
    var reachCount := blocks;
    var remaining := |reachList| - reachCount;
    var i := 0;
    for j := 0 to remaining
      invariant reachCount == blocks + j
      invariant i == j
      invariant forall rank: nat :: rank in reachDict <==> rank < size
      invariant forall rank: nat :: rank < size ==>
        reachDict[rank] == Block(reachList, size, rank) + (if rank < j then [reachList[blocks + rank]] else [])
    {
      reachDict := reachDict[i := reachDict[i] + [reachList[reachCount]]];
      reachCount := reachCount + 1;
      i := if i == size - 1 then 0 else i + 1;
    }
  }

  /** Block `rank` starts where the counter stands after `rank` blocks and ends one block later. */
  lemma BlockAt(reachList: seq<string>, size: nat, rank: nat)
    requires size >= 1 && rank < size
    ensures var q := |reachList| / size;
      && rank * q + q <= |reachList|
      && (rank + 1) * q == rank * q + q
      && Block(reachList, size, rank) == reachList[rank * q..rank * q + q]
  {
    var q := |reachList| / size;
    BlockEnd(size, q, rank);
    BlocksFit(|reachList|, size);
  }

  /** Rank sizes differ by at most one: every rank holds `total // size` or one more. */
  lemma Balanced(reachList: seq<string>, size: nat, a: nat, b: nat)
    requires size >= 1 && a < size && b < size
    ensures |reachList| / size <= |Share(reachList, size, a)| <= |reachList| / size + 1
    ensures a <= b ==> 0 <= |Share(reachList, size, a)| - |Share(reachList, size, b)| <= 1
  {
  }

  /** The rank that receives position `k` of the list. */
  function Owner(total: nat, size: nat, k: nat): (rank: nat)
    requires size >= 1 && k < total
    ensures rank < size
  {
    var q := total / size;
    BlocksFit(total, size);
    if k < size * q then
      BlockIndex(k, q, size);
      k / q
    else k - size * q
  }

  /** A position inside the first `size` blocks lies in a block below `size`. */
  lemma BlockIndex(k: nat, q: nat, size: nat)
    requires k < size * q
    ensures q > 0 && k / q < size
  {
    var d := k / q;
    assert d * q <= k;
    if d >= size {
      BlockEnd(d, q, size);
      assert false;
    }
  }

  /** `k` lies in block `r` of width `q` exactly when `k / q == r`. */
  lemma BlockOf(k: nat, q: nat, r: nat)
    requires q > 0
    ensures r * q <= k < r * q + q <==> k / q == r
  {
    var d := k / q;
    assert k == d * q + k % q;
    if r < d {
      assert r * q + q == (r + 1) * q <= d * q by {
        BlockEnd(d, q, r);
      }
    } else if d < r {
      assert d * q + q <= r * q by {
        BlockEnd(r, q, d);
      }
    }
  }

  /** Position `p` of the list is handed to rank `rank`. */
  predicate Assigned(total: nat, size: nat, rank: nat, p: nat)
    requires size >= 1
  {
    var q := total / size;
    (rank * q <= p < rank * q + q) || (rank < total % size && p == size * q + rank)
  }

  /** The positions of `Share(rank)` are exactly those `Assigned` to it, in order. */
  lemma ShareAt(reachList: seq<string>, size: nat, rank: nat, p: nat)
    requires size >= 1 && rank < size && p < |reachList|
    ensures Assigned(|reachList|, size, rank, p) ==> reachList[p] in Share(reachList, size, rank)
    ensures reachList[p] in Share(reachList, size, rank) ==>
      exists p' :: 0 <= p' < |reachList| && Assigned(|reachList|, size, rank, p') && reachList[p'] == reachList[p]
  {
    var total, q := |reachList|, |reachList| / size;
    BlockEnd(size, q, rank);
    BlocksFit(total, size);
    var s := Share(reachList, size, rank);
    if Assigned(total, size, rank, p) {
      if rank * q <= p < rank * q + q {
        assert s[p - rank * q] == reachList[p];
      } else {
        assert s[q] == reachList[p];
      }
    }
    if reachList[p] in s {
      var i :| 0 <= i < |s| && s[i] == reachList[p];
      if i < q {
        assert Assigned(total, size, rank, rank * q + i) && reachList[rank * q + i] == s[i];
      } else {
        assert Assigned(total, size, rank, size * q + rank) && reachList[size * q + rank] == s[i];
      }
    }
  }

  /** Each position is assigned to its owner and to no other rank. */
  lemma AssignedToOwner(total: nat, size: nat, rank: nat, p: nat)
    requires size >= 1 && rank < size && p < total
    ensures Assigned(total, size, rank, p) <==> rank == Owner(total, size, p)
  {
    var q: nat := total / size;
    var blocks: nat := size * q;
    BlocksFit(total, size);
    BlockEnd(size, q, rank);
    if p < blocks {
      BlockIndex(p, q, size);
      BlockOf(p, q, rank);
      assert Owner(total, size, p) == p / q;
    } else {
      assert Owner(total, size, p) == p - blocks;
      assert !(rank * q <= p < rank * q + q);
    }
  }

  /**
    Every reach id is processed by exactly one rank: with distinct ids, id
    `reachList[p]` is in `Share(rank)` exactly when `rank` owns position `p`.
  */
  lemma ExactlyOneRank(reachList: seq<string>, size: nat, p: nat)
    requires size >= 1 && p < |reachList| && Distinct(reachList)
    ensures forall rank :: 0 <= rank < size ==>
      (reachList[p] in Share(reachList, size, rank) <==> rank == Owner(|reachList|, size, p))
  {
    forall rank | 0 <= rank < size
      ensures reachList[p] in Share(reachList, size, rank) <==> rank == Owner(|reachList|, size, p)
    {
      ShareAt(reachList, size, rank, p);
      AssignedToOwner(|reachList|, size, rank, p);
      if reachList[p] in Share(reachList, size, rank) {
        var p' :| 0 <= p' < |reachList| && Assigned(|reachList|, size, rank, p') && reachList[p'] == reachList[p];
        assert p' == p;
      }
    }
  }

  /** The ids held by ranks 0 .. n-1, counted. */
  function SharedCount(reachList: seq<string>, size: nat, n: nat): (c: nat)
    requires size >= 1 && n <= size
  {
    if n == 0 then 0 else SharedCount(reachList, size, n - 1) + |Share(reachList, size, n - 1)|
  }

  /** Ranks 0 .. n-1 hold n whole blocks and one leftover per rank below the remainder. */
  lemma {:induction false} SharedCountIs(reachList: seq<string>, size: nat, n: nat)
    requires size >= 1 && n <= size
    ensures SharedCount(reachList, size, n) ==
      n * (|reachList| / size) + (if n < |reachList| % size then n else |reachList| % size)
  {
    if n > 0 {
      var q, rem := |reachList| / size, |reachList| % size;
      SharedCountIs(reachList, size, n - 1);
      assert |Share(reachList, size, n - 1)| == q + (if n - 1 < rem then 1 else 0);
      MulStep(n, q);
    }
  }

  /** The ranks together hold exactly `total` ids: nothing lost, nothing duplicated. */
  lemma AllAssigned(reachList: seq<string>, size: nat)
    requires size >= 1
    ensures SharedCount(reachList, size, size) == |reachList|
  {
    SharedCountIs(reachList, size, size);
    BlocksFit(|reachList|, size);
  }

  /** The lengths of the lists held under `keys`, added up in that order. */
  function SumLengths(reachDict: ReachDict, keys: seq<nat>): (n: nat)
    requires forall k :: k in keys ==> k in reachDict
  {
    if keys == [] then 0
    else SumLengths(reachDict, keys[..|keys| - 1]) + |reachDict[keys[|keys| - 1]]|
  }

  /**
    `log_reaches`: walks `reach_dict.items()` in `keys` order (Python dicts
    iterate in insertion order), counts each list element by element and
    adds the counts up. Returns what is logged: the per-key counts and the
    total.
  */
  method LogReaches(reachDict: ReachDict, keys: seq<nat>) returns (counts: seq<nat>, totalReaches: nat)
    requires Distinct(keys) && forall k :: k in reachDict <==> k in keys
    ensures |counts| == |keys|
    ensures forall i :: 0 <= i < |keys| ==> counts[i] == |reachDict[keys[i]]|
    ensures totalReaches == SumLengths(reachDict, keys)
  {
    totalReaches := 0;
    counts := [];
    for i := 0 to |keys|
      invariant |counts| == i
      invariant forall k :: 0 <= k < i ==> counts[k] == |reachDict[keys[k]]|
      invariant totalReaches == SumLengths(reachDict, keys[..i])
    {
      var value := reachDict[keys[i]];
      var reachCount := 0;
      for e := 0 to |value|
        invariant reachCount == e
      {
        reachCount := reachCount + 1;
      }
      totalReaches := totalReaches + reachCount;
      counts := counts + [reachCount];
      assert keys[..i + 1][..i] == keys[..i];
    }
    assert keys[..|keys|] == keys;
  }

  /** The ranks in insertion order: `get_reach_dict` inserts 0, 1, .., size-1. */
  function Ranks(size: nat): (r: seq<nat>)
    ensures |r| == size
    ensures forall k :: 0 <= k < size ==> r[k] == k
  {
    if size == 0 then [] else Ranks(size - 1) + [size - 1]
  }

  /** For the dictionary of `get_reach_dict`, the logged total is the number of distinct reach ids. */
  lemma {:induction false} LoggedTotal(reachDict: ReachDict, reachList: seq<string>, size: nat, n: nat)
    requires size >= 1 && n <= size
    requires forall rank: nat :: rank in reachDict <==> rank < size
    requires forall rank: nat :: rank < size ==> reachDict[rank] == Share(reachList, size, rank)
    ensures SumLengths(reachDict, Ranks(n)) == SharedCount(reachList, size, n)
    ensures n == size ==> SumLengths(reachDict, Ranks(n)) == |reachList|
  {
    if n > 0 {
      LoggedTotal(reachDict, reachList, size, n - 1);
      assert Ranks(n)[..n - 1] == Ranks(n - 1);
    }
    AllAssigned(reachList, size);
  }
}
