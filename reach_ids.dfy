/**
  Reach identifiers taken from file names, as `run_append.get_reach_dict` and
  `AppendSOS.create_reach_list` compute them: the first two `_`-separated
  fields of the name joined by `_`, collected once each with
  `list(set(...))`.
*/
module ReachIds {
  import opened Common

  /** `s.split('_')[0]`: the text before the first `_`, or all of `s` when it has none. */
  function Field(s: string): (f: string)
    ensures f <= s
    ensures '_' !in f
    ensures |f| < |s| ==> s[|f|] == '_'
    ensures |f| == |s| <==> '_' !in s
  {
    if s == [] || s[0] == '_' then []
    else
      var rest := Field(s[1..]);
      assert forall c :: c in s ==> c == s[0] || c in s[1..];
      [s[0]] + rest
  }

  /** The text after the first `_` of `s`. */
  function AfterField(s: string): (r: string)
    requires '_' in s
    ensures |r| < |s|
  {
    s[|Field(s)| + 1..]
  }

  /** Every name a reach id can be read from: `split('_')[1]` raises on a name without `_`. */
  predicate Named(names: seq<string>)
  {
    forall k :: 0 <= k < |names| ==> '_' in names[k]
  }

  /** `name.split('_')[0] + '_' + name.split('_')[1]` */
  function ReachId(name: string): (id: string)
    requires '_' in name
  {
    Field(name) + "_" + Field(AfterField(name))
  }

  /** `split('_')[0]` of a first field followed by `_` and anything is that field. */
  lemma {:induction false} FieldOfJoin(a: string, tail: string)
    requires '_' !in a
    ensures Field(a + "_" + tail) == a
  {
    if a != [] {
      assert (a + "_" + tail)[1..] == a[1..] + "_" + tail;
      FieldOfJoin(a[1..], tail);
    }
  }

  /**
    A name `a_b` or `a_b_rest` whose first two fields hold no `_` has reach id
    `a_b`: the id keeps the two leading fields and drops everything after.
  */
  lemma ReachIdOfFields(a: string, b: string, rest: string)
    requires '_' !in a && '_' !in b
    ensures ReachId(a + "_" + b) == a + "_" + b
    ensures ReachId(a + "_" + b + "_" + rest) == a + "_" + b
  {
    FieldOfJoin(a, b);
    assert AfterField(a + "_" + b) == b;
    assert Field(b) == b;
    FieldOfJoin(a, b + "_" + rest);
    assert a + "_" + b + "_" + rest == a + "_" + (b + "_" + rest);
    assert AfterField(a + "_" + (b + "_" + rest)) == b + "_" + rest;
    FieldOfJoin(b, rest);
  }

  /** A reach id is its own reach id, so re-reading ids from ids changes nothing. */
  lemma ReachIdIdempotent(name: string)
    requires '_' in name
    ensures '_' in ReachId(name) && ReachId(ReachId(name)) == ReachId(name)
  {
    var a, b := Field(name), Field(AfterField(name));
    assert ReachId(name) == a + "_" + b;
    assert (a + "_" + b)[|a|] == '_';
    ReachIdOfFields(a, b, "");
  }

  /** The list comprehension over the directory entries: one id per name, in entry order. */
  function IdsOf(names: seq<string>): (ids: seq<string>)
    requires Named(names)
    ensures |ids| == |names|
    ensures forall k :: 0 <= k < |names| ==> ids[k] == ReachId(names[k])
  {
    if names == [] then []
    else IdsOf(names[..|names| - 1]) + [ReachId(names[|names| - 1])]
  }

  /**
    `ids` is a possible value of `list(set(raw))`: each element of `raw`
    exactly once, in an order Python leaves unspecified.
  */
  predicate Deduplicates(ids: seq<string>, raw: seq<string>)
  {
    Distinct(ids) && Elements(ids) == Elements(raw)
  }

  /** One such enumeration: each element kept at its first occurrence. */
  function FirstOccurrences(raw: seq<string>): (ids: seq<string>)
    ensures Deduplicates(ids, raw)
    ensures |ids| <= |raw|
  {
    if raw == [] then []
    else
      var init := raw[..|raw| - 1];
      var last := raw[|raw| - 1];
      var ids := FirstOccurrences(init);
      assert Elements(raw) == Elements(init) + {last} by {
        assert raw == init + [last];
      }
      if last in ids then ids
      else
        assert Elements(ids + [last]) == Elements(ids) + {last};
        ids + [last]
  }

  /** A duplicate-free list has as many elements as members. */
  lemma {:induction false} DistinctCard(s: seq<string>)
    requires Distinct(s)
    ensures |Elements(s)| == |s|
  {
    if s != [] {
      var init := s[..|s| - 1];
      DistinctCard(init);
      assert Elements(s) == Elements(init) + {s[|s| - 1]};
      assert s[|s| - 1] !in Elements(init);
    }
  }

  /**
    Every enumeration of the set has the same length, the number of distinct
    ids, so `total_reaches` does not depend on the order `set` picks.
  */
  lemma DeduplicatesLength(ids: seq<string>, raw: seq<string>)
    requires Deduplicates(ids, raw)
    ensures |ids| == |Elements(raw)|
    ensures |ids| <= |raw|
  {
    DistinctCard(ids);
    DistinctCard(FirstOccurrences(raw));
  }
}
