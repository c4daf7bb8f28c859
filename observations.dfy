/**
  The observation validator of `app/Input.py`.

  Negative width, slope and flow (Qhat) values are turned into missing values
  in place; a reach whose first flow value is missing is rejected; each of
  slope, width and d_x_area must have at least five time steps with five valid
  nodes and five nodes with five valid time steps; the nodes and time steps
  that are under-observed in any of the three matrices are then deleted from
  all three.
*/
module Observations {
  import opened Common
  import opened Indices

  /** One cell of a NetCDF variable after `.filled(np.nan)`: `None` is NaN. */
  type Obs = Option<real>

  /** A node x time matrix, row-major: `m[node][time]`. */
  type Matrix = seq<seq<Obs>>

  /** The threshold of `is_valid`, both per node or time step and for the number of such nodes and time steps. */
  const MinValid: nat := 5

  /** A rectangular matrix with at least one node and one time step. */
  predicate IsGrid(m: Matrix)
  {
    |m| > 0 && |m[0]| > 0 && forall i :: 0 <= i < |m| ==> |m[i]| == |m[0]|
  }

  /** The number of time steps (columns). */
  function Times(m: Matrix): nat
    requires IsGrid(m)
  {
    |m[0]|
  }

  /** The three observation matrices share one shape and Qhat has a first value. */
  predicate WellShaped(width: Matrix, dXArea: Matrix, slope2: Matrix, qhat: seq<Obs>)
  {
    && IsGrid(width) && IsGrid(dXArea) && IsGrid(slope2)
    && |dXArea| == |width| && |slope2| == |width|
    && Times(dXArea) == Times(width) && Times(slope2) == Times(width)
    && |qhat| > 0
  }

  // ---------------------------------------------------------------------------
  // Sanitisation: `x[x < 0] = NaN` for qhat, slope2 and width

  /** One cell of `x[x < 0] = NaN`: NaN compares false with 0, so a missing value stays missing. */
  function Sanitize(x: Obs): (y: Obs)
    ensures y.None? <==> x.None? || x.value < 0.0
    ensures y.Some? ==> y == x
  {
    if x.Some? && x.value < 0.0 then None else x
  }

  function SanitizeSeries(q: seq<Obs>): (r: seq<Obs>)
    ensures |r| == |q|
  {
    seq(|q|, i requires 0 <= i < |q| => Sanitize(q[i]))
  }

  function SanitizeMatrix(m: Matrix): (r: Matrix)
    ensures |r| == |m|
    ensures forall i :: 0 <= i < |m| ==> |r[i]| == |m[i]|
    ensures IsGrid(m) ==> IsGrid(r) && Times(r) == Times(m)
  {
    seq(|m|, i requires 0 <= i < |m| => SanitizeSeries(m[i]))
  }

  /** The cells of a two-dimensional array, node by node. */
  function Cells(a: array2<Obs>): (m: Matrix)
    reads a
    ensures |m| == a.Length0
    ensures forall i :: 0 <= i < a.Length0 ==> |m[i]| == a.Length1
  {
    seq(a.Length0, i requires 0 <= i < a.Length0 reads a =>
      seq(a.Length1, j requires 0 <= j < a.Length1 reads a => a[i, j]))
  }

  /** `obs[obs < 0] = np.NaN` on a node x time array, cell by cell, in place. */
  method SanitizeGrid(a: array2<Obs>)
    modifies a
    ensures forall i, j :: 0 <= i < a.Length0 && 0 <= j < a.Length1 ==>
      (a[i, j].None? <==> old(a[i, j]).None? || old(a[i, j]).value < 0.0)
    ensures Cells(a) == SanitizeMatrix(old(Cells(a)))
  {
    for i := 0 to a.Length0
      invariant forall r, c :: 0 <= r < i && 0 <= c < a.Length1 ==> a[r, c] == Sanitize(old(a[r, c]))
      invariant forall r, c :: i <= r < a.Length0 && 0 <= c < a.Length1 ==> a[r, c] == old(a[r, c])
    {
      for j := 0 to a.Length1
        invariant forall r, c :: 0 <= r < i && 0 <= c < a.Length1 ==> a[r, c] == Sanitize(old(a[r, c]))
        invariant forall c :: 0 <= c < j ==> a[i, c] == Sanitize(old(a[i, c]))
        invariant forall r, c :: i <= r < a.Length0 && 0 <= c < a.Length1 && (r > i || c >= j) ==> a[r, c] == old(a[r, c])
      {
        a[i, j] := Sanitize(a[i, j]);
      }
    }
    ghost var before := old(Cells(a));
    forall i | 0 <= i < a.Length0
      ensures Cells(a)[i] == SanitizeMatrix(before)[i]
    {
      assert forall j :: 0 <= j < a.Length1 ==> Cells(a)[i][j] == SanitizeMatrix(before)[i][j];
    }
  }

  /** `qhat[qhat < 0] = np.NAN` on the flow vector, in place. */
  method SanitizeVector(q: array<Obs>)
    modifies q
    ensures forall i :: 0 <= i < q.Length ==> (q[i].None? <==> old(q[i]).None? || old(q[i]).value < 0.0)
    ensures q[..] == SanitizeSeries(old(q[..]))
  {
    for i := 0 to q.Length
      invariant forall k :: 0 <= k < i ==> q[k] == Sanitize(old(q[k]))
      invariant forall k :: i <= k < q.Length ==> q[k] == old(q[k])
    {
      q[i] := Sanitize(q[i]);
    }
  }

  // ---------------------------------------------------------------------------
  // is_valid

  /** The values of time step `j` across all nodes. */
  function Column(m: Matrix, j: nat): (c: seq<Obs>)
    requires IsGrid(m) && j < Times(m)
    ensures |c| == |m|
  {
    seq(|m|, i requires 0 <= i < |m| => m[i][j])
  }

  /** `~np.isnan(x)` */
  predicate Present(x: Obs)
  {
    x.Some?
  }

  /** `count >= 5` */
  predicate Enough(count: nat)
  {
    count >= MinValid
  }

  /** `count < 5` */
  predicate Scarce(count: nat)
  {
    count < MinValid
  }

  /** Valid values per node, across time steps: the nx vector `nodes` of `is_valid`. */
  function NodeCounts(m: Matrix): (counts: seq<nat>)
    requires IsGrid(m)
    ensures |counts| == |m|
  {
    seq(|m|, i requires 0 <= i < |m| => CountIf(m[i], Present))
  }

  /** Valid values per time step, across nodes: the nt vector `time` of `is_valid`. */
  function TimeCounts(m: Matrix): (counts: seq<nat>)
    requires IsGrid(m)
    ensures |counts| == Times(m)
  {
    seq(Times(m), j requires 0 <= j < Times(m) => CountIf(Column(m, j), Present))
  }

  /** The dictionary returned by `is_valid`; both index lists are `None` when `valid` is false. */
  datatype Validity = Validity(valid: bool, invalidNodes: Option<seq<nat>>, invalidTimes: Option<seq<nat>>)

  /** `is_valid(obs)`: enough well-observed time steps and nodes, and if so the under-observed ones. */
  function IsValid(m: Matrix): (r: Validity)
    requires IsGrid(m)
    ensures r.invalidNodes.Some? <==> r.valid
    ensures r.invalidTimes.Some? <==> r.valid
    ensures r.valid ==> StrictlyIncreasing(r.invalidNodes.value) && StrictlyIncreasing(r.invalidTimes.value)
    ensures r.valid ==> (forall i :: i in r.invalidNodes.value ==> i < |m|) && (forall j :: j in r.invalidTimes.value ==> j < Times(m))
    ensures r.valid ==> forall i: nat ::
      i in r.invalidNodes.value <==> i < |m| && CountIf(m[i], Present) < MinValid
    ensures r.valid ==> forall j: nat ::
      j in r.invalidTimes.value <==> j < Times(m) && CountIf(Column(m, j), Present) < MinValid
  {
    var time := TimeCounts(m);
    var nodes := NodeCounts(m);
    if CountIf(time, Enough) >= MinValid && CountIf(nodes, Enough) >= MinValid then
      Validity(true, Some(Ascending(|nodes|, Where(nodes, Scarce))), Some(Ascending(|time|, Where(time, Scarce))))
    else
      Validity(false, None, None)
  }

  /** The time steps at which node `i` has a value. */
  function NodeObservations(m: Matrix, i: nat): set<nat>
    requires IsGrid(m) && i < |m|
  {
    set j: nat | j < Times(m) && m[i][j].Some?
  }

  /** The nodes that have a value at time step `j`. */
  function TimeObservations(m: Matrix, j: nat): set<nat>
    requires IsGrid(m) && j < Times(m)
  {
    set i: nat | i < |m| && m[i][j].Some?
  }

  /** Nodes observed at five or more time steps. */
  function WellObservedNodes(m: Matrix): set<nat>
    requires IsGrid(m)
  {
    set i: nat | i < |m| && |NodeObservations(m, i)| >= MinValid
  }

  /** Time steps at which five or more nodes are observed. */
  function WellObservedTimes(m: Matrix): set<nat>
    requires IsGrid(m)
  {
    set j: nat | j < Times(m) && |TimeObservations(m, j)| >= MinValid
  }

  /** Nodes observed at fewer than five time steps. */
  function SparseNodes(m: Matrix): set<nat>
    requires IsGrid(m)
  {
    set i: nat | i < |m| && |NodeObservations(m, i)| < MinValid
  }

  /** Time steps at which fewer than five nodes are observed. */
  function SparseTimes(m: Matrix): set<nat>
    requires IsGrid(m)
  {
    set j: nat | j < Times(m) && |TimeObservations(m, j)| < MinValid
  }

  lemma NodeCountIsCardinality(m: Matrix, i: nat)
    requires IsGrid(m) && i < |m|
    ensures CountIf(m[i], Present) == |NodeObservations(m, i)|
  {
    CountIfIsCardinality(m[i], Present);
    assert Where(m[i], Present) == NodeObservations(m, i);
  }

  lemma TimeCountIsCardinality(m: Matrix, j: nat)
    requires IsGrid(m) && j < Times(m)
    ensures CountIf(Column(m, j), Present) == |TimeObservations(m, j)|
  {
    CountIfIsCardinality(Column(m, j), Present);
    assert Where(Column(m, j), Present) == TimeObservations(m, j);
  }

  /** `count_nonzero(time >= 5)` is the number of well-observed time steps. */
  lemma WellObservedTimesCounted(m: Matrix)
    requires IsGrid(m)
    ensures CountIf(TimeCounts(m), Enough) == |WellObservedTimes(m)|
  {
    var time := TimeCounts(m);
    forall j: nat | j < Times(m)
      ensures time[j] == |TimeObservations(m, j)|
    {
      TimeCountIsCardinality(m, j);
    }
    CountIfIsCardinality(time, Enough);
    assert Where(time, Enough) == WellObservedTimes(m);
  }

  /** `count_nonzero(nodes >= 5)` is the number of well-observed nodes. */
  lemma WellObservedNodesCounted(m: Matrix)
    requires IsGrid(m)
    ensures CountIf(NodeCounts(m), Enough) == |WellObservedNodes(m)|
  {
    var nodes := NodeCounts(m);
    forall i: nat | i < |m|
      ensures nodes[i] == |NodeObservations(m, i)|
    {
      NodeCountIsCardinality(m, i);
    }
    CountIfIsCardinality(nodes, Enough);
    assert Where(nodes, Enough) == WellObservedNodes(m);
  }

  /** The node list of a valid result names exactly the sparse nodes. */
  lemma SparseNodesListed(m: Matrix)
    requires IsGrid(m) && IsValid(m).valid
    ensures Elements(IsValid(m).invalidNodes.value) == SparseNodes(m)
  {
    forall i: nat | i < |m|
      ensures CountIf(m[i], Present) == |NodeObservations(m, i)|
    {
      NodeCountIsCardinality(m, i);
    }
  }

  /** The time-step list of a valid result names exactly the sparse time steps. */
  lemma SparseTimesListed(m: Matrix)
    requires IsGrid(m) && IsValid(m).valid
    ensures Elements(IsValid(m).invalidTimes.value) == SparseTimes(m)
  {
    forall j: nat | j < Times(m)
      ensures CountIf(Column(m, j), Present) == |TimeObservations(m, j)|
    {
      TimeCountIsCardinality(m, j);
    }
  }

  /**
    `is_valid` holds exactly when at least five time steps have five or more
    valid nodes and at least five nodes have five or more valid time steps;
    it then lists exactly the under-observed nodes and time steps.
  */
  lemma IsValidExactly(m: Matrix)
    requires IsGrid(m)
    ensures IsValid(m).valid <==> |WellObservedTimes(m)| >= MinValid && |WellObservedNodes(m)| >= MinValid
    ensures IsValid(m).valid ==> Elements(IsValid(m).invalidNodes.value) == SparseNodes(m)
    ensures IsValid(m).valid ==> Elements(IsValid(m).invalidTimes.value) == SparseTimes(m)
  {
    WellObservedTimesCounted(m);
    WellObservedNodesCounted(m);
    if IsValid(m).valid {
      SparseNodesListed(m);
      SparseTimesListed(m);
    }
  }

  // ---------------------------------------------------------------------------
  // Deleting under-observed nodes and time steps

  /** `np.delete(m, drop, axis = 1)`: the given time steps removed from every node. */
  function DeleteTimes(m: Matrix, drop: set<nat>): (r: Matrix)
    ensures |r| == |m|
  {
    seq(|m|, i requires 0 <= i < |m| => Delete(m[i], drop))
  }

  /** `np.delete` of the node indexes (axis 0), then of the time indexes (axis 1). */
  function Trim(m: Matrix, nodes: seq<nat>, times: seq<nat>): Matrix
  {
    DeleteTimes(Delete(m, Elements(nodes)), Elements(times))
  }

  /**
    Index-based reading of a trimmed matrix: `t` has one node per surviving
    node of `m` and one time step per surviving time step, and holds the
    value of `m` at those positions, in their original relative order.
  */
  ghost predicate TrimmedFrom(t: Matrix, m: Matrix, nodes: set<nat>, times: set<nat>)
    requires IsGrid(m)
  {
    var keptNodes, keptTimes := Survivors(|m|, nodes), Survivors(Times(m), times);
    && |t| == |keptNodes| == |m| - |Below(nodes, |m|)|
    && (forall a :: 0 <= a < |t| ==> |t[a]| == |keptTimes| == Times(m) - |Below(times, Times(m))|)
    && (forall a, b :: 0 <= a < |t| && 0 <= b < |t[a]| ==> t[a][b] == m[keptNodes[a]][keptTimes[b]])
  }

  /** Deleting rows then columns keeps exactly the surviving cells, in order. */
  lemma TrimSelects(m: Matrix, nodes: seq<nat>, times: seq<nat>)
    requires IsGrid(m)
    ensures TrimmedFrom(Trim(m, nodes, times), m, Elements(nodes), Elements(times))
  {
    var N, T := Elements(nodes), Elements(times);
    var rows := Delete(m, N);
    var t := Trim(m, nodes, times);
    DeleteLength(m, N);
    DeleteCount(m, N);
    SurvivorsLength(Times(m), T);
    forall a | 0 <= a < |t|
      ensures Survivors(|m|, N)[a] < |m| && rows[a] == m[Survivors(|m|, N)[a]]
    {
      DeleteSelects(m, N, a);
    }
    forall a | 0 <= a < |t|
      ensures |t[a]| == |Survivors(Times(m), T)|
      ensures forall b :: 0 <= b < |t[a]| ==> t[a][b] == m[Survivors(|m|, N)[a]][Survivors(Times(m), T)[b]]
    {
      var row := rows[a];
      DeleteCount(row, T);
      forall b | 0 <= b < |t[a]|
        ensures t[a][b] == row[Survivors(Times(m), T)[b]]
      {
        DeleteSelects(row, T, b);
      }
    }
  }

  // ---------------------------------------------------------------------------
  // check_observations

  /** The dictionary returned by `check_observations` when the data are usable. */
  datatype ValidInput = ValidInput(slope2: Matrix, width: Matrix, dXArea: Matrix, qhat: seq<Obs>, invalidIndexes: seq<nat>)

  /** The three `is_valid` checks all pass. */
  predicate AllValid(width: Matrix, dXArea: Matrix, slope2: Matrix)
    requires IsGrid(width) && IsGrid(dXArea) && IsGrid(slope2)
  {
    IsValid(slope2).valid && IsValid(width).valid && IsValid(dXArea).valid
  }

  /** `np.unique` of the three under-observed node lists, concatenated in the order slope2, width, d_x_area. */
  function DroppedNodes(width: Matrix, dXArea: Matrix, slope2: Matrix): seq<nat>
    requires IsGrid(width) && IsGrid(dXArea) && IsGrid(slope2)
    requires AllValid(width, dXArea, slope2)
  {
    Unique(IsValid(slope2).invalidNodes.value + IsValid(width).invalidNodes.value + IsValid(dXArea).invalidNodes.value)
  }

  /** `np.unique` of the three under-observed time-step lists. */
  function DroppedTimes(width: Matrix, dXArea: Matrix, slope2: Matrix): seq<nat>
    requires IsGrid(width) && IsGrid(dXArea) && IsGrid(slope2)
    requires AllValid(width, dXArea, slope2)
  {
    Unique(IsValid(slope2).invalidTimes.value + IsValid(width).invalidTimes.value + IsValid(dXArea).invalidTimes.value)
  }

  /** The nodes dropped are exactly the nodes some matrix under-observes, ascending; likewise the time steps. */
  lemma DroppedExactly(width: Matrix, dXArea: Matrix, slope2: Matrix)
    requires IsGrid(width) && IsGrid(dXArea) && IsGrid(slope2)
    requires AllValid(width, dXArea, slope2)
    ensures StrictlyIncreasing(DroppedNodes(width, dXArea, slope2))
    ensures Elements(DroppedNodes(width, dXArea, slope2)) == SparseNodes(slope2) + SparseNodes(width) + SparseNodes(dXArea)
    ensures Elements(DroppedTimes(width, dXArea, slope2)) == SparseTimes(slope2) + SparseTimes(width) + SparseTimes(dXArea)
  {
    IsValidExactly(slope2);
    IsValidExactly(width);
    IsValidExactly(dXArea);
    UniqueOfConcatenation(IsValid(slope2).invalidNodes.value, IsValid(width).invalidNodes.value, IsValid(dXArea).invalidNodes.value);
    UniqueOfConcatenation(IsValid(slope2).invalidTimes.value, IsValid(width).invalidTimes.value, IsValid(dXArea).invalidTimes.value);
  }

  /**
    `check_observations` after its three sanitising assignments: the flow
    short-circuit, the three `is_valid` checks in the order slope2, width,
    d_x_area, and the deletion of the union of their under-observed nodes and
    time steps. The flow vector is returned as given, untrimmed, and only the
    node drop list is returned.
  */
  function Screen(width: Matrix, dXArea: Matrix, slope2: Matrix, qhat: seq<Obs>): (r: Option<ValidInput>)
    requires WellShaped(width, dXArea, slope2, qhat)
    ensures r.Some? <==> qhat[0].Some? && AllValid(width, dXArea, slope2)
    ensures r.Some? ==> r.value.qhat == qhat
  {
    if qhat[0].None? then None
    else if !IsValid(slope2).valid then None
    else if !IsValid(width).valid then None
    else if !IsValid(dXArea).valid then None
    else
      var nodes, times := DroppedNodes(width, dXArea, slope2), DroppedTimes(width, dXArea, slope2);
      Some(ValidInput(Trim(slope2, nodes, times), Trim(width, nodes, times), Trim(dXArea, nodes, times), qhat, nodes))
  }

  /** `check_observations` as a whole, on the values the arrays held on entry. */
  function CheckedObservations(width: Matrix, dXArea: Matrix, slope2: Matrix, qhat: seq<Obs>): (r: Option<ValidInput>)
    requires WellShaped(width, dXArea, slope2, qhat)
    ensures Sanitize(qhat[0]).None? ==> r == None
    ensures r.Some? ==> r.value.qhat == SanitizeSeries(qhat)
  {
    Screen(SanitizeMatrix(width), dXArea, SanitizeMatrix(slope2), SanitizeSeries(qhat))
  }

  /**
    `check_observations(width, d_x_area, slope2, qhat)`: sanitises qhat,
    slope2 and width in place (the caller's arrays change), then screens
    and trims. d_x_area is never changed.
  */
  method CheckObservations(width: array2<Obs>, dXArea: array2<Obs>, slope2: array2<Obs>, qhat: array<Obs>)
    returns (r: Option<ValidInput>)
    requires width != dXArea && width != slope2 && slope2 != dXArea
    requires WellShaped(Cells(width), Cells(dXArea), Cells(slope2), qhat[..])
    modifies width, slope2, qhat
    ensures Cells(width) == SanitizeMatrix(old(Cells(width)))
    ensures Cells(slope2) == SanitizeMatrix(old(Cells(slope2)))
    ensures qhat[..] == SanitizeSeries(old(qhat[..]))
    ensures r == CheckedObservations(old(Cells(width)), Cells(dXArea), old(Cells(slope2)), old(qhat[..]))
  {
    SanitizeVector(qhat);
    SanitizeGrid(slope2);
    SanitizeGrid(width);
    r := Screen(Cells(width), Cells(dXArea), Cells(slope2), qhat[..]);
  }

  /**
    A usable result drops the sorted, duplicate-free union of the
    under-observed nodes of the three (sanitised) matrices, and its matrices
    are shorter by exactly that many nodes.
  */
  lemma CheckedDrops(width: Matrix, dXArea: Matrix, slope2: Matrix, qhat: seq<Obs>)
    requires WellShaped(width, dXArea, slope2, qhat)
    requires CheckedObservations(width, dXArea, slope2, qhat).Some?
    ensures var v := CheckedObservations(width, dXArea, slope2, qhat).value;
      var s, w := SanitizeMatrix(slope2), SanitizeMatrix(width);
      && StrictlyIncreasing(v.invalidIndexes)
      && Elements(v.invalidIndexes) == SparseNodes(s) + SparseNodes(w) + SparseNodes(dXArea)
      && |v.width| == |width| - |v.invalidIndexes|
  {
    ScreenDrops(SanitizeMatrix(width), dXArea, SanitizeMatrix(slope2), SanitizeSeries(qhat));
  }

  /**
    Each matrix of a usable result loses exactly the nodes and the time steps
    that some matrix under-observes and keeps every other cell in its original
    relative order. Width and slope2 come back sanitised, d_x_area as given.
  */
  lemma CheckedKeeps(width: Matrix, dXArea: Matrix, slope2: Matrix, qhat: seq<Obs>)
    requires WellShaped(width, dXArea, slope2, qhat)
    requires CheckedObservations(width, dXArea, slope2, qhat).Some?
    ensures var v := CheckedObservations(width, dXArea, slope2, qhat).value;
      var s, w := SanitizeMatrix(slope2), SanitizeMatrix(width);
      var N := SparseNodes(s) + SparseNodes(w) + SparseNodes(dXArea);
      var T := SparseTimes(s) + SparseTimes(w) + SparseTimes(dXArea);
      && TrimmedFrom(v.slope2, s, N, T)
      && TrimmedFrom(v.width, w, N, T)
      && TrimmedFrom(v.dXArea, dXArea, N, T)
  {
    ScreenKeeps(SanitizeMatrix(width), dXArea, SanitizeMatrix(slope2), SanitizeSeries(qhat));
  }

  /** `CheckedDrops` for data that are already sanitised. */
  lemma ScreenDrops(width: Matrix, dXArea: Matrix, slope2: Matrix, qhat: seq<Obs>)
    requires WellShaped(width, dXArea, slope2, qhat)
    requires Screen(width, dXArea, slope2, qhat).Some?
    ensures var v := Screen(width, dXArea, slope2, qhat).value;
      && StrictlyIncreasing(v.invalidIndexes)
      && Elements(v.invalidIndexes) == SparseNodes(slope2) + SparseNodes(width) + SparseNodes(dXArea)
      && |v.width| == |width| - |v.invalidIndexes|
  {
    ScreenValue(width, dXArea, slope2, qhat);
    DroppedExactly(width, dXArea, slope2);
    DroppedCount(width, dXArea, slope2);
  }

  /** The usable result of `Screen`, spelled out. */
  lemma ScreenValue(width: Matrix, dXArea: Matrix, slope2: Matrix, qhat: seq<Obs>)
    requires WellShaped(width, dXArea, slope2, qhat)
    requires Screen(width, dXArea, slope2, qhat).Some?
    ensures var nodes, times := DroppedNodes(width, dXArea, slope2), DroppedTimes(width, dXArea, slope2);
      Screen(width, dXArea, slope2, qhat).value ==
        ValidInput(Trim(slope2, nodes, times), Trim(width, nodes, times), Trim(dXArea, nodes, times), qhat, nodes)
  {
  }

  /** Every dropped node is a node of the matrices, so trimming shortens width by exactly their number. */
  lemma DroppedCount(width: Matrix, dXArea: Matrix, slope2: Matrix)
    requires IsGrid(width) && IsGrid(dXArea) && IsGrid(slope2)
    requires |dXArea| == |width| && |slope2| == |width|
    requires AllValid(width, dXArea, slope2)
    ensures var nodes := DroppedNodes(width, dXArea, slope2);
      |Trim(width, nodes, DroppedTimes(width, dXArea, slope2))| == |width| - |nodes|
  {
    var a, b, c := IsValid(slope2).invalidNodes.value, IsValid(width).invalidNodes.value, IsValid(dXArea).invalidNodes.value;
    UniqueBelow(a, b, c, |width|);
    DeleteSortedLength(width, DroppedNodes(width, dXArea, slope2));
  }

  /** `CheckedKeeps` for data that are already sanitised. */
  lemma ScreenKeeps(width: Matrix, dXArea: Matrix, slope2: Matrix, qhat: seq<Obs>)
    requires WellShaped(width, dXArea, slope2, qhat)
    requires Screen(width, dXArea, slope2, qhat).Some?
    ensures var v := Screen(width, dXArea, slope2, qhat).value;
      var N := SparseNodes(slope2) + SparseNodes(width) + SparseNodes(dXArea);
      var T := SparseTimes(slope2) + SparseTimes(width) + SparseTimes(dXArea);
      && TrimmedFrom(v.slope2, slope2, N, T)
      && TrimmedFrom(v.width, width, N, T)
      && TrimmedFrom(v.dXArea, dXArea, N, T)
  {
    var nodes, times := DroppedNodes(width, dXArea, slope2), DroppedTimes(width, dXArea, slope2);
    DroppedExactly(width, dXArea, slope2);
    TrimSelects(slope2, nodes, times);
    TrimSelects(width, nodes, times);
    TrimSelects(dXArea, nodes, times);
  }

  /** A negative width value counts exactly as a missing one: replacing it by NaN does not change the outcome. */
  lemma NegativeWidthIsMissing(width: Matrix, dXArea: Matrix, slope2: Matrix, qhat: seq<Obs>, i: nat, j: nat)
    requires WellShaped(width, dXArea, slope2, qhat)
    requires i < |width| && j < Times(width)
    requires width[i][j].Some? && width[i][j].value < 0.0
    ensures var w := width[i := width[i][j := None]];
      WellShaped(w, dXArea, slope2, qhat) &&
      CheckedObservations(w, dXArea, slope2, qhat) == CheckedObservations(width, dXArea, slope2, qhat)
  {
    var w := width[i := width[i][j := None]];
    assert SanitizeMatrix(w) == SanitizeMatrix(width) by {
      assert forall r :: 0 <= r < |w| ==> SanitizeMatrix(w)[r] == SanitizeMatrix(width)[r];
    }
  }

  /** A negative slope2 value counts exactly as a missing one. */
  lemma NegativeSlopeIsMissing(width: Matrix, dXArea: Matrix, slope2: Matrix, qhat: seq<Obs>, i: nat, j: nat)
    requires WellShaped(width, dXArea, slope2, qhat)
    requires i < |slope2| && j < Times(slope2)
    requires slope2[i][j].Some? && slope2[i][j].value < 0.0
    ensures var s := slope2[i := slope2[i][j := None]];
      WellShaped(width, dXArea, s, qhat) &&
      CheckedObservations(width, dXArea, s, qhat) == CheckedObservations(width, dXArea, slope2, qhat)
  {
    var s := slope2[i := slope2[i][j := None]];
    assert SanitizeMatrix(s) == SanitizeMatrix(slope2) by {
      assert forall r :: 0 <= r < |s| ==> SanitizeMatrix(s)[r] == SanitizeMatrix(slope2)[r];
    }
  }

  /** A negative flow value counts exactly as a missing one. */
  lemma NegativeQhatIsMissing(width: Matrix, dXArea: Matrix, slope2: Matrix, qhat: seq<Obs>, k: nat)
    requires WellShaped(width, dXArea, slope2, qhat)
    requires k < |qhat|
    requires qhat[k].Some? && qhat[k].value < 0.0
    ensures var q := qhat[k := None];
      WellShaped(width, dXArea, slope2, q) &&
      CheckedObservations(width, dXArea, slope2, q) == CheckedObservations(width, dXArea, slope2, qhat)
  {
    var q := qhat[k := None];
    assert SanitizeSeries(q) == SanitizeSeries(qhat);
  }

  /** Every value present and none negative (d_x_area may be negative). */
  predicate Complete(m: Matrix, nonNegative: bool)
  {
    forall i, j :: 0 <= i < |m| && 0 <= j < |m[i]| ==> m[i][j].Some? && (nonNegative ==> m[i][j].value >= 0.0)
  }

  /** A complete matrix with at least five nodes and five time steps passes `is_valid` and drops nothing. */
  lemma CompleteIsValid(m: Matrix)
    requires IsGrid(m) && Complete(m, false)
    requires |m| >= MinValid && Times(m) >= MinValid
    ensures IsValid(m).valid && IsValid(m).invalidNodes == Some([]) && IsValid(m).invalidTimes == Some([])
  {
    var time, nodes := TimeCounts(m), NodeCounts(m);
    forall i | 0 <= i < |m|
      ensures nodes[i] == Times(m)
    {
      CountIfAll(m[i], Present);
    }
    forall j | 0 <= j < Times(m)
      ensures time[j] == |m|
    {
      CountIfAll(Column(m, j), Present);
    }
    CountIfAll(time, Enough);
    CountIfAll(nodes, Enough);
    assert Where(nodes, Scarce) == {};
    assert Where(time, Scarce) == {};
    AscendingEmpty(|nodes|);
    AscendingEmpty(|time|);
  }

  lemma SanitizeComplete(m: Matrix)
    requires Complete(m, true)
    ensures SanitizeMatrix(m) == m
  {
    assert forall i :: 0 <= i < |m| ==> SanitizeMatrix(m)[i] == m[i];
  }

  lemma TrimNothing(m: Matrix)
    requires IsGrid(m)
    ensures Trim(m, [], []) == m
  {
    assert Elements<nat>([]) == {};
    DeleteNothing(m, {});
    forall i | 0 <= i < |m|
      ensures DeleteTimes(m, {})[i] == m[i]
    {
      DeleteNothing(m[i], {});
    }
  }

  /**
    Complete, non-negative observations of at least five nodes and five time
    steps come back unchanged, with nothing dropped.
  */
  lemma CompleteInputUnchanged(width: Matrix, dXArea: Matrix, slope2: Matrix, qhat: seq<Obs>)
    requires WellShaped(width, dXArea, slope2, qhat)
    requires |width| >= MinValid && Times(width) >= MinValid
    requires Complete(width, true) && Complete(slope2, true) && Complete(dXArea, false)
    requires forall k :: 0 <= k < |qhat| ==> qhat[k].Some? && qhat[k].value >= 0.0
    ensures CheckedObservations(width, dXArea, slope2, qhat) == Some(ValidInput(slope2, width, dXArea, qhat, []))
  {
    SanitizeComplete(width);
    SanitizeComplete(slope2);
    assert SanitizeSeries(qhat) == qhat;
    CompleteIsValid(width);
    CompleteIsValid(slope2);
    CompleteIsValid(dXArea);
    TrimNothing(width);
    TrimNothing(slope2);
    TrimNothing(dXArea);
  }

  // ---------------------------------------------------------------------------
  // format_data: the flow repeat

  /** `np.repeat(q, n)`: each value of `q` repeated `n` times in a row. */
  function Repeat(q: seq<Obs>, n: nat): (r: seq<Obs>)
    ensures |r| == |q| * n
  {
    if q == [] then [] else seq(n, _ => q[0]) + Repeat(q[1..], n)
  }

  /** The j-th copy of the i-th value sits at position i * n + j. */
  lemma {:induction false} RepeatAt(q: seq<Obs>, n: nat, i: nat, j: nat)
    requires i < |q| && j < n
    ensures i * n + j < |Repeat(q, n)| && Repeat(q, n)[i * n + j] == q[i]
  {
    if i > 0 {
      RepeatAt(q[1..], n, i - 1, j);
      assert i * n + j == n + ((i - 1) * n + j);
    }
  }

  /**
    `Input.format_data` once the files are read: the reach-level flow is
    repeated once per node and everything goes through `check_observations`.
    A missing or negative first flow value rejects the reach.
  */
  function FormatData(width: Matrix, dXArea: Matrix, slope2: Matrix, qhat: seq<Obs>): (r: Option<ValidInput>)
    requires WellShaped(width, dXArea, slope2, qhat)
    ensures Sanitize(qhat[0]).None? ==> r == None
    ensures r.Some? ==> |r.value.qhat| == |qhat| * |width|
    ensures r.Some? ==> r.value.qhat == SanitizeSeries(Repeat(qhat, |width|))
  {
    RepeatAt(qhat, |width|, 0, 0);
    CheckedObservations(width, dXArea, slope2, Repeat(qhat, |width|))
  }
}
