/**
  The per-reach driver of `app/AppendSOS.py`: for every reach id, read and
  validate its SWOT and SWORD of Science data, run the engine on valid data
  only, and write a prior record to the reach's SWORD of Science file, filed
  under `valid_list` or `invalid_list` on the way.
*/
module AppendSos {
  import opened Common
  import opened Indices
  import opened ReachIds
  import opened Observations
  import opened Output

  /** The file of `reach` of the given kind: `reach + "_" + kind`. */
  function FileName(reach: string, kind: string): string
  {
    reach + "_" + kind
  }

  const SwotKind: string := "SWOT.nc"
  const SwordKind: string := "SWORD.nc"

  /** `data_dir / f"{reach}_SWOT.nc"` */
  function SwotPath(dataDir: string, reach: string): string
  {
    dataDir + "/" + FileName(reach, SwotKind)
  }

  /** `data_dir / f"{reach}_SWORD.nc"` */
  function SwordPath(dataDir: string, reach: string): string
  {
    dataDir + "/" + FileName(reach, SwordKind)
  }

  /**
    Reading a reach id back from the name of a file it is read from gives
    that id again: the kind starts a third `_` field.
  */
  lemma FileNameGivesReach(a: string, b: string, kind: string)
    requires '_' !in a && '_' !in b
    ensures ReachId(FileName(a + "_" + b, kind)) == a + "_" + b
  {
    ReachIdOfFields(a, b, kind);
  }

  /**
    What `Input(swot_path, sword_path)` reads: the node-level width,
    d_x_area and slope2 of the SWOT file and Qhat of the SWORD of Science
    file, after `.filled(np.nan)`.
  */
  datatype InputData = InputData(width: Matrix, dXArea: Matrix, slope2: Matrix, qhat: seq<Obs>)

  /** Input data of the shape `check_observations` works on. */
  type ShapedInput = d: InputData | WellShaped(d.width, d.dXArea, d.slope2, d.qhat)
    witness InputData([[None]], [[None]], [[None]], [None])

  /**
    `Input(swot_path, sword_path).format_data()` as a function of the two
    paths: `read` stands for the NetCDF reads of the constructor.
  */
  function FormatInput(read: (string, string) -> ShapedInput): (validate: (string, string) -> Option<ValidInput>)
  {
    (swotPath: string, swordPath: string) =>
      var d := read(swotPath, swordPath);
      FormatData(d.width, d.dXArea, d.slope2, d.qhat)
  }

  /** The validation outcome of each reach, in order. */
  function Outcomes(dataDir: string, reaches: seq<string>, validate: (string, string) -> Option<ValidInput>): seq<Option<ValidInput>>
  {
    seq(|reaches|, k requires 0 <= k < |reaches| => validate(SwotPath(dataDir, reaches[k]), SwordPath(dataDir, reaches[k])))
  }

  /** The reaches whose outcome is usable (`valid`) or empty (`!valid`), in processing order. */
  function Kept(reaches: seq<string>, outcomes: seq<Option<ValidInput>>, valid: bool): (r: seq<string>)
    requires |outcomes| == |reaches|
    ensures |r| <= |reaches|
  {
    if reaches == [] then []
    else
      var n := |reaches| - 1;
      Kept(reaches[..n], outcomes[..n], valid) + (if outcomes[n].Some? == valid then [reaches[n]] else [])
  }

  /** The usable outcomes, in processing order: what the engine receives. */
  function EngineInputs(outcomes: seq<Option<ValidInput>>): seq<ValidInput>
  {
    if outcomes == [] then []
    else
      var n := |outcomes| - 1;
      EngineInputs(outcomes[..n]) + (if outcomes[n].Some? then [outcomes[n].value] else [])
  }

  /**
    One `Output(sword_path, geobam_priors).append_priors_node()`: the file,
    the priors handed over and the record that `append_priors_node` writes.
  */
  datatype Written = Written(path: string, priors: Option<Priors>, record: PriorDict)

  /** The engine's priors for usable data, `None` otherwise. */
  function PriorsFor(outcome: Option<ValidInput>, engine: ValidInput -> Priors): Option<Priors>
  {
    if outcome.Some? then Some(engine(outcome.value)) else None
  }

  /** What is written for one reach. */
  function WrittenFor(path: string, outcome: Option<ValidInput>, engine: ValidInput -> Priors): Written
  {
    var priors := PriorsFor(outcome, engine);
    Written(path, priors, PriorRecord(priors))
  }

  /** The writes for `reaches`, one per reach, in order. */
  function Writes(dataDir: string, reaches: seq<string>, outcomes: seq<Option<ValidInput>>, engine: ValidInput -> Priors): (w: seq<Written>)
    requires |outcomes| == |reaches|
    ensures |w| == |reaches|
    ensures forall k :: 0 <= k < |reaches| ==> w[k] == WrittenFor(SwordPath(dataDir, reaches[k]), outcomes[k], engine)
  {
    if reaches == [] then []
    else
      var n := |reaches| - 1;
      Writes(dataDir, reaches[..n], outcomes[..n], engine) + [WrittenFor(SwordPath(dataDir, reaches[n]), outcomes[n], engine)]
  }

  /** Appending to a list that already extends another extends that other one too. */
  lemma Regroup<T>(a: seq<T>, b: seq<T>, c: seq<T>)
    ensures a + b + c == a + (b + c)
  {
  }

  /** Processing one more reach extends each list by that reach's contribution. */
  lemma StepAt(dataDir: string, reaches: seq<string>, outcomes: seq<Option<ValidInput>>, engine: ValidInput -> Priors, i: nat)
    requires |outcomes| == |reaches| && i < |reaches|
    ensures Kept(reaches[..i + 1], outcomes[..i + 1], true)
      == Kept(reaches[..i], outcomes[..i], true) + (if outcomes[i].Some? then [reaches[i]] else [])
    ensures Kept(reaches[..i + 1], outcomes[..i + 1], false)
      == Kept(reaches[..i], outcomes[..i], false) + (if outcomes[i].None? then [reaches[i]] else [])
    ensures EngineInputs(outcomes[..i + 1]) == EngineInputs(outcomes[..i]) + (if outcomes[i].Some? then [outcomes[i].value] else [])
    ensures Writes(dataDir, reaches[..i + 1], outcomes[..i + 1], engine)
      == Writes(dataDir, reaches[..i], outcomes[..i], engine) + [WrittenFor(SwordPath(dataDir, reaches[i]), outcomes[i], engine)]
  {
    assert reaches[..i + 1][..i] == reaches[..i];
    assert outcomes[..i + 1][..i] == outcomes[..i];
  }

  /**
    An `AppendSOS` run: the data directory, the deduplicated reach ids, the
    two outcome lists, and, for the outside world, the engine's inputs and
    the records written.
  */
  class AppendSOS {
    const dataDir: string
    const reachList: seq<string>
    var validList: seq<string>
    var invalidList: seq<string>
    var engineRuns: seq<ValidInput>
    var written: seq<Written>

    /**
      `AppendSOS(data_dir)`: `entries` are the names in the directory and
      `reachList` the order `create_reach_list` returned them in.
    */
    constructor (dataDir: string, entries: seq<string>, reachList: seq<string>)
      requires Named(entries) && Deduplicates(reachList, IdsOf(entries))
      ensures this.dataDir == dataDir && this.reachList == reachList
      ensures validList == [] && invalidList == [] && engineRuns == [] && written == []
    {
      this.dataDir := dataDir;
      this.reachList := reachList;
      validList := [];
      invalidList := [];
      engineRuns := [];
      written := [];
    }

    /**
      One pass of the loop in `append()`: file the reach under the list its
      outcome selects, run the engine on usable data only, and write the
      record to the reach's SWORD of Science file.
    */
    method ProcessReach(reach: string, swordPath: string, data: Option<ValidInput>, engine: ValidInput -> Priors)
      modifies this
      ensures validList == old(validList) + (if data.Some? then [reach] else [])
      ensures invalidList == old(invalidList) + (if data.None? then [reach] else [])
      ensures engineRuns == old(engineRuns) + (if data.Some? then [data.value] else [])
      ensures written == old(written) + [WrittenFor(swordPath, data, engine)]
    {
      var geobamPriors: Option<Priors> := None;
      if data.Some? {
        validList := validList + [reach];
        engineRuns := engineRuns + [data.value];
        geobamPriors := Some(engine(data.value));
      } else {
        invalidList := invalidList + [reach];
      }
      written := written + [Written(swordPath, geobamPriors, PriorRecord(geobamPriors))];
    }

    /**
      `append()`, with `validate` for `Input(...).format_data()` (see
      `FormatInput`): each reach in order is validated; usable data put the
      reach on `valid_list` and go to the engine, empty data put it on
      `invalid_list`; either way one record is written to its SWORD of
      Science file.
    */
    method Append(validate: (string, string) -> Option<ValidInput>, engine: ValidInput -> Priors)
      modifies this
      ensures var outcomes := Outcomes(dataDir, reachList, validate);
        && validList == old(validList) + Kept(reachList, outcomes, true)
        && invalidList == old(invalidList) + Kept(reachList, outcomes, false)
        && engineRuns == old(engineRuns) + EngineInputs(outcomes)
        && written == old(written) + Writes(dataDir, reachList, outcomes, engine)
    {
      ghost var outcomes := Outcomes(dataDir, reachList, validate);
      for i := 0 to |reachList|
        invariant validList == old(validList) + Kept(reachList[..i], outcomes[..i], true)
        invariant invalidList == old(invalidList) + Kept(reachList[..i], outcomes[..i], false)
        invariant engineRuns == old(engineRuns) + EngineInputs(outcomes[..i])
        invariant written == old(written) + Writes(dataDir, reachList[..i], outcomes[..i], engine)
      {
        var reach := reachList[i];
        var swotPath := SwotPath(dataDir, reach);
        var swordPath := SwordPath(dataDir, reach);
        var data := validate(swotPath, swordPath);
        ProcessReach(reach, swordPath, data, engine);
        StepAt(dataDir, reachList, outcomes, engine, i);
        Regroup(old(validList), Kept(reachList[..i], outcomes[..i], true), if data.Some? then [reach] else []);
        Regroup(old(invalidList), Kept(reachList[..i], outcomes[..i], false), if data.None? then [reach] else []);
        Regroup(old(engineRuns), EngineInputs(outcomes[..i]), if data.Some? then [data.value] else []);
        Regroup(old(written), Writes(dataDir, reachList[..i], outcomes[..i], engine), [WrittenFor(swordPath, data, engine)]);
      }
      assert reachList[..|reachList|] == reachList;
      assert outcomes[..|outcomes|] == outcomes;
    }
  }

  /** Every reach lands on exactly one of the two lists: their lengths add up to the number of reaches. */
  lemma {:induction false} KeptSplit(reaches: seq<string>, outcomes: seq<Option<ValidInput>>)
    requires |outcomes| == |reaches|
    ensures |Kept(reaches, outcomes, true)| + |Kept(reaches, outcomes, false)| == |reaches|
  {
    if reaches != [] {
      var n := |reaches| - 1;
      KeptSplit(reaches[..n], outcomes[..n]);
    }
  }

  /** The positions whose outcome is the other one than `valid`. */
  function Others(outcomes: seq<Option<ValidInput>>, valid: bool): set<nat>
  {
    set i: nat | i < |outcomes| && outcomes[i].Some? != valid
  }

  /**
    Each list keeps the reaches with the matching outcome and drops the
    others, in their original order: it is `reaches` with the positions of
    the other outcome deleted.
  */
  lemma {:induction false} KeptIsDelete(reaches: seq<string>, outcomes: seq<Option<ValidInput>>, valid: bool)
    requires |outcomes| == |reaches|
    ensures Kept(reaches, outcomes, valid) == Delete(reaches, Others(outcomes, valid))
  {
    if reaches != [] {
      var n := |reaches| - 1;
      var init, initOutcomes := reaches[..n], outcomes[..n];
      KeptIsDelete(init, initOutcomes, valid);
      var others, initOthers := Others(outcomes, valid), Others(initOutcomes, valid);
      if outcomes[n].Some? != valid {
        assert others == initOthers + {n};
        DeleteAfter(init, initOthers, n);
      } else {
        assert others == initOthers;
      }
      DeleteStep(reaches, others);
    }
  }

  /** Positions at or beyond the end of `s` do not affect `np.delete`. */
  lemma {:induction false} DeleteAfter(s: seq<string>, drop: set<nat>, n: nat)
    requires |s| <= n
    ensures Delete(s, drop + {n}) == Delete(s, drop)
  {
    if s != [] {
      DeleteAfter(s[..|s| - 1], drop, n);
    }
  }

  /** A reach is on `valid_list` exactly when its outcome is usable, and on `invalid_list` exactly when it is empty. */
  lemma {:induction false} KeptMembers(reaches: seq<string>, outcomes: seq<Option<ValidInput>>, valid: bool, k: nat)
    requires |outcomes| == |reaches| && Distinct(reaches) && k < |reaches|
    ensures reaches[k] in Kept(reaches, outcomes, valid) <==> outcomes[k].Some? == valid
  {
    var n := |reaches| - 1;
    KeptWithin(reaches[..n], outcomes[..n], valid);
    if k < n {
      KeptMembers(reaches[..n], outcomes[..n], valid, k);
    }
  }

  /** The lists hold only reaches from `reaches`. */
  lemma {:induction false} KeptWithin(reaches: seq<string>, outcomes: seq<Option<ValidInput>>, valid: bool)
    requires |outcomes| == |reaches|
    ensures forall r :: r in Kept(reaches, outcomes, valid) ==> r in reaches
  {
    if reaches != [] {
      var n := |reaches| - 1;
      KeptWithin(reaches[..n], outcomes[..n], valid);
      assert forall r :: r in reaches[..n] ==> r in reaches;
    }
  }

  /** The engine runs once per valid reach. */
  lemma {:induction false} EngineRunsPerValidReach(reaches: seq<string>, outcomes: seq<Option<ValidInput>>)
    requires |outcomes| == |reaches|
    ensures |EngineInputs(outcomes)| == |Kept(reaches, outcomes, true)|
  {
    if reaches != [] {
      var n := |reaches| - 1;
      EngineRunsPerValidReach(reaches[..n], outcomes[..n]);
    }
  }

  /**
    Each reach gets one write, at its SWORD of Science path; the priors
    handed over are `None` exactly when the reach is invalid, and then the
    record is the all-fill record of `create_prior_dict`.
  */
  lemma WritesPerReach(dataDir: string, reaches: seq<string>, outcomes: seq<Option<ValidInput>>, engine: ValidInput -> Priors, k: nat)
    requires |outcomes| == |reaches| && k < |reaches|
    ensures var w := Writes(dataDir, reaches, outcomes, engine)[k];
      && w.path == SwordPath(dataDir, reaches[k])
      && (w.priors.None? <==> outcomes[k].None?)
      && (outcomes[k].Some? ==> w.priors == Some(engine(outcomes[k].value)))
      && w.record == PriorRecord(w.priors)
      && (outcomes[k].None? ==> w.record == CreatePriorDict())
  {
  }

  /**
    A reach whose first Qhat value is missing or negative is invalid: it is
    on `invalid_list`, the engine never sees it, and its record is all fill.
  */
  lemma MissingQhatIsInvalid(dataDir: string, reaches: seq<string>, read: (string, string) -> ShapedInput, k: nat)
    requires k < |reaches|
    requires Sanitize(read(SwotPath(dataDir, reaches[k]), SwordPath(dataDir, reaches[k])).qhat[0]).None?
    ensures Outcomes(dataDir, reaches, FormatInput(read))[k].None?
  {
  }

  /**
    Valid data hand the engine the reach's Qhat repeated once per node, with
    negative values made missing (`RepeatAt` locates each copy).
  */
  lemma ValidQhatRepeated(dataDir: string, reaches: seq<string>, read: (string, string) -> ShapedInput, k: nat)
    requires k < |reaches|
    ensures var d := read(SwotPath(dataDir, reaches[k]), SwordPath(dataDir, reaches[k]));
      var outcome := Outcomes(dataDir, reaches, FormatInput(read))[k];
      outcome.Some? ==>
        && |outcome.value.qhat| == |d.qhat| * |d.width|
        && outcome.value.qhat == SanitizeSeries(Repeat(d.qhat, |d.width|))
  {
  }
}
