/**
  The prior record of `app/Output.py`: a fixed dictionary of 41 priors, every
  one at the fill value -9999 until the engine's priors overwrite them, and
  its write-out as one NetCDF variable per key in the `reach` group of the
  SWORD of Science file.
*/
module Output {
  import opened Common

  /** `Output.FILL_VALUE = float(-9999)` */
  const FillValue: real := -9999.0

  /** The keys of `create_prior_dict`, in the order of the dictionary literal. */
  const PriorKeys: seq<string> := [
    "river_type",
    "lowerbound_A0", "upperbound_A0", "lowerbound_logn", "upperbound_logn",
    "lowerbound_b", "upperbound_b", "lowerbound_logWb", "upperbound_logWb",
    "lowerbound_logDb", "upperbound_logDb", "lowerbound_logr", "upperbound_logr",
    "logA0_hat", "logn_hat", "b_hat", "logWb_hat", "logDb_hat", "logr_hat",
    "logA0_sd", "logn_sd", "b_sd", "logWb_sd", "logDb_sd", "logr_sd",
    "lowerbound_logQ", "upperbound_logQ", "lowerbound_logWc", "upperbound_logWc",
    "lowerbound_logQc", "upperbound_logQc", "logWc_hat", "logQc_hat",
    "logQ_sd", "logWc_sd", "logQc_sd", "Werr_sd", "Serr_sd", "dAerr_sd",
    "sigma_man", "sigma_amhg"
  ]

  /** The keys `extract_priors` reads from `river_type_priors`. */
  const RiverTypeKeys: seq<string> := PriorKeys[1..25]

  /** The keys `extract_priors` reads from `other_priors`. */
  const OtherKeys: seq<string> := PriorKeys[25..]

  /** A prior record: prior name -> value. */
  type PriorDict = map<string, real>

  /** `create_prior_dict()`: the dictionary literal, every prior at the fill value. */
  function CreatePriorDict(): (d: PriorDict)
    ensures d.Keys == Elements(PriorKeys)
    ensures forall k :: k in d ==> d[k] == FillValue
  {
    map k | k in PriorKeys :: FillValue
  }

  /**
    The priors returned by the engine (an R list). The element reads
    `rx2(...)`, `np.array(...)[0]` and, for the two sigmas, `[0][0]` are
    left to the engine: each group is a function from prior name to the
    value read. `length` is the length of the R list, which decides its
    truth value.
  */
  datatype Priors = Priors(length: nat, riverType: real, riverTypePriors: string -> real, otherPriors: string -> real)

  /** `if self.prior_data:` -- `None` and an empty R list are false. */
  predicate Truthy(priorData: Option<Priors>)
  {
    priorData.Some? && priorData.value.length > 0
  }

  /** The value `extract_priors` stores under `key`. */
  function PriorValue(priors: Priors, key: string): real
  {
    if key == "river_type" then priors.riverType
    else if key in RiverTypeKeys then priors.riverTypePriors(key)
    else priors.otherPriors(key)
  }

  /**
    `extract_priors(prior_dict, priors)`: stores one engine value under each
    of the 41 keys, whatever the dictionary held, and leaves every other key
    alone.
  */
  function ExtractPriors(priorDict: PriorDict, priors: Priors): (d: PriorDict)
    ensures d.Keys == priorDict.Keys + Elements(PriorKeys)
    ensures forall k :: k in PriorKeys ==> d[k] == PriorValue(priors, k)
    ensures forall k :: k in priorDict && k !in PriorKeys ==> d[k] == priorDict[k]
  {
    var record := map k | k in Elements(PriorKeys) :: PriorValue(priors, k);
    priorDict + record
  }

  /** On the record from `create_prior_dict`, `extract_priors` assigns every key and adds none. */
  lemma ExtractKeepsKeys(priors: Priors)
    ensures ExtractPriors(CreatePriorDict(), priors).Keys == CreatePriorDict().Keys
    ensures forall k :: k in CreatePriorDict() ==> ExtractPriors(CreatePriorDict(), priors)[k] == PriorValue(priors, k)
  {
  }

  /** Where each prior comes from: `river_type` first, then the 24 river-type priors, then the 16 other priors. */
  lemma PriorGroups()
    ensures |PriorKeys| == 41 && PriorKeys[0] == "river_type"
    ensures PriorKeys == [PriorKeys[0]] + RiverTypeKeys + OtherKeys
    ensures |RiverTypeKeys| == 24 && |OtherKeys| == 16
  {
    assert PriorKeys == PriorKeys[..1] + PriorKeys[1..25] + PriorKeys[25..];
  }

  /** The record `append_priors_node` writes: extracted priors when the engine returned any, all fill otherwise. */
  function PriorRecord(priorData: Option<Priors>): (d: PriorDict)
    ensures d.Keys == Elements(PriorKeys)
    ensures !Truthy(priorData) ==> d == CreatePriorDict()
    ensures Truthy(priorData) ==> forall k :: k in d ==> d[k] == PriorValue(priorData.value, k)
  {
    var priorDict := CreatePriorDict();
    if Truthy(priorData) then ExtractPriors(priorDict, priorData.value) else priorDict
  }

  /** Without engine priors every one of the 41 priors is written as the fill value. */
  lemma AbsentPriorsAreFill(priorData: Option<Priors>)
    requires !Truthy(priorData)
    ensures forall k :: k in PriorKeys ==> k in PriorRecord(priorData) && PriorRecord(priorData)[k] == FillValue
  {
  }

  /** A NetCDF variable of the `reach` group: type, declared fill value, scalar value. */
  datatype Variable = Variable(dataType: string, fillValue: real, value: real)

  /** The variable `create_variable` makes for one prior. */
  function PriorVariable(value: real): Variable
  {
    Variable("f8", FillValue, value)
  }

  /** The `reach` group of an open SWORD of Science dataset: its variables by name. */
  class ReachGroup {
    var variables: map<string, Variable>

    constructor (variables: map<string, Variable>)
      ensures this.variables == variables
    {
      this.variables := variables;
    }

    /**
      `create_variable(group, name, value)`: a new "f8" variable declaring the
      fill value and holding `value`. The NaN-to-fill assignment between
      creation and assignment runs on the new, still empty variable and has
      no effect.
      `createVariable` raises on a name already in the group.
    */
    method CreateVariable(name: string, value: real)
      requires name !in variables
      modifies this
      ensures variables == old(variables)[name := PriorVariable(value)]
    {
      variables := variables[name := PriorVariable(value)];
    }
  }

  /** The variables `write_priors` adds for `priors`. */
  function PriorVariables(priors: PriorDict): (vars: map<string, Variable>)
    ensures vars.Keys == priors.Keys
    ensures forall k :: k in vars ==> vars[k].fillValue == FillValue && vars[k].value == priors[k]
  {
    map k | k in priors :: PriorVariable(priors[k])
  }

  /**
    `write_priors`: for each item of the dictionary, in whatever order the
    dictionary yields them, creates one variable in the `reach` group.
    Opening and closing the dataset are left out.
  */
  method WritePriors(grp: ReachGroup, priors: PriorDict)
    requires forall k :: k in priors ==> k !in grp.variables
    modifies grp
    ensures grp.variables == old(grp.variables) + PriorVariables(priors)
  {
    var remaining := priors.Keys;
    while remaining != {}
      invariant remaining <= priors.Keys
      invariant grp.variables == old(grp.variables) + map k | k in priors.Keys - remaining :: PriorVariable(priors[k])
      decreases remaining
    {
      var key :| key in remaining;
      grp.CreateVariable(key, priors[key]);
      remaining := remaining - {key};
    }
  }

  /**
    `append_priors_node`: builds the record, extracts the engine's priors into
    it when there are any, and writes it to the `reach` group.
  */
  method AppendPriorsNode(grp: ReachGroup, priorData: Option<Priors>)
    requires forall k :: k in PriorKeys ==> k !in grp.variables
    modifies grp
    ensures grp.variables == old(grp.variables) + PriorVariables(PriorRecord(priorData))
  {
    var priorDict := CreatePriorDict();
    if Truthy(priorData) {
      priorDict := ExtractPriors(priorDict, priorData.value);
    }
    WritePriors(grp, priorDict);
  }

  /**
    After `append_priors_node` the group holds one variable per prior, named
    by the 41 keys, each declaring the fill value; without engine priors each
    holds the fill value.
  */
  lemma WrittenVariables(before: map<string, Variable>, priorData: Option<Priors>)
    ensures var after := before + PriorVariables(PriorRecord(priorData));
      && after.Keys == before.Keys + Elements(PriorKeys)
      && (forall k :: k in PriorKeys ==> after[k].dataType == "f8" && after[k].fillValue == FillValue)
      && (!Truthy(priorData) ==> forall k :: k in PriorKeys ==> after[k].value == FillValue)
  {
  }
}
