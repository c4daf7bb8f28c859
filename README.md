# extract-sos append step, modelled in Dafny

The append step of extract-sos reads SWOT observations and SWORD of Science
(SoS) flow data for each river reach. It throws out unusable observations,
hands the rest to the geoBAM prior engine, and writes 41 priors back into the
reach's SoS file. This project models that step and proves what it computes.

- **Partition** (`partition.dfy`): splitting the reach ids over MPI ranks
  (`run_append.get_reach_dict`) and counting the split (`log_reaches`).
- **ReachIds** (`reach_ids.dfy`): reading a reach id from a file name and
  deduplicating the ids (`create_reach_list`).
- **Observations** (`observations.dfy`): the observation screen of
  `app/Input.py`.
  - Negative values of width, slope2 and Qhat become missing (NaN).
  - Validity is checked per matrix (`is_valid`).
  - Under-observed nodes and time steps are deleted (`check_observations`).
  - Qhat is repeated once per node (`format_data`).
- **Indices** (`indices.dfy`): the numpy index helpers that screen relies on
  (`count_nonzero`, `nonzero`, `unique`, `delete`).
- **Output** (`output.dfy`): the prior record of `app/Output.py`.
  - It is created with every prior at the fill value -9999.
  - The engine's priors overwrite it when there are any.
  - One NetCDF variable is written per key.
- **AppendSos** (`append_sos.dfy`): the per-reach driver of
  `app/AppendSOS.py`.
  - It sorts each reach onto `valid_list` or `invalid_list`.
  - It runs the engine only on valid data.
  - It writes one record per reach.

Missing observations (NaN) are `None` of `Option<real>`. A node x time array is
a sequence of rows.

The sanitising assignments `x[x < 0] = NaN` change the caller's arrays, so
they are methods on `array2`/`array` (`SanitizeGrid`, `SanitizeVector`,
`CheckObservations`). The rest of `check_observations` builds new arrays and
is modelled by functions.

The run (`AppendSOS.append`) is a class whose lists the loop extends. Its
postconditions tie each list to a function of the reach list. The lemmas
about those functions carry the properties.

Python's `list(set(...))` yields the ids in an unspecified order. The model
does not fix that order. It takes any `reachList` that satisfies
`Deduplicates` (distinct, with the same members as the raw list) and proves
every property for all such orders.

Behaviour of the code worth noting:

- `check_observations` returns Qhat untrimmed, even when time steps are
  deleted from the three matrices.
- `run_append.run` constructs `AppendSOS(Path(data_dir), rank_logger,
  reach_dict[rank])`, but `AppendSOS.__init__` takes only `data_dir` and lists
  the directory itself. The model follows `app/AppendSOS.py`: the constructor
  receives the directory and the order `create_reach_list` produced.
- `create_variable` assigns the fill value to the NaN cells of a variable that
  was just created and is still empty. That assignment has no effect on what
  is written.

## Model

| member | source | states |
|---|---|---|
| Observations.Sanitize | app/Input.py:58-60 | a cell becomes missing exactly when it was missing or negative; otherwise it is unchanged |
| Observations.SanitizeGrid | app/Input.py:59-60 | in place on a node x time array: each cell is missing afterwards exactly when it was missing or negative before, and the array equals the sanitised old contents |
| Observations.SanitizeVector | app/Input.py:58 | in place on the Qhat vector: each value is missing exactly when it was missing or negative before, and the vector equals the sanitised old contents |
| Observations.NegativeWidthIsMissing | app/Input.py:60 | replacing one negative width value by NaN, with nothing else changed, leaves the result of `check_observations` unchanged |
| Observations.NegativeSlopeIsMissing | app/Input.py:59 | replacing one negative slope2 value by NaN, with nothing else changed, leaves the result of `check_observations` unchanged |
| Observations.NegativeQhatIsMissing | app/Input.py:58 | replacing one negative Qhat value by NaN, with nothing else changed, leaves the result of `check_observations` unchanged |
| Observations.IsValid | app/Input.py:104-136 | both index lists are `None` exactly when invalid. When valid, the lists are ascending, duplicate-free and in range, and list exactly the nodes and time steps with fewer than 5 present values |
| Observations.IsValidExactly | app/Input.py:111-130 | valid iff at least 5 time steps have 5 or more present nodes and at least 5 nodes have 5 or more present time steps; the lists then name exactly the sparse nodes and sparse time steps |
| Observations.WellObservedTimesCounted | app/Input.py:112-116 | the count of time steps whose count is at least 5 is the number of well-observed time steps |
| Observations.WellObservedNodesCounted | app/Input.py:119-123 | the count of nodes whose count is at least 5 is the number of well-observed nodes |
| Observations.SparseNodesListed | app/Input.py:128 | `nonzero(nodes < 5)` names exactly the nodes with fewer than 5 present values |
| Observations.SparseTimesListed | app/Input.py:129 | `nonzero(time < 5)` names exactly the time steps with fewer than 5 present values |
| Observations.CompleteIsValid | app/Input.py:104-130 | a matrix with every value present and at least 5 nodes and 5 time steps is valid and lists nothing |
| Observations.DroppedExactly | app/Input.py:82-90 | the dropped node list is ascending. It and the dropped time steps are exactly the union of the three matrices' sparse nodes and sparse time steps |
| Observations.TrimSelects | app/Input.py:84-93 | deleting rows and then columns keeps exactly the surviving nodes and time steps, holding the original values in the original relative order |
| Observations.Screen | app/Input.py:62-102 | usable iff the first Qhat value is present and slope2, width and d_x_area are all valid; Qhat is returned as given |
| Observations.CheckedObservations | app/Input.py:47-102 | a missing or negative first Qhat value gives the empty result; a usable result carries the sanitised Qhat |
| Observations.CheckObservations | app/Input.py:47-102 | width, slope2 and Qhat are sanitised in place, d_x_area is not modified, and the result is `CheckedObservations` of the values held on entry |
| Observations.CheckedDrops | app/Input.py:81-101 | `invalid_indexes` is ascending and holds exactly the nodes some sanitised matrix under-observes; width is shorter by exactly that many nodes |
| Observations.CheckedKeeps | app/Input.py:81-99 | each returned matrix is its sanitised input minus exactly the under-observed nodes and time steps, with every other cell kept in order |
| Observations.ScreenDrops | app/Input.py:81-101 | `CheckedDrops` for data already sanitised |
| Observations.ScreenKeeps | app/Input.py:81-99 | `CheckedKeeps` for data already sanitised |
| Observations.DroppedCount | app/Input.py:82-85 | deleting the dropped node list shortens a matrix by exactly its length |
| Observations.CompleteInputUnchanged | app/Input.py:47-102 | complete, non-negative data with at least 5 nodes and 5 time steps come back unchanged with nothing dropped |
| Observations.Repeat | app/Input.py:39 | `np.repeat(q, n)` has length `len(q) * n` |
| Observations.RepeatAt | app/Input.py:39 | the j-th copy of the i-th value sits at position `i * n + j` |
| Observations.FormatData | app/Input.py:23-45 | a missing or negative first Qhat rejects the reach; valid data carry exactly the reach's Qhat repeated once per node (`np.repeat`), sanitised, of length `len(qhat) * nodes` |
| Indices.Ascending | app/Input.py:128-129 | `np.nonzero` of a mask: ascending, duplicate-free, and holding exactly the members below the length |
| Indices.Unique | app/Input.py:82-83 | `np.unique`: ascending, duplicate-free, and holding exactly the members of its input |
| Indices.UniqueOfConcatenation | app/Input.py:82-83 | `unique` of three concatenated lists holds exactly the union of their members |
| Indices.DeleteSelects | app/Input.py:84-86 | the k-th element kept by `np.delete` is the element at the k-th surviving position |
| Indices.DeleteLength | app/Input.py:84-86 | `np.delete` shortens the axis by the number of dropped positions on it |
| Indices.DeleteSortedLength | app/Input.py:84-86 | deleting a sorted, in-range list of positions shortens the axis by its length |
| Indices.CountIfIsCardinality | app/Input.py:112-113 | `count_nonzero` of a mask is the number of positions the mask selects |
| ReachIds.Field | run_append.py:47 | `split('_')[0]`: a prefix of the name, free of `_`, followed by `_` unless it is the whole name |
| ReachIds.ReachIdOfFields | run_append.py:47 | a name `a_b` or `a_b_rest` whose fields are free of `_` has reach id `a_b` |
| ReachIds.ReachIdIdempotent | app/AppendSOS.py:65 | the reach id of a reach id is itself |
| ReachIds.IdsOf | app/AppendSOS.py:64-65 | one id per directory entry, in entry order |
| ReachIds.FirstOccurrences | app/AppendSOS.py:66 | one possible `list(set(ids))`: duplicate-free, same members, no longer than the raw list |
| ReachIds.DeduplicatesLength | run_append.py:50-51 | every ordering that `list(set(...))` may produce has the same length, the number of distinct ids |
| Partition.GetReachDict | run_append.py:41-72 | keys are exactly the ranks `0..size-1`, and each rank holds its block of `total // size` ids plus one leftover id when it is below `total % size` |
| Partition.DealBlocks | run_append.py:55-61 | rank i gets ids `[i*q, (i+1)*q)`, and the counter ends at `size * q` |
| Partition.DealRemainder | run_append.py:63-70 | the `total % size` leftover ids go one each to ranks 0, 1, ... in turn |
| Partition.Balanced | run_append.py:51-70 | every rank holds `total // size` or one more; a lower rank never holds fewer ids than a higher one |
| Partition.ExactlyOneRank | run_append.py:55-70 | with distinct ids, each id is held by exactly one rank, its owner |
| Partition.AllAssigned | run_append.py:55-70 | the ranks together hold exactly `total` ids |
| Partition.LogReaches | run_append.py:96-106 | logs each key's list length, counted element by element, and a total equal to the sum of those lengths |
| Partition.LoggedTotal | run_append.py:96-106 | for the dictionary of `get_reach_dict`, the logged total is the number of distinct reach ids |
| Output.CreatePriorDict | app/Output.py:35-78 | keys are exactly the 41 prior names, each at the fill value -9999 |
| Output.ExtractPriors | app/Output.py:80-126 | each of the 41 keys receives the engine's value and every other key is kept |
| Output.ExtractKeepsKeys | app/Output.py:80-126 | on a fresh record, extraction assigns every key and adds none |
| Output.PriorGroups | app/Output.py:83-126 | `river_type` first, then 24 river-type priors, then 16 other priors |
| Output.PriorRecord | app/Output.py:22-33 | holds the 41 keys; without engine priors (None or an empty list) it is the all-fill record, otherwise every value comes from the engine |
| Output.AbsentPriorsAreFill | app/Output.py:26-33 | without engine priors every one of the 41 priors is written as the fill value |
| Output.ReachGroup.CreateVariable | app/Output.py:148-153 | adds one variable of type "f8" under the new name, declaring the fill value and holding the given value; nothing else changes |
| Output.WritePriors | app/Output.py:128-146 | the group gains exactly one variable per dictionary item, whatever the iteration order |
| Output.AppendPriorsNode | app/Output.py:22-33 | the group gains the variables of `PriorRecord` for the given priors |
| Output.WrittenVariables | app/Output.py:22-33 | afterwards the group has a variable for each of the 41 priors, each declaring the fill value, all holding it when there were no engine priors |
| AppendSos.FileNameGivesReach | app/AppendSOS.py:39-40 | the reach id read back from `reach_SWOT.nc` or `reach_SWORD.nc` is the reach |
| AppendSos.AppendSOS.constructor | app/AppendSOS.py:25-29 | stores the directory and the deduplicated reach list; both outcome lists start empty |
| AppendSos.AppendSOS.ProcessReach | app/AppendSOS.py:44-59 | one loop pass: the reach goes on exactly one list, the engine runs only on usable data, and one record is written to the SoS path |
| AppendSos.AppendSOS.Append | app/AppendSOS.py:31-59 | each list ends as its old value plus the reaches with the matching outcome, in order. The engine sees exactly the usable outcomes, and there is one write per reach |
| AppendSos.KeptSplit | app/AppendSOS.py:46-54 | the two lists together hold as many reaches as were processed |
| AppendSos.KeptIsDelete | app/AppendSOS.py:46-54 | each list is the reach list minus the positions with the other outcome, in order |
| AppendSos.KeptMembers | app/AppendSOS.py:46-54 | with distinct reaches, a reach is on `valid_list` iff its data were usable, and on `invalid_list` iff not |
| AppendSos.EngineRunsPerValidReach | app/AppendSOS.py:46-51 | the engine runs once per valid reach |
| AppendSos.WritesPerReach | app/AppendSOS.py:45-59 | the k-th write goes to the reach's SoS path. Its priors are `None` exactly for invalid data, and then the record is all fill; otherwise they are the engine's result |
| AppendSos.MissingQhatIsInvalid | app/AppendSOS.py:41-46 | a reach whose first Qhat value is missing or negative is invalid |
| AppendSos.ValidQhatRepeated | app/AppendSOS.py:41-49 | the Qhat the engine receives for a valid reach is exactly the reach's Qhat repeated once per node, sanitised, of length `len(qhat) * nodes` |

## Left out

- NetCDF reads: the SWOT and SoS reads and `.filled(np.nan)` are the function
  parameter `read` of `FormatInput`. Opening and closing datasets is not
  modelled.
- The geoBAM engine (rpy2/R): `bam_data` and `bam_priors` are the function
  parameter `engine`. Each `rx2(...)` element read, including `[0][0]` for the
  two sigmas, is a field of `Priors`.
- MPI: `COMM.Get_size()` is the parameter `size`. The broadcast, the barrier
  and the ranks running in parallel are not modelled.
- `scandir`: the entry names are a parameter.
- Logging, timing and the command line (`log_results`,
  `create_rank_logger`, `run`) are not modelled. `LogReaches` returns the
  logged counts instead of writing them.
- The order of `list(set(...))` is unspecified in Python, so it is not
  modelled. The model quantifies over every duplicate-free ordering with the
  right members (`Deduplicates`).
- `run_append.run`: its three-argument `AppendSOS(...)` call does not match
  the one-argument `AppendSOS.__init__`. The model follows the class.
- Python raises on a file name without `_` (`split('_')[1]`). In the model this
  is the precondition `Named`.
- NetCDF raises in `createVariable` when a name already exists. In the model
  this is the precondition of `CreateVariable`, `WritePriors` and
  `AppendPriorsNode`.
- Empty, ragged or differently shaped arrays, and an empty Qhat (where
  `qhat[0]` raises), are excluded by the precondition `WellShaped`.
- AppendSos.AppendSOS.Append: exceptions are not modelled. In the source
  nothing in the loop is caught, so a missing SWOT or SoS file, an engine
  error or a failing write stops the whole loop. A reach whose engine run or
  write fails is already on `valid_list` (app/AppendSOS.py:48) but gets no
  record, and later reaches are never processed. In the model `validate`, `engine` and the write are total, and
  every reach is processed.
- AppendSos.AppendSOS.Append: takes the reading-and-screening step as a function
  parameter `validate`. `FormatInput` connects it to `FormatData`.
- `extract_priors`: the 41 key-by-key assignments are modelled as one map
  update. Python mutates the caller's dictionary; the model returns the new
  dictionary.
- Output.CreatePriorDict: the 41 prior names are not proved pairwise
  distinct, so the record is shown to have exactly the names of the literal
  but not that there are 41 of them.
- Floating point: values are `real`. A missing observation (NaN) is `None`,
  and `-9999.0` is the fill value. Prior values are plain `real`, so a NaN
  returned by the engine is not modelled.
