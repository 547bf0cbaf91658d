# fast_gypsum_dl: the preparation core, modelled in Dafny

Gypsum-DL turns a file of small molecules (SMILES or SDF) into 3D models. Around the
chemistry there is a core of bookkeeping, and this project models that core:

- how the run parameters are built: the default table, lower-cased user keys, the
  merge with its type checks, and the final path and mode adjustments;
- the run-mode checks made at start-up;
- how the SMILES and SDF loaders name their compounds, including made-up names for
  unnamed compounds and `_copy_k` names for repeated ones;
- how accepted compounds become molecule containers, numbered in input order;
- how protonation work items are formed, and how containers Dimorphite-DL left
  without variants fall back to their original molecule;
- how `parallel_add_H` filters the protonated molecules and builds their genealogy;
- how every final variant gets a `UniqueID`;
- how containers without variants are reported in a `.failed.smi` file.

Modules:

- `Wrappers`: `Option` and `Result`.
- `Text`: the Python string operations used. These are `str.isspace`, `strip`, `split()`,
  `join`, `split("\n")`, ASCII `lower` and `str(n)`.
- `PyValues`: parameter values, and `isinstance` with `bool` as a subclass of `int`.
- `Parameters`: `set_parameters`, `merge_parameters`, `make_type_dict`, `finalize_params`
  and the run-mode lines of `prepare_molecules`. The parameter dictionary is the class
  `Parameters.Parameters`, and its methods update it in place.
- `Molecules`: the classes `MyMol` and `Container`, the input `Record`, and the chemistry
  library as a datatype of uninterpreted functions (`Chemistry`).
- `LoadFiles`: `load_smiles_file` and `load_sdf_file`.
- `Start`: the container loop, `add_mol_id_props` and `deal_with_failed_molecules`.
- `AddHydrogens`: `add_hydrogens` and `parallel_add_H`.

Each imperative routine is a method proved against a specification function. The
properties are proved about that function as lemmas.

`load_smiles_file` renames a repeated name to `<name>_copy_k` and announces that the
entry "will be retitled" (gypsum/Steps/IO/LoadFiles.py:45-61), which suggests that names
are meant to be unique. The code does not always make them so, and this model follows the
code:

- `load_smiles_file` does not check whether a `_copy_k` name is already in use.
  `LoadFiles.DedupCanRepeat` shows the names `a`, `a_copy_2`, `a` coming out as `a`,
  `a_copy_2`, `a_copy_2`. Names are distinct only when no name is already the copy name
  of another (`LoadFiles.SmilesNamesDistinct`).
- `load_sdf_file` lets repeated given names through unchanged (see Findings).

## Model

| member | source | states |
|---|---|---|
| Parameters.NameInjective | gypsum/Start.py:233-259 | no two parameters of the default table share a key |
| Parameters.LookupParam | gypsum/Start.py:311-313 | the `key in default` test finds the parameter whose key is `key`, and nothing when no parameter has it |
| Parameters.ParamNamedName | gypsum/Start.py:233-259 | looking up a parameter's own key finds that parameter |
| Parameters.InsertionOrderDistinct | gypsum/Start.py:264-280 | the keys of the lowered user dictionary are exactly the assigned keys, each once |
| Parameters.InsertionOrderFollowsFirstAssignment | gypsum/Start.py:264-280 | a key assigned earlier comes before a key first assigned later |
| Parameters.AssignedHoldsLastValue | gypsum/Start.py:264-280 | each lower-cased key holds the value of the last user entry whose key lowers to it |
| Parameters.AssignedKeys | gypsum/Start.py:264-280 | the lowered dictionary's keys are exactly the lower-cased user keys |
| Parameters.LowerKeys | gypsum/Start.py:264-280 | the loop yields the keys in insertion order and the lowered dictionary |
| Parameters.TypeDict | gypsum/Start.py:334-365 | a type dictionary exists iff every value has an allowed type; it has the same keys |
| Parameters.MakeTypeDict | gypsum/Start.py:334-365 | succeeds iff every value has an allowed type, and then returns the type dictionary; otherwise it raises the unsupported-type error |
| PyValues.RecordedTypeIsLastMatch | gypsum/Start.py:349-360 | the type recorded is the last allowed type the value is an instance of, so a boolean is recorded as `bool`, not `int` |
| PyValues.InstanceOfRecordedType | gypsum/Start.py:349-360 | a value of the recorded type meets every type constraint the default met |
| Parameters.Widen | gypsum/Start.py:317-329 | an `int` given for a `float` default is stored as a float; any other accepted value is stored as given, and it is an instance of the default's type |
| Parameters.FirstBad | gypsum/Start.py:304-331 | the first user key the merge rejects: every key before it is accepted |
| Parameters.FirstBadAt | gypsum/Start.py:304-331 | the first rejected key is the first key after an accepted prefix |
| Parameters.Overlay | gypsum/Start.py:304-331 | writing accepted user values over the defaults keeps the key set |
| Parameters.OverlayKeeps | gypsum/Start.py:304-331 | a parameter that no user key names keeps its default |
| Parameters.OverlayWrites | gypsum/Start.py:317-329 | the parameter a user key names holds that key's value, widened |
| Parameters.OverlayKeepsWellTyped | gypsum/Start.py:317-329 | every value keeps its default's type after the overlay |
| Parameters.Merged | gypsum/Start.py:290-332 | the keys are kept; an unsupported default type raises; success means every key was accepted; an unknown key always raises |
| Parameters.MergedAt | gypsum/Start.py:304-331 | the merge stops at the first rejected key, with `KeyError` for an unknown key and `TypeError` for a wrong type, and leaves the values written before it |
| Parameters.OverlayStep | gypsum/Start.py:304-331 | one more accepted key extends the overlay by the value written for it |
| Parameters.MergedWrites | gypsum/Start.py:317-329 | after a clean merge, each named parameter holds the user's value, widened |
| Parameters.MergedKeeps | gypsum/Start.py:290-332 | after a clean merge, a parameter no user key names keeps its default |
| Parameters.MergedKeepsWellTyped | gypsum/Start.py:290-332 | whatever the user supplies, the dictionary stays well typed, even when the merge raises partway |
| Parameters.Parameters.Merge | gypsum/Start.py:290-332 | updates the dictionary in place to the merged one, and reports the exception raised |
| Parameters.WellTypedUpdate | gypsum/Start.py:367-438 | storing a value of the parameter's default type keeps the dictionary well typed |
| Parameters.WithAbsoluteSource | gypsum/Start.py:401-402 | only `source` changes, and it becomes a string |
| Parameters.WithDefaultFolder | gypsum/Start.py:405-408 | only `output_folder` changes; a given folder is kept; with a source the folder is never left empty |
| Parameters.WithDefaultFile | gypsum/Start.py:422-423 | only `output_file` changes; a given file is kept; an empty file becomes `output.sdf` in the folder; the file stays empty iff file and folder were both empty |
| Parameters.WithLowerMode | gypsum/Start.py:436 | only `multithread_mode` changes, and it becomes lower-case |
| Parameters.Finalized | gypsum/Start.py:367-438 | raises the missing-source error iff `source` is empty; a source with a non-empty absolute path raises nothing; success leaves a well-typed dictionary |
| Parameters.FinalizedOutputs | gypsum/Start.py:367-438 | on success: absolute source, an output file always named, given output locations kept, mode lower-cased, every other parameter unchanged |
| Parameters.Parameters.Finalize | gypsum/Start.py:367-438 | updates the dictionary in place as `Finalized` says, and reports the exception raised |
| Parameters.RunMode | gypsum/Start.py:86-105 | raises iff the mode is `mpi` and mpi4py is missing; serial mode means one processor; on Windows the mode becomes serial; other parameters are unchanged |
| Parameters.Parameters.ConfigureRunMode | gypsum/Start.py:86-105 | updates the dictionary in place as `RunMode` says |
| Parameters.Parameters.Defaults | gypsum/Start.py:233-259 | the dictionary starts as the default table, which is well typed |
| Parameters.DefaultTypes | gypsum/Start.py:233-259 | the default table is well typed, and its type dictionary is each parameter's default type |
| Parameters.Configured | gypsum/Start.py:221-288 | a successful configuration is well typed |
| Parameters.ConfiguredParts | gypsum/Start.py:221-288 | success means a merge that raised nothing, followed by a finalization that raised nothing |
| Parameters.UnknownKeyRejected | gypsum/Start.py:311-313 | a user key, lower-cased, that names no parameter makes `set_parameters` raise |
| Parameters.ConfiguredTakesUserValue | gypsum/Start.py:264-332 | on success, the last user value for a key fits the parameter's type and is stored, widened, unless finalization rewrites it |
| Parameters.ConfiguredKeepsDefault | gypsum/Start.py:233-332 | on success, a parameter the user does not name keeps its default unless finalization rewrites it |
| Parameters.SetParameters | gypsum/Start.py:221-288 | returns the configured dictionary or the exception it raises |
| Text.StripKeepsText | gypsum/Steps/IO/LoadFiles.py:29 | `strip` removes only white space |
| Text.WordsKeepEveryNonSpaceChar | gypsum/Steps/IO/LoadFiles.py:32 | `split()` loses no non-space character |
| Text.WordsOfStrip | gypsum/Steps/IO/LoadFiles.py:29-32 | splitting a stripped line gives the same words as splitting the line |
| Text.SplitJoin | gypsum/Start.py:476-481 | splitting a newline-joined list of newline-free lines gives the lines back |
| Text.LowerIdempotent | gypsum/Start.py:436 | lower-casing leaves no upper-case letter, and lower-casing twice is lower-casing once |
| Text.NatStrInjective | gypsum/Start.py:451-452 | different numbers give different decimal strings |
| LoadFiles.CopyNameInjective | gypsum/Steps/IO/LoadFiles.py:50-57 | a `_copy_k` name determines both the name and `k` |
| LoadFiles.Dedup | gypsum/Steps/IO/LoadFiles.py:45-64 | one output name per input name |
| LoadFiles.DedupRenamesRepeats | gypsum/Steps/IO/LoadFiles.py:45-64 | when no name is a copy name of another: the first occurrence keeps its name, occurrence `k` becomes `name_copy_k`, and the counter of a name is the number of times it occurs if it occurs twice or more |
| LoadFiles.DedupDistinct | gypsum/Steps/IO/LoadFiles.py:45-64 | under that same condition, the renamed names are pairwise distinct |
| LoadFiles.DedupCanRepeat | gypsum/Steps/IO/LoadFiles.py:45-61 | the names `a`, `a_copy_2`, `a` come out as `a`, `a_copy_2`, `a_copy_2`: a copy name is not checked against names already used |
| LoadFiles.RenameRepeat | gypsum/Steps/IO/LoadFiles.py:45-61 | the in-place renaming of one name agrees with `Rename` |
| LoadFiles.ParseLine | gypsum/Steps/IO/LoadFiles.py:29-34 | the SMILES of a non-blank line is a single word |
| LoadFiles.ParseLineKeepsText | gypsum/Steps/IO/LoadFiles.py:29-34 | the SMILES and the name keep every non-space character of the line, in order |
| LoadFiles.EntryOfLine | gypsum/Steps/IO/LoadFiles.py:27-35 | non-blank line `p` gives the entry numbered by the non-blank lines before it |
| LoadFiles.EntriesCount | gypsum/Steps/IO/LoadFiles.py:27-35 | there is one entry per non-blank line |
| LoadFiles.RawLineName | gypsum/Steps/IO/LoadFiles.py:36-43 | an unnamed entry is called `untitled_lig_{u}_line_{k}`, with `u` the unnamed entries before it and `k` its entry number; otherwise it keeps its name |
| LoadFiles.LineRecordAt | gypsum/Steps/IO/LoadFiles.py:63-66 | record `k` holds entry `k`'s SMILES, name `k` and no properties |
| LoadFiles.SmilesRecordOfLine | gypsum/Steps/IO/LoadFiles.py:11-69 | non-blank line `p` gives a record: its SMILES, its renamed name and no properties, at the position given by the non-blank lines before it |
| LoadFiles.SmilesNamesDistinct | gypsum/Steps/IO/LoadFiles.py:11-69 | when no name collides with a copy name, the records' names are pairwise distinct |
| LoadFiles.SplitLine | gypsum/Steps/IO/LoadFiles.py:29-35 | a blank line gives no entry; any other line gives its SMILES and name |
| LoadFiles.NameLine | gypsum/Steps/IO/LoadFiles.py:36-61 | counts one more unnamed entry iff the name was empty, then renames as `Rename` says |
| LoadFiles.LoadSmilesFile | gypsum/Steps/IO/LoadFiles.py:11-69 | the records returned are `SmilesRecords(lines)` |
| LoadFiles.UntitledMolInjective | gypsum/Steps/IO/LoadFiles.py:101 | the made-up SDF names are all different |
| LoadFiles.UntitledMolFresh | gypsum/Steps/IO/LoadFiles.py:99-123 | as written, a made-up name is never among the earlier made-up names, so the renaming never fires |
| LoadFiles.NameUnnamedMol | gypsum/Steps/IO/LoadFiles.py:99-126 | an unnamed molecule gets `untitled_lig_{n}_molnum_{n}` and the duplicate counters are untouched |
| LoadFiles.SdfRecordsAsWritten | gypsum/Steps/IO/LoadFiles.py:71-137 | at most one record per molecule |
| LoadFiles.SdfRecordsAsWrittenCount | gypsum/Steps/IO/LoadFiles.py:134-135 | as written, there is exactly one record per molecule with a non-empty SMILES |
| LoadFiles.SdfRecordAsWrittenOfMol | gypsum/Steps/IO/LoadFiles.py:86-135 | as written, molecule `p` with a SMILES gives the record numbered by the kept molecules before it, holding its SMILES, its properties and its given name, or `untitled_lig_{u}_molnum_{u}` for the `u`-th unnamed molecule |
| LoadFiles.SdfRecordAsWrittenFrom | gypsum/Steps/IO/LoadFiles.py:134-135 | as written, every record comes from a molecule with a SMILES, in order |
| LoadFiles.LoadSdfFileAsWritten | gypsum/Steps/IO/LoadFiles.py:71-137 | the loader as written returns `SdfRecordsAsWritten(ms)` |
| LoadFiles.SdfNamesPassThrough | gypsum/Steps/IO/LoadFiles.py:97-124 | as written, two molecules named `a` both keep `a` |
| LoadFiles.LoadSdfFile | gypsum/Steps/IO/LoadFiles.py:71-137 | the corrected loader returns `SdfRecords(ms)`: every name is renamed, and `molnum` counts every molecule |
| LoadFiles.KeptMolsCount | gypsum/Steps/IO/LoadFiles.py:134-135 | one kept record per molecule with a non-empty SMILES |
| LoadFiles.KeptMolAt | gypsum/Steps/IO/LoadFiles.py:134-135 | molecule `p` with a SMILES gives the record numbered by the kept molecules before it, with its SMILES, name and properties |
| LoadFiles.KeptMolFrom | gypsum/Steps/IO/LoadFiles.py:134-135 | every kept record comes from a molecule with a SMILES, in order |
| LoadFiles.RawMolNameAt | gypsum/Steps/IO/LoadFiles.py:97-104 | before renaming, molecule `k` has its given name, or `untitled_lig_{u}_molnum_{k}` for the `u`-th unnamed molecule |
| LoadFiles.SdfRecordOfMol | gypsum/Steps/IO/LoadFiles.py:86-135 | the corrected loader gives one record per molecule with a SMILES; molecule `p`'s record holds its SMILES, its properties and its renamed name `Dedup(RawMolNames(ms)).0[p]` |
| LoadFiles.KeptMolsDistinct | gypsum/Steps/IO/LoadFiles.py:134-135 | dropping the molecules with an empty SMILES keeps distinct names distinct |
| LoadFiles.SdfNamesDistinct | gypsum/Steps/IO/LoadFiles.py:71-137 | corrected: when no name collides with a copy name, the record names are pairwise distinct |
| LoadFiles.SdfRenamesRepeats | gypsum/Steps/IO/LoadFiles.py:106-123 | corrected: of two molecules named `a`, the second becomes `a_copy_2` |
| Start.Accepted | gypsum/Start.py:154-166 | at most one kept record per input record |
| Start.AcceptedMembers | gypsum/Start.py:154-166 | a record is kept iff it is an input record with no unassigned bonds and a canonical SMILES |
| Start.AcceptedIdentity | gypsum/Start.py:154-170 | a kept record's container index is the number of records kept before it |
| Start.KeepConverted | gypsum/Start.py:172-173 | the filter keeps only containers with a canonical SMILES; when all have one, nothing is removed |
| Start.CreateContainers | gypsum/Start.py:154-175 | one container per accepted record, carrying index `i`, that record's SMILES, name and properties; the corruption check never fires |
| Start.FlattenAt | gypsum/Start.py:448-452 | the variants of list `c` come right after those of the lists before it |
| Start.VariantPosition | gypsum/Start.py:448-452 | variant `j` of container `c` is at position (variants of earlier containers) + `j` |
| Start.UniqueId | gypsum/Start.py:451-452 | each identity is a non-empty decimal string |
| Start.UniqueIdsDistinct | gypsum/Start.py:451-452 | different positions get different identities |
| Start.WithUniqueIds | gypsum/Start.py:448-452 | the property map at position `k` gains `UniqueID` = `str(k+1)`, and nothing else changes |
| Start.NumberVariants | gypsum/Start.py:450-452 | the inner loop numbers one container's variants at their positions and leaves the other variants alone; no other field of a variant changes |
| Start.AddMolIdProps | gypsum/Start.py:440-452 | every variant, in container order, gets `UniqueID` "1", "2", …; the variant lists and every other field of a variant do not change |
| Start.FailedLinesExactly | gypsum/Start.py:465-469 | a line is reported iff it is `orig_smi + "\t" + name` of a container with no variant |
| Start.FailedLinePosition | gypsum/Start.py:465-469 | failed containers are reported in container order |
| Start.DealWithFailedMolecules | gypsum/Start.py:455-482 | no file iff no container failed; otherwise `<output_file>.failed.smi` holding the failed lines joined by newlines |
| Start.FailedReportSplits | gypsum/Start.py:476-481 | when names and SMILES hold no newline, the file splits back into exactly the failed lines |
| AddHydrogens.ProtonationSettings.constructor | gypsum/Steps/SMILES/AddHydrogens.py:55-57 | the settings hold exactly `min_ph`, `max_ph` and `st_dev` |
| AddHydrogens.WorkItems | gypsum/Steps/SMILES/AddHydrogens.py:60 | at most one work item per container; every item has a canonical SMILES and the shared settings |
| AddHydrogens.WorkItemsExactly | gypsum/Steps/SMILES/AddHydrogens.py:60 | a container is dispatched iff it is one of the containers and has a canonical SMILES |
| AddHydrogens.WorkItemsAppend | gypsum/Steps/SMILES/AddHydrogens.py:60 | the work items keep container order |
| AddHydrogens.Originals | gypsum/Steps/SMILES/AddHydrogens.py:80 | the original molecules of the missing containers, in the order they were missed |
| AddHydrogens.AddFallbacks | gypsum/Steps/SMILES/AddHydrogens.py:72-92 | each missing container's original molecule is appended to the results, gets that container's index and a three-line genealogy; every other field and molecule is untouched |
| AddHydrogens.AddHydrogens | gypsum/Steps/SMILES/AddHydrogens.py:55-92 | fresh settings with the three entries; work items as `WorkItems`; results are the dispatched ones followed by the fallbacks; a missing container's original molecule gets the container's index and the fallback genealogy of its original SMILES, and keeps its name, SMILES and properties; every other original molecule is unchanged |
| AddHydrogens.Parsed | gypsum/Steps/SMILES/AddHydrogens.py:128 | each protonated SMILES is stripped, then parsed with hydrogens added, in order |
| AddHydrogens.Survivors | gypsum/Steps/SMILES/AddHydrogens.py:131-134 | no more survivors than parsed molecules |
| AddHydrogens.SurvivorsExactly | gypsum/Steps/SMILES/AddHydrogens.py:131-134 | a molecule survives iff it was parsed and has no bizarre substructure |
| AddHydrogens.SurvivorsAppend | gypsum/Steps/SMILES/AddHydrogens.py:131-134 | the filters keep order |
| AddHydrogens.KeptExactly | gypsum/Steps/SMILES/AddHydrogens.py:128-134 | a molecule is kept iff some protonated SMILES parses to it and it has no bizarre substructure |
| AddHydrogens.KeptAppend | gypsum/Steps/SMILES/AddHydrogens.py:128-134 | the kept molecules keep Dimorphite-DL's order |
| AddHydrogens.LineageExtends | gypsum/Steps/SMILES/AddHydrogens.py:145-149 | a variant's genealogy extends the original's; it grows by `smiles(True) + " (protonated)"` iff the SMILES differs from the original's |
| AddHydrogens.NewVariant | gypsum/Steps/SMILES/AddHydrogens.py:143-151 | a fresh variant of the molecule, with the container's index and SMILES, the original's name and the lineage genealogy |
| AddHydrogens.MakeVariants | gypsum/Steps/SMILES/AddHydrogens.py:140-153 | one fresh, distinct variant per kept molecule, in order, each built as `NewVariant` says |
| AddHydrogens.ParallelAddH | gypsum/Steps/SMILES/AddHydrogens.py:100-153 | raises iff the canonical SMILES is not a string, leaving the settings alone; otherwise stores `smiles` in the shared settings and returns variants of exactly the kept molecules; the original molecule is unchanged |

## Left out

- File reading and writing are left out. The loaders take the file's lines (SMILES) or
  the molecules RDKit read (SDF). `deal_with_failed_molecules` returns the file name and
  contents instead of writing them.
- Printing and `Utils.log` are left out: they change no state.
- RDKit and Dimorphite-DL are left out. The calls used are uninterpreted functions in
  `Molecules.Chemistry`: `detect_unassigned_bonds`, the canonical SMILES, `MolFromSmiles`
  and `AddHs`, `remove_bizarre_substruc`, `MyMol.smiles()` and `protonate`. Nothing is
  assumed about their results.
- AddHydrogens.Parsed: a protonated SMILES that RDKit cannot parse is `None` and is
  dropped by the `if mol is not None` filter (gypsum/Steps/SMILES/AddHydrogens.py:131).
  In the code, `Chem.AddHs(Chem.MolFromSmiles(...))` (line 128) raises for such a
  SMILES instead, because `AddHs(None)` raises, so the filter never removes anything.
  The model follows the evident intent of line 131 and does not model that exception.
- The properties of an SDF molecule are an input. `GetPropsAsDict` is not modelled.
- `Parallelizer.run` and `flatten_list` are not part of this model. `add_hydrogens` takes
  the dispatcher's flattened results as an input, and the work items are not executed.
- `Utils.fnd_contnrs_not_represntd` is not part of this model. The indices of the
  missing containers are an input.
- `ChemUtils.bst_for_each_contnr_no_opt`, the pruning step of `add_hydrogens`, is not
  part of this model.
- `MyMol.inherit_contnr_props` is not part of this model. A new variant copies only the
  container's index and original SMILES. `Hm.inherit_contnr_props(contnr)`
  (gypsum/Steps/SMILES/AddHydrogens.py:144) also copies the container's property map,
  and the model does not copy it.
- `set_rdkit_mol_prop` and `set_all_rdkit_mol_props` are not modelled. The `UniqueID`
  is stored in the variant's property map.
- `os.path.abspath`, the directory derived from it, and `os.sep` are the uninterpreted
  functions of `Parameters.PathEnv`. The model never lets `abspath` raise, so the
  "Source file doesn't exist." exception (Start.py 403-404) is left out.
- Creating the output folder (Start.py 137-141) is left out.
- Loading a JSON parameter file and the warning that overrides it are left out.
- The choice of loader by file extension (Start.py 123-134) is left out.
- The rest of `prepare_molecules` is left out: the later SMILES and 3D steps, and
  creating the `Parallelizer` object.
- Parameter values are integers, reals for Python floats, booleans, strings, or `Other`
  for anything else. Floating-point rounding is not modelled.
- `Text.Lower` lower-cases ASCII letters only. Python lower-cases all of Unicode.
- The platform and whether mpi4py can be imported are boolean inputs to `RunMode`.
- LoadFiles.DedupRenamesRepeats, LoadFiles.DedupDistinct, LoadFiles.SmilesNamesDistinct and LoadFiles.SdfNamesDistinct assume that no input name is already a `_copy_k` name of another input name. Without that assumption the code can repeat a name (`LoadFiles.DedupCanRepeat`).
- Start.AddMolIdProps requires the variants to be distinct objects. The source assumes this, since each variant is created once and put in one container.
- AddHydrogens.AddFallbacks requires the containers' original molecules to be distinct objects, as each container creates its own.
- AddHydrogens.AddHydrogens requires the same distinct original molecules as `AddFallbacks`.

## Findings

| source | as written | input that shows it | evidently intended | confidence | as-written member | corrected member |
|---|---|---|---|---|---|---|
| gypsum/Steps/IO/LoadFiles.py:97-124 | The duplicate-name check and `mol_obj_counter += 1` are inside the `if name == "":` branch. A named molecule is never checked against earlier names, and `molnum` counts only unnamed molecules. | Two molecules with non-empty SMILES, both named `a`: both records keep the name `a`. | The same renaming as `load_smiles_file`: the second molecule becomes `a_copy_2`, and `molnum` counts every molecule. | not executed | LoadFiles.SdfNamesPassThrough | LoadFiles.LoadSdfFile |
