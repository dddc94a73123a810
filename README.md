# Basecaller calibration and JSON-to-checkpoint conversion, in Dafny

This project models the data-handling core of two utilities of a nanopore
basecalling toolkit and proves properties of that model.

* **Per-read quality calibration** (`calibrate_qscores_byread.dfy`, module
  `CalibrateQscores`). It covers:
  * reading basecall records under an optional `maxreads` cap;
  * interpreting an alignment summary under the Guppy or the Taiyaki column
    schema;
  * joining each basecall read to its best alignment, using `np.argmax`
    semantics, where NaN wins and the first maximum wins;
  * the three filters (aligned, coverage, minimum score) applied before the
    regression.

  The NumPy operations it relies on live in `array_ops.dfy` (module
  `ArrayOps`): boolean-mask selection, element-wise `&` of masks, counting
  true entries, and `np.argmax` over floats that may be NaN.
* **JSON model to checkpoint conversion** (`json_to_checkpoint.dfy`, module
  `JsonToCheckpoint`). It covers:
  * the up-front check that every layer type is supported;
  * the per-layer dispatch;
  * the rule table that maps each runtime parameter name to a JSON
    parameter array, including concatenation of grouped recurrent weights;
  * the loop variable carried between names;
  * the collapse alphabet of the modified-base flip-flop layer.

`wrappers.dfy` holds `Option` (also used for NaN/None) and `Result`.

The imperative parts keep their imperative form:
* `ReadFastqs` is two nested loops with `break`.
* `GetAlignmentData` writes the masked assignment into an array.
* `MergeAlignFastqData` fills two preset arrays in place and keeps two
  counters.
* `SetParams` carries its parameter array from one iteration to the next.
* `BuildCollapseAlphabet` advances a cursor through the output alphabet.

Each method is proved against a specification function or predicate
(`ReadCount`/`Summarises`, `Merged`/`ReadsOfKind`, `ResolveParams`,
`Expand`/`Fits`). The expression-level parts are functions with lemmas.

### Behaviour worth knowing

* **Collapse alphabet.** With `output_alphabet = "ACGT"` and
  `can_nmods = [1,0,0,0]`, the loop at `bin/json_to_checkpoint.py:119-122`
  indexes position 4 of a 4-letter string and raises `IndexError`.
  `CollapseExamples` proves this failure
  (`!Fits`). It also proves that `"AYCGT"` with `[1,0,0,0]` gives `"AACGT"`.
* **Parameter names.** A name matched by its exact JSON key does not store
  that key's array (`bin/json_to_checkpoint.py:43-44`). Like a `bias_hh`
  name, it stores whatever the loop variable held from the previous name.
  For the first name, that is an `UnboundLocalError`. `ResolveParams`,
  `ExactKeyStoresPreviousArray` and `ExactKeyFirstIsUnbound` state this.
* **Best alignment when an accuracy is missing.** `np.argmax` treats NaN as
  the maximum (`misc/calibrate_qscores_byread.py:218`), so "the alignment
  with maximum accuracy" holds only when every matching accuracy is
  present. That case is `BestIsMaximum`. Otherwise the first missing one is
  chosen (`IsBestMatch`).

## Model

| member | source | states |
|---|---|---|
| ArrayOps.CountTrue | misc/calibrate_qscores_byread.py:327-332 | the length of a masked array: never more than the mask's length |
| ArrayOps.CountTrueIsCardinality | misc/calibrate_qscores_byread.py:327-332 | that length is the number of positions at which the mask is true |
| ArrayOps.Mask | misc/calibrate_qscores_byread.py:209-210 | boolean-mask selection keeps as many elements as the mask has true entries |
| ArrayOps.TrueIndices | misc/calibrate_qscores_byread.py:209-210 | the positions where a mask is true: in range, strictly increasing, and every true position appears |
| ArrayOps.MaskAt | misc/calibrate_qscores_byread.py:209-210 | element k of `xs[mask]` is the element of `xs` at the k-th true position |
| ArrayOps.MaskAll | misc/calibrate_qscores_byread.py:209-210 | the same correspondence for every element of a masked array |
| ArrayOps.MaskRank | misc/calibrate_qscores_byread.py:209-210 | every selected element appears in the masked array, at its rank among the selected positions |
| ArrayOps.And | misc/calibrate_qscores_byread.py:330-334 | element-wise `&`: each entry is the conjunction of the two masks' entries |
| ArrayOps.CountTrueAnd | misc/calibrate_qscores_byread.py:328-332 | adding a filter never increases the number of reads kept |
| ArrayOps.ArgMax | misc/calibrate_qscores_byread.py:218 | the chosen index is the first NaN if there is one; otherwise a maximum with every earlier element strictly smaller |
| ArrayOps.ArgMaxUnique | misc/calibrate_qscores_byread.py:218 | those properties determine the index uniquely |
| CalibrateQscores.Flatten | misc/calibrate_qscores_byread.py:92-93 | the records are read file by file; there are at least as many records as in the first file |
| CalibrateQscores.FlattenPrefix | misc/calibrate_qscores_byread.py:92-109 | the files read so far plus part of the current file are a prefix of all records |
| CalibrateQscores.FlattenAt | misc/calibrate_qscores_byread.py:92-94 | record j of file i comes right after all records of the earlier files |
| CalibrateQscores.FlattenNext | misc/calibrate_qscores_byread.py:92-93 | finishing file i adds exactly its records to those read |
| CalibrateQscores.ReadSoFarSnoc | misc/calibrate_qscores_byread.py:94-101 | appending the next record's id, mean score (missing when it has no bases) and length keeps the lists describing the records read so far |
| CalibrateQscores.ReadCount | misc/calibrate_qscores_byread.py:104-109 | the number of records kept under the cap never exceeds the number of records |
| CalibrateQscores.ReadFastqs | misc/calibrate_qscores_byread.py:72-113 | returns the id, mean score (missing for a record with no bases) and length of each of the first `ReadCount` records, in order; the cap is tested only after appending |
| CalibrateQscores.GetAlignmentData | misc/calibrate_qscores_byread.py:116-170 | Guppy columns take precedence (length = end − start, negative accuracy becomes missing, so every present accuracy is ≥ 0); otherwise Taiyaki columns (length = ref end − ref start + insertion − deletion); otherwise an error carrying the columns found |
| CalibrateQscores.EqualTo | misc/calibrate_qscores_byread.py:209 | `alignment_ids == fastq_id` has one entry per alignment, true exactly where the id is the read's |
| CalibrateQscores.MatchCountZero | misc/calibrate_qscores_byread.py:209-211 | no alignment is selected exactly when no alignment id equals the read id |
| CalibrateQscores.MaskedArgMaxIsBest | misc/calibrate_qscores_byread.py:209-220 | the element `np.argmax` picks among the selected accuracies is, in the original arrays, the best match for the read |
| CalibrateQscores.MergedUnique | misc/calibrate_qscores_byread.py:177-201 | the join determines each read's accuracy and length uniquely |
| CalibrateQscores.BestMatchUnique | misc/calibrate_qscores_byread.py:218 | at most one alignment is the best match for a read |
| CalibrateQscores.SingleMatchCopied | misc/calibrate_qscores_byread.py:213-215 | a read with exactly one alignment takes that alignment's accuracy and length |
| CalibrateQscores.BestIsMaximum | misc/calibrate_qscores_byread.py:180-181 | when all of a read's alignments have an accuracy, the chosen accuracy is at least each of them |
| CalibrateQscores.MergeStep | misc/calibrate_qscores_byread.py:209-220 | the values copied for a read under each of the three branches (none, one, several) are its joined values |
| CalibrateQscores.ReadsOfKindStep | misc/calibrate_qscores_byread.py:211-217 | one more read adds one to the count of exactly its kind |
| CalibrateQscores.CountersStep | misc/calibrate_qscores_byread.py:211-217 | one more read adds one to the not-found counter exactly when it has no alignment, and one to the several-alignments counter exactly when it has more than one |
| CalibrateQscores.AllMergedExtend | misc/calibrate_qscores_byread.py:205-220 | joining one more read extends the outputs that hold the joined values of the reads so far |
| CalibrateQscores.MergeRead | misc/calibrate_qscores_byread.py:209-220 | fills in only the read's own output slot, with its joined accuracy and length, and advances the counter of its kind |
| CalibrateQscores.KindsPartitionReads | misc/calibrate_qscores_byread.py:206-217 | every read has no alignment, one alignment or several |
| CalibrateQscores.MergeAlignFastqData | misc/calibrate_qscores_byread.py:173-225 | one output per basecall read holding its joined accuracy and length (missing/-1 without an alignment); the two counters count the reads without an alignment and those with more than one |
| CalibrateQscores.CoverageAbove | misc/calibrate_qscores_byread.py:319-323 | for a positive basecall length, `alignment_len / fastq_len > min_coverage` is `alignment_len > min_coverage * fastq_len`; for length zero only a positive alignment length passes |
| CalibrateQscores.ScoreAtLeast | misc/calibrate_qscores_byread.py:325 | a missing (NaN) score fails the test; a present one passes exactly when it is at least the minimum |
| CalibrateQscores.Aligned | misc/calibrate_qscores_byread.py:317 | mask f has one entry per read, true exactly where the accuracy is present |
| CalibrateQscores.Covered | misc/calibrate_qscores_byread.py:319-323 | mask g has one entry per read, true exactly where the coverage is above the threshold |
| CalibrateQscores.GoodScore | misc/calibrate_qscores_byread.py:325 | mask h has one entry per read, true exactly where the score passes the minimum |
| CalibrateQscores.KeepMask | misc/calibrate_qscores_byread.py:334 | `f & g & h` has one entry per read, true exactly where the read passes all three filters |
| CalibrateQscores.KeptIndices | misc/calibrate_qscores_byread.py:316-334 | a read is kept if and only if it has an accuracy, coverage above the threshold and a score at least the minimum; kept reads stay in order |
| CalibrateQscores.FilterData | misc/calibrate_qscores_byread.py:290-334 | the kept accuracies and scores are exactly those of the kept reads, in order, all present; the four printed counts are the number of reads, the number with an accuracy, the number of those also covered, and the number kept, so kept ≤ covered ≤ aligned ≤ total |
| CalibrateQscores.UnalignedReadsDropped | misc/calibrate_qscores_byread.py:321-323 | with a non-negative threshold, a read without an alignment (missing accuracy or length -1) is never kept |
| CalibrateQscores.FilterDataAsWritten | misc/calibrate_qscores_byread.py:98-101 | as written, the run fails exactly when some mean score is Python's None; otherwise it agrees with `FilterData` |
| CalibrateQscores.ZeroLengthReadAborts | misc/calibrate_qscores_byread.py:325 | one good read next to a zero-length read: as written the run fails; as corrected the good read alone is kept |
| JsonToCheckpoint.Contains | bin/json_to_checkpoint.py:45 | `re.search` of a literal pattern: a match needs the pattern to be no longer than the name, and the empty pattern always matches |
| JsonToCheckpoint.ContainsIffSplit | bin/json_to_checkpoint.py:45 | the search succeeds exactly when the name is some prefix, then the pattern, then some suffix |
| JsonToCheckpoint.NotContainedWithoutFirstChar | bin/json_to_checkpoint.py:54 | a pattern whose first letter does not occur in the name is not found by the search |
| JsonToCheckpoint.JoinRows | bin/json_to_checkpoint.py:47 | the concatenation has as many rows as all the groups together |
| JsonToCheckpoint.JoinRowsAt | bin/json_to_checkpoint.py:47 | row r of group i is row `rows before i + r` of the concatenation, so order is kept |
| JsonToCheckpoint.Concatenate | bin/json_to_checkpoint.py:47-53 | concatenation succeeds exactly for a non-empty list of lists, and its result has the total row count |
| JsonToCheckpoint.RuleFor | bin/json_to_checkpoint.py:42-65 | each rule is chosen exactly when its own test passes and every earlier test fails: exact key; `weight_ih`/`iW`, `weight_hh`/`sW`, `bias_ih`/`b` concatenated from that group; `bias_hh` keeps the previous value; `weight`/`W` and `bias`/`b` used directly; no rule (the exit at lines 61-65) exactly when every test fails |
| JsonToCheckpoint.GruParameterRules | bin/json_to_checkpoint.py:45-56 | for a recurrent layer with `iW`, `sW` and `b` present, the two weights and the input bias are concatenated from their groups and `bias_hh` keeps the previous value |
| JsonToCheckpoint.LatestAssigner | bin/json_to_checkpoint.py:41-69 | the last earlier name that gave the loop variable a value, or none |
| JsonToCheckpoint.FirstFailure | bin/json_to_checkpoint.py:41-69 | the first name at which the loop stops |
| JsonToCheckpoint.FirstFailureIs | bin/json_to_checkpoint.py:41-69 | a failing name after only passing names is the first failure |
| JsonToCheckpoint.Resolved | bin/json_to_checkpoint.py:41-69 | the first n stored entries pair each name, in order, with the array the loop variable holds after it |
| JsonToCheckpoint.ResolvedAll | bin/json_to_checkpoint.py:39-69 | when no name fails, the whole loop yields every name's stored entry |
| JsonToCheckpoint.ResolveParams | bin/json_to_checkpoint.py:39-69 | succeeds exactly when no name fails; keeps the state-dictionary order; an assigning name stores its own array; a non-assigning name (exact key or `bias_hh`) stores the previous name's array; otherwise the error describes the first failing name |
| JsonToCheckpoint.CarriedStep | bin/json_to_checkpoint.py:43-60 | the loop variable changes exactly at an assigning name |
| JsonToCheckpoint.CarriedDefined | bin/json_to_checkpoint.py:69 | the loop variable is bound exactly when an earlier name assigned it |
| JsonToCheckpoint.ResolveName | bin/json_to_checkpoint.py:43-68 | one iteration fails exactly when the name fails, with that name's error; otherwise the array variable takes its next value, which is bound |
| JsonToCheckpoint.SetParams | bin/json_to_checkpoint.py:39-69 | the loop computes `ResolveParams` |
| JsonToCheckpoint.ExactKeyStoresPreviousArray | bin/json_to_checkpoint.py:43-44 | a name found by its exact key stores the previous name's array, not its own |
| JsonToCheckpoint.ExactKeyFirstIsUnbound | bin/json_to_checkpoint.py:43-44 | a first name found by its exact key stops the run with an unbound value |
| JsonToCheckpoint.Start | bin/json_to_checkpoint.py:117-122 | the cursor `curr_can_base` before canonical base i, at least i |
| JsonToCheckpoint.StartPrefix | bin/json_to_checkpoint.py:122 | a canonical base's position depends only on the bases before it |
| JsonToCheckpoint.StartMonotone | bin/json_to_checkpoint.py:122 | the cursor advances by at least one per canonical base |
| JsonToCheckpoint.Repeat | bin/json_to_checkpoint.py:120-121 | repetition gives n copies of the letter |
| JsonToCheckpoint.Expand | bin/json_to_checkpoint.py:119-122 | the collapse alphabet's length is the sum of `can_nmods[i] + 1` |
| JsonToCheckpoint.ExpandSnoc | bin/json_to_checkpoint.py:119-122 | the collapse alphabet is the one for the earlier bases followed by the last base repeated `can_nmods[-1] + 1` times, starting at that base's cursor |
| JsonToCheckpoint.FitsEvery | bin/json_to_checkpoint.py:119-122 | the alphabet fits exactly when every canonical base's cursor position, which the loop indexes, lies inside the output alphabet |
| JsonToCheckpoint.FitsAt | bin/json_to_checkpoint.py:120 | when the alphabet fits, each cursor position lies inside the output alphabet |
| JsonToCheckpoint.FitsPrefix | bin/json_to_checkpoint.py:119-120 | when the alphabet fits, so does every prefix of `can_nmods` |
| JsonToCheckpoint.FitsExtend | bin/json_to_checkpoint.py:120 | a prefix fits once its last cursor position is in range |
| JsonToCheckpoint.ExpandBlock | bin/json_to_checkpoint.py:119-122 | every letter of block i of the collapse alphabet is canonical base i |
| JsonToCheckpoint.NoModificationsIsPrefix | bin/json_to_checkpoint.py:119-122 | with no modifications the collapse alphabet is the first letters of the output alphabet |
| JsonToCheckpoint.StartIsIndex | bin/json_to_checkpoint.py:122 | with no modifications the cursor is the base's index |
| JsonToCheckpoint.CollapseExamples | bin/json_to_checkpoint.py:115-122 | "ACGT" with [0,0,0,0] gives "ACGT"; "AYCGT" with [1,0,0,0] gives "AACGT"; "ACGT" with [1,0,0,0] runs off the end |
| JsonToCheckpoint.OneModificationOfA | bin/json_to_checkpoint.py:115-122 | "AYCGT" with [1,0,0,0] fits and gives "AACGT" |
| JsonToCheckpoint.BuildCollapseAlphabet | bin/json_to_checkpoint.py:115-122 | succeeds exactly when every cursor position is inside the output alphabet, and then returns `Expand` with the cursor at the total length |
| JsonToCheckpoint.ParseSublayer | bin/json_to_checkpoint.py:80-134 | per type: a convolution fails on a missing or non-tanh activation and otherwise builds a convolution from its parameters; `GruMod` and `GlobalNormTwoState` build from their parameters; a reverse layer fails without a sublayer and otherwise builds from the inner parameters; a modified-base layer fails on a missing field or an alphabet that does not fit and otherwise carries the expanded collapse alphabet; an unsupported type builds nothing; a built layer has the descriptor's type and the runtime parameter names |
| JsonToCheckpoint.WithParams | bin/json_to_checkpoint.py:132 | a built layer keeps the runtime kind and holds exactly the resolved parameters, keyed by the state-dictionary names in order; otherwise the parameter error is passed on |
| JsonToCheckpoint.ParseAll | bin/json_to_checkpoint.py:149-151 | the parser is applied to each sublayer in order: success exactly when every sublayer builds, with layer i built from sublayer i; otherwise the error is the first failing sublayer's |
| JsonToCheckpoint.IncompatibleTypes | bin/json_to_checkpoint.py:142-143 | the unsupported types are exactly the sublayer types outside the supported set |
| JsonToCheckpoint.IncompatibleTypesWitness | bin/json_to_checkpoint.py:142-143 | the set of unsupported types is empty exactly when every sublayer's type is supported |
| JsonToCheckpoint.Convert | bin/json_to_checkpoint.py:136-151 | unsupported types are reported, all of them, before any layer is built; on success layer i is what `ParseSublayer` builds from sublayer i (so it has that type and the runtime parameter names); otherwise the error is that of the first sublayer that fails to build |
| JsonToCheckpoint.BadActivationStopsConversion | bin/json_to_checkpoint.py:82-87 | any convolution layer whose activation is not tanh stops the conversion |
| JsonToCheckpoint.ConvertSucceedsIff | bin/json_to_checkpoint.py:142-151 | conversion succeeds exactly when every type is supported and every sublayer builds |

## Left out

- The mean quality score of a read (`fastq_file_qscore`, lines 52-69) is floating-point logarithm arithmetic. `ReadFastqs` takes it as the parameter `meanQscore`.
- Real numbers stand for IEEE doubles throughout. Rounding, infinities and NaN propagation are not modelled beyond the explicit cases described in the comments (missing values, division by a zero basecall length).
- Parsing quality files (SeqIO) and alignment summaries (`fileio.readtsv`) is left to the caller. The parsed data arrive as records and a typed `Table`, and columns holding values of an unexpected type are not modelled.
- Printing progress dots, counts and messages is not modelled, and neither are the CLI, building the file list, the Huber regression, plotting or reading JSON. `MergeAlignFastqData` returns its two counters instead of printing them, and `FilterData` returns its four printed counts (total, aligned, covered, kept).
- Constructing layers with the ML library (`Convolution`, `GruMod`, `Reverse`, `GlobalNormFlipFlop`, `GlobalNormFlipFlopCatMod`, `Serial`), `nbase_flipflop`, `AlphabetInfo` and `torch.save` are not modelled. A runtime layer appears as its kind and the parameter names of its state dictionary, which the caller supplies as `stateDict`.
- ParseSublayer: the `load_state_dict` strict check of parameter shapes and the checks inside `AlphabetInfo` are not modelled. A descriptor that passes here can still fail there.
- ParseSublayer: a missing `type`, `params`, `insize`, `size`, `winlen`, `stride` or `modified_base_long_names` field (a `KeyError`) is not modelled. Missing `activation`, `sublayers`, `output_alphabet` and `can_nmods` fields are.
- Concatenate: only axis-0 row joining of a list of lists is modelled. Agreement of the inner dimensions is not checked, and converting the arrays to tensors is taken to succeed.
- BuildCollapseAlphabet: `can_nmods` entries are natural numbers. A negative count would make Python's repetition empty and could index from the end of the string.
- The error values carry the reason a run stops. The exact stderr wording is not modelled, and neither is the fact that the activation message prints the layer type.

## Findings

| source | as written | input that shows it | evidently intended | confidence | as-written member | corrected member |
|---|---|---|---|---|---|---|
| misc/calibrate_qscores_byread.py:98-101,325 | A zero-length read gets the mean score `None`, so the score array becomes an object array, and `fastqscores >= min_fastqscore` raises `TypeError` | scores `[10.0, None]` for basecall lengths `[100, 0]` | the score is NaN (docstring, lines 84-85), and the read is dropped by `h` | medium, not executed | CalibrateQscores.FilterDataAsWritten (shown by CalibrateQscores.ZeroLengthReadAborts) | CalibrateQscores.FilterData |
