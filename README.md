# PB-LLM layer-wise binarization drivers, modelled in Dafny

PB-LLM's two experiment drivers, `experiments/quant_frozen_outliers.py`
and `experiments/quantization_direction.py`, turn a pretrained causal
language model into a partially binarized one, one unit at a time. The
unit is a transformer block, a single `nn.Linear`, or the whole model.
For each unit of the ordered list built by `main`, `iterative_train` does
the following:

1. `replace_qlinear` looks up every `nn.Linear` below the unit by its
   dotted name. It finds the parent module with `rfind('.')` and installs
   a quantized layer under the last key with `setattr`.
2. The model is trained, or not, depending on the script and its
   arguments.
3. Every parameter is frozen.
4. A checkpoint is saved.
5. The direction script also evaluates the model after each unit. The
   frozen-outliers script evaluates it once, after the last unit.

This project models that orchestration:

- **The module hierarchy** is a value. A `Node` has a kind (`Linear`,
  `Quantized` or any other module) and an ordered list of keyed children.
  `named_modules` becomes the pre-order list `Named`, and the name dict
  becomes `NameIndex`. Module references become key paths.
- **The model object** is the class `ModelState.Model`. Its fields are the
  tree, the `requires_grad` flags and a log of the training, saving and
  evaluation events. Its methods change the model in place, as the
  scripts do.
- **One call of `replace_qlinear`** is specified by the functions
  `Substituted` and `SubstituteAt`. The method `Model.ReplaceQLinear`,
  with its loop over the name dict, is proved against them.
- **The unit plans** (`per_block` in forward or reverse order,
  `per_linear`, `whole_model`) are `Planning.PlanOf`.
- **The loop of `iterative_train`** is the method
  `Scheduler.IterativeTrain`. It is proved against the state function
  `Scheduler.Scheduled`.
- **`main`** is modelled per script. It selects the class from the
  binarization method, with each script's own dispatch, builds the plan,
  runs the loop and, for the frozen-outliers script, adds the final
  evaluation.

The lemmas state the following:

- what a run leaves of the model for each granularity;
- that a failing class selection changes nothing and stops at the first
  unit holding a Linear;
- that checkpoint paths never collide;
- how often training and evaluation happen;
- how the two scripts' dispatches differ.

Where the scripts' behaviour differs from a plain reading of their intent,
the model follows the code as written:

- **Unrecognised method in `quantization_direction.py`.** A binarization
  method that matches no branch (lines 65-66) only prints a message, so
  `qlinear` is unbound. The `setattr` at line 68 then raises
  `UnboundLocalError` at the first Linear; the method is not skipped
  silently. The model returns that error.
- **`"fda"` in both scripts.** The `FdaBinaryLinear` import is commented
  out (`quant_frozen_outliers.py:41`, `quantization_direction.py:29`). So
  `"fda"` and `"fda_act_outlier_column"` raise `NameError` when the first
  Linear is reached.
- **`"bireal"` in `quant_frozen_outliers.py`.** The dispatch tests
  substrings in order, and `"ir"` is a substring of `"bireal"`. So
  `BiRealLinear` is never chosen, and `"bireal"` gets `IrBinaryLinear`.
  In `quantization_direction.py`, `"bireal"` gets `BinaryLinear` (line 64).
- **`per_linear` granularity.** Here the unit handed to `replace_qlinear`
  is the Linear itself. Its own `named_modules` lists it under the empty
  name, so `rfind` returns -1 and the parent is the Linear itself. The
  `setattr` then attaches the quantized layer to the Linear as a child
  under the empty key, instead of replacing it in its parent. The model
  does exactly this (`Granularities.PerLinearAsWritten`).
- **`--debug` in `quantization_direction.py`.** The help text promises
  10 steps, but the code uses `max_steps=1` (line 87). The model follows
  the code.

Inputs that are not values in the scripts are parameters of the model:

- the loaded model's tree;
- whether the checkpoint is an `OPTForCausalLM`, and its class's
  `base_model_prefix`;
- the command-line arguments.

## Model

| member | source | states |
|---|---|---|
| Strings.RFind | experiments/quant_frozen_outliers.py:72 | `str.rfind`: -1 or an index holding the character, with no occurrence after it |
| Strings.ReplaceChar | experiments/quant_frozen_outliers.py:183 | `model_id.replace('/', '_')`: same length, exactly the occurrences of the character replaced |
| Strings.NatToStringInjective | experiments/quant_frozen_outliers.py:209-216 | distinct block indices give distinct `block{i}` names |
| Strings.ContainsTransitive | experiments/quant_frozen_outliers.py:78-117 | Python's `in` on strings is transitive, which decides how the nested keyword tests interact |
| Strings.SplitDotted | experiments/quant_frozen_outliers.py:72-76 | for a dotted module name, `name[:ind]` is the parent's name and `name[ind+1:]` the last key; a one-key name has `rfind` -1 and the whole name as key |
| Strings.DottedInjective | experiments/quant_frozen_outliers.py:68 | different module paths have different dotted names, so the name dict loses no module |
| ModuleTree.ChildIndex | experiments/quant_frozen_outliers.py:119 | attribute lookup by key: -1 exactly when no child has the key, else the first child with it |
| ModuleTree.NameIndexSound | experiments/quant_frozen_outliers.py:68 | the name dict holds every listed name, each under its own name and taken from the listing |
| ModuleTree.NamedSound | experiments/quant_frozen_outliers.py:68 | every `(name, module)` that `named_modules` yields has the dotted path of a module actually at that path |
| ModuleTree.NamedComplete | experiments/quant_frozen_outliers.py:68 | every module reachable from the root is yielded by `named_modules` |
| ModuleTree.NamedDistinct | experiments/quant_frozen_outliers.py:68 | `named_modules` yields each path once |
| ModuleTree.IndexFindsPath | experiments/quant_frozen_outliers.py:74-76 | looking a module's dotted name up in the name dict finds that module |
| ModuleTree.NodeAtSplice | experiments/quant_frozen_outliers.py:119 | after installing a module at a path, that path holds it |
| ModuleTree.NodeAtSpliceDisjoint | experiments/quant_frozen_outliers.py:119 | installing a module at a path leaves every path off that branch unchanged |
| ModuleTree.SpliceTwice | experiments/quant_frozen_outliers.py:119 | installing twice at the same path keeps only the second module |
| Substitution.LinearPathsExact | experiments/quant_frozen_outliers.py:69-70 | the paths the loop visits are exactly those of the listed Linear modules |
| Substitution.SubstitutedInAll | experiments/quant_frozen_outliers.py:69-119 | after all Linears of the listing are handled, the unit is its substituted form |
| SubstitutionFacts.SubstitutedAt | experiments/quant_frozen_outliers.py:93-119 | in a substituted unit every Linear below the root is replaced by the selected layer built from its weight and bias, and every other module keeps its kind |
| SubstitutionFacts.SubstitutedNoLinear | experiments/quant_frozen_outliers.py:69-119 | no Linear is left anywhere below the unit's root |
| SubstitutionFacts.SubstitutedRoot | experiments/quant_frozen_outliers.py:73-74 | a Linear unit keeps its kind and gains the quantized layer as its child under the empty key; any other root gains nothing |
| SubstitutionFacts.SubstitutedLinearFree | experiments/quant_frozen_outliers.py:69-70 | a unit without a Linear is left exactly as it was |
| SubstitutionFacts.SubstitutedIdempotent | experiments/quant_frozen_outliers.py:67-120 | calling replace_qlinear twice with one class gives what one call gives |
| SubstitutionFacts.SubstituteAtHere | experiments/quant_frozen_outliers.py:67-120 | with a class, the unit becomes its substituted form in the whole model; without one, the call fails exactly when the unit holds a Linear and otherwise changes nothing |
| SubstitutionFacts.SubstituteAtAway | experiments/quant_frozen_outliers.py:67-120 | a call on one unit changes no module outside that unit |
| ModelState.Frozen | experiments/quant_frozen_outliers.py:163-165 | freezing keeps every parameter name and sets each flag to false |
| ModelState.ParentLookup | experiments/quant_frozen_outliers.py:71-76 | the parent found for a listed module is the module one key up and the key is the last one; the root is its own parent with key "" |
| ModelState.IndexedParent | experiments/quant_frozen_outliers.py:72-76 | the dict lookup of `name[:ind]` yields that parent |
| ModelState.Raised | experiments/quant_frozen_outliers.py:78-92 | when no class is selected, the call raises the selection's exception as soon as a Linear exists |
| ModelState.NeverRaised | experiments/quant_frozen_outliers.py:69-70 | when no class is selected and the unit holds no Linear, the call succeeds and changes nothing |
| ModelState.Model.ReplaceQLinear | experiments/quant_frozen_outliers.py:67-120 | the in-place call: on success the tree is the substituted model; on an exception the tree is unchanged; flags and log untouched |
| ModelState.Model.ReplaceListed | experiments/quant_frozen_outliers.py:69-119 | the loop over the name dict, each Linear set on its parent, proved to produce the substituted unit |
| ModelState.Model.Freeze | experiments/quant_frozen_outliers.py:163-165 | every `requires_grad` becomes false; tree and log unchanged |
| ModelState.Model.Train | experiments/quant_frozen_outliers.py:132-162 | appends one training event with the arguments, the tree and the flags |
| ModelState.Model.Save | experiments/quant_frozen_outliers.py:180-184 | appends one save event with the path, the tree and the flags |
| ModelState.Model.Evaluate | experiments/quant_frozen_outliers.py:186 | appends one evaluation event with the model id, tasks, limit and `eval_ppl` |
| Planning.Reversed | experiments/quant_frozen_outliers.py:217-218 | `[::-1]`: same length, element i is element n-1-i |
| Planning.BlockUnitsApart | experiments/quant_frozen_outliers.py:209-216 | two different blocks have different names and disjoint paths |
| Planning.LinearUnits | experiments/quant_frozen_outliers.py:219-223 | the loop collecting the Linears of `named_modules` computes exactly the Linear entries, in order |
| Planning.LinearUnitsExact | experiments/quant_frozen_outliers.py:219-223 | the `per_linear` units are exactly the Linears of the model, each under its dotted name |
| Planning.LinearUnitsApart | experiments/quant_frozen_outliers.py:219-223 | in a model whose Linears are leaves, the Linear units are pairwise disjoint |
| Planning.Resolve | experiments/quant_frozen_outliers.py:208-216 | attribute access along a path succeeds exactly when the module exists, and otherwise raises AttributeError for a key of the path |
| Planning.BaseModelPath | experiments/quant_frozen_outliers.py:215 | `model.base_model`: the submodule named by `base_model_prefix` when the model has one, else the model itself; always an existing module |
| Planning.Plan | experiments/quant_frozen_outliers.py:207-229 | the branch of main that builds `ordered_name_modules` computes PlanOf, including NotImplementedError for another granularity |
| Planning.PlanSchedulable | experiments/quant_frozen_outliers.py:207-229 | every plan main builds has existing, pairwise disjoint units |
| Planning.PlanBlocks | experiments/quant_frozen_outliers.py:207-218 | `per_block` fails exactly when the layer list is missing; otherwise unit i is block i (or block n-1-i in reverse), named `block{i}`, at its path |
| Planning.PlanLinears | experiments/quant_frozen_outliers.py:219-223 | `per_linear` always succeeds; its units have distinct paths, each a Linear under its dotted name, and every Linear of the model is one of them |
| Planning.PlanNamesDistinct | experiments/quant_frozen_outliers.py:207-229 | the units of a plan have pairwise distinct names |
| Scheduler.ScheduledNext | experiments/quant_frozen_outliers.py:127-184 | a unit that succeeds moves the state to the model with the unit installed, frozen, with its events appended |
| Scheduler.ScheduledFails | experiments/quant_frozen_outliers.py:129 | an exception in replace_qlinear ends the loop with the state reached before that unit |
| Scheduler.RewrittenAway | experiments/quant_frozen_outliers.py:127-129 | modules away from every handled unit are unchanged |
| Scheduler.RewrittenTransforms | experiments/quant_frozen_outliers.py:127-129 | with disjoint units, each handled unit ends as the quantizer's output on its original module |
| Scheduler.ScheduledRejected | experiments/quant_frozen_outliers.py:127-129 | with no class selected, the model is never changed, and the loop fails exactly at the first unit that holds a Linear |
| Scheduler.ScheduledQuantized | experiments/quant_frozen_outliers.py:127-129 | with a class selected, every unit completes, each becomes its substituted form and nothing outside the units changes |
| Scheduler.EpiloguesFrozen | experiments/quant_frozen_outliers.py:163-184 | every checkpoint is saved with all parameters frozen |
| Scheduler.EpiloguesSave | experiments/quant_frozen_outliers.py:180-184 | the checkpoints are saved under the prefix and the unit names, one per completed unit, in plan order |
| Scheduler.EpiloguesCount | experiments/quant_frozen_outliers.py:132-162 | one training per completed unit when training is on, one evaluation per completed unit when per-unit evaluation is on |
| Scheduler.ScheduledRecords | experiments/quant_frozen_outliers.py:123-184 | the records of the loop: save paths, training and evaluation counts, frozen saves, and success exactly when every unit completed |
| Scheduler.RunEpilogue | experiments/quant_frozen_outliers.py:131-184 | train (if configured), freeze, save, evaluate (if configured): the tree is unchanged, the flags frozen, the unit's events appended |
| Scheduler.RunUnit | experiments/quant_frozen_outliers.py:128-184 | one iteration of the loop, proved to take the state from Scheduled(k) to Scheduled(k+1) or to stop with the exception |
| Scheduler.IterativeTrain | experiments/quant_frozen_outliers.py:123-184 | the loop, proved to end in exactly the state and error of Scheduled over the whole plan |
| Granularities.WholeModelQuantized | experiments/quant_frozen_outliers.py:224-225 | `whole_model` completes, the model becomes its substituted form, and no Linear remains anywhere |
| Granularities.PerLinearAsWritten | experiments/quant_frozen_outliers.py:219-223 | `per_linear` completes and each Linear keeps its kind and gains, as its only child under key "", the quantized layer built from it |
| Granularities.PerBlockQuantized | experiments/quant_frozen_outliers.py:207-218 | `per_block` completes, every block at its key becomes its substituted form, and nothing outside the layer list changes |
| QuantFrozenOutliers.KeywordsNested | experiments/quant_frozen_outliers.py:78-117 | "bireal" contains "ir", and "act_outlier_column" contains "outlier_column", which contains "outlier" |
| QuantFrozenOutliers.BiRealNeverSelected | experiments/quant_frozen_outliers.py:78-87 | the dense-class chain never selects BiRealLinear |
| QuantFrozenOutliers.SelectionWrappers | experiments/quant_frozen_outliers.py:93-117 | column outliers exactly for "outlier_column", act_L1 exactly for "act_outlier_column", BinaryXnorExceptOutliersLinear for other "outlier" methods, 4-bit for "lowbit_quant", else the dense class |
| QuantFrozenOutliers.ArgparseChoices | experiments/quant_frozen_outliers.py:274-289 | the class built for each of the fourteen accepted `--binarization_method` values |
| QuantFrozenOutliers.RunExperiment | experiments/quant_frozen_outliers.py:190-233 | main's planning, the loop and the final evaluation, proved to end in the state and error of Outcome |
| QuantFrozenOutliers.OutcomeRecords | experiments/quant_frozen_outliers.py:132-186 | a plan error changes nothing; otherwise one frozen checkpoint per completed unit under `{dir}/{granularity}/{model_id with '_'}_o{fraction}_{unit}`, training per unit exactly when `train_steps` is non-zero, and one final evaluation, the last event, exactly when every unit completed |
| QuantFrozenOutliers.CheckpointsDistinct | experiments/quant_frozen_outliers.py:180-184 | no checkpoint of a run overwrites another |
| QuantFrozenOutliers.OutcomeModel | experiments/quant_frozen_outliers.py:190-233 | without a class, the model is untouched and the run stops with the selection's exception exactly at the first unit holding a Linear; with one, every unit becomes its substituted form |
| QuantizationDirection.Selection | experiments/quantization_direction.py:49-68 | exact-match dispatch: a class exactly for the accepted values other than "fda", never BiRealLinear; NameError exactly for "fda"; UnboundLocalError exactly for a value outside the choices |
| QuantizationDirection.RunExperiment | experiments/quantization_direction.py:129-166 | main's dataset check, planning and the loop, proved to end in the state and error of Outcome |
| QuantizationDirection.OutcomeRecords | experiments/quantization_direction.py:78-125 | a dataset other than red_pajama raises NotImplementedError and changes nothing; otherwise one frozen checkpoint, one training and one evaluation per completed unit, and success exactly when every unit completed |
| QuantizationDirection.CheckpointsDistinct | experiments/quantization_direction.py:119 | no checkpoint of a run overwrites another |
| QuantizationDirection.OutcomeModel | experiments/quantization_direction.py:129-166 | as for the frozen script, with this script's dispatch |
| ScriptsCompared.SharedChoices | experiments/quantization_direction.py:49-64 | "ste", "ir", "xnor" and "fda" select the same outcome in both scripts, while "bireal" gets IrBinaryLinear in the frozen script and BinaryLinear here |

## Left out

- **Output and device handling** is not modelled: printing, memory
  reports, `model.eval()`, `use_cache`, device placement and dtype. It has
  no effect on the module tree, the flags or the order of events.
- **`get_scheduler`** (`quant_frozen_outliers.py:58-64`) is not modelled,
  because no caller uses it. `bnn_eval.py` is not part of this model.
- **Loading** the tokenizer, the model and the dataset, and
  `prepare_model_for_training`, are not modelled. The loaded model is a
  parameter. `utils`, `datautils`, `evaluate` and `quant` are not part of
  this model.
- **The quantized layer classes** are opaque tags that carry the Linear's
  weight and bias. They are assumed not to be `nn.Linear` subclasses, so a
  later call does not pick them up again. Their forward passes are not
  modelled.
- **Training** records its arguments only. The Trainer's weight updates,
  data and metrics are not modelled, and neither are evaluation results.
- **Flags of new layers.** The `requires_grad` flags are a map the model
  keeps. The parameters that new quantized layers add are not added to
  it.
- **Shared modules.** `named_modules` removes modules it reaches twice; a
  tree has no sharing, so this is not modelled.
- `QuantFrozenOutliers.Training`: the warm-up `train_steps*0.05` is a
  real number, not a float. `--outlier_fraction` is carried as the text
  the f-string prints.
- `ModelState.Model.ReplaceQLinear`: the class is selected once per call,
  not once per Linear. This is equivalent, because the selection depends
  only on the arguments.
- `QuantizationDirection.Selection`: `--debug` is read for the step count
  only.
- `Scheduler.Attempt`: an AttributeError branch for a unit path missing
  from the model. Plans that main builds never reach it
  (`Planning.PlanSchedulable`).
