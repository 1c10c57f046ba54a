/** experiments/quantization_direction.py: the class selection of its
    replace_qlinear (exact comparisons of the binarization method), the
    epilogue of its iterative_train (train, freeze, save, evaluate after
    every unit), and the dataset check and planner branch of its main. */
module QuantizationDirection {
  import opened Strings
  import opened Outcomes
  import opened ModuleTree
  import opened Substitution
  import opened SubstitutionFacts
  import opened ModelState
  import opened Planning
  import opened Scheduler

  /** The command-line arguments the core reads. */
  datatype Args = Args(
    modelId: string,
    granularity: string,
    order: string,
    dataset: string,
    binarizationMethod: string,
    debug: bool,
    modelSaveDir: string)

  // ---------------------------------------------------------------------
  // replace_qlinear: the class selection

  /** The values the command line accepts for `--binarization_method`. */
  const Choices: set<string> :=
    {"ste", "ir", "fda", "xnor", "bireal", "ste_except_outlier", "xnor_except_outlier", "xnor_except_outlier_column"}

  /** The constructor call replace_qlinear makes for each Linear, by exact
      comparison. Every accepted value but "fda" selects a plain
      `cls(weight, bias)` call, and none BiRealLinear: "bireal" builds a
      BinaryLinear. "fda" names FdaBinaryLinear, whose import is commented
      out, so the lookup raises NameError. Any other value only prints a
      message, and the `setattr` that follows reads the unbound local
      `qlinear`; the command line refuses every such value. */
  function Selection(binarization: string): (r: Result<Layer>)
    ensures r.Ok? <==> binarization in Choices - {"fda"}
    ensures r.Ok? ==> r.value.Plain? && r.value != Plain(BiRealLinear)
    ensures r == Err(NameError("FdaBinaryLinear")) <==> binarization == "fda"
    ensures r == Err(UnboundLocalError("qlinear")) <==> binarization !in Choices
  {
    if binarization == "ste" then Ok(Plain(BinaryLinear))
    else if binarization == "ste_except_outlier" then Ok(Plain(BinaryExceptOutliersLinear))
    else if binarization == "xnor_except_outlier" then Ok(Plain(BinaryXnorExceptOutliersLinear))
    else if binarization == "xnor_except_outlier_column" then Ok(Plain(BinaryXnorExceptOutliersLinearColumn))
    else if binarization == "ir" then Ok(Plain(IrBinaryLinear))
    else if binarization == "xnor" then Ok(Plain(XnorBinaryLinear))
    else if binarization == "fda" then Err(NameError("FdaBinaryLinear"))
    else if binarization == "bireal" then Ok(Plain(BinaryLinear))
    else Err(UnboundLocalError("qlinear"))
  }

  // ---------------------------------------------------------------------
  // iterative_train and main

  /** The TrainingArguments of iterative_train: one step in debug mode,
      1000 otherwise; 100 warmup steps, gradient accumulation over 4
      batches, the default (linear) schedule. */
  function Training(a: Args): TrainArgs
  {
    TrainArgs(if a.debug then 1 else 1000, 100.0, 4, false)
  }

  /** `model_save_dir/granularity/`; each checkpoint's path is this
      followed by the unit's name. */
  function SavePrefix(a: Args): string
  {
    a.modelSaveDir + "/" + a.granularity + "/"
  }

  /** The per-unit epilogue: train, freeze, save, then
      `evaluate_model(model, tokenizer, model_id, 'piqa,boolq', limit=100)`. */
  function UnitEpilogue(a: Args): Epilogue
  {
    Epilogue(Some(Training(a)), SavePrefix(a), Some(Evaluation(a.modelId, "piqa,boolq", 100, None)))
  }

  /** `model.base_model.layers` of a LlamaForCausalLM, whose
      `base_model_prefix` is "model". */
  function LayersPath(t: Node): Path
  {
    BaseModelPath(t, "model") + ["layers"]
  }

  /** The run of main from the prepared model `st0`: NotImplementedError
      for any dataset but "red_pajama", then the planner's exception, or
      iterative_train over the plan with the class the binarization method
      selects. */
  function Outcome(a: Args, st0: State): Progress
  {
    if a.dataset != "red_pajama" then Progress(st0, Some(NotImplementedError), 0)
    else
      match PlanOf(a.granularity, a.order, st0.tree, LayersPath(st0.tree))
      case Err(e) => Progress(st0, Some(e), 0)
      case Ok(plan) => Scheduled(UnitEpilogue(a), Quantizer(Selection(a.binarizationMethod)), st0, plan, |plan|)
  }

  /** main after the model is loaded and prepared: check the dataset,
      build the plan, run iterative_train over it. */
  method RunExperiment(m: Model, a: Args) returns (err: Option<Error>)
    requires ModelShape(m.tree)
    modifies m
    ensures var p := Outcome(a, old(State(m.tree, m.trainable, m.log)));
      State(m.tree, m.trainable, m.log) == p.state && err == p.error
  {
    if a.dataset != "red_pajama" {
      return Some(NotImplementedError);
    }
    var layersAt := LayersPath(m.tree);
    var plan := Plan(a.granularity, a.order, m.tree, layersAt);
    if plan.Err? {
      return Some(plan.error);
    }
    PlanSchedulable(a.granularity, a.order, m.tree, layersAt);
    err := IterativeTrain(m, UnitEpilogue(a), Selection(a.binarizationMethod), plan.value);
  }

  /** What a run records. Another dataset, or a plan that cannot be built,
      stops main before anything happens. Otherwise every completed unit,
      in plan order, is trained once, saved frozen under the save prefix
      and its name, and evaluated once; the run completes every unit
      exactly when it raises nothing. */
  lemma OutcomeRecords(a: Args, st0: State)
    ensures var p := Outcome(a, st0);
      var r := PlanOf(a.granularity, a.order, st0.tree, LayersPath(st0.tree));
      && (a.dataset != "red_pajama" ==> p == Progress(st0, Some(NotImplementedError), 0))
      && (a.dataset == "red_pajama" && r.Err? ==> p == Progress(st0, Some(r.error), 0))
      && (a.dataset == "red_pajama" && r.Ok? ==>
            && (p.error.None? <==> p.done == |r.value|)
            && SavedPaths(p.state.log) == SavedPaths(st0.log) + SavePaths(SavePrefix(a), r.value, p.done)
            && TrainCount(p.state.log) == TrainCount(st0.log) + p.done
            && EvalCount(p.state.log) == EvalCount(st0.log) + p.done
            && (SavedFrozen(st0.log) ==> SavedFrozen(p.state.log)))
  {
    var r := PlanOf(a.granularity, a.order, st0.tree, LayersPath(st0.tree));
    if a.dataset == "red_pajama" && r.Ok? {
      ScheduledRecords(UnitEpilogue(a), Quantizer(Selection(a.binarizationMethod)), st0, r.value, |r.value|);
    }
  }

  /** No checkpoint of a run is saved over another of the same run. */
  lemma CheckpointsDistinct(a: Args, st0: State)
    requires ModelShape(st0.tree) && a.dataset == "red_pajama"
    requires PlanOf(a.granularity, a.order, st0.tree, LayersPath(st0.tree)).Ok?
    ensures var plan := PlanOf(a.granularity, a.order, st0.tree, LayersPath(st0.tree)).value;
      var paths := SavePaths(SavePrefix(a), plan, Outcome(a, st0).done);
      forall i, j :: 0 <= i < j < |paths| ==> paths[i] != paths[j]
  {
    var layersAt := LayersPath(st0.tree);
    var plan := PlanOf(a.granularity, a.order, st0.tree, layersAt).value;
    var done := Outcome(a, st0).done;
    OutcomeRecords(a, st0);
    PlanNamesDistinct(a.granularity, a.order, st0.tree, layersAt);
    SavePathsAt(SavePrefix(a), plan, done);
    var paths := SavePaths(SavePrefix(a), plan, done);
    var prefix := SavePrefix(a);
    forall i, j | 0 <= i < j < |paths| ensures paths[i] != paths[j] {
      assert (prefix + plan[i].name)[|prefix|..] == plan[i].name;
      assert (prefix + plan[j].name)[|prefix|..] == plan[j].name;
    }
  }

  /** What a run does to the model. A method that selects no class never
      changes it, and the run stops, with the selection's exception,
      exactly at the first unit holding a Linear. A method that selects
      one completes every unit, and each unit's module becomes its
      substituted form with that class. */
  lemma OutcomeModel(a: Args, st0: State)
    requires ModelShape(st0.tree) && a.dataset == "red_pajama"
    requires PlanOf(a.granularity, a.order, st0.tree, LayersPath(st0.tree)).Ok?
    ensures var plan := PlanOf(a.granularity, a.order, st0.tree, LayersPath(st0.tree)).value;
      var choice := Selection(a.binarizationMethod);
      var p := Outcome(a, st0);
      && p.done <= |plan|
      && (choice.Err? ==>
            && p.state.tree == st0.tree
            && (forall i :: 0 <= i < p.done ==>
                  NodeAt(st0.tree, plan[i].path).Some? && !HasLinear(NodeAt(st0.tree, plan[i].path).value))
            && (p.error.Some? ==>
                  && p.error == Some(choice.error) && p.done < |plan|
                  && NodeAt(st0.tree, plan[p.done].path).Some? && HasLinear(NodeAt(st0.tree, plan[p.done].path).value)))
      && (choice.Ok? ==>
            && p.error.None? && p.done == |plan|
            && forall i :: 0 <= i < |plan| ==>
                 && NodeAt(st0.tree, plan[i].path).Some?
                 && NodeAt(p.state.tree, plan[i].path) == Some(Substituted(NodeAt(st0.tree, plan[i].path).value, choice.value)))
  {
    var layersAt := LayersPath(st0.tree);
    var plan := PlanOf(a.granularity, a.order, st0.tree, layersAt).value;
    var choice := Selection(a.binarizationMethod);
    PlanSchedulable(a.granularity, a.order, st0.tree, layersAt);
    if choice.Err? {
      ScheduledRejected(UnitEpilogue(a), choice.error, st0, plan);
    } else {
      ScheduledQuantized(UnitEpilogue(a), choice.value, st0, plan);
    }
  }
}
