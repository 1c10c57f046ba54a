/** experiments/quant_frozen_outliers.py: the class selection of its
    replace_qlinear (substring tests on the binarization method), the
    epilogue of its iterative_train (train when `train_steps` is non-zero,
    freeze, save under a name that carries the model id and the outlier
    fraction; one evaluation after the whole loop), and the planner branch
    of its main. */
module QuantFrozenOutliers {
  import opened Strings
  import opened Outcomes
  import opened ModuleTree
  import opened Substitution
  import opened SubstitutionFacts
  import opened ModelState
  import opened Planning
  import opened Scheduler

  /** The command-line arguments the core reads. `outlierFraction` is the
      text `str()` gives for the float argument. */
  datatype Args = Args(
    modelId: string,
    granularity: string,
    order: string,
    trainSteps: int,
    binarizationMethod: string,
    outlierFraction: string,
    modelSaveDir: string)

  /** What `from_pretrained` decides about the model it builds: whether it
      is an OPTForCausalLM, and its class's `base_model_prefix`. */
  datatype Checkpoint = Checkpoint(opt: bool, basePrefix: string)

  // ---------------------------------------------------------------------
  // replace_qlinear: the class selection

  /** The first chain of tests: the dense class, by substring, in this
      order. "fda" names FdaBinaryLinear, whose import is commented out, so
      the name lookup raises NameError. */
  function BaseClass(binarization: string): Result<QuantClass>
  {
    if Contains(binarization, "xnor") then Ok(XnorBinaryLinear)
    else if Contains(binarization, "ste") then Ok(BinaryLinear)
    else if Contains(binarization, "ir") then Ok(IrBinaryLinear)
    else if Contains(binarization, "fda") then Err(NameError("FdaBinaryLinear"))
    else if Contains(binarization, "bireal") then Ok(BiRealLinear)
    else if Contains(binarization, "lowbit_quant") then Ok(LowbitQuantizeLinear)
    else Err(NotImplementedError)
  }

  /** The constructor call replace_qlinear makes for each Linear: the
      second chain of tests wraps or replaces the dense class. */
  function Selection(binarization: string, fraction: string): Result<Layer>
  {
    match BaseClass(binarization)
    case Err(e) => Err(e)
    case Ok(base) =>
      if Contains(binarization, "act_outlier_column") then Ok(OutlierColumns(base, ActL1, fraction))
      else if Contains(binarization, "outlier_column") then Ok(OutlierColumns(base, DefaultMetric, fraction))
      else if Contains(binarization, "outlier") then Ok(Plain(BinaryXnorExceptOutliersLinear))
      else if Contains(binarization, "lowbit_quant") then Ok(LowBit(4))
      else Ok(Plain(base))
  }

  /** The keywords tested nest: "ir" is part of "bireal", and
      "outlier" of "outlier_column", itself part of "act_outlier_column". */
  lemma KeywordsNested(binarization: string)
    ensures Contains(binarization, "bireal") ==> Contains(binarization, "ir")
    ensures Contains(binarization, "act_outlier_column") ==> Contains(binarization, "outlier_column")
    ensures Contains(binarization, "outlier_column") ==> Contains(binarization, "outlier")
  {
    if Contains(binarization, "bireal") {
      ContainsAt("bireal", "ir", 1);
      ContainsTransitive(binarization, "bireal", "ir");
    }
    if Contains(binarization, "act_outlier_column") {
      ContainsAt("act_outlier_column", "outlier_column", 4);
      ContainsTransitive(binarization, "act_outlier_column", "outlier_column");
    }
    if Contains(binarization, "outlier_column") {
      ContainsAt("outlier_column", "outlier", 0);
      ContainsTransitive(binarization, "outlier_column", "outlier");
    }
  }

  /** BiRealLinear is never chosen: every method containing "bireal" also
      contains "ir", which is tested first. */
  lemma BiRealNeverSelected(binarization: string)
    ensures BaseClass(binarization) != Ok(BiRealLinear)
  {
    KeywordsNested(binarization);
  }

  /** The second chain of tests, in plain terms: column outliers exactly
      when the method mentions "outlier_column", with the activation
      metric exactly when it mentions "act_outlier_column"; the dense class
      only matters there and in the fallback; any other "outlier" method
      gets BinaryXnorExceptOutliersLinear; "lowbit_quant" without "outlier"
      gets 4-bit weights. */
  lemma SelectionWrappers(binarization: string, fraction: string)
    requires BaseClass(binarization).Ok?
    ensures Selection(binarization, fraction).Ok?
    ensures var base, r := BaseClass(binarization).value, Selection(binarization, fraction).value;
      && (r.OutlierColumns? <==> Contains(binarization, "outlier_column"))
      && (r.OutlierColumns? ==> r.dense == base && r.fraction == fraction && (r.metric == ActL1 <==> Contains(binarization, "act_outlier_column")))
      && (Contains(binarization, "outlier") && !Contains(binarization, "outlier_column") ==> r == Plain(BinaryXnorExceptOutliersLinear))
      && (r.LowBit? <==> Contains(binarization, "lowbit_quant") && !Contains(binarization, "outlier"))
      && (r.LowBit? ==> r.wBits == 4)
      && (!Contains(binarization, "outlier") && !Contains(binarization, "lowbit_quant") ==> r == Plain(base))
  {
    KeywordsNested(binarization);
  }

  // For each accepted value, the outcome of the substring tests that
  // decide its class; split over two lemmas so that each proof about the
  // literal stays small.

  lemma TestsSte()
    ensures !Contains("ste", "xnor")
    ensures Contains("ste", "ste")
  {
    var b := "ste";
    assert 'x' !in b;
    assert b[0] == 's' && b[1] == 't' && b[2] == 'e';
    assert OccursAt(b, "ste", 0);
    ContainsMissingChar(b, "xnor", 'x');
    ContainsAt(b, "ste", 0);
  }

  lemma MoreTestsSte()
    ensures !Contains("ste", "outlier")
    ensures !Contains("ste", "lowbit_quant")
  {
    var b := "ste";
    assert 'o' !in b && 'q' !in b;
    ContainsMissingChar(b, "outlier", 'o');
    ContainsMissingChar(b, "lowbit_quant", 'q');
  }

  lemma TestsIr()
    ensures !Contains("ir", "xnor")
    ensures !Contains("ir", "ste")
    ensures Contains("ir", "ir")
  {
    var b := "ir";
    assert 's' !in b && 'x' !in b;
    assert b[0] == 'i' && b[1] == 'r';
    assert OccursAt(b, "ir", 0);
    ContainsMissingChar(b, "xnor", 'x');
    ContainsMissingChar(b, "ste", 's');
    ContainsAt(b, "ir", 0);
  }

  lemma MoreTestsIr()
    ensures !Contains("ir", "outlier")
    ensures !Contains("ir", "lowbit_quant")
  {
    var b := "ir";
    assert 'o' !in b && 'q' !in b;
    ContainsMissingChar(b, "outlier", 'o');
    ContainsMissingChar(b, "lowbit_quant", 'q');
  }

  lemma TestsFda()
    ensures !Contains("fda", "xnor")
    ensures !Contains("fda", "ste")
    ensures !Contains("fda", "ir")
    ensures Contains("fda", "fda")
  {
    var b := "fda";
    assert 'i' !in b && 's' !in b && 'x' !in b;
    assert b[0] == 'f' && b[1] == 'd' && b[2] == 'a';
    assert OccursAt(b, "fda", 0);
    ContainsMissingChar(b, "xnor", 'x');
    ContainsMissingChar(b, "ste", 's');
    ContainsMissingChar(b, "ir", 'i');
    ContainsAt(b, "fda", 0);
  }

  lemma TestsXnor()
    ensures Contains("xnor", "xnor")
  {
    var b := "xnor";
    assert b[0] == 'x' && b[1] == 'n' && b[2] == 'o' && b[3] == 'r';
    assert OccursAt(b, "xnor", 0);
    ContainsAt(b, "xnor", 0);
  }

  lemma MoreTestsXnor()
    ensures !Contains("xnor", "outlier")
    ensures !Contains("xnor", "lowbit_quant")
  {
    var b := "xnor";
    assert 'q' !in b && 'u' !in b;
    ContainsMissingChar(b, "outlier", 'u');
    ContainsMissingChar(b, "lowbit_quant", 'q');
  }

  lemma TestsBireal()
    ensures !Contains("bireal", "xnor")
    ensures !Contains("bireal", "ste")
    ensures Contains("bireal", "ir")
  {
    var b := "bireal";
    assert 's' !in b && 'x' !in b;
    assert b[1] == 'i' && b[2] == 'r';
    assert OccursAt(b, "ir", 1);
    ContainsMissingChar(b, "xnor", 'x');
    ContainsMissingChar(b, "ste", 's');
    ContainsAt(b, "ir", 1);
  }

  lemma MoreTestsBireal()
    ensures !Contains("bireal", "outlier")
    ensures !Contains("bireal", "lowbit_quant")
  {
    var b := "bireal";
    assert 'o' !in b && 'q' !in b;
    ContainsMissingChar(b, "outlier", 'o');
    ContainsMissingChar(b, "lowbit_quant", 'q');
  }

  lemma TestsSteOutlier()
    ensures !Contains("ste_outlier", "xnor")
    ensures Contains("ste_outlier", "ste")
  {
    var b := "ste_outlier";
    assert 'x' !in b;
    assert b[0] == 's' && b[1] == 't' && b[2] == 'e';
    assert OccursAt(b, "ste", 0);
    ContainsMissingChar(b, "xnor", 'x');
    ContainsAt(b, "ste", 0);
  }

  lemma MoreTestsSteOutlier()
    ensures !Contains("ste_outlier", "outlier_column")
    ensures Contains("ste_outlier", "outlier")
  {
    var b := "ste_outlier";
    assert 'c' !in b;
    assert OccursAt(b, "outlier", 4);
    ContainsMissingChar(b, "outlier_column", 'c');
    ContainsAt(b, "outlier", 4);
  }

  lemma TestsXnorOutlier()
    ensures Contains("xnor_outlier", "xnor")
  {
    var b := "xnor_outlier";
    assert b[0] == 'x' && b[1] == 'n' && b[2] == 'o' && b[3] == 'r';
    assert OccursAt(b, "xnor", 0);
    ContainsAt(b, "xnor", 0);
  }

  lemma MoreTestsXnorOutlier()
    ensures !Contains("xnor_outlier", "outlier_column")
    ensures Contains("xnor_outlier", "outlier")
  {
    var b := "xnor_outlier";
    assert 'c' !in b;
    assert OccursAt(b, "outlier", 5);
    ContainsMissingChar(b, "outlier_column", 'c');
    ContainsAt(b, "outlier", 5);
  }

  lemma TestsXnorOutlierColumn()
    ensures Contains("xnor_outlier_column", "xnor")
  {
    var b := "xnor_outlier_column";
    assert b[0] == 'x' && b[1] == 'n' && b[2] == 'o' && b[3] == 'r';
    assert OccursAt(b, "xnor", 0);
    ContainsAt(b, "xnor", 0);
  }

  lemma MoreTestsXnorOutlierColumn()
    ensures !Contains("xnor_outlier_column", "act_outlier_column")
    ensures Contains("xnor_outlier_column", "outlier_column")
  {
    var b := "xnor_outlier_column";
    assert 'a' !in b;
    assert OccursAt(b, "outlier_column", 5);
    ContainsMissingChar(b, "act_outlier_column", 'a');
    ContainsAt(b, "outlier_column", 5);
  }

  lemma TestsIrOutlierColumn()
    ensures !Contains("ir_outlier_column", "xnor")
    ensures !Contains("ir_outlier_column", "ste")
    ensures Contains("ir_outlier_column", "ir")
  {
    var b := "ir_outlier_column";
    assert 's' !in b && 'x' !in b;
    assert b[0] == 'i' && b[1] == 'r';
    assert OccursAt(b, "ir", 0);
    ContainsMissingChar(b, "xnor", 'x');
    ContainsMissingChar(b, "ste", 's');
    ContainsAt(b, "ir", 0);
  }

  lemma MoreTestsIrOutlierColumn()
    ensures !Contains("ir_outlier_column", "act_outlier_column")
    ensures Contains("ir_outlier_column", "outlier_column")
  {
    var b := "ir_outlier_column";
    assert 'a' !in b;
    assert OccursAt(b, "outlier_column", 3);
    ContainsMissingChar(b, "act_outlier_column", 'a');
    ContainsAt(b, "outlier_column", 3);
  }

  lemma TestsXnorActOutlierColumn()
    ensures Contains("xnor_act_outlier_column", "xnor")
  {
    var b := "xnor_act_outlier_column";
    assert b[0] == 'x' && b[1] == 'n' && b[2] == 'o' && b[3] == 'r';
    assert OccursAt(b, "xnor", 0);
    ContainsAt(b, "xnor", 0);
  }

  lemma MoreTestsXnorActOutlierColumn()
    ensures Contains("xnor_act_outlier_column", "act_outlier_column")
  {
    var b := "xnor_act_outlier_column";
    assert OccursAt(b, "act_outlier_column", 5);
    ContainsAt(b, "act_outlier_column", 5);
  }

  lemma TestsIrActOutlierColumn()
    ensures !Contains("ir_act_outlier_column", "xnor")
    ensures !Contains("ir_act_outlier_column", "ste")
    ensures Contains("ir_act_outlier_column", "ir")
  {
    var b := "ir_act_outlier_column";
    assert 's' !in b && 'x' !in b;
    assert b[0] == 'i' && b[1] == 'r';
    assert OccursAt(b, "ir", 0);
    ContainsMissingChar(b, "xnor", 'x');
    ContainsMissingChar(b, "ste", 's');
    ContainsAt(b, "ir", 0);
  }

  lemma MoreTestsIrActOutlierColumn()
    ensures Contains("ir_act_outlier_column", "act_outlier_column")
  {
    var b := "ir_act_outlier_column";
    assert OccursAt(b, "act_outlier_column", 3);
    ContainsAt(b, "act_outlier_column", 3);
  }

  lemma TestsFdaActOutlierColumn()
    ensures !Contains("fda_act_outlier_column", "xnor")
    ensures !Contains("fda_act_outlier_column", "ste")
    ensures Contains("fda_act_outlier_column", "fda")
  {
    var b := "fda_act_outlier_column";
    assert 's' !in b && 'x' !in b;
    assert b[0] == 'f' && b[1] == 'd' && b[2] == 'a';
    assert OccursAt(b, "fda", 0);
    ContainsMissingChar(b, "xnor", 'x');
    ContainsMissingChar(b, "ste", 's');
    ContainsAt(b, "fda", 0);
  }

  lemma MoreTestsFdaActOutlierColumn()
    ensures !Contains("fda_act_outlier_column", "ir")
  {
    var b := "fda_act_outlier_column";
    assert b == "fda_act_outli" + "er_column";
    ContainsMissingChar("fda_act_outli", "ir", 'r');
    ContainsMissingChar("er_column", "ir", 'i');
    ContainsSeam("fda_act_outli", "er_column", "ir");
  }

  lemma TestsBirealActOutlierColumn()
    ensures !Contains("bireal_act_outlier_column", "xnor")
    ensures !Contains("bireal_act_outlier_column", "ste")
    ensures Contains("bireal_act_outlier_column", "ir")
  {
    var b := "bireal_act_outlier_column";
    assert 's' !in b && 'x' !in b;
    assert b[1] == 'i' && b[2] == 'r';
    assert OccursAt(b, "ir", 1);
    ContainsMissingChar(b, "xnor", 'x');
    ContainsMissingChar(b, "ste", 's');
    ContainsAt(b, "ir", 1);
  }

  lemma MoreTestsBirealActOutlierColumn()
    ensures Contains("bireal_act_outlier_column", "act_outlier_column")
  {
    var b := "bireal_act_outlier_column";
    assert OccursAt(b, "act_outlier_column", 7);
    ContainsAt(b, "act_outlier_column", 7);
  }

  lemma TestsLowbitQuant()
    ensures !Contains("lowbit_quant", "xnor")
    ensures !Contains("lowbit_quant", "ste")
    ensures !Contains("lowbit_quant", "ir")
  {
    var b := "lowbit_quant";
    assert 'r' !in b && 's' !in b && 'x' !in b;
    ContainsMissingChar(b, "xnor", 'x');
    ContainsMissingChar(b, "ste", 's');
    ContainsMissingChar(b, "ir", 'r');
  }

  lemma MoreTestsLowbitQuant()
    ensures !Contains("lowbit_quant", "fda")
    ensures Contains("lowbit_quant", "lowbit_quant")
    ensures !Contains("lowbit_quant", "outlier")
  {
    var b := "lowbit_quant";
    assert 'e' !in b && 'f' !in b;
    assert OccursAt(b, "lowbit_quant", 0);
    ContainsMissingChar(b, "fda", 'f');
    ContainsAt(b, "lowbit_quant", 0);
    ContainsMissingChar(b, "outlier", 'e');
  }

  /** The class replace_qlinear builds for each value the command line
      accepts for `--binarization_method`. "bireal" and
      "bireal_act_outlier_column" get IrBinaryLinear, and both "fda"
      methods raise NameError. */
  lemma ArgparseChoices(fraction: string)
    ensures Selection("ste", fraction) == Ok(Plain(BinaryLinear))
    ensures Selection("ir", fraction) == Ok(Plain(IrBinaryLinear))
    ensures Selection("fda", fraction) == Err(NameError("FdaBinaryLinear"))
    ensures Selection("xnor", fraction) == Ok(Plain(XnorBinaryLinear))
    ensures Selection("bireal", fraction) == Ok(Plain(IrBinaryLinear))
    ensures Selection("ste_outlier", fraction) == Ok(Plain(BinaryXnorExceptOutliersLinear))
    ensures Selection("xnor_outlier", fraction) == Ok(Plain(BinaryXnorExceptOutliersLinear))
    ensures Selection("xnor_outlier_column", fraction) == Ok(OutlierColumns(XnorBinaryLinear, DefaultMetric, fraction))
    ensures Selection("ir_outlier_column", fraction) == Ok(OutlierColumns(IrBinaryLinear, DefaultMetric, fraction))
    ensures Selection("xnor_act_outlier_column", fraction) == Ok(OutlierColumns(XnorBinaryLinear, ActL1, fraction))
    ensures Selection("ir_act_outlier_column", fraction) == Ok(OutlierColumns(IrBinaryLinear, ActL1, fraction))
    ensures Selection("fda_act_outlier_column", fraction) == Err(NameError("FdaBinaryLinear"))
    ensures Selection("bireal_act_outlier_column", fraction) == Ok(OutlierColumns(IrBinaryLinear, ActL1, fraction))
    ensures Selection("lowbit_quant", fraction) == Ok(LowBit(4))
  {
    KeywordsNested("ste");
    TestsSte();
    MoreTestsSte();
    KeywordsNested("ir");
    TestsIr();
    MoreTestsIr();
    KeywordsNested("fda");
    TestsFda();
    KeywordsNested("xnor");
    TestsXnor();
    MoreTestsXnor();
    KeywordsNested("bireal");
    TestsBireal();
    MoreTestsBireal();
    KeywordsNested("ste_outlier");
    TestsSteOutlier();
    MoreTestsSteOutlier();
    KeywordsNested("xnor_outlier");
    TestsXnorOutlier();
    MoreTestsXnorOutlier();
    KeywordsNested("xnor_outlier_column");
    TestsXnorOutlierColumn();
    MoreTestsXnorOutlierColumn();
    KeywordsNested("ir_outlier_column");
    TestsIrOutlierColumn();
    MoreTestsIrOutlierColumn();
    KeywordsNested("xnor_act_outlier_column");
    TestsXnorActOutlierColumn();
    MoreTestsXnorActOutlierColumn();
    KeywordsNested("ir_act_outlier_column");
    TestsIrActOutlierColumn();
    MoreTestsIrActOutlierColumn();
    KeywordsNested("fda_act_outlier_column");
    TestsFdaActOutlierColumn();
    MoreTestsFdaActOutlierColumn();
    KeywordsNested("bireal_act_outlier_column");
    TestsBirealActOutlierColumn();
    MoreTestsBirealActOutlierColumn();
    KeywordsNested("lowbit_quant");
    TestsLowbitQuant();
    MoreTestsLowbitQuant();
  }

  // ---------------------------------------------------------------------
  // iterative_train and main

  /** The TrainingArguments of iterative_train, built only when
      `train_steps` is non-zero: warmup for 5% of the steps, no gradient
      accumulation, cosine schedule. */
  function Training(a: Args): Option<TrainArgs>
  {
    if a.trainSteps != 0 then Some(TrainArgs(a.trainSteps, a.trainSteps as real * 0.05, 1, true)) else None
  }

  /** `model_save_dir/granularity/<model id with '/' as '_'>_o<fraction>_`;
      each checkpoint's path is this followed by the unit's name. */
  function SavePrefix(a: Args): string
  {
    a.modelSaveDir + "/" + a.granularity + "/" + ReplaceChar(a.modelId, '/', '_') + "_o" + a.outlierFraction + "_"
  }

  /** The per-unit epilogue: optional training, freeze, save; no evaluation
      inside the loop. */
  function UnitEpilogue(a: Args): Epilogue
  {
    Epilogue(Training(a), SavePrefix(a), None)
  }

  /** Where per_block finds its module list: `model.model.decoder.layers`
      for an OPT model, `model.base_model.layers` otherwise. A model id
      containing "openlm" is loaded as LlamaForCausalLM, whose
      `base_model_prefix` is "model". */
  function LayersPath(a: Args, ck: Checkpoint, t: Node): Path
  {
    var openlm := Contains(a.modelId, "openlm");
    if !openlm && ck.opt then ["model", "decoder", "layers"]
    else BaseModelPath(t, if openlm then "model" else ck.basePrefix) + ["layers"]
  }

  /** The final `evaluate_model(model, tokenizer, model_id, 'llmqat',
      limit=200, eval_ppl=True)` on the model `t`. */
  function FinalEvaluation(a: Args, t: Node): Event
  {
    Evaluated(t, a.modelId, "llmqat", 200, Some(true))
  }

  /** The run of main from the prepared model `st0`: the planner's
      exception, or the run over the plan. */
  function Outcome(a: Args, ck: Checkpoint, st0: State): Progress
  {
    match PlanOf(a.granularity, a.order, st0.tree, LayersPath(a, ck, st0.tree))
    case Err(e) => Progress(st0, Some(e), 0)
    case Ok(plan) => Finished(a, st0, plan)
  }

  /** iterative_train over `plan` with the class the binarization method
      selects, followed by the final evaluation when no unit raised. */
  function Finished(a: Args, st0: State, plan: seq<Unit>): Progress
  {
    var p := Scheduled(UnitEpilogue(a), Quantizer(Selection(a.binarizationMethod, a.outlierFraction)), st0, plan, |plan|);
    if p.error.Some? then p
    else Progress(p.state.(log := p.state.log + [FinalEvaluation(a, p.state.tree)]), None, p.done)
  }

  /** main after the model is loaded and prepared: build the plan, run
      iterative_train over it, evaluate once at the end. */
  method RunExperiment(m: Model, a: Args, ck: Checkpoint) returns (err: Option<Error>)
    requires ModelShape(m.tree)
    modifies m
    ensures var p := Outcome(a, ck, old(State(m.tree, m.trainable, m.log)));
      State(m.tree, m.trainable, m.log) == p.state && err == p.error
  {
    var layersAt := LayersPath(a, ck, m.tree);
    var plan := Plan(a.granularity, a.order, m.tree, layersAt);
    if plan.Err? {
      return Some(plan.error);
    }
    PlanSchedulable(a.granularity, a.order, m.tree, layersAt);
    var choice := Selection(a.binarizationMethod, a.outlierFraction);
    err := IterativeTrain(m, UnitEpilogue(a), choice, plan.value);
    if err.None? {
      m.Evaluate(a.modelId, "llmqat", 200, Some(true));
    }
  }

  /** What a run records. A plan that cannot be built stops main before
      anything happens. Otherwise: one checkpoint per completed unit, in
      plan order, under the save prefix and the unit's name, all saved
      frozen; one training per completed unit exactly when `train_steps`
      is non-zero; and one evaluation, the last event, exactly when every
      unit completed. */
  lemma OutcomeRecords(a: Args, ck: Checkpoint, st0: State)
    ensures var p := Outcome(a, ck, st0);
      var r := PlanOf(a.granularity, a.order, st0.tree, LayersPath(a, ck, st0.tree));
      && (r.Err? ==> p == Progress(st0, Some(r.error), 0))
      && (r.Ok? ==>
            && SavedPaths(p.state.log) == SavedPaths(st0.log) + SavePaths(SavePrefix(a), r.value, p.done)
            && TrainCount(p.state.log) == TrainCount(st0.log) + (if a.trainSteps != 0 then p.done else 0)
            && EvalCount(p.state.log) == EvalCount(st0.log) + (if p.error.None? then 1 else 0)
            && (p.error.None? <==> p.done == |r.value|)
            && (p.error.None? ==> p.state.log[|p.state.log| - 1] == FinalEvaluation(a, p.state.tree))
            && (SavedFrozen(st0.log) ==> SavedFrozen(p.state.log)))
  {
    var r := PlanOf(a.granularity, a.order, st0.tree, LayersPath(a, ck, st0.tree));
    if r.Ok? {
      FinishedRecords(a, st0, r.value);
    }
  }

  /** The records of the run over a plan, whatever the plan. */
  lemma FinishedRecords(a: Args, st0: State, plan: seq<Unit>)
    ensures var p := Finished(a, st0, plan);
      && SavedPaths(p.state.log) == SavedPaths(st0.log) + SavePaths(SavePrefix(a), plan, p.done)
      && TrainCount(p.state.log) == TrainCount(st0.log) + (if a.trainSteps != 0 then p.done else 0)
      && EvalCount(p.state.log) == EvalCount(st0.log) + (if p.error.None? then 1 else 0)
      && (p.error.None? <==> p.done == |plan|)
      && (p.error.None? ==> p.state.log[|p.state.log| - 1] == FinalEvaluation(a, p.state.tree))
      && (SavedFrozen(st0.log) ==> SavedFrozen(p.state.log))
  {
    var ep := UnitEpilogue(a);
    var quantize := Quantizer(Selection(a.binarizationMethod, a.outlierFraction));
    var q := Scheduled(ep, quantize, st0, plan, |plan|);
    ScheduledRecords(ep, quantize, st0, plan, |plan|);
    var fin: seq<Event> := [FinalEvaluation(a, q.state.tree)];
    RecordsAppend(q.state.log, fin);
    assert fin[..0] == [];
  }

  /** No checkpoint of a run is saved over another of the same run. */
  lemma CheckpointsDistinct(a: Args, ck: Checkpoint, st0: State)
    requires ModelShape(st0.tree)
    requires PlanOf(a.granularity, a.order, st0.tree, LayersPath(a, ck, st0.tree)).Ok?
    ensures var plan := PlanOf(a.granularity, a.order, st0.tree, LayersPath(a, ck, st0.tree)).value;
      var paths := SavePaths(SavePrefix(a), plan, Outcome(a, ck, st0).done);
      forall i, j :: 0 <= i < j < |paths| ==> paths[i] != paths[j]
  {
    var layersAt := LayersPath(a, ck, st0.tree);
    var plan := PlanOf(a.granularity, a.order, st0.tree, layersAt).value;
    var done := Outcome(a, ck, st0).done;
    OutcomeRecords(a, ck, st0);
    PlanNamesDistinct(a.granularity, a.order, st0.tree, layersAt);
    SavePathsAt(SavePrefix(a), plan, done);
    var paths := SavePaths(SavePrefix(a), plan, done);
    var prefix := SavePrefix(a);
    forall i, j | 0 <= i < j < |paths| ensures paths[i] != paths[j] {
      assert (prefix + plan[i].name)[|prefix|..] == plan[i].name;
      assert (prefix + plan[j].name)[|prefix|..] == plan[j].name;
    }
  }

  /** What a run does to the model. When the binarization method selects
      no class, the model is never changed, and the run stops, with the
      selection's exception, exactly at the first unit holding a Linear.
      When it selects one, every unit completes and each unit's module
      becomes its substituted form with that class. */
  lemma OutcomeModel(a: Args, ck: Checkpoint, st0: State)
    requires ModelShape(st0.tree)
    requires PlanOf(a.granularity, a.order, st0.tree, LayersPath(a, ck, st0.tree)).Ok?
    ensures var plan := PlanOf(a.granularity, a.order, st0.tree, LayersPath(a, ck, st0.tree)).value;
      var choice := Selection(a.binarizationMethod, a.outlierFraction);
      var p := Outcome(a, ck, st0);
      && p.done <= |plan|
      && (choice.Err? ==>
            && p.state.tree == st0.tree
            && (forall i :: 0 <= i < p.done ==>
                  NodeAt(st0.tree, plan[i].path).Some? && !HasLinear(NodeAt(st0.tree, plan[i].path).value))
            && (p.error.Some? ==>
                  && p.error == Some(choice.error) && p.done < |plan|
                  && NodeAt(st0.tree, plan[p.done].path).Some? && HasLinear(NodeAt(st0.tree, plan[p.done].path).value)))
      && (choice.Ok? ==>
            && p.error.None? && p.done == |plan|
            && forall i :: 0 <= i < |plan| ==>
                 && NodeAt(st0.tree, plan[i].path).Some?
                 && NodeAt(p.state.tree, plan[i].path) == Some(Substituted(NodeAt(st0.tree, plan[i].path).value, choice.value)))
  {
    var layersAt := LayersPath(a, ck, st0.tree);
    var plan := PlanOf(a.granularity, a.order, st0.tree, layersAt).value;
    var choice := Selection(a.binarizationMethod, a.outlierFraction);
    PlanSchedulable(a.granularity, a.order, st0.tree, layersAt);
    if choice.Err? {
      ScheduledRejected(UnitEpilogue(a), choice.error, st0, plan);
    } else {
      ScheduledQuantized(UnitEpilogue(a), choice.value, st0, plan);
    }
  }
}
