/** iterative_train: the units of the plan are handled one after another;
    each gets replace_qlinear, then the script's epilogue (optionally train,
    freeze every parameter, save a checkpoint, optionally evaluate). The
    two experiment scripts differ only in their epilogue. `Scheduled` is the
    run as a function of the plan and of what replace_qlinear does to one
    module; `IterativeTrain` is the loop, proved to compute it. */
module Scheduler {
  import opened Strings
  import opened Outcomes
  import opened ModuleTree
  import opened Substitution
  import opened SubstitutionFacts
  import opened ModelState
  import opened Planning

  /** The arguments of one `evaluate_model` call besides the model. */
  datatype Evaluation = Evaluation(modelId: string, tasks: string, limit: nat, evalPpl: Option<bool>)

  /** What follows replace_qlinear for each unit: `trainer.train()` with
      these arguments when present, the freeze loop, `save_bnn` under
      `savePrefix` followed by the unit's name, and `evaluate_model` when
      present. */
  datatype Epilogue = Epilogue(train: Option<TrainArgs>, savePrefix: string, evaluate: Option<Evaluation>)

  /** The model's state as the run sees it. */
  datatype State = State(tree: Node, trainable: map<string, bool>, log: seq<Event>)

  /** A run so far: the state reached, the exception that stopped it if
      any, and the number of units completed. */
  datatype Progress = Progress(state: State, error: Option<Error>, done: nat)

  /** The events of one unit's epilogue, for the model `t` just quantized
      and the flags `flags` it starts with. */
  function UnitEvents(ep: Epilogue, t: Node, flags: map<string, bool>, name: string): seq<Event>
  {
    (if ep.train.Some? then [Trained(ep.train.value, t, flags)] else [])
    + [Saved(ep.savePrefix + name, t, Frozen(flags))]
    + (match ep.evaluate
       case Some(ev) => [Evaluated(t, ev.modelId, ev.tasks, ev.limit, ev.evalPpl)]
       case None => [])
  }

  /** replace_qlinear handed the module at the unit's path of `t`: an
      AttributeError when the path reaches no module, otherwise what
      `quantize` makes of that module. */
  function Attempt(quantize: Node -> Result<Node>, t: Node, u: Unit): Result<Node>
  {
    if NodeAt(t, u.path).None? then Err(AttributeError(u.name)) else quantize(NodeAt(t, u.path).value)
  }

  /** How far replacing went: the model reached, the exception that
      stopped the run if any, the number of units completed, and the model
      as it stood after each completed unit's replacement. */
  datatype TreeRun = TreeRun(tree: Node, error: Option<Error>, done: nat, models: seq<Node>)

  /** The model after replace_qlinear on the first `n` units of `plan`, one
      unit after another, from the model `t0`; `quantize` is what
      replace_qlinear does to the module handed to it. The run stops at the
      first unit on which replace_qlinear raises. */
  function Rewritten(quantize: Node -> Result<Node>, t0: Node, plan: seq<Unit>, n: nat): (r: TreeRun)
    requires n <= |plan|
    ensures r.done <= n && |r.models| == r.done
    ensures r.error.None? <==> r.done == n
  {
    if n == 0 then TreeRun(t0, None, 0, [])
    else
      var prev := Rewritten(quantize, t0, plan, n - 1);
      if prev.error.Some? then prev
      else
        match Attempt(quantize, prev.tree, plan[n - 1])
        case Err(e) => TreeRun(prev.tree, Some(e), n - 1, prev.models)
        case Ok(s) =>
          var t := Splice(prev.tree, plan[n - 1].path, s);
          TreeRun(t, None, n, prev.models + [t])
  }

  /** The trainable flags once `done` units have completed: every unit's
      epilogue freezes every parameter. */
  function FlagsAfter(flags: map<string, bool>, done: nat): map<string, bool>
  {
    if done == 0 then flags else Frozen(flags)
  }

  /** The events of the epilogues of the units completed, the `i`-th on
      the model `models[i]`, starting from the flags `flags`. */
  function Epilogues(ep: Epilogue, flags: map<string, bool>, models: seq<Node>, plan: seq<Unit>): seq<Event>
    requires |models| <= |plan|
  {
    if models == [] then []
    else
      var k := |models| - 1;
      Epilogues(ep, flags, models[..k], plan) + UnitEvents(ep, models[k], FlagsAfter(flags, k), plan[k].name)
  }

  /** The run of the first `n` units of `plan` from `st0`: each unit gets
      replace_qlinear and then, unless it raised, the epilogue `ep`. */
  function Scheduled(ep: Epilogue, quantize: Node -> Result<Node>, st0: State, plan: seq<Unit>, n: nat): (p: Progress)
    requires n <= |plan|
  {
    var r := Rewritten(quantize, st0.tree, plan, n);
    Progress(State(r.tree, FlagsAfter(st0.trainable, r.done), st0.log + Epilogues(ep, st0.trainable, r.models, plan)),
             r.error, r.done)
  }

  /** Freezing twice freezes once. */
  lemma FrozenTwice(flags: map<string, bool>)
    ensures Frozen(Frozen(flags)) == Frozen(flags)
  {
  }

  /** One more unit on which replace_qlinear does not raise: its module
      is replaced, and the epilogue runs on the new model. */
  lemma ScheduledNext(ep: Epilogue, quantize: Node -> Result<Node>, st0: State, plan: seq<Unit>, k: nat,
                      st: State, s: Node)
    requires k < |plan| && Scheduled(ep, quantize, st0, plan, k) == Progress(st, None, k)
    requires Attempt(quantize, st.tree, plan[k]) == Ok(s)
    ensures var t := Splice(st.tree, plan[k].path, s);
      Scheduled(ep, quantize, st0, plan, k + 1)
      == Progress(State(t, Frozen(st.trainable), st.log + UnitEvents(ep, t, st.trainable, plan[k].name)), None, k + 1)
  {
    FrozenTwice(st0.trainable);
    var prev := Rewritten(quantize, st0.tree, plan, k);
    var r := Rewritten(quantize, st0.tree, plan, k + 1);
    assert r.models[..k] == prev.models && r.models[k] == r.tree;
  }

  // ---------------------------------------------------------------------
  // Plans, unit by unit

  /** No unit among the first `n` of `plan` overlaps the module at `q`. */
  predicate AwayFrom(plan: seq<Unit>, n: nat, q: Path)
    requires n <= |plan|
  {
    n == 0 || (AwayFrom(plan, n - 1, q) && Disjoint(plan[n - 1].path, q))
  }

  /** The first `n` units of `plan` occupy pairwise disjoint places. */
  predicate Separated(plan: seq<Unit>, n: nat)
    requires n <= |plan|
  {
    n == 0 || (Separated(plan, n - 1) && AwayFrom(plan, n - 1, plan[n - 1].path))
  }

  /** replace_qlinear, handed the modules of the first `n` units of `plan`
      in `t`, raises on none of them. */
  predicate Ready(quantize: Node -> Result<Node>, t: Node, plan: seq<Unit>, n: nat)
    requires n <= |plan|
  {
    n == 0 || (Ready(quantize, t, plan, n - 1) && Attempt(quantize, t, plan[n - 1]).Ok?)
  }

  lemma {:induction false} AwayFromAll(plan: seq<Unit>, n: nat, q: Path)
    requires n <= |plan|
    ensures AwayFrom(plan, n, q) <==> forall i :: 0 <= i < n ==> Disjoint(plan[i].path, q)
    decreases n
  {
    if n > 0 {
      AwayFromAll(plan, n - 1, q);
    }
  }

  /** Pairwise disjoint units are separated. */
  lemma {:induction false} SeparatedOf(plan: seq<Unit>, n: nat)
    requires n <= |plan| && PairwiseDisjoint(plan)
    ensures Separated(plan, n)
    decreases n
  {
    if n > 0 {
      SeparatedOf(plan, n - 1);
      AwayFromAll(plan, n - 1, plan[n - 1].path);
    }
  }

  lemma {:induction false} ReadyAll(quantize: Node -> Result<Node>, t: Node, plan: seq<Unit>, n: nat)
    requires n <= |plan|
    ensures Ready(quantize, t, plan, n) <==> forall i :: 0 <= i < n ==> Attempt(quantize, t, plan[i]).Ok?
    decreases n
  {
    if n > 0 {
      ReadyAll(quantize, t, plan, n - 1);
    }
  }

  lemma {:induction false} AwayFromPrefix(plan: seq<Unit>, n: nat, m: nat, q: Path)
    requires n <= m <= |plan| && AwayFrom(plan, m, q)
    ensures AwayFrom(plan, n, q)
    decreases m
  {
    if n < m {
      AwayFromPrefix(plan, n, m - 1, q);
    }
  }

  lemma {:induction false} AwayFromAt(plan: seq<Unit>, n: nat, q: Path, i: nat)
    requires i < n <= |plan| && AwayFrom(plan, n, q)
    ensures Disjoint(plan[i].path, q)
    decreases n
  {
    if i < n - 1 {
      AwayFromAt(plan, n - 1, q, i);
    }
  }

  lemma {:induction false} SeparatedAt(plan: seq<Unit>, m: nat, j: nat)
    requires j < m <= |plan| && Separated(plan, m)
    ensures AwayFrom(plan, j, plan[j].path)
    decreases m
  {
    if j < m - 1 {
      SeparatedAt(plan, m - 1, j);
    }
  }

  lemma {:induction false} ReadyPrefix(quantize: Node -> Result<Node>, t: Node, plan: seq<Unit>, n: nat, m: nat)
    requires n <= m <= |plan| && Ready(quantize, t, plan, m)
    ensures Ready(quantize, t, plan, n)
    decreases m
  {
    if n < m {
      ReadyPrefix(quantize, t, plan, n, m - 1);
    }
  }

  // ---------------------------------------------------------------------
  // What a run does to the model

  /** Once the run has stopped, later units are never reached. */
  lemma {:induction false} RewrittenStops(quantize: Node -> Result<Node>, t0: Node, plan: seq<Unit>, j: nat, n: nat)
    requires j <= n <= |plan| && Rewritten(quantize, t0, plan, j).error.Some?
    ensures Rewritten(quantize, t0, plan, n) == Rewritten(quantize, t0, plan, j)
    decreases n
  {
    if j < n {
      RewrittenStops(quantize, t0, plan, j, n - 1);
    }
  }

  lemma {:induction false} ScheduledStops(ep: Epilogue, quantize: Node -> Result<Node>, st0: State, plan: seq<Unit>,
                                          j: nat, n: nat)
    requires j <= n <= |plan| && Scheduled(ep, quantize, st0, plan, j).error.Some?
    ensures Scheduled(ep, quantize, st0, plan, n) == Scheduled(ep, quantize, st0, plan, j)
    decreases n
  {
    if j < n {
      ScheduledStops(ep, quantize, st0, plan, j, n - 1);
      RewrittenStops(quantize, st0.tree, plan, j, n);
    }
  }

  /** The unit whose replace_qlinear raises ends the run. */
  lemma ScheduledFails(ep: Epilogue, quantize: Node -> Result<Node>, st0: State, plan: seq<Unit>, k: nat,
                       st: State, e: Error)
    requires k < |plan| && Scheduled(ep, quantize, st0, plan, k) == Progress(st, None, k)
    requires Attempt(quantize, st.tree, plan[k]) == Err(e)
    ensures Scheduled(ep, quantize, st0, plan, |plan|) == Progress(st, Some(e), k)
  {
    assert Scheduled(ep, quantize, st0, plan, k + 1) == Progress(st, Some(e), k);
    ScheduledStops(ep, quantize, st0, plan, k + 1, |plan|);
  }

  /** Nothing outside the units handled is ever changed. */
  lemma {:induction false} RewrittenAway(quantize: Node -> Result<Node>, t0: Node, plan: seq<Unit>, n: nat, q: Path)
    requires n <= |plan| && AwayFrom(plan, n, q)
    ensures NodeAt(Rewritten(quantize, t0, plan, n).tree, q) == NodeAt(t0, q)
    decreases n
  {
    if n > 0 {
      var prev := Rewritten(quantize, t0, plan, n - 1);
      RewrittenAway(quantize, t0, plan, n - 1, q);
      var u := plan[n - 1];
      if prev.error.None? && Attempt(quantize, prev.tree, u).Ok? {
        NodeAtSpliceDisjoint(prev.tree, u.path, Attempt(quantize, prev.tree, u).value, q);
      }
    }
  }

  /** The units not yet reached are still as the plan found them. */
  lemma RewrittenIntact(quantize: Node -> Result<Node>, t0: Node, plan: seq<Unit>, n: nat, j: nat)
    requires n <= j < |plan| && Separated(plan, |plan|)
    ensures NodeAt(Rewritten(quantize, t0, plan, n).tree, plan[j].path) == NodeAt(t0, plan[j].path)
  {
    SeparatedAt(plan, |plan|, j);
    AwayFromPrefix(plan, n, j, plan[j].path);
    RewrittenAway(quantize, t0, plan, n, plan[j].path);
  }

  /** How a run over separated units ends: replace_qlinear succeeded on
      the original module of every unit completed, and the exception that
      stopped the run, if any, is the one it raises on the original module
      of the next unit. */
  lemma {:induction false} RewrittenOutcome(quantize: Node -> Result<Node>, t0: Node, plan: seq<Unit>, n: nat)
    requires n <= |plan| && Separated(plan, |plan|)
    ensures var r := Rewritten(quantize, t0, plan, n);
      && Ready(quantize, t0, plan, r.done)
      && (r.error.Some? ==> Attempt(quantize, t0, plan[r.done]) == Err(r.error.value))
    decreases n
  {
    if n > 0 {
      RewrittenOutcome(quantize, t0, plan, n - 1);
      RewrittenIntact(quantize, t0, plan, n - 1, n - 1);
    }
  }

  /** When replace_qlinear raises on none of the units, all of them are
      completed. */
  lemma {:induction false} RewrittenCompletes(quantize: Node -> Result<Node>, t0: Node, plan: seq<Unit>, n: nat)
    requires n <= |plan| && Separated(plan, |plan|) && Ready(quantize, t0, plan, n)
    ensures Rewritten(quantize, t0, plan, n).error.None?
    decreases n
  {
    if n > 0 {
      RewrittenCompletes(quantize, t0, plan, n - 1);
      RewrittenIntact(quantize, t0, plan, n - 1, n - 1);
    }
  }

  /** Each completed unit's module is what replace_qlinear made of the
      module the plan found there; later units do not disturb it. */
  lemma {:induction false} RewrittenTransforms(quantize: Node -> Result<Node>, t0: Node, plan: seq<Unit>, n: nat, i: nat)
    requires i < n <= |plan| && Separated(plan, |plan|) && Ready(quantize, t0, plan, n)
    ensures var t := Rewritten(quantize, t0, plan, n).tree;
      NodeAt(t, plan[i].path).Some? && Attempt(quantize, t0, plan[i]) == Ok(NodeAt(t, plan[i].path).value)
    decreases n
  {
    var prev := Rewritten(quantize, t0, plan, n - 1);
    var u := plan[n - 1];
    ReadyPrefix(quantize, t0, plan, n - 1, n);
    RewrittenCompletes(quantize, t0, plan, n - 1);
    RewrittenIntact(quantize, t0, plan, n - 1, n - 1);
    var s := Attempt(quantize, prev.tree, u).value;
    if i == n - 1 {
      NodeAtSplice(prev.tree, u.path, s);
    } else {
      RewrittenTransforms(quantize, t0, plan, n - 1, i);
      SeparatedAt(plan, |plan|, n - 1);
      AwayFromAt(plan, n - 1, u.path, i);
      DisjointSymmetric(plan[i].path, u.path);
      NodeAtSpliceDisjoint(prev.tree, u.path, s, plan[i].path);
    }
  }

  /** A replace_qlinear that, whenever it does not raise, leaves the
      module as it was. */
  ghost predicate Inert(quantize: Node -> Result<Node>)
  {
    forall s :: quantize(s).Ok? ==> quantize(s).value == s
  }

  /** With such a replace_qlinear the model is never changed. */
  lemma {:induction false} RewrittenUnchanged(quantize: Node -> Result<Node>, t0: Node, plan: seq<Unit>, n: nat)
    requires n <= |plan| && Inert(quantize)
    ensures Rewritten(quantize, t0, plan, n).tree == t0
    decreases n
  {
    if n > 0 {
      RewrittenUnchanged(quantize, t0, plan, n - 1);
      var prev := Rewritten(quantize, t0, plan, n - 1);
      if prev.error.None? && Attempt(quantize, t0, plan[n - 1]).Ok? {
        SpliceSelf(t0, plan[n - 1].path);
      }
    }
  }

  /** A binarization method replace_qlinear rejects: the model is never
      changed; the units completed hold no Linear, and the run stops, with
      the rejection's exception, at the first unit whose module holds one. */
  lemma ScheduledRejected(ep: Epilogue, e: Error, st0: State, plan: seq<Unit>)
    requires Schedulable(st0.tree, plan)
    ensures var p := Scheduled(ep, Quantizer(Err(e)), st0, plan, |plan|);
      && p.state.tree == st0.tree
      && (forall i :: 0 <= i < p.done ==> !HasLinear(NodeAt(st0.tree, plan[i].path).value))
      && (p.error.None? <==> p.done == |plan|)
      && (p.error.Some? ==> p.error == Some(e) && p.done < |plan| && HasLinear(NodeAt(st0.tree, plan[p.done].path).value))
  {
    var quantize := Quantizer(Err(e));
    assert Inert(quantize) by {
      forall s | quantize(s).Ok? ensures quantize(s).value == s {
      }
    }
    RewrittenUnchanged(quantize, st0.tree, plan, |plan|);
    SeparatedOf(plan, |plan|);
    RewrittenOutcome(quantize, st0.tree, plan, |plan|);
    var r := Rewritten(quantize, st0.tree, plan, |plan|);
    ReadyAll(quantize, st0.tree, plan, r.done);
    forall i | 0 <= i < r.done ensures !HasLinear(NodeAt(st0.tree, plan[i].path).value) {
      assert Attempt(quantize, st0.tree, plan[i]).Ok?;
    }
  }

  /** A binarization method replace_qlinear accepts: every unit completes,
      each unit's module ends up as its substituted form, and every module
      apart from all units is left as it was. */
  lemma ScheduledQuantized(ep: Epilogue, layer: Layer, st0: State, plan: seq<Unit>)
    requires Schedulable(st0.tree, plan)
    ensures var p := Scheduled(ep, Quantizer(Ok(layer)), st0, plan, |plan|);
      && p.error.None? && p.done == |plan|
      && (forall i :: 0 <= i < |plan| ==>
            NodeAt(p.state.tree, plan[i].path) == Some(Substituted(NodeAt(st0.tree, plan[i].path).value, layer)))
      && (forall q :: (forall i :: 0 <= i < |plan| ==> Disjoint(plan[i].path, q)) ==>
            NodeAt(p.state.tree, q) == NodeAt(st0.tree, q))
  {
    var quantize := Quantizer(Ok(layer));
    var t0 := st0.tree;
    SeparatedOf(plan, |plan|);
    forall i | 0 <= i < |plan| ensures Attempt(quantize, t0, plan[i]).Ok? {
      assert Substitutable(t0, plan[i].path);
    }
    ReadyAll(quantize, t0, plan, |plan|);
    RewrittenCompletes(quantize, t0, plan, |plan|);
    var r := Rewritten(quantize, t0, plan, |plan|);
    forall i | 0 <= i < |plan|
      ensures NodeAt(r.tree, plan[i].path) == Some(Substituted(NodeAt(t0, plan[i].path).value, layer))
    {
      RewrittenTransforms(quantize, t0, plan, |plan|, i);
    }
    forall q | (forall i :: 0 <= i < |plan| ==> Disjoint(plan[i].path, q))
      ensures NodeAt(r.tree, q) == NodeAt(t0, q)
    {
      AwayFromAll(plan, |plan|, q);
      RewrittenAway(quantize, t0, plan, |plan|, q);
    }
  }

  // ---------------------------------------------------------------------
  // What the log records

  /** The paths of the checkpoints saved in `log`, in order. */
  function SavedPaths(log: seq<Event>): seq<string>
  {
    if log == [] then []
    else
      var e := log[|log| - 1];
      SavedPaths(log[..|log| - 1]) + (if e.Saved? then [e.path] else [])
  }

  /** The number of `trainer.train()` calls in `log`. */
  function TrainCount(log: seq<Event>): nat
  {
    if log == [] then 0 else TrainCount(log[..|log| - 1]) + (if log[|log| - 1].Trained? then 1 else 0)
  }

  /** The number of `evaluate_model` calls in `log`. */
  function EvalCount(log: seq<Event>): nat
  {
    if log == [] then 0 else EvalCount(log[..|log| - 1]) + (if log[|log| - 1].Evaluated? then 1 else 0)
  }

  /** Every checkpoint in `log` was saved with all parameters frozen. */
  predicate SavedFrozen(log: seq<Event>)
  {
    forall i :: 0 <= i < |log| && log[i].Saved? ==> forall k :: k in log[i].trainable ==> !log[i].trainable[k]
  }

  /** The checkpoint paths of the first `k` units of `plan`: the
      epilogue's prefix followed by each unit's name. */
  function SavePaths(prefix: string, plan: seq<Unit>, k: nat): seq<string>
    requires k <= |plan|
  {
    if k == 0 then [] else SavePaths(prefix, plan, k - 1) + [prefix + plan[k - 1].name]
  }

  lemma {:induction false} SavePathsAt(prefix: string, plan: seq<Unit>, k: nat)
    requires k <= |plan|
    ensures |SavePaths(prefix, plan, k)| == k
    ensures forall i :: 0 <= i < k ==> SavePaths(prefix, plan, k)[i] == prefix + plan[i].name
    decreases k
  {
    if k > 0 {
      SavePathsAt(prefix, plan, k - 1);
    }
  }

  /** The records of a log extended by `b` are those of the log followed by those of `b`. */
  lemma {:induction false} RecordsAppend(a: seq<Event>, b: seq<Event>)
    ensures SavedPaths(a + b) == SavedPaths(a) + SavedPaths(b)
    ensures TrainCount(a + b) == TrainCount(a) + TrainCount(b)
    ensures EvalCount(a + b) == EvalCount(a) + EvalCount(b)
    ensures SavedFrozen(a + b) <==> SavedFrozen(a) && SavedFrozen(b)
    decreases |b|
  {
    if b == [] {
      assert a + b == a;
    } else {
      var init := b[..|b| - 1];
      assert (a + b)[..|a + b| - 1] == a + init;
      assert (a + b)[|a + b| - 1] == b[|b| - 1];
      RecordsAppend(a, init);
    }
    forall i | 0 <= i < |b| ensures (a + b)[|a| + i] == b[i] {
    }
  }

  /** One unit's epilogue saves one frozen checkpoint under the unit's name,
      and trains and evaluates once each when the epilogue says so. */
  lemma UnitRecords(ep: Epilogue, t: Node, flags: map<string, bool>, name: string)
    ensures var es := UnitEvents(ep, t, flags, name);
      && SavedPaths(es) == [ep.savePrefix + name]
      && TrainCount(es) == (if ep.train.Some? then 1 else 0)
      && EvalCount(es) == (if ep.evaluate.Some? then 1 else 0)
      && SavedFrozen(es)
  {
    var tr: seq<Event> := if ep.train.Some? then [Trained(ep.train.value, t, flags)] else [];
    var sv: seq<Event> := [Saved(ep.savePrefix + name, t, Frozen(flags))];
    var ev: seq<Event> := match ep.evaluate
       case Some(e) => [Evaluated(t, e.modelId, e.tasks, e.limit, e.evalPpl)]
       case None => [];
    assert UnitEvents(ep, t, flags, name) == tr + sv + ev;
    RecordsAppend(tr, sv);
    RecordsAppend(tr + sv, ev);
    assert sv[..0] == [] && tr[..0] == [] && ev[..0] == [];
  }

  /** The epilogues save every checkpoint with all parameters frozen. */
  lemma {:induction false} EpiloguesFrozen(ep: Epilogue, flags: map<string, bool>, models: seq<Node>, plan: seq<Unit>)
    requires |models| <= |plan|
    ensures SavedFrozen(Epilogues(ep, flags, models, plan))
    decreases |models|
  {
    if models != [] {
      var k := |models| - 1;
      EpiloguesFrozen(ep, flags, models[..k], plan);
      UnitRecords(ep, models[k], FlagsAfter(flags, k), plan[k].name);
      RecordsAppend(Epilogues(ep, flags, models[..k], plan), UnitEvents(ep, models[k], FlagsAfter(flags, k), plan[k].name));
    }
  }

  /** The epilogues save one checkpoint per completed unit, in plan order,
      under the epilogue's prefix followed by the unit's name. */
  lemma {:induction false} EpiloguesSave(ep: Epilogue, flags: map<string, bool>, models: seq<Node>, plan: seq<Unit>)
    requires |models| <= |plan|
    ensures SavedPaths(Epilogues(ep, flags, models, plan)) == SavePaths(ep.savePrefix, plan, |models|)
    decreases |models|
  {
    if models != [] {
      var k := |models| - 1;
      EpiloguesSave(ep, flags, models[..k], plan);
      UnitRecords(ep, models[k], FlagsAfter(flags, k), plan[k].name);
      RecordsAppend(Epilogues(ep, flags, models[..k], plan), UnitEvents(ep, models[k], FlagsAfter(flags, k), plan[k].name));
    }
  }

  /** The epilogues train once per completed unit when the epilogue trains,
      and evaluate once per completed unit when it evaluates. */
  lemma {:induction false} EpiloguesCount(ep: Epilogue, flags: map<string, bool>, models: seq<Node>, plan: seq<Unit>)
    requires |models| <= |plan|
    ensures TrainCount(Epilogues(ep, flags, models, plan)) == if ep.train.Some? then |models| else 0
    ensures EvalCount(Epilogues(ep, flags, models, plan)) == if ep.evaluate.Some? then |models| else 0
    decreases |models|
  {
    if models != [] {
      var k := |models| - 1;
      EpiloguesCount(ep, flags, models[..k], plan);
      UnitRecords(ep, models[k], FlagsAfter(flags, k), plan[k].name);
      RecordsAppend(Epilogues(ep, flags, models[..k], plan), UnitEvents(ep, models[k], FlagsAfter(flags, k), plan[k].name));
    }
  }

  /** What a run adds to the log: per completed unit, in plan order, the
      optional training, one frozen checkpoint under the unit's name and
      the optional evaluation. The flags keep their names, and are all off
      once a unit has completed. */
  lemma ScheduledRecords(ep: Epilogue, quantize: Node -> Result<Node>, st0: State, plan: seq<Unit>, n: nat)
    requires n <= |plan|
    ensures var p := Scheduled(ep, quantize, st0, plan, n);
      && st0.log <= p.state.log
      && SavedPaths(p.state.log) == SavedPaths(st0.log) + SavePaths(ep.savePrefix, plan, p.done)
      && TrainCount(p.state.log) == TrainCount(st0.log) + (if ep.train.Some? then p.done else 0)
      && EvalCount(p.state.log) == EvalCount(st0.log) + (if ep.evaluate.Some? then p.done else 0)
      && (SavedFrozen(st0.log) ==> SavedFrozen(p.state.log))
      && p.state.trainable.Keys == st0.trainable.Keys
      && (p.done == 0 ==> p.state.trainable == st0.trainable)
      && (p.done > 0 ==> forall k :: k in p.state.trainable ==> !p.state.trainable[k])
  {
    var r := Rewritten(quantize, st0.tree, plan, n);
    var es := Epilogues(ep, st0.trainable, r.models, plan);
    EpiloguesFrozen(ep, st0.trainable, r.models, plan);
    EpiloguesSave(ep, st0.trainable, r.models, plan);
    EpiloguesCount(ep, st0.trainable, r.models, plan);
    RecordsAppend(st0.log, es);
  }

  /** The body of the loop after replace_qlinear. */
  method RunEpilogue(m: Model, ep: Epilogue, name: string)
    modifies m
    ensures m.tree == old(m.tree) && m.trainable == Frozen(old(m.trainable))
    ensures m.log == old(m.log) + UnitEvents(ep, old(m.tree), old(m.trainable), name)
  {
    ghost var log0, flags0 := m.log, m.trainable;
    if ep.train.Some? {
      m.Train(ep.train.value);
    }
    ghost var trained := m.log;
    m.Freeze();
    m.Save(ep.savePrefix + name);
    ghost var saved := m.log;
    if ep.evaluate.Some? {
      var ev := ep.evaluate.value;
      m.Evaluate(ev.modelId, ev.tasks, ev.limit, ev.evalPpl);
    }
    assert trained == log0 + (if ep.train.Some? then [Trained(ep.train.value, m.tree, flags0)] else []);
    assert saved == trained + [Saved(ep.savePrefix + name, m.tree, Frozen(flags0))];
  }

  /** One pass of the loop of iterative_train: replace_qlinear on unit `k`,
      then the epilogue unless it raised. */
  method RunUnit(m: Model, ep: Epilogue, choice: Result<Layer>, ghost st0: State, plan: seq<Unit>, k: nat)
    returns (err: Option<Error>)
    requires k < |plan| && Schedulable(st0.tree, plan)
    requires Scheduled(ep, Quantizer(choice), st0, plan, k) == Progress(State(m.tree, m.trainable, m.log), None, k)
    modifies m
    ensures err.None? ==>
      Scheduled(ep, Quantizer(choice), st0, plan, k + 1) == Progress(State(m.tree, m.trainable, m.log), None, k + 1)
    ensures err.Some? ==>
      Scheduled(ep, Quantizer(choice), st0, plan, |plan|) == Progress(State(m.tree, m.trainable, m.log), err, k)
  {
    var u := plan[k];
    SeparatedOf(plan, |plan|);
    RewrittenIntact(Quantizer(choice), st0.tree, plan, k, k);
    ghost var st := State(m.tree, m.trainable, m.log);
    assert Attempt(Quantizer(choice), st.tree, u) == Quantize(choice, NodeAt(st.tree, u.path).value);
    err := m.ReplaceQLinear(u.path, choice);
    if err.Some? {
      ScheduledFails(ep, Quantizer(choice), st0, plan, k, st, err.value);
      return;
    }
    ScheduledNext(ep, Quantizer(choice), st0, plan, k, st, Attempt(Quantizer(choice), st.tree, u).value);
    RunEpilogue(m, ep, u.name);
  }

  /** `iterative_train(model, ordered_name_modules, ...)` with the per-unit
      epilogue `ep`, for the class selection `choice`. */
  method IterativeTrain(m: Model, ep: Epilogue, choice: Result<Layer>, plan: seq<Unit>) returns (err: Option<Error>)
    requires Schedulable(m.tree, plan)
    modifies m
    ensures var p := Scheduled(ep, Quantizer(choice), old(State(m.tree, m.trainable, m.log)), plan, |plan|);
      State(m.tree, m.trainable, m.log) == p.state && err == p.error
  {
    ghost var st0 := State(m.tree, m.trainable, m.log);
    var k := 0;
    while k < |plan|
      invariant k <= |plan|
      invariant Scheduled(ep, Quantizer(choice), st0, plan, k) == Progress(State(m.tree, m.trainable, m.log), None, k)
    {
      err := RunUnit(m, ep, choice, st0, plan, k);
      if err.Some? {
        return;
      }
      k := k + 1;
    }
    err := None;
  }
}
