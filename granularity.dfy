/** What a completed run leaves of the model for each granularity of
    `main`, when replace_qlinear is given a class: the whole model, every
    Linear, or every block of the module list is handed over once. */
module Granularities {
  import opened Strings
  import opened Outcomes
  import opened ModuleTree
  import opened Substitution
  import opened SubstitutionFacts
  import opened Planning
  import opened Scheduler

  /** whole_model: the model becomes its substituted form, and no Linear is
      left anywhere in it. */
  lemma WholeModelQuantized(ep: Epilogue, layer: Layer, st0: State)
    requires ModelShape(st0.tree)
    ensures var p := Scheduled(ep, Quantizer(Ok(layer)), st0, [Unit("whole_model", [])], 1);
      && p.error.None? && p.done == 1
      && p.state.tree == Substituted(st0.tree, layer)
      && forall r :: NodeAt(p.state.tree, r).Some? ==> !NodeAt(p.state.tree, r).value.kind.Linear?
  {
    var plan := [Unit("whole_model", [])];
    WholeModelSchedulable(st0.tree);
    ScheduledQuantized(ep, layer, st0, plan);
    var t := Scheduled(ep, Quantizer(Ok(layer)), st0, plan, 1).state.tree;
    assert NodeAt(t, plan[0].path) == Some(t);
    SubstitutedRoot(st0.tree, layer);
    forall r | NodeAt(t, r).Some? ensures !NodeAt(t, r).value.kind.Linear? {
      if r != [] {
        SubstitutedNoLinear(st0.tree, layer, r);
      }
    }
  }

  /** per_linear, as the code is written: every Linear is handed over as
      the root of its own call, so it is not replaced in its parent. It
      stays where it was, and gains its quantized replacement as its only
      submodule, registered under the name "". */
  lemma PerLinearAsWritten(ep: Epilogue, layer: Layer, st0: State, order: string, layersAt: Path)
    requires ModelShape(st0.tree)
    ensures var plan := PlanOf("per_linear", order, st0.tree, layersAt).value;
      var p := Scheduled(ep, Quantizer(Ok(layer)), st0, plan, |plan|);
      && p.error.None? && p.done == |plan|
      && forall q :: NodeAt(st0.tree, q).Some? && NodeAt(st0.tree, q).value.kind.Linear? ==>
           var lin := NodeAt(st0.tree, q).value;
           NodeAt(p.state.tree, q) == Some(Node(lin.kind, [Child("", Replacement(layer, lin))]))
  {
    var t0 := st0.tree;
    var plan := PlanOf("per_linear", order, t0, layersAt).value;
    PlanSchedulable("per_linear", order, t0, layersAt);
    PlanLinears(order, t0, layersAt);
    ScheduledQuantized(ep, layer, st0, plan);
    forall q | NodeAt(t0, q).Some? && NodeAt(t0, q).value.kind.Linear?
      ensures var lin := NodeAt(t0, q).value;
        NodeAt(Scheduled(ep, Quantizer(Ok(layer)), st0, plan, |plan|).state.tree, q)
        == Some(Node(lin.kind, [Child("", Replacement(layer, lin))]))
    {
      var lin := NodeAt(t0, q).value;
      var u :| u in plan && u.path == q;
      var i :| 0 <= i < |plan| && plan[i] == u;
      assert q != [] by { assert NodeAt(t0, []) == Some(t0); }
      LinearLeafAt(t0, q);
      assert Put([], "", Replacement(layer, lin)) == [Child("", Replacement(layer, lin))];
    }
  }

  /** The per_block plan: one unit per block, the `i`-th block's at
      position `i`, or at the mirrored position when the order is reversed. */
  lemma BlockPlan(order: string, t0: Node, layersAt: Path)
    requires ModelShape(t0) && NodeAt(t0, layersAt).Some?
    ensures var layers := NodeAt(t0, layersAt).value; var n := |layers.children|;
      var r := PlanOf("per_block", order, t0, layersAt);
      && r.Ok? && |r.value| == n && Schedulable(t0, r.value)
      && (forall i :: 0 <= i < n ==>
            r.value[i].path == layersAt + [layers.children[if order == "reverse" then n - 1 - i else i].key])
      && (forall i :: 0 <= i < n ==>
            NodeAt(t0, layersAt + [layers.children[i].key]) == Some(layers.children[i].node))
  {
    var layers := NodeAt(t0, layersAt).value;
    var blocks := BlockUnits(layers, layersAt);
    PlanSchedulable("per_block", order, t0, layersAt);
    NodeAtWellFormed(t0, layersAt);
    forall i | 0 <= i < |layers.children|
      ensures NodeAt(t0, layersAt + [layers.children[i].key]) == Some(layers.children[i].node)
    {
      BlockUnitsResolve(t0, layersAt, i);
    }
  }

  /** per_block: every block of the module list at `layersAt` becomes its
      substituted form, in either order, and nothing outside the module
      list changes. */
  lemma PerBlockQuantized(ep: Epilogue, layer: Layer, st0: State, order: string, layersAt: Path)
    requires ModelShape(st0.tree) && NodeAt(st0.tree, layersAt).Some?
    ensures var plan := PlanOf("per_block", order, st0.tree, layersAt).value;
      var p := Scheduled(ep, Quantizer(Ok(layer)), st0, plan, |plan|);
      var layers := NodeAt(st0.tree, layersAt).value;
      && p.error.None? && p.done == |plan| == |layers.children|
      && (forall i :: 0 <= i < |layers.children| ==>
            NodeAt(p.state.tree, layersAt + [layers.children[i].key]) == Some(Substituted(layers.children[i].node, layer)))
      && (forall q :: Disjoint(layersAt, q) ==> NodeAt(p.state.tree, q) == NodeAt(st0.tree, q))
  {
    var layers := NodeAt(st0.tree, layersAt).value;
    var plan := PlanOf("per_block", order, st0.tree, layersAt).value;
    BlockPlan(order, st0.tree, layersAt);
    BlocksQuantized(ep, layer, st0, order == "reverse", layersAt, layers, plan);
  }

  /** The blocks, handed over in plan order: each becomes its substituted
      form, and the rest of the model outside the module list is kept. */
  lemma BlocksQuantized(ep: Epilogue, layer: Layer, st0: State, reverse: bool, layersAt: Path, layers: Node,
                        plan: seq<Unit>)
    requires NodeAt(st0.tree, layersAt) == Some(layers) && Schedulable(st0.tree, plan)
    requires |plan| == |layers.children|
    requires forall i :: 0 <= i < |plan| ==>
      plan[i].path == layersAt + [layers.children[if reverse then |plan| - 1 - i else i].key]
    requires forall i :: 0 <= i < |plan| ==>
      NodeAt(st0.tree, layersAt + [layers.children[i].key]) == Some(layers.children[i].node)
    ensures var p := Scheduled(ep, Quantizer(Ok(layer)), st0, plan, |plan|);
      && p.error.None? && p.done == |plan|
      && (forall i :: 0 <= i < |layers.children| ==>
            NodeAt(p.state.tree, layersAt + [layers.children[i].key]) == Some(Substituted(layers.children[i].node, layer)))
      && (forall q :: Disjoint(layersAt, q) ==> NodeAt(p.state.tree, q) == NodeAt(st0.tree, q))
  {
    ScheduledQuantized(ep, layer, st0, plan);
    BlocksSubstituted(layer, st0.tree, Scheduled(ep, Quantizer(Ok(layer)), st0, plan, |plan|).state.tree,
                      reverse, layersAt, layers, plan);
    BlocksElsewhere(ep, layer, st0, reverse, layersAt, layers, plan);
  }

  /** Per unit to per block: a model `t` holding every unit's substituted
      form holds every block's. */
  lemma BlocksSubstituted(layer: Layer, t0: Node, t: Node, reverse: bool, layersAt: Path, layers: Node,
                          plan: seq<Unit>)
    requires |plan| == |layers.children|
    requires forall i :: 0 <= i < |plan| ==>
      plan[i].path == layersAt + [layers.children[if reverse then |plan| - 1 - i else i].key]
    requires forall i :: 0 <= i < |plan| ==>
      NodeAt(t0, layersAt + [layers.children[i].key]) == Some(layers.children[i].node)
    requires forall j :: 0 <= j < |plan| ==>
      NodeAt(t0, plan[j].path).Some? && NodeAt(t, plan[j].path) == Some(Substituted(NodeAt(t0, plan[j].path).value, layer))
    ensures forall i :: 0 <= i < |layers.children| ==>
      NodeAt(t, layersAt + [layers.children[i].key]) == Some(Substituted(layers.children[i].node, layer))
  {
    var n := |plan|;
    forall i | 0 <= i < n
      ensures NodeAt(t, layersAt + [layers.children[i].key]) == Some(Substituted(layers.children[i].node, layer))
    {
      var j := if reverse then n - 1 - i else i;
      assert plan[j].path == layersAt + [layers.children[i].key];
    }
  }

  lemma BlocksElsewhere(ep: Epilogue, layer: Layer, st0: State, reverse: bool, layersAt: Path, layers: Node,
                        plan: seq<Unit>)
    requires Schedulable(st0.tree, plan)
    requires |plan| == |layers.children|
    requires forall i :: 0 <= i < |plan| ==>
      plan[i].path == layersAt + [layers.children[if reverse then |plan| - 1 - i else i].key]
    ensures var p := Scheduled(ep, Quantizer(Ok(layer)), st0, plan, |plan|);
      forall q :: Disjoint(layersAt, q) ==> NodeAt(p.state.tree, q) == NodeAt(st0.tree, q)
  {
    var n := |plan|;
    ScheduledQuantized(ep, layer, st0, plan);
    var t := Scheduled(ep, Quantizer(Ok(layer)), st0, plan, n).state.tree;
    forall q | Disjoint(layersAt, q) ensures NodeAt(t, q) == NodeAt(st0.tree, q) {
      forall i | 0 <= i < n ensures Disjoint(plan[i].path, q) {
        DisjointExtend(layersAt, q, [layers.children[if reverse then n - 1 - i else i].key]);
      }
    }
  }
}
