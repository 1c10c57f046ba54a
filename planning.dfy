/** The unit lists `ordered_name_modules` that `main` builds for each
    granularity, and why the scheduler may process them one after another:
    their modules occupy pairwise disjoint places of the model. */
module Planning {
  import opened Strings
  import opened Outcomes
  import opened ModuleTree

  /** One `(module_name, module)` pair; the module is referenced by its path. */
  datatype Unit = Unit(name: string, path: Path)

  /** No two units share a path. */
  predicate UnitPathsDistinct(us: seq<Unit>)
  {
    forall i, j :: 0 <= i < j < |us| ==> us[i].path != us[j].path
  }

  /** The units occupy pairwise disjoint places of the model. */
  predicate PairwiseDisjoint(us: seq<Unit>)
  {
    forall i, j :: 0 <= i < j < |us| ==> Disjoint(us[i].path, us[j].path)
  }

  /** The model as `from_pretrained` builds it: well-formed, every Linear a
      leaf, and the model itself not a Linear. */
  predicate ModelShape(t: Node)
  {
    WellFormed(t) && LinearsAreLeaves(t) && !t.kind.Linear?
  }

  // ---------------------------------------------------------------------
  // per_block

  /** `[(f"block{i}", m) for i, m in enumerate(layers)]`, for the module
      list `layers` found at path `at`. */
  function BlockUnits(layers: Node, at: Path): seq<Unit>
  {
    seq(|layers.children|, i requires 0 <= i < |layers.children| =>
      Unit("block" + NatToString(i), at + [layers.children[i].key]))
  }

  /** `ordered_name_modules[::-1]` */
  function Reversed<T>(s: seq<T>): (r: seq<T>)
    ensures |r| == |s|
    ensures forall i :: 0 <= i < |s| ==> r[i] == s[|s| - 1 - i]
  {
    if s == [] then [] else Reversed(s[1..]) + [s[0]]
  }

  /** Each per_block unit is the block registered at its position in the
      module list, and is named after that position. */
  lemma BlockUnitsResolve(t: Node, at: Path, i: int)
    requires WellFormed(t) && NodeAt(t, at).Some?
    requires 0 <= i < |NodeAt(t, at).value.children|
    ensures var layers := NodeAt(t, at).value; var u := BlockUnits(layers, at)[i];
      && u.name == "block" + NatToString(i)
      && NodeAt(t, u.path) == Some(layers.children[i].node)
  {
    var layers := NodeAt(t, at).value;
    NodeAtWellFormed(t, at);
    ChildIndexDistinct(layers.children, i);
    NodeAtExtend(t, at, layers.children[i].key);
  }

  /** Distinct blocks get distinct names and disjoint places. */
  lemma BlockUnitsApart(layers: Node, at: Path, i: int, j: int)
    requires KeysDistinct(layers.children)
    requires 0 <= i < |layers.children| && 0 <= j < |layers.children| && i != j
    ensures BlockUnits(layers, at)[i].name != BlockUnits(layers, at)[j].name
    ensures Disjoint(BlockUnits(layers, at)[i].path, BlockUnits(layers, at)[j].path)
  {
    var us := BlockUnits(layers, at);
    if us[i].name == us[j].name {
      assert NatToString(i) == us[i].name[5..] == us[j].name[5..] == NatToString(j);
      NatToStringInjective(i, j);
    }
    assert us[i].path[|at|] == layers.children[i].key;
    assert us[j].path[|at|] == layers.children[j].key;
    DisjointAt(us[i].path, us[j].path, |at|);
  }

  // ---------------------------------------------------------------------
  // per_linear

  /** The Linear pairs of a `named_modules()` list, in order. */
  function LinearUnitsOf(es: seq<Entry>): seq<Unit>
  {
    if es == [] then []
    else
      var e := es[|es| - 1];
      LinearUnitsOf(es[..|es| - 1]) + (if e.node.kind.Linear? then [Unit(e.name, e.path)] else [])
  }

  /** The loop of `main` for per_linear: every Linear of
      `model.named_modules()` is appended, in traversal order. */
  method LinearUnits(t: Node) returns (units: seq<Unit>)
    ensures units == LinearUnitsOf(Named(t, "", []))
  {
    var es := Named(t, "", []);
    units := [];
    for i := 0 to |es|
      invariant units == LinearUnitsOf(es[..i])
    {
      assert es[..i + 1][..i] == es[..i];
      if es[i].node.kind.Linear? {
        units := units + [Unit(es[i].name, es[i].path)];
      }
    }
    assert es[..|es|] == es;
  }

  /** Each per_linear unit comes from a Linear pair of the list. */
  lemma {:induction false} LinearUnitsFrom(es: seq<Entry>)
    ensures forall u :: u in LinearUnitsOf(es) ==>
      exists e :: e in es && e.node.kind.Linear? && u == Unit(e.name, e.path)
  {
    if es != [] {
      var init := es[..|es| - 1];
      LinearUnitsFrom(init);
      forall u | u in LinearUnitsOf(es)
        ensures exists e :: e in es && e.node.kind.Linear? && u == Unit(e.name, e.path)
      {
        if u in LinearUnitsOf(init) {
          var e :| e in init && e.node.kind.Linear? && u == Unit(e.name, e.path);
          assert e in es;
        } else {
          assert es[|es| - 1] in es;
        }
      }
    }
  }

  /** A list that has every path once gives units with distinct paths. */
  lemma {:induction false} LinearUnitsDistinct(es: seq<Entry>)
    requires PathsDistinct(es)
    ensures UnitPathsDistinct(LinearUnitsOf(es))
  {
    if es != [] {
      var init := es[..|es| - 1];
      var last := es[|es| - 1];
      LinearUnitsDistinct(init);
      LinearUnitsFrom(init);
      var us, vs := LinearUnitsOf(init), LinearUnitsOf(es);
      assert vs[..|us|] == us;
      forall i, j | 0 <= i < j < |vs| ensures vs[i].path != vs[j].path {
        if j < |us| {
          assert vs[i] == us[i] && vs[j] == us[j];
        } else {
          assert vs[i] == us[i] && us[i] in us;
          var e :| e in init && e.node.kind.Linear? && us[i] == Unit(e.name, e.path);
          var a :| 0 <= a < |init| && init[a] == e;
          assert es[a] == e && a < |es| - 1;
          assert es[a].path != es[|es| - 1].path;
          assert last.node.kind.Linear? && vs == us + [Unit(last.name, last.path)];
          assert vs[j].path == last.path;
        }
      }
    }
  }

  /** Every per_linear unit names a Linear of the model by its dotted name,
      and every Linear of the model is a unit. */
  lemma LinearUnitsExact(t: Node)
    requires WellFormed(t)
    ensures forall u :: u in LinearUnitsOf(Named(t, "", [])) ==>
      ValidKeys(u.path) && u.name == Dotted(u.path) &&
      NodeAt(t, u.path).Some? && NodeAt(t, u.path).value.kind.Linear?
    ensures forall r :: NodeAt(t, r).Some? && NodeAt(t, r).value.kind.Linear? ==>
      exists u :: u in LinearUnitsOf(Named(t, "", [])) && u.path == r
  {
    var es := Named(t, "", []);
    var us := LinearUnitsOf(es);
    assert Dotted([]) == "";
    LinearUnitsFrom(es);
    forall u | u in us ensures ValidKeys(u.path) && u.name == Dotted(u.path) &&
      NodeAt(t, u.path).Some? && NodeAt(t, u.path).value.kind.Linear?
    {
      var e :| e in es && e.node.kind.Linear? && u == Unit(e.name, e.path);
      NamedSound(t, [], e);
      assert e.path[0..] == e.path;
    }
    forall r | NodeAt(t, r).Some? && NodeAt(t, r).value.kind.Linear?
      ensures exists u :: u in us && u.path == r
    {
      NamedComplete(t, "", [], r);
      var e :| e in es && e.path == [] + r && e.node == NodeAt(t, r).value;
      LinearUnitsIn(es, e);
    }
  }

  /** A Linear pair of the list gives a unit. */
  lemma {:induction false} LinearUnitsIn(es: seq<Entry>, e: Entry)
    requires e in es && e.node.kind.Linear?
    ensures Unit(e.name, e.path) in LinearUnitsOf(es)
  {
    var init := es[..|es| - 1];
    if e != es[|es| - 1] {
      assert es == init + [es[|es| - 1]];
      LinearUnitsIn(init, e);
    }
  }

  /** No Linear of the model lies above another one. */
  lemma {:induction false} LinearHasNothingBelow(t: Node, p: Path, q: Path)
    requires LinearsAreLeaves(t) && !t.kind.Linear?
    requires NodeAt(t, p).Some? && NodeAt(t, p).value.kind.Linear?
    requires |p| < |q| && q[..|p|] == p
    ensures NodeAt(t, q).None?
    decreases |p|
  {
    var i := ChildIndex(t.children, p[0]);
    var c := t.children[i].node;
    assert q[0] == p[0];
    if |p| == 1 {
      assert c.kind.Linear? && c.children == [];
      assert NodeAt(t, q) == NodeAt(c, q[1..]);
    } else {
      assert q[1..][..|p| - 1] == p[1..];
      LinearHasNothingBelow(c, p[1..], q[1..]);
    }
  }

  /** Two paths of which neither extends the other part at some key. */
  lemma Apart(p: Path, q: Path)
    requires !(|p| <= |q| && q[..|p|] == p) && !(|q| <= |p| && p[..|q|] == q)
    ensures Disjoint(p, q)
  {
    if |p| <= |q| {
      assert q[..|p|] != p;
      var k :| 0 <= k < |p| && q[..|p|][k] != p[k];
      DisjointAt(p, q, k);
    } else {
      assert p[..|q|] != q;
      var k :| 0 <= k < |q| && p[..|q|][k] != q[k];
      DisjointAt(p, q, k);
    }
  }

  /** per_linear units occupy pairwise disjoint places of the model. */
  lemma LinearUnitsApart(t: Node)
    requires ModelShape(t)
    ensures PairwiseDisjoint(LinearUnitsOf(Named(t, "", [])))
  {
    var es := Named(t, "", []);
    var us := LinearUnitsOf(es);
    LinearUnitsExact(t);
    NamedDistinct(t, "", []);
    LinearUnitsDistinct(es);
    forall i, j | 0 <= i < j < |us| ensures Disjoint(us[i].path, us[j].path) {
      var p, q := us[i].path, us[j].path;
      assert us[i] in us && us[j] in us;
      if |p| <= |q| && q[..|p|] == p {
        assert p != q;
        LinearHasNothingBelow(t, p, q);
      } else if |q| <= |p| && p[..|q|] == q {
        assert p != q;
        LinearHasNothingBelow(t, q, p);
      } else {
        Apart(p, q);
      }
    }
  }

  // ---------------------------------------------------------------------
  // Attribute access and the scheduler's precondition

  /** `t.k0.k1...` for submodules: the module at `p`, or the AttributeError
      for the first key that is not registered. */
  function Resolve(t: Node, p: Path): (r: Result<Node>)
    ensures r.Ok? <==> NodeAt(t, p).Some?
    ensures r.Ok? ==> r.value == NodeAt(t, p).value
    ensures r.Err? ==> exists k :: 0 <= k < |p| && r.error == AttributeError(p[k])
    decreases |p|
  {
    if p == [] then Ok(t)
    else
      var i := ChildIndex(t.children, p[0]);
      if i == -1 then Err(AttributeError(p[0]))
      else
        var r := Resolve(t.children[i].node, p[1..]);
        if r.Err? then assert exists k :: 0 <= k < |p[1..]| && r.error == AttributeError(p[1..][k]);
          var k :| 0 <= k < |p[1..]| && r.error == AttributeError(p[1..][k]);
          assert r.error == AttributeError(p[k + 1]);
          r
        else r
  }

  /** The path of `model.base_model`: the submodule named by the class's
      `base_model_prefix` when the model has one, the model itself otherwise. */
  function BaseModelPath(t: Node, basePrefix: string): (p: Path)
    ensures NodeAt(t, p).Some?
  {
    if ChildIndex(t.children, basePrefix) != -1 then
      assert NodeAt(t, [basePrefix]) == NodeAt(t.children[ChildIndex(t.children, basePrefix)].node, []);
      [basePrefix]
    else []
  }

  /** What the scheduler needs of a plan: units at pairwise disjoint places,
      each a subtree replace_qlinear can be handed. */
  predicate Schedulable(t: Node, us: seq<Unit>)
  {
    && PairwiseDisjoint(us)
    && forall i :: 0 <= i < |us| ==> Substitutable(t, us[i].path)
  }

  /** per_block units occupy pairwise disjoint places. */
  lemma BlockUnitsPairwise(layers: Node, at: Path)
    requires KeysDistinct(layers.children)
    ensures PairwiseDisjoint(BlockUnits(layers, at))
  {
    var us := BlockUnits(layers, at);
    forall i, j | 0 <= i < j < |us| ensures Disjoint(us[i].path, us[j].path) {
      BlockUnitsApart(layers, at, i, j);
    }
  }

  /** Every per_block unit of a model is a subtree replace_qlinear can be
      handed, and no two overlap. */
  lemma BlockUnitsSchedulable(t: Node, at: Path)
    requires ModelShape(t) && NodeAt(t, at).Some?
    ensures Schedulable(t, BlockUnits(NodeAt(t, at).value, at))
  {
    var layers := NodeAt(t, at).value;
    var us := BlockUnits(layers, at);
    NodeAtWellFormed(t, at);
    BlockUnitsPairwise(layers, at);
    forall i | 0 <= i < |us| ensures Substitutable(t, us[i].path)
    {
      BlockUnitsResolve(t, at, i);
      NodeAtWellFormed(t, us[i].path);
      NodeAtLeaves(t, us[i].path);
    }
  }

  /** `[::-1]` keeps a plan schedulable. */
  lemma ReversedSchedulable(t: Node, us: seq<Unit>)
    requires Schedulable(t, us)
    ensures Schedulable(t, Reversed(us))
  {
    var rs := Reversed(us);
    forall i, j | 0 <= i < j < |rs| ensures Disjoint(rs[i].path, rs[j].path) {
      DisjointSymmetric(us[|us| - 1 - j].path, us[|us| - 1 - i].path);
    }
    forall i | 0 <= i < |rs| ensures Substitutable(t, rs[i].path) {
      assert rs[i] == us[|us| - 1 - i];
    }
  }

  /** The per_linear plan of a model can be scheduled: each unit is a leaf
      Linear. */
  lemma LinearUnitsSchedulable(t: Node)
    requires ModelShape(t)
    ensures Schedulable(t, LinearUnitsOf(Named(t, "", [])))
  {
    var us := LinearUnitsOf(Named(t, "", []));
    LinearUnitsApart(t);
    LinearUnitsExact(t);
    forall i | 0 <= i < |us| ensures Substitutable(t, us[i].path)
    {
      assert us[i] in us;
      NodeAtWellFormed(t, us[i].path);
      NodeAtLeaves(t, us[i].path);
    }
  }

  /** The whole_model plan `[("whole_model", model)]` can be scheduled. */
  lemma WholeModelSchedulable(t: Node)
    requires ModelShape(t)
    ensures Schedulable(t, [Unit("whole_model", [])])
  {
    assert NodeAt(t, []) == Some(t);
  }

  // ---------------------------------------------------------------------
  // The planner of main

  /** The `ordered_name_modules` list `main` builds for `granularity`: the
      blocks of the module list at `layersAt` (reversed when `order` is
      "reverse"), the Linear pairs of `named_modules()`, or the model
      itself; any other granularity raises NotImplementedError. */
  function PlanOf(granularity: string, order: string, t: Node, layersAt: Path): Result<seq<Unit>>
  {
    if granularity == "per_block" then
      match Resolve(t, layersAt)
      case Err(e) => Err(e)
      case Ok(layers) =>
        var us := BlockUnits(layers, layersAt);
        Ok(if order == "reverse" then Reversed(us) else us)
    else if granularity == "per_linear" then Ok(LinearUnitsOf(Named(t, "", [])))
    else if granularity == "whole_model" then Ok([Unit("whole_model", [])])
    else Err(NotImplementedError)
  }

  /** The branch of `main` that builds `ordered_name_modules`. */
  method Plan(granularity: string, order: string, t: Node, layersAt: Path) returns (r: Result<seq<Unit>>)
    ensures r == PlanOf(granularity, order, t, layersAt)
  {
    if granularity == "per_block" {
      var layers := Resolve(t, layersAt);
      if layers.Err? {
        return Err(layers.error);
      }
      var us := BlockUnits(layers.value, layersAt);
      if order == "reverse" {
        us := Reversed(us);
      }
      r := Ok(us);
    } else if granularity == "per_linear" {
      var us := LinearUnits(t);
      r := Ok(us);
    } else if granularity == "whole_model" {
      r := Ok([Unit("whole_model", [])]);
    } else {
      r := Err(NotImplementedError);
    }
  }

  /** Every plan `main` builds for a model can be scheduled. */
  lemma PlanSchedulable(granularity: string, order: string, t: Node, layersAt: Path)
    requires ModelShape(t)
    ensures PlanOf(granularity, order, t, layersAt).Ok? ==> Schedulable(t, PlanOf(granularity, order, t, layersAt).value)
  {
    if granularity == "per_block" && NodeAt(t, layersAt).Some? {
      BlockUnitsSchedulable(t, layersAt);
      if order == "reverse" {
        ReversedSchedulable(t, BlockUnits(NodeAt(t, layersAt).value, layersAt));
      }
    } else if granularity == "per_linear" {
      LinearUnitsSchedulable(t);
    } else if granularity == "whole_model" {
      WholeModelSchedulable(t);
    }
  }

  /** per_block: the plan exists exactly when the module list does; it has
      one unit per block, the `i`-th block named `block{i}` and found at
      position `i` of the plan, or at the mirrored position when the order
      is reversed. A missing attribute on the way raises AttributeError. */
  lemma PlanBlocks(order: string, t: Node, layersAt: Path)
    requires WellFormed(t)
    ensures var r := PlanOf("per_block", order, t, layersAt);
      && (r.Ok? <==> NodeAt(t, layersAt).Some?)
      && (r.Err? ==> exists k :: 0 <= k < |layersAt| && r.error == AttributeError(layersAt[k]))
      && (r.Ok? ==>
            var layers := NodeAt(t, layersAt).value;
            var n := |layers.children|;
            && |r.value| == n
            && forall i :: 0 <= i < n ==>
                 var u := r.value[if order == "reverse" then n - 1 - i else i];
                 u.name == "block" + NatToString(i) && NodeAt(t, u.path) == Some(layers.children[i].node))
  {
    if NodeAt(t, layersAt).Some? {
      PlanBlocksAll(order, t, layersAt);
    }
  }

  /** The units of an existing module list, block by block. */
  lemma PlanBlocksAll(order: string, t: Node, layersAt: Path)
    requires WellFormed(t) && NodeAt(t, layersAt).Some?
    ensures var r := PlanOf("per_block", order, t, layersAt);
      var layers := NodeAt(t, layersAt).value;
      var n := |layers.children|;
      && r.Ok? && |r.value| == n
      && forall i :: 0 <= i < n ==>
           var u := r.value[if order == "reverse" then n - 1 - i else i];
           u.name == "block" + NatToString(i) && NodeAt(t, u.path) == Some(layers.children[i].node)
  {
    var r := PlanOf("per_block", order, t, layersAt);
    var layers := NodeAt(t, layersAt).value;
    var n := |layers.children|;
    forall i | 0 <= i < n
      ensures var u := r.value[if order == "reverse" then n - 1 - i else i];
        u.name == "block" + NatToString(i) && NodeAt(t, u.path) == Some(layers.children[i].node)
    {
      PlanBlockAt(order, t, layersAt, i);
    }
  }

  /** The `i`-th block's unit in the per_block plan. */
  lemma PlanBlockAt(order: string, t: Node, layersAt: Path, i: int)
    requires WellFormed(t) && NodeAt(t, layersAt).Some?
    requires 0 <= i < |NodeAt(t, layersAt).value.children|
    ensures var layers := NodeAt(t, layersAt).value; var n := |layers.children|;
      var r := PlanOf("per_block", order, t, layersAt);
      && r.Ok? && |r.value| == n
      && var u := r.value[if order == "reverse" then n - 1 - i else i];
         u.name == "block" + NatToString(i) && NodeAt(t, u.path) == Some(layers.children[i].node)
  {
    var layers := NodeAt(t, layersAt).value;
    var us := BlockUnits(layers, layersAt);
    var plan := if order == "reverse" then Reversed(us) else us;
    assert Resolve(t, layersAt) == Ok(layers);
    assert PlanOf("per_block", order, t, layersAt) == Ok(plan);
    assert plan[if order == "reverse" then |us| - 1 - i else i] == us[i];
    BlockUnitsResolve(t, layersAt, i);
  }

  /** per_linear: the plan lists every Linear of the model once, each under
      its dotted `named_modules` name, whatever the order argument. */
  lemma PlanLinears(order: string, t: Node, layersAt: Path)
    requires WellFormed(t)
    ensures var r := PlanOf("per_linear", order, t, layersAt);
      && r.Ok?
      && UnitPathsDistinct(r.value)
      && (forall u :: u in r.value ==>
            u.name == Dotted(u.path) && NodeAt(t, u.path).Some? && NodeAt(t, u.path).value.kind.Linear?)
      && (forall q :: NodeAt(t, q).Some? && NodeAt(t, q).value.kind.Linear? ==> exists u :: u in r.value && u.path == q)
  {
    LinearUnitsExact(t);
    NamedDistinct(t, "", []);
    LinearUnitsDistinct(Named(t, "", []));
  }

  /** Distinct units of a plan have distinct names, so no checkpoint is
      saved over another. */
  lemma PlanNamesDistinct(granularity: string, order: string, t: Node, layersAt: Path)
    requires ModelShape(t) && PlanOf(granularity, order, t, layersAt).Ok?
    ensures var us := PlanOf(granularity, order, t, layersAt).value;
      forall i, j :: 0 <= i < j < |us| ==> us[i].name != us[j].name
  {
    var us := PlanOf(granularity, order, t, layersAt).value;
    if granularity == "per_block" {
      var layers := NodeAt(t, layersAt).value;
      NodeAtWellFormed(t, layersAt);
      var bs := BlockUnits(layers, layersAt);
      forall i, j | 0 <= i < j < |us| ensures us[i].name != us[j].name {
        if order == "reverse" {
          BlockUnitsApart(layers, layersAt, |bs| - 1 - i, |bs| - 1 - j);
        } else {
          BlockUnitsApart(layers, layersAt, i, j);
        }
      }
    } else if granularity == "per_linear" {
      PlanLinears(order, t, layersAt);
      LinearUnitsExact(t);
      forall i, j | 0 <= i < j < |us| ensures us[i].name != us[j].name {
        assert us[i] in us && us[j] in us;
        if us[i].name == us[j].name {
          DottedInjective(us[i].path, us[j].path);
        }
      }
    }
  }
}
