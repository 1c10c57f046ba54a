/** The model object that both experiment scripts mutate: its module tree,
    the `requires_grad` flag of each named parameter, and the record of
    what was trained, saved and evaluated. */
module ModelState {
  import opened Strings
  import opened Outcomes
  import opened ModuleTree
  import opened Substitution

  /** The `TrainingArguments` that differ between the scripts. */
  datatype TrainArgs = TrainArgs(
    maxSteps: int,
    warmupSteps: real,
    gradientAccumulation: nat,
    cosineSchedule: bool)

  /** What the outside world sees of a run. */
  datatype Event =
      /** `trainer.train()` on the model as it then is */
    | Trained(args: TrainArgs, model: Node, trainable: map<string, bool>)
      /** `save_bnn(model, path)` */
    | Saved(path: string, model: Node, trainable: map<string, bool>)
      /** `evaluate_model(model, tokenizer, model_id, tasks, limit=..., eval_ppl=...)`;
          `None` when `eval_ppl` is left at its default */
    | Evaluated(model: Node, modelId: string, tasks: string, limit: nat, evalPpl: Option<bool>)

  /** Every flag switched off, the names kept. */
  function Frozen(flags: map<string, bool>): (r: map<string, bool>)
    ensures r.Keys == flags.Keys
    ensures forall k :: k in r ==> !r[k]
  {
    map k | k in flags :: false
  }

  /** The name split of replace_qlinear, for an entry of `named_modules()`
      of `s`: `rfind('.')` splits the entry's name into the dotted name of
      its parent's path `q` (no '.' at all: the parent is the root) and its
      last key. The root entry (name "") gets itself as parent and "" as key. */
  lemma ParentLookup(s: Node, e: Entry) returns (q: Path, key: string)
    requires WellFormed(s) && e in Named(s, "", [])
    ensures NodeAt(s, e.path) == Some(e.node)
    ensures ValidKeys(q) && NodeAt(s, q).Some?
    ensures e.path == [] ==> q == [] && key == "" && e.node == s
    ensures e.path != [] ==> e.path == q + [key]
    ensures var ind := RFind(e.name, '.');
      && (ind == -1 ==> q == [])
      && (ind != -1 ==> 0 <= ind && e.name[..ind] == Dotted(q))
      && e.name[ind + 1..] == key
  {
    assert Dotted([]) == "";
    NamedSound(s, [], e);
    assert e.path[0..] == e.path;
    if e.path == [] {
      q, key := [], "";
    } else {
      q, key := ParentOfPath(s, e.path);
    }
  }

  lemma ParentOfPath(s: Node, p: Path) returns (q: Path, key: string)
    requires ValidKeys(p) && p != [] && NodeAt(s, p).Some?
    ensures ValidKeys(q) && NodeAt(s, q).Some? && p == q + [key]
    ensures var name, ind := Dotted(p), RFind(Dotted(p), '.');
      && (ind == -1 ==> q == [])
      && (ind != -1 ==> 0 <= ind && name[..ind] == Dotted(q))
      && name[ind + 1..] == key
  {
    q, key := p[..|p| - 1], p[|p| - 1];
    assert p == q + [key];
    NodeAtPrefix(s, q, key);
    assert ValidKeys(q);
    SplitDotted(p);
  }

  /** The dict lookup of the parent: `module_name_dict[""]` when the name
      has no '.', `module_name_dict[name[:ind]]` otherwise, finds the entry
      of the parent path. */
  lemma IndexedParent(s: Node, e: Entry, index: map<string, Entry>) returns (q: Path, key: string)
    requires WellFormed(s) && e in Named(s, "", []) && index == NameIndex(Named(s, "", []))
    ensures NodeAt(s, e.path) == Some(e.node)
    ensures e.path == [] ==> q == [] && key == "" && e.node == s
    ensures e.path != [] ==> e.path == q + [key]
    ensures var ind := RFind(e.name, '.');
      && (ind == -1 ==> "" in index && index[""].path == q)
      && (ind != -1 ==> 0 <= ind && e.name[..ind] in index && index[e.name[..ind]].path == q)
      && e.name[ind + 1..] == key
  {
    q, key := ParentLookup(s, e);
    IndexFindsPath(s, q);
    assert Dotted([]) == "";
  }

  /** One `setattr` of the loop, lifted to the whole model: the entry `e`
      of the subtree at `at` joins the handled set. */
  lemma LoopStep(t0: Node, at: Path, s: Node, D: set<Path>, e: Entry, q: Path, key: string, layer: Layer)
    requires NodeAt(t0, at) == Some(s) && WellFormed(s) && LinearsAreLeaves(s)
    requires NodeAt(s, e.path) == Some(e.node) && e.node.kind.Linear?
    requires e.path == [] ==> q == [] && key == "" && e.node == s
    requires e.path != [] ==> e.path == q + [key]
    ensures SetAt(Splice(t0, at, SubstitutedIn(s, D, layer)), at + q, key, Replacement(layer, e.node))
         == Splice(t0, at, SubstitutedIn(s, D + {e.path}, layer))
  {
    SetAtUnderSplice(t0, at, SubstitutedIn(s, D, layer), q, key, Replacement(layer, e.node));
    if e.path == [] {
      SubstitutedInRootStep(s, D, layer);
    } else {
      SubstitutedInStep(s, q, key, D, layer, e.node);
    }
  }

  /** The body of the loop for a Linear entry, with the parent looked up in
      the dict and the key cut from the name exactly as replace_qlinear does:
      the `setattr` joins the entry to the handled set. */
  lemma LinearEntryStep(t0: Node, at: Path, s: Node, es: seq<Entry>, index: map<string, Entry>, i: int, D: set<Path>, layer: Layer)
    requires NodeAt(t0, at) == Some(s) && WellFormed(s) && LinearsAreLeaves(s)
    requires es == Named(s, "", []) && index == NameIndex(es)
    requires 0 <= i < |es| && es[i].node.kind.Linear? && D == LinearPaths(es[..i])
    ensures LinearPaths(es[..i + 1]) == D + {es[i].path}
    ensures var name := es[i].name; var ind := RFind(name, '.');
      && (ind == -1 ==> "" in index)
      && (ind != -1 ==> 0 <= ind && name[..ind] in index)
  {
    var e := es[i];
    assert e in es;
    var q, key := IndexedParent(s, e, index);
    LinearPathsNext(es, i);
  }

  /** Setting the looked-up father's attribute replaces exactly the entry's leaf. */
  lemma LinearEntrySet(t0: Node, at: Path, s: Node, es: seq<Entry>, index: map<string, Entry>, i: int, D: set<Path>,
                       layer: Layer, father: Entry, key: string)
    requires NodeAt(t0, at) == Some(s) && WellFormed(s) && LinearsAreLeaves(s)
    requires es == Named(s, "", []) && index == NameIndex(es)
    requires 0 <= i < |es| && es[i].node.kind.Linear? && D == LinearPaths(es[..i])
    requires var name := es[i].name; var ind := RFind(name, '.');
      && (ind == -1 ==> "" in index && father == index[""])
      && (ind != -1 ==> 0 <= ind && name[..ind] in index && father == index[name[..ind]])
      && key == name[ind + 1..]
    ensures SetAt(Splice(t0, at, SubstitutedIn(s, D, layer)), at + father.path, key, Replacement(layer, es[i].node))
         == Splice(t0, at, SubstitutedIn(s, D + {es[i].path}, layer))
  {
    var e := es[i];
    assert e in es;
    var q, k := IndexedParent(s, e, index);
    LoopStep(t0, at, s, D, e, q, k, layer);
  }

  /** A failing choice is raised at the first Linear entry. */
  lemma Raised(t0: Node, at: Path, s: Node, e: Entry, err: Error)
    requires NodeAt(t0, at) == Some(s) && e in Named(s, "", []) && e.node.kind.Linear?
    ensures SubstituteAt(t0, at, Err(err)) == Err(err)
  {
  }

  /** A snapshot without Linear entries never asks for a class. */
  lemma NeverRaised(t0: Node, at: Path, s: Node, err: Error)
    requires NodeAt(t0, at) == Some(s) && LinearPaths(Named(s, "", [])) == {}
    ensures SubstituteAt(t0, at, Err(err)) == Ok(t0)
  {
    LinearPathsExact(Named(s, "", []));
    SpliceSelf(t0, at);
  }

  /** After the whole snapshot, every Linear of the subtree is handled. */
  lemma AllHandled(t0: Node, at: Path, s: Node, layer: Layer)
    requires NodeAt(t0, at) == Some(s) && WellFormed(s)
    ensures SubstituteAt(t0, at, Ok(layer)) == Ok(Splice(t0, at, SubstitutedIn(s, LinearPaths(Named(s, "", [])), layer)))
  {
    var es := Named(s, "", []);
    LinearPathsExact(es);
    forall r | NodeAt(s, r).Some? && NodeAt(s, r).value.kind.Linear? ensures r in LinearPaths(es) {
      NamedComplete(s, "", [], r);
      assert [] + r == r;
    }
    SubstitutedInAll(s, LinearPaths(es), layer);
  }

  class Model {
    var tree: Node
    var trainable: map<string, bool>
    var log: seq<Event>

    constructor (t: Node, flags: map<string, bool>)
      ensures tree == t && trainable == flags && log == []
    {
      tree := t;
      trainable := flags;
      log := [];
    }

    /** replace_qlinear on the module at path `at`. The dict of
        `named_modules()` is taken once; for each Linear it lists, the
        parent is looked up by the name before the last '.', and the
        quantized layer is set under the last key. `choice` is the class
        the binarization method selects, or the exception selecting it
        raises; it is raised at the first Linear. */
    method ReplaceQLinear(at: Path, choice: Result<Layer>) returns (err: Option<Error>)
      requires Substitutable(tree, at)
      modifies this
      ensures trainable == old(trainable) && log == old(log)
      ensures err.None? ==> SubstituteAt(old(tree), at, choice) == Ok(tree)
      ensures err.Some? ==> SubstituteAt(old(tree), at, choice) == Err(err.value) && tree == old(tree)
    {
      var s := NodeAt(tree, at).value;
      var es := Named(s, "", []);
      var index := NameIndex(es);
      err := ReplaceListed(at, s, es, index, choice);
      if err.None? {
        match choice {
          case Ok(layer) => AllHandled(old(tree), at, s, layer);
          case Err(error) => NeverRaised(old(tree), at, s, error);
        }
      }
    }

    /** The loop of replace_qlinear over the dict `index` of the snapshot
        `es` of the subtree `s` at `at`: every Linear entry is replaced
        under its parent, or the failing choice is raised at the first one. */
    method ReplaceListed(at: Path, ghost s: Node, es: seq<Entry>, index: map<string, Entry>, choice: Result<Layer>)
      returns (err: Option<Error>)
      requires NodeAt(tree, at) == Some(s) && WellFormed(s) && LinearsAreLeaves(s)
      requires es == Named(s, "", []) && index == NameIndex(es)
      modifies this`tree
      ensures err.Some? ==> SubstituteAt(old(tree), at, choice) == Err(err.value) && tree == old(tree)
      ensures err.None? && choice.Ok? ==> tree == Splice(old(tree), at, SubstitutedIn(s, LinearPaths(es), choice.value))
      ensures err.None? && choice.Err? ==> tree == old(tree) && LinearPaths(es) == {}
    {
      ghost var t0 := tree;
      if choice.Ok? {
        ReplacedInNothing(s, [], choice.value);
      }
      SpliceSelf(t0, at);
      assert choice.Ok? ==> tree == Splice(t0, at, SubstitutedIn(s, {}, choice.value));
      var i := 0;
      ghost var D: set<Path> := {};
      while i < |es|
        invariant 0 <= i <= |es| && D == LinearPaths(es[..i])
        invariant choice.Ok? ==> tree == Splice(t0, at, SubstitutedIn(s, D, choice.value))
        invariant choice.Err? ==> tree == t0 && D == {}
      {
        var e := es[i];
        if e.node.kind.Linear? {
          if choice.Err? {
            Raised(t0, at, s, e, choice.error);
            return Some(choice.error);
          }
          LinearEntryStep(t0, at, s, es, index, i, D, choice.value);
          var name := e.name;
          var ind := RFind(name, '.');
          var father := if ind == -1 then index[""] else index[name[..ind]];
          var key := name[ind + 1..];
          var qlinear := Replacement(choice.value, e.node);
          LinearEntrySet(t0, at, s, es, index, i, D, choice.value, father, key);
          tree := SetAt(tree, at + father.path, key, qlinear);
          D := D + {e.path};
        } else {
          LinearPathsNext(es, i);
        }
        i := i + 1;
      }
      assert es[..|es|] == es;
      err := None;
    }

    /** `param.requires_grad = False` for every named parameter that has it set. */
    method Freeze()
      modifies this
      ensures tree == old(tree) && log == old(log)
      ensures trainable == Frozen(old(trainable))
    {
      var todo := trainable.Keys;
      while todo != {}
        invariant todo <= trainable.Keys == old(trainable).Keys
        invariant tree == old(tree) && log == old(log)
        invariant forall k :: k in trainable && k !in todo ==> !trainable[k]
        invariant forall k :: k in todo ==> trainable[k] == old(trainable)[k]
        decreases todo
      {
        var k :| k in todo;
        if trainable[k] {
          trainable := trainable[k := false];
        }
        todo := todo - {k};
      }
    }

    /** `trainer.train()`: recorded with the model and flags it starts from. */
    method Train(args: TrainArgs)
      modifies this
      ensures tree == old(tree) && trainable == old(trainable)
      ensures log == old(log) + [Trained(args, tree, trainable)]
    {
      log := log + [Trained(args, tree, trainable)];
    }

    /** `save_bnn(model, path)` */
    method Save(path: string)
      modifies this
      ensures tree == old(tree) && trainable == old(trainable)
      ensures log == old(log) + [Saved(path, tree, trainable)]
    {
      log := log + [Saved(path, tree, trainable)];
    }

    /** `evaluate_model(model, tokenizer, model_id, tasks, limit=limit[, eval_ppl=...])` */
    method Evaluate(modelId: string, tasks: string, limit: nat, evalPpl: Option<bool>)
      modifies this
      ensures tree == old(tree) && trainable == old(trainable)
      ensures log == old(log) + [Evaluated(tree, modelId, tasks, limit, evalPpl)]
    {
      log := log + [Evaluated(tree, modelId, tasks, limit, evalPpl)];
    }
  }
}
