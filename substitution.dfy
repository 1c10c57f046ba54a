/** What one call of replace_qlinear does to a subtree, stated as functions:
    `Substituted` is the finished result, `SubstitutedIn` the result after
    the Linear modules whose paths are in a set `D` have been handled. The
    lemmas connect one `setattr` of the loop to one more path in `D`. */
module Substitution {
  import opened Strings
  import opened Outcomes
  import opened ModuleTree

  /** The quantized module built from the Linear `lin`: it keeps the Linear's
      weight, and its bias unless the layer is LowbitQuantizeLinear, which
      is constructed with `None` for the bias. */
  function Replacement(layer: Layer, lin: Node): (q: Node)
    requires lin.kind.Linear?
  {
    Node(Quantized(layer, lin.kind.weight, if layer.LowBit? then None else lin.kind.bias), [])
  }

  /** A module strictly below the subtree root after replace_qlinear: a
      Linear becomes its quantized replacement, any other module keeps its
      kind and has its children handled in turn. */
  function Replaced(n: Node, layer: Layer): Node
  {
    if n.kind.Linear? then Replacement(layer, n)
    else Node(n.kind, seq(|n.children|, i requires 0 <= i < |n.children| =>
      Child(n.children[i].key, Replaced(n.children[i].node, layer))))
  }

  /** The subtree root after replace_qlinear. The root is listed under the
      name "", so when it is itself a Linear its parent is looked up as
      `module_name_dict[""]` (the root again) and its key is `""[0:]`: the
      replacement is attached to the root as a child named "", and the root
      stays a Linear. */
  function Substituted(s: Node, layer: Layer): Node
  {
    var cs := seq(|s.children|, i requires 0 <= i < |s.children| =>
      Child(s.children[i].key, Replaced(s.children[i].node, layer)));
    Node(s.kind, if s.kind.Linear? then Put(cs, "", Replacement(layer, s)) else cs)
  }

  /** The subtree has a Linear module somewhere, the root included. */
  predicate HasLinear(s: Node)
  {
    exists e :: e in Named(s, "", []) && e.node.kind.Linear?
  }

  /** What replace_qlinear does to the module handed to it, as a whole.
      The class is chosen inside the loop, at the first Linear; a failing
      choice is raised there, before any `setattr`, so the module is left
      unchanged. A module without any Linear is never asked to choose. */
  function Quantize(choice: Result<Layer>, s: Node): Result<Node>
  {
    match choice
    case Err(e) => if HasLinear(s) then Err(e) else Ok(s)
    case Ok(layer) => Ok(Substituted(s, layer))
  }

  /** `Quantize` with the choice fixed, as a function of the module. */
  function Quantizer(choice: Result<Layer>): Node -> Result<Node>
  {
    s => Quantize(choice, s)
  }

  /** replace_qlinear on the module at path `at` of the model `t`: the
      module's new form is spliced in at its place. */
  function SubstituteAt(t: Node, at: Path, choice: Result<Layer>): Result<Node>
    requires NodeAt(t, at).Some?
  {
    match Quantize(choice, NodeAt(t, at).value)
    case Err(e) => Err(e)
    case Ok(s) => Ok(Splice(t, at, s))
  }

  // ---------------------------------------------------------------------
  // The loop's intermediate states

  /** `n`, found at path `pre`, once the Linear modules at the paths in `D`
      have been replaced. */
  function ReplacedIn(n: Node, pre: Path, D: set<Path>, layer: Layer): Node
    decreases n, 1
  {
    if n.kind.Linear? && pre in D then Replacement(layer, n) else Descended(n, pre, D, layer)
  }

  /** `n` keeps its kind; only its children are handled. */
  function Descended(n: Node, pre: Path, D: set<Path>, layer: Layer): (r: Node)
    decreases n, 0
  {
    Node(n.kind, seq(|n.children|, i requires 0 <= i < |n.children| =>
      Child(n.children[i].key, ReplacedIn(n.children[i].node, pre + [n.children[i].key], D, layer))))
  }

  /** The subtree root once the Linear modules at the paths in `D` have been
      handled; [] in `D` stands for the root's own entry. */
  function SubstitutedIn(s: Node, D: set<Path>, layer: Layer): Node
  {
    var d := Descended(s, [], D, layer);
    if s.kind.Linear? && [] in D then Node(s.kind, Put(d.children, "", Replacement(layer, s))) else d
  }

  /** The Linear paths among a list of `named_modules` pairs. */
  function LinearPaths(es: seq<Entry>): set<Path>
  {
    if es == [] then {}
    else
      var last := es[|es| - 1];
      LinearPaths(es[..|es| - 1]) + (if last.node.kind.Linear? then {last.path} else {})
  }

  /** The set holds exactly the paths of the Linear entries. */
  lemma {:induction false} LinearPathsExact(es: seq<Entry>)
    ensures forall e :: e in es && e.node.kind.Linear? ==> e.path in LinearPaths(es)
    ensures forall p :: p in LinearPaths(es) ==> exists e :: e in es && e.node.kind.Linear? && e.path == p
  {
    if es != [] {
      var init := es[..|es| - 1];
      LinearPathsExact(init);
      assert es == init + [es[|es| - 1]];
    }
  }

  /** One more entry of the snapshot adds its path when it is a Linear. */
  lemma LinearPathsNext(es: seq<Entry>, i: int)
    requires 0 <= i < |es|
    ensures es[i].node.kind.Linear? ==> LinearPaths(es[..i + 1]) == LinearPaths(es[..i]) + {es[i].path}
    ensures !es[i].node.kind.Linear? ==> LinearPaths(es[..i + 1]) == LinearPaths(es[..i])
  {
    assert es[..i + 1][..i] == es[..i];
    if !es[i].node.kind.Linear? {
      assert LinearPaths(es[..i]) + {} == LinearPaths(es[..i]);
    }
  }

  predicate ExtendsStrictly(p: Path, pre: Path)
  {
    |pre| < |p| && p[..|pre|] == pre
  }

  // ---------------------------------------------------------------------
  // Lemmas

  /** Paths outside the subtree at `pre` do not matter to it. */
  lemma {:induction false} ReplacedInIrrelevant(n: Node, pre: Path, D: set<Path>, layer: Layer, p: Path)
    requires p != pre && !ExtendsStrictly(p, pre)
    ensures ReplacedIn(n, pre, D + {p}, layer) == ReplacedIn(n, pre, D, layer)
    decreases n, 1
  {
    DescendedIrrelevant(n, pre, D, layer, p);
  }

  lemma {:induction false} DescendedIrrelevant(n: Node, pre: Path, D: set<Path>, layer: Layer, p: Path)
    requires !ExtendsStrictly(p, pre)
    ensures Descended(n, pre, D + {p}, layer) == Descended(n, pre, D, layer)
    decreases n, 0
  {
    forall i | 0 <= i < |n.children|
      ensures ReplacedIn(n.children[i].node, pre + [n.children[i].key], D + {p}, layer)
           == ReplacedIn(n.children[i].node, pre + [n.children[i].key], D, layer)
    {
      var c := pre + [n.children[i].key];
      ReplacedInIrrelevant(n.children[i].node, c, D, layer, p);
    }
  }

  /** Before any `setattr`, the subtree is the original one. */
  lemma {:induction false} ReplacedInNothing(n: Node, pre: Path, layer: Layer)
    ensures ReplacedIn(n, pre, {}, layer) == n
    ensures Descended(n, pre, {}, layer) == n
    decreases n
  {
    forall i | 0 <= i < |n.children|
      ensures ReplacedIn(n.children[i].node, pre + [n.children[i].key], {}, layer) == n.children[i].node
    {
      ReplacedInNothing(n.children[i].node, pre + [n.children[i].key], layer);
    }
    assert Descended(n, pre, {}, layer).children == n.children;
  }

  /** Adding a path that runs through child `i` leaves the other children
      of a module as they were. */
  lemma SiblingsUnaffected(n: Node, pre: Path, D: set<Path>, layer: Layer, p: Path, i: int)
    requires KeysDistinct(n.children) && 0 <= i < |n.children|
    requires |pre| < |p| && p[|pre|] == n.children[i].key
    ensures forall j :: 0 <= j < |n.children| && j != i ==>
      Descended(n, pre, D + {p}, layer).children[j] == Descended(n, pre, D, layer).children[j]
  {
    forall j | 0 <= j < |n.children| && j != i
      ensures ReplacedIn(n.children[j].node, pre + [n.children[j].key], D + {p}, layer)
           == ReplacedIn(n.children[j].node, pre + [n.children[j].key], D, layer)
    {
      var cj := pre + [n.children[j].key];
      ReplacedInIrrelevant(n.children[j].node, cj, D, layer, p);
    }
  }

  /** One `setattr(father, key, replacement)` for the Linear at path
      `q + [key]` below a module that is not replaced itself adds that path
      to the handled set. */
  lemma {:induction false} DescendedStep(n: Node, pre: Path, q: Path, key: string, D: set<Path>,
                                         layer: Layer, lin: Node)
    requires WellFormed(n) && LinearsAreLeaves(n)
    requires NodeAt(n, q + [key]) == Some(lin) && lin.kind.Linear?
    ensures SetAt(Descended(n, pre, D, layer), q, key, Replacement(layer, lin))
         == Descended(n, pre, D + {pre + q + [key]}, layer)
    decreases |q|
  {
    if q == [] {
      assert q + [key] == [key] && pre + q + [key] == pre + [key];
      DescendedStepHere(n, pre, key, D, layer, lin);
    } else {
      var i := ChildIndex(n.children, q[0]);
      assert (q + [key])[0] == q[0];
      assert (q + [key])[1..] == q[1..] + [key];
      var cpath := pre + [q[0]];
      assert cpath + q[1..] + [key] == pre + q + [key];
      DescendedStep(n.children[i].node, cpath, q[1..], key, D, layer, lin);
      DescendedStepBelow(n, pre, q, key, D, layer, lin);
    }
  }

  /** The step of `DescendedStep` through the child on the way, given the
      step inside that child. */
  lemma DescendedStepBelow(n: Node, pre: Path, q: Path, key: string, D: set<Path>, layer: Layer, lin: Node)
    requires WellFormed(n) && LinearsAreLeaves(n) && q != []
    requires NodeAt(n, q + [key]) == Some(lin) && lin.kind.Linear?
    requires var c := n.children[ChildIndex(n.children, q[0])].node;
      ChildIndex(n.children, q[0]) != -1
      && SetAt(Descended(c, pre + [q[0]], D, layer), q[1..], key, Replacement(layer, lin))
         == Descended(c, pre + [q[0]], D + {pre + q + [key]}, layer)
    ensures SetAt(Descended(n, pre, D, layer), q, key, Replacement(layer, lin))
         == Descended(n, pre, D + {pre + q + [key]}, layer)
  {
    var p := pre + q + [key];
    var d := Descended(n, pre, D, layer);
    var d' := Descended(n, pre, D + {p}, layer);
    var i := ChildIndex(n.children, q[0]);
    ChildIndexSameKeys(d.children, n.children, q[0]);
    var c := n.children[i];
    var cpath := pre + [q[0]];
    assert p[|pre|] == q[0];
    SiblingsUnaffected(n, pre, D, layer, p, i);
    ThroughNonLinear(n, q, key);
    assert c.key == q[0];
    DescendedChild(n, pre, D, layer, i);
    DescendedChild(n, pre, D + {p}, layer, i);
    SetAtThrough(d, d', q, key, Replacement(layer, lin), i);
  }

  /** The child on the way to a module further down is not a Linear,
      Linears being leaves. */
  lemma ThroughNonLinear(n: Node, q: Path, key: string)
    requires LinearsAreLeaves(n) && q != [] && NodeAt(n, q + [key]).Some?
    ensures ChildIndex(n.children, q[0]) != -1 && !n.children[ChildIndex(n.children, q[0])].node.kind.Linear?
  {
    assert (q + [key])[0] == q[0] && (q + [key])[1..] == q[1..] + [key];
  }

  /** A child that is not a Linear is descended into. */
  lemma DescendedChild(n: Node, pre: Path, D: set<Path>, layer: Layer, i: int)
    requires 0 <= i < |n.children| && !n.children[i].node.kind.Linear?
    ensures Descended(n, pre, D, layer).children[i]
         == Child(n.children[i].key, Descended(n.children[i].node, pre + [n.children[i].key], D, layer))
  {
  }

  /** `setattr` below child `i` changes only that child. */
  lemma SetAtThrough(d: Node, d': Node, q: Path, key: string, v: Node, i: int)
    requires q != [] && 0 <= i < |d.children| && i == ChildIndex(d.children, q[0])
    requires d'.kind == d.kind && |d'.children| == |d.children|
    requires forall j :: 0 <= j < |d.children| && j != i ==> d'.children[j] == d.children[j]
    requires d'.children[i] == Child(q[0], SetAt(d.children[i].node, q[1..], key, v))
    ensures SetAt(d, q, key, v) == d'
  {
    assert SetAt(d, q, key, v).children == d'.children;
  }

  lemma DescendedStepHere(n: Node, pre: Path, key: string, D: set<Path>, layer: Layer, lin: Node)
    requires WellFormed(n)
    requires NodeAt(n, [key]) == Some(lin) && lin.kind.Linear?
    ensures SetAt(Descended(n, pre, D, layer), [], key, Replacement(layer, lin))
         == Descended(n, pre, D + {pre + [key]}, layer)
  {
    var p := pre + [key];
    var d := Descended(n, pre, D, layer);
    var d' := Descended(n, pre, D + {p}, layer);
    var i := ChildIndex(n.children, key);
    ChildIndexSameKeys(d.children, n.children, key);
    assert p[|pre|] == key;
    SiblingsUnaffected(n, pre, D, layer, p, i);
    assert [key][1..] == [];
    assert n.children[i].node == lin;
    assert n.children[i].key == key;
    assert pre + [key] in D + {p};
    assert ReplacedIn(lin, pre + [key], D + {p}, layer) == Replacement(layer, lin);
    assert d'.children[i] == Child(key, Replacement(layer, lin));
    assert SetAt(d, [], key, Replacement(layer, lin)).children == d'.children;
  }

  /** The first entry of `head` lies before anything appended. */
  lemma ChildIndexAppend(cs: seq<Child>, x: Child, head: string)
    requires ChildIndex(cs, head) != -1
    ensures ChildIndex(cs + [x], head) == ChildIndex(cs, head)
  {
    var r, s := ChildIndex(cs, head), ChildIndex(cs + [x], head);
    assert (cs + [x])[r].key == head;
  }

  /** A `setattr` that targets an existing child acts before an appended one. */
  lemma SetAtAppended(kd: Kind, cs: seq<Child>, x: Child, q: Path, key: string, v: Node)
    requires ChildIndex(cs, if q == [] then key else q[0]) != -1
    ensures SetAt(Node(kd, cs + [x]), q, key, v) == Node(kd, SetAt(Node(kd, cs), q, key, v).children + [x])
  {
    var head := if q == [] then key else q[0];
    ChildIndexAppend(cs, x, head);
    var i := ChildIndex(cs, head);
    if q == [] {
      assert Put(cs + [x], key, v) == (cs + [x])[i := Child(key, v)] == cs[i := Child(key, v)] + [x];
    } else {
      var y := Child(q[0], SetAt(cs[i].node, q[1..], key, v));
      assert (cs + [x])[i := y] == cs[i := y] + [x];
    }
  }

  /** No child of a well-formed module is registered under "". */
  lemma NoEmptyKey(n: Node, pre: Path, D: set<Path>, layer: Layer)
    requires WellFormed(n)
    ensures ChildIndex(Descended(n, pre, D, layer).children, "") == -1
  {
    var cs := Descended(n, pre, D, layer).children;
    forall j | 0 <= j < |cs| ensures cs[j].key != "" {
      assert ValidKey(n.children[j].key);
    }
  }

  /** The root's own entry: a Linear root receives its replacement as a
      child named "". */
  lemma SubstitutedInRootStep(s: Node, D: set<Path>, layer: Layer)
    requires WellFormed(s) && s.kind.Linear?
    ensures SetAt(SubstitutedIn(s, D, layer), [], "", Replacement(layer, s)) == SubstitutedIn(s, D + {[]}, layer)
  {
    if [] in D {
      assert D + {[]} == D;
      PutAgain(s, D, layer);
    } else {
      DescendedIrrelevant(s, [], D, layer, []);
    }
  }

  /** Attaching the same replacement under "" a second time changes nothing. */
  lemma PutAgain(s: Node, D: set<Path>, layer: Layer)
    requires WellFormed(s) && s.kind.Linear?
    ensures var cs := Put(Descended(s, [], D, layer).children, "", Replacement(layer, s));
      Put(cs, "", Replacement(layer, s)) == cs
  {
    var d := Descended(s, [], D, layer);
    var x := Child("", Replacement(layer, s));
    NoEmptyKey(s, [], D, layer);
    var cs := d.children + [x];
    assert Put(d.children, "", Replacement(layer, s)) == cs;
    assert cs[|d.children|].key == "";
    assert ChildIndex(cs, "") == |d.children|;
    assert cs[|d.children| := x] == cs;
  }

  /** The entry of a Linear below the root: `setattr` on its parent adds its
      path to the handled set, whether or not the root has been handled. */
  lemma SubstitutedInStep(s: Node, q: Path, key: string, D: set<Path>, layer: Layer, lin: Node)
    requires WellFormed(s) && LinearsAreLeaves(s)
    requires NodeAt(s, q + [key]) == Some(lin) && lin.kind.Linear?
    ensures SetAt(SubstitutedIn(s, D, layer), q, key, Replacement(layer, lin))
         == SubstitutedIn(s, D + {q + [key]}, layer)
  {
    var p := q + [key];
    var v := Replacement(layer, lin);
    assert [] + q + [key] == p;
    DescendedStep(s, [], q, key, D, layer, lin);
    if s.kind.Linear? && [] in D {
      var d := Descended(s, [], D, layer);
      var d' := Descended(s, [], D + {p}, layer);
      var x := Child("", Replacement(layer, s));
      NoEmptyKey(s, [], D, layer);
      NoEmptyKey(s, [], D + {p}, layer);
      var head := if q == [] then key else q[0];
      assert p[0] == head;
      ChildIndexSameKeys(d.children, s.children, head);
      SetAtAppended(s.kind, d.children, x, q, key, v);
      assert SetAt(Node(s.kind, d.children), q, key, v) == SetAt(d, q, key, v);
    }
  }

  /** Once every Linear below `n` is handled, `n` is as `Replaced` says. */
  lemma {:induction false} ReplacedInAll(n: Node, pre: Path, D: set<Path>, layer: Layer)
    requires WellFormed(n)
    requires forall r :: NodeAt(n, r).Some? && NodeAt(n, r).value.kind.Linear? ==> pre + r in D
    ensures ReplacedIn(n, pre, D, layer) == Replaced(n, layer)
    decreases n, 1
  {
    if n.kind.Linear? {
      assert NodeAt(n, []) == Some(n) && pre + [] == pre;
    } else {
      DescendedAll(n, pre, D, layer);
    }
  }

  /** Once every Linear strictly below `n` is handled, each child of `n` is
      as `Replaced` says. */
  lemma {:induction false} DescendedAll(n: Node, pre: Path, D: set<Path>, layer: Layer)
    requires WellFormed(n)
    requires forall r :: NodeAt(n, r).Some? && NodeAt(n, r).value.kind.Linear? ==> pre + r in D
    ensures Descended(n, pre, D, layer).children == seq(|n.children|, i requires 0 <= i < |n.children| =>
      Child(n.children[i].key, Replaced(n.children[i].node, layer)))
    decreases n, 0
  {
    forall i | 0 <= i < |n.children|
      ensures ReplacedIn(n.children[i].node, pre + [n.children[i].key], D, layer)
           == Replaced(n.children[i].node, layer)
    {
      var c := n.children[i];
      ChildIndexDistinct(n.children, i);
      forall r | NodeAt(c.node, r).Some? && NodeAt(c.node, r).value.kind.Linear?
        ensures pre + [c.key] + r in D
      {
        assert ([c.key] + r)[1..] == r;
        assert NodeAt(n, [c.key] + r) == NodeAt(c.node, r);
        assert pre + ([c.key] + r) == pre + [c.key] + r;
      }
      ReplacedInAll(c.node, pre + [c.key], D, layer);
    }
  }

  /** Once every Linear of the subtree is handled, the subtree is as
      `Substituted` says. */
  lemma SubstitutedInAll(s: Node, D: set<Path>, layer: Layer)
    requires WellFormed(s)
    requires forall r :: NodeAt(s, r).Some? && NodeAt(s, r).value.kind.Linear? ==> r in D
    ensures SubstitutedIn(s, D, layer) == Substituted(s, layer)
  {
    forall r | NodeAt(s, r).Some? && NodeAt(s, r).value.kind.Linear? ensures [] + r in D {
      assert [] + r == r;
    }
    DescendedAll(s, [], D, layer);
    if s.kind.Linear? {
      assert NodeAt(s, []) == Some(s);
    }
  }
}
