/** What replace_qlinear promises about the subtree it is given: every
    Linear strictly below the root is replaced by its quantized layer at the
    same place, every other module keeps its class and place, no Linear is
    left below the root, and a second call with the same class changes
    nothing. */
module SubstitutionFacts {
  import opened Strings
  import opened Outcomes
  import opened ModuleTree
  import opened Substitution

  /** `n` as a module strictly below the root may be: a Linear is a leaf. */
  predicate BelowRoot(n: Node)
  {
    WellFormed(n) && LinearsAreLeaves(n) && (n.kind.Linear? ==> n.children == [])
  }

  /** The children of `n` after `Replaced`, registered under the same keys. */
  lemma ReplacedKeys(n: Node, layer: Layer, key: string)
    requires !n.kind.Linear?
    ensures ChildIndex(Replaced(n, layer).children, key) == ChildIndex(n.children, key)
  {
    ChildIndexSameKeys(Replaced(n, layer).children, n.children, key);
  }

  /** A module found at path `r` below the root is found at `r` afterwards:
      a Linear as its replacement, any other module with its class kept. */
  lemma {:induction false} ReplacedAt(n: Node, layer: Layer, r: Path, m: Node)
    requires BelowRoot(n) && NodeAt(n, r) == Some(m)
    ensures m.kind.Linear? ==> NodeAt(Replaced(n, layer), r) == Some(Replacement(layer, m))
    ensures !m.kind.Linear? ==> NodeAt(Replaced(n, layer), r).Some? && NodeAt(Replaced(n, layer), r).value.kind == m.kind
    decreases |r|
  {
    if r != [] {
      var i := ChildIndex(n.children, r[0]);
      ReplacedKeys(n, layer, r[0]);
      ReplacedAt(n.children[i].node, layer, r[1..], m);
    }
  }

  /** Every module of the result stands where a module stood before. */
  lemma {:induction false} ReplacedFrom(n: Node, layer: Layer, r: Path)
    requires NodeAt(Replaced(n, layer), r).Some?
    ensures NodeAt(n, r).Some?
    decreases |r|
  {
    if r != [] && !n.kind.Linear? {
      var i := ChildIndex(n.children, r[0]);
      ReplacedKeys(n, layer, r[0]);
      ReplacedFrom(n.children[i].node, layer, r[1..]);
    }
  }

  /** No Linear is left anywhere in the result. */
  lemma {:induction false} ReplacedNoLinear(n: Node, layer: Layer, r: Path)
    requires NodeAt(Replaced(n, layer), r).Some?
    ensures !NodeAt(Replaced(n, layer), r).value.kind.Linear?
    decreases |r|
  {
    if r != [] && !n.kind.Linear? {
      var i := ChildIndex(n.children, r[0]);
      ReplacedKeys(n, layer, r[0]);
      ReplacedNoLinear(n.children[i].node, layer, r[1..]);
    }
  }

  /** Replacing again changes nothing. */
  lemma {:induction false} ReplacedIdempotent(n: Node, layer: Layer)
    ensures Replaced(Replaced(n, layer), layer) == Replaced(n, layer)
    decreases n
  {
    if !n.kind.Linear? {
      forall i | 0 <= i < |n.children|
        ensures Replaced(Replaced(n.children[i].node, layer), layer) == Replaced(n.children[i].node, layer)
      {
        ReplacedIdempotent(n.children[i].node, layer);
      }
    }
  }

  /** A module without any Linear is left as it is. */
  lemma {:induction false} ReplacedLinearFree(n: Node, layer: Layer)
    requires WellFormed(n)
    requires forall r :: NodeAt(n, r).Some? ==> !NodeAt(n, r).value.kind.Linear?
    ensures Replaced(n, layer) == n
    decreases n
  {
    assert NodeAt(n, []) == Some(n);
    forall i | 0 <= i < |n.children|
      ensures Replaced(n.children[i].node, layer) == n.children[i].node
    {
      var c := n.children[i];
      forall r | NodeAt(c.node, r).Some? ensures !NodeAt(c.node, r).value.kind.Linear? {
        ChildIndexDistinct(n.children, i);
        assert ([c.key] + r)[1..] == r;
        assert NodeAt(n, [c.key] + r) == NodeAt(c.node, r);
      }
      ReplacedLinearFree(c.node, layer);
    }
    assert Replaced(n, layer).children == n.children;
  }

  /** The subtree root after replace_qlinear keeps its class and its
      children in order, each replaced; a Linear root gets its replacement
      appended under the key "". */
  lemma SubstitutedShape(s: Node, layer: Layer)
    requires WellFormed(s)
    ensures Substituted(s, layer).kind == s.kind
    ensures |Substituted(s, layer).children| == |s.children| + (if s.kind.Linear? then 1 else 0)
    ensures forall i :: 0 <= i < |s.children| ==>
      Substituted(s, layer).children[i] == Child(s.children[i].key, Replaced(s.children[i].node, layer))
    ensures s.kind.Linear? ==> Substituted(s, layer).children[|s.children|] == Child("", Replacement(layer, s))
  {
    var cs := seq(|s.children|, i requires 0 <= i < |s.children| =>
      Child(s.children[i].key, Replaced(s.children[i].node, layer)));
    if s.kind.Linear? {
      forall j | 0 <= j < |cs| ensures cs[j].key != "" {
        assert ValidKey(s.children[j].key);
      }
      assert Put(cs, "", Replacement(layer, s)) == cs + [Child("", Replacement(layer, s))];
    }
  }

  /** Lookup of a non-empty key in the result finds the same position as before. */
  lemma SubstitutedKeys(s: Node, layer: Layer, key: string)
    requires WellFormed(s) && key != ""
    ensures ChildIndex(Substituted(s, layer).children, key) == ChildIndex(s.children, key)
  {
    SubstitutedShape(s, layer);
    var cs := Substituted(s, layer).children;
    var n := |s.children|;
    ChildIndexSameKeys(cs[..n], s.children, key);
    if s.kind.Linear? {
      var r := ChildIndex(cs, key);
      assert cs == cs[..n] + [cs[n]];
      if ChildIndex(s.children, key) == -1 {
        assert r == -1 || r < n;
      }
    } else {
      assert cs == cs[..n];
    }
  }

  /** replace_qlinear puts every Linear strictly below the subtree root's
      place under its replacement, and keeps every other module's class. */
  lemma SubstitutedAt(s: Node, layer: Layer, r: Path, m: Node)
    requires WellFormed(s) && LinearsAreLeaves(s)
    requires r != [] && NodeAt(s, r) == Some(m)
    ensures m.kind.Linear? ==> NodeAt(Substituted(s, layer), r) == Some(Replacement(layer, m))
    ensures !m.kind.Linear? ==> NodeAt(Substituted(s, layer), r).Some? && NodeAt(Substituted(s, layer), r).value.kind == m.kind
  {
    var i := ChildIndex(s.children, r[0]);
    assert ValidKey(s.children[i].key);
    SubstitutedKeys(s, layer, r[0]);
    SubstitutedShape(s, layer);
    ReplacedAt(s.children[i].node, layer, r[1..], m);
  }

  /** Below the subtree root no Linear is left. */
  lemma SubstitutedNoLinear(s: Node, layer: Layer, r: Path)
    requires WellFormed(s)
    requires r != [] && NodeAt(Substituted(s, layer), r).Some?
    ensures !NodeAt(Substituted(s, layer), r).value.kind.Linear?
  {
    SubstitutedShape(s, layer);
    var cs := Substituted(s, layer).children;
    var i := ChildIndex(cs, r[0]);
    if i < |s.children| {
      ReplacedNoLinear(s.children[i].node, layer, r[1..]);
    }
  }

  /** The root keeps its class; when it is a Linear it is not replaced in
      its own parent, but gains its replacement as a child named "". */
  lemma SubstitutedRoot(s: Node, layer: Layer)
    requires WellFormed(s)
    ensures Substituted(s, layer).kind == s.kind
    ensures s.kind.Linear? ==> NodeAt(Substituted(s, layer), [""]) == Some(Replacement(layer, s))
    ensures !s.kind.Linear? ==> NodeAt(Substituted(s, layer), [""]) == None
  {
    SubstitutedShape(s, layer);
    var cs := Substituted(s, layer).children;
    var n := |s.children|;
    forall j | 0 <= j < n ensures cs[j].key != "" {
      assert ValidKey(s.children[j].key);
    }
    if s.kind.Linear? {
      assert ChildIndex(cs, "") == n;
    } else {
      assert ChildIndex(cs, "") == -1;
    }
    assert [""][1..] == [];
  }

  /** A subtree without any Linear is left as it is. */
  lemma SubstitutedLinearFree(s: Node, layer: Layer)
    requires WellFormed(s) && !HasLinear(s)
    ensures Substituted(s, layer) == s
  {
    forall r | NodeAt(s, r).Some? ensures !NodeAt(s, r).value.kind.Linear? {
      NamedComplete(s, "", [], r);
    }
    ReplacedLinearFree(s, layer);
    assert !s.kind.Linear? by { assert NodeAt(s, []) == Some(s); }
    assert Substituted(s, layer).children == Replaced(s, layer).children;
  }

  /** The children of the result are left as they are by a second pass. */
  lemma ReplacedChildrenFixed(s: Node, layer: Layer)
    requires WellFormed(s)
    ensures forall i :: 0 <= i < |s.children| ==>
      Replaced(Substituted(s, layer).children[i].node, layer) == Substituted(s, layer).children[i].node
  {
    SubstitutedShape(s, layer);
    forall i | 0 <= i < |s.children|
      ensures Replaced(Substituted(s, layer).children[i].node, layer) == Substituted(s, layer).children[i].node
    {
      ReplacedIdempotent(s.children[i].node, layer);
    }
  }

  /** replace_qlinear twice with the same class is replace_qlinear once. */
  lemma SubstitutedIdempotent(s: Node, layer: Layer)
    requires WellFormed(s)
    ensures Substituted(Substituted(s, layer), layer) == Substituted(s, layer)
  {
    var t := Substituted(s, layer);
    SubstitutedShape(s, layer);
    var n := |s.children|;
    var cs := seq(|t.children|, i requires 0 <= i < |t.children| =>
      Child(t.children[i].key, Replaced(t.children[i].node, layer)));
    ReplacedChildrenFixed(s, layer);
    if s.kind.Linear? {
      var x := Child("", Replacement(layer, s));
      assert cs[n] == x;
      assert cs == t.children;
      forall j | 0 <= j < n ensures cs[j].key != "" {
        assert ValidKey(s.children[j].key);
      }
      assert ChildIndex(cs, "") == n;
      assert Put(cs, "", Replacement(layer, s)) == cs;
    } else {
      assert cs == t.children;
    }
  }

  // ---------------------------------------------------------------------
  // replace_qlinear on one module of a whole model

  /** A successful call changes nothing outside the module it was handed. */
  lemma SubstituteAtAway(t: Node, at: Path, choice: Result<Layer>)
    requires NodeAt(t, at).Some?
    ensures SubstituteAt(t, at, choice).Ok? ==>
      forall q :: Disjoint(at, q) ==> NodeAt(SubstituteAt(t, at, choice).value, q) == NodeAt(t, q)
  {
    var r := Quantize(choice, NodeAt(t, at).value);
    if r.Ok? {
      forall q | Disjoint(at, q) ensures NodeAt(Splice(t, at, r.value), q) == NodeAt(t, q) {
        NodeAtSpliceDisjoint(t, at, r.value, q);
      }
    }
  }

  /** With a class chosen, the module handed over is replaced by its
      substituted form; with a failing choice the model is unchanged, and the
      error surfaces exactly when the module holds a Linear. */
  lemma SubstituteAtHere(t: Node, at: Path, choice: Result<Layer>)
    requires NodeAt(t, at).Some?
    ensures choice.Ok? ==> SubstituteAt(t, at, choice) == Ok(Splice(t, at, Substituted(NodeAt(t, at).value, choice.value)))
    ensures choice.Ok? ==> NodeAt(SubstituteAt(t, at, choice).value, at) == Some(Substituted(NodeAt(t, at).value, choice.value))
    ensures choice.Err? ==> (SubstituteAt(t, at, choice) == Err(choice.error) <==> HasLinear(NodeAt(t, at).value))
    ensures choice.Err? ==> (SubstituteAt(t, at, choice) == Ok(t) <==> !HasLinear(NodeAt(t, at).value))
  {
    if choice.Ok? {
      NodeAtSplice(t, at, Substituted(NodeAt(t, at).value, choice.value));
    } else {
      SpliceSelf(t, at);
    }
  }
}
