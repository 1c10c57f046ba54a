/** A PyTorch module hierarchy as a value: every module has a kind and an
    ordered list of named children (`_modules`, a dict that keeps insertion
    order). A module reference is modelled by the key path that reaches it
    from the model root. */
module ModuleTree {
  import opened Strings
  import opened Outcomes

  /** An opaque handle for a weight or bias tensor. */
  type Tensor = nat

  /** The quantized linear classes of the `quant` module, as opaque tags. */
  datatype QuantClass =
    | XnorBinaryLinear
    | BinaryLinear
    | IrBinaryLinear
    | BiRealLinear
    | LowbitQuantizeLinear
    | BinaryExceptOutliersLinear
    | BinaryXnorExceptOutliersLinear
    | BinaryXnorExceptOutliersLinearColumn

  /** How OutliersQLinearColumn picks the columns it keeps in full precision. */
  datatype OutlierMetric = DefaultMetric | ActL1

  /** The constructor call that builds a quantized replacement. */
  datatype Layer =
      /** `cls(weight, bias)` */
    | Plain(cls: QuantClass)
      /** `OutliersQLinearColumn(weight, bias, dense_class=..., outlier_metric=..., outlier_fraction=...)` */
    | OutlierColumns(dense: QuantClass, metric: OutlierMetric, fraction: string)
      /** `LowbitQuantizeLinear(weight, None, w_bits=...)`: the bias is dropped */
    | LowBit(wBits: nat)

  datatype Kind =
      /** `nn.Linear` with its weight and optional bias */
    | Linear(weight: Tensor, bias: Option<Tensor>)
      /** a quantized layer built from a Linear's weight and bias */
    | Quantized(layer: Layer, weight: Tensor, bias: Option<Tensor>)
      /** any other module class (decoder layer, norm, embedding, ...) */
    | Other(tag: string)

  datatype Node = Node(kind: Kind, children: seq<Child>)
  datatype Child = Child(key: string, node: Node)

  type Path = seq<string>

  predicate KeysDistinct(cs: seq<Child>)
  {
    forall i, j :: 0 <= i < j < |cs| ==> cs[i].key != cs[j].key
  }

  /** Child keys are attribute names registered through `add_module`:
      non-empty, without '.', and distinct among siblings. */
  predicate WellFormed(n: Node)
  {
    && KeysDistinct(n.children)
    && forall i :: 0 <= i < |n.children| ==>
         ValidKey(n.children[i].key) && WellFormed(n.children[i].node)
  }

  /** `nn.Linear` registers no submodules: every Linear strictly below `n`
      is a leaf. */
  predicate LinearsAreLeaves(n: Node)
  {
    forall i :: 0 <= i < |n.children| ==>
      && (n.children[i].node.kind.Linear? ==> n.children[i].node.children == [])
      && LinearsAreLeaves(n.children[i].node)
  }

  /** The position of the child registered under `key`, or -1. */
  function ChildIndex(cs: seq<Child>, key: string): (r: int)
    ensures -1 <= r < |cs|
    ensures r >= 0 ==> cs[r].key == key && forall j :: 0 <= j < r ==> cs[j].key != key
    ensures r == -1 ==> forall j :: 0 <= j < |cs| ==> cs[j].key != key
  {
    if cs == [] then -1
    else if cs[0].key == key then 0
    else var r := ChildIndex(cs[1..], key); if r == -1 then -1 else r + 1
  }

  /** The module reached from `n` by following the keys of `p`. */
  function NodeAt(n: Node, p: Path): Option<Node>
    decreases |p|
  {
    if p == [] then Some(n)
    else
      var i := ChildIndex(n.children, p[0]);
      if i == -1 then None else NodeAt(n.children[i].node, p[1..])
  }

  /** `father._modules[key] = v`: a dict assignment replaces the entry in
      place when the key is registered and appends it otherwise. */
  function Put(cs: seq<Child>, key: string, v: Node): (r: seq<Child>)
  {
    var i := ChildIndex(cs, key);
    if i == -1 then cs + [Child(key, v)] else cs[i := Child(key, v)]
  }

  /** `setattr(father, key, v)` on the module at path `q`. */
  function SetAt(n: Node, q: Path, key: string, v: Node): Node
    decreases |q|
  {
    if q == [] then Node(n.kind, Put(n.children, key, v))
    else
      var i := ChildIndex(n.children, q[0]);
      if i == -1 then n
      else Node(n.kind, n.children[i := Child(q[0], SetAt(n.children[i].node, q[1..], key, v))])
  }

  /** The tree `n` with the module at path `p` replaced by `x`. */
  function Splice(n: Node, p: Path, x: Node): Node
    decreases |p|
  {
    if p == [] then x
    else
      var i := ChildIndex(n.children, p[0]);
      if i == -1 then n
      else Node(n.kind, n.children[i := Child(p[0], Splice(n.children[i].node, p[1..], x))])
  }

  // ---------------------------------------------------------------------
  // named_modules(): the pre-order list of (name, module) pairs

  /** One pair of `named_modules()`, with the key path the name stands for. */
  datatype Entry = Entry(name: string, path: Path, node: Node)

  /** `n.named_modules(prefix=name)`: `n` itself first, then each child's
      list in registration order. The path is carried along beside the name. */
  function Named(n: Node, name: string, path: Path): seq<Entry>
    decreases n, 1
  {
    [Entry(name, path, n)] + NamedFrom(n, name, path, 0)
  }

  function NamedFrom(n: Node, name: string, path: Path, j: nat): seq<Entry>
    requires j <= |n.children|
    decreases n, 0, |n.children| - j
  {
    if j == |n.children| then []
    else
      var c := n.children[j];
      Named(c.node, SubName(name, c.key), path + [c.key]) + NamedFrom(n, name, path, j + 1)
  }

  /** `{name: module for name, module in root.named_modules()}`: a dict in
      which a later pair with the same name overwrites an earlier one. */
  function NameIndex(es: seq<Entry>): map<string, Entry>
  {
    if es == [] then map[]
    else NameIndex(es[..|es| - 1])[es[|es| - 1].name := es[|es| - 1]]
  }

  /** The dict holds every listed name, and under each name a pair listed
      with that name. */
  lemma {:induction false} NameIndexSound(es: seq<Entry>)
    ensures forall nm :: nm in NameIndex(es) ==> NameIndex(es)[nm].name == nm && NameIndex(es)[nm] in es
    ensures forall e :: e in es ==> e.name in NameIndex(es)
  {
    if es != [] {
      var init := es[..|es| - 1];
      NameIndexSound(init);
      assert es == init + [es[|es| - 1]];
    }
  }

  // ---------------------------------------------------------------------
  // Lemmas about paths and named_modules

  /** Lookup by key only depends on the keys, not on the modules. */
  lemma ChildIndexSameKeys(cs: seq<Child>, ds: seq<Child>, key: string)
    requires |cs| == |ds| && forall m :: 0 <= m < |cs| ==> cs[m].key == ds[m].key
    ensures ChildIndex(cs, key) == ChildIndex(ds, key)
  {
  }

  lemma ChildIndexDistinct(cs: seq<Child>, i: int)
    requires KeysDistinct(cs) && 0 <= i < |cs|
    ensures ChildIndex(cs, cs[i].key) == i
  {
  }

  /** Every pair that `named_modules` lists is sound: its name is the dotted
      form of its key path, the path extends the prefix path, and following
      the rest of the path from `n` reaches exactly the listed module. */
  lemma {:induction false} NamedSound(n: Node, path: Path, e: Entry)
    requires WellFormed(n) && ValidKeys(path)
    requires e in Named(n, Dotted(path), path)
    ensures |path| <= |e.path| && e.path[..|path|] == path
    ensures ValidKeys(e.path)
    ensures e.name == Dotted(e.path)
    ensures NodeAt(n, e.path[|path|..]) == Some(e.node)
    decreases n, 1
  {
    if e != Entry(Dotted(path), path, n) {
      NamedFromSound(n, path, 0, e);
    }
  }

  lemma {:induction false} NamedFromSound(n: Node, path: Path, j: nat, e: Entry)
    requires WellFormed(n) && ValidKeys(path) && j <= |n.children|
    requires e in NamedFrom(n, Dotted(path), path, j)
    ensures |path| < |e.path| && e.path[..|path|] == path
    ensures ValidKeys(e.path)
    ensures e.name == Dotted(e.path)
    ensures NodeAt(n, e.path[|path|..]) == Some(e.node)
    decreases n, 0, |n.children| - j, 1
  {
    var c := n.children[j];
    var cpath := path + [c.key];
    assert Dotted(cpath) == SubName(Dotted(path), c.key) by {
      assert cpath[..|cpath| - 1] == path;
    }
    if e in Named(c.node, Dotted(cpath), cpath) {
      NamedChildSound(n, path, j, e);
    } else {
      NamedFromSound(n, path, j + 1, e);
    }
  }

  /** A pair listed under the child at position `j` is sound for `n`. */
  lemma {:induction false} NamedChildSound(n: Node, path: Path, j: nat, e: Entry)
    requires WellFormed(n) && ValidKeys(path) && j < |n.children|
    requires e in Named(n.children[j].node, Dotted(path + [n.children[j].key]), path + [n.children[j].key])
    ensures |path| < |e.path| && e.path[..|path|] == path
    ensures ValidKeys(e.path)
    ensures e.name == Dotted(e.path)
    ensures NodeAt(n, e.path[|path|..]) == Some(e.node)
    decreases n, 0, |n.children| - j, 0
  {
    var c := n.children[j];
    var cpath := path + [c.key];
    assert ValidKeys(cpath);
    NamedSound(c.node, cpath, e);
    var rest := e.path[|cpath|..];
    assert e.path[..|path|] == path by {
      assert e.path[..|cpath|][..|path|] == e.path[..|path|];
    }
    assert e.path[|path|..] == [c.key] + rest by {
      assert e.path[|path|] == cpath[|path|] == c.key;
    }
    ChildIndexDistinct(n.children, j);
    assert ([c.key] + rest)[1..] == rest;
  }

  /** Every module reachable from `n` is listed by `named_modules`. */
  lemma {:induction false} NamedComplete(n: Node, name: string, path: Path, r: Path)
    requires NodeAt(n, r).Some?
    ensures exists e :: e in Named(n, name, path) && e.path == path + r && e.node == NodeAt(n, r).value
    decreases n, 1
  {
    if r == [] {
      assert Named(n, name, path)[0] == Entry(name, path, n);
      assert path + r == path;
    } else {
      var i := ChildIndex(n.children, r[0]);
      NamedFromComplete(n, name, path, 0, i, r);
    }
  }

  lemma {:induction false} NamedFromComplete(n: Node, name: string, path: Path, j: nat, i: int, r: Path)
    requires r != [] && i == ChildIndex(n.children, r[0]) && j <= i
    requires NodeAt(n, r).Some?
    ensures exists e :: e in NamedFrom(n, name, path, j) && e.path == path + r && e.node == NodeAt(n, r).value
    decreases n, 0, |n.children| - j
  {
    var c := n.children[j];
    if j == i {
      NamedComplete(c.node, SubName(name, c.key), path + [c.key], r[1..]);
      var e :| e in Named(c.node, SubName(name, c.key), path + [c.key]) && e.path == path + [c.key] + r[1..]
        && e.node == NodeAt(c.node, r[1..]).value;
      assert path + [c.key] + r[1..] == path + r;
      assert e in NamedFrom(n, name, path, j);
    } else {
      NamedFromComplete(n, name, path, j + 1, i, r);
      var e :| e in NamedFrom(n, name, path, j + 1) && e.path == path + r && e.node == NodeAt(n, r).value;
      assert e in NamedFrom(n, name, path, j);
    }
  }

  /** Every module of a well-formed tree is well-formed. */
  lemma {:induction false} NodeAtWellFormed(n: Node, p: Path)
    requires WellFormed(n) && NodeAt(n, p).Some?
    ensures WellFormed(NodeAt(n, p).value)
    decreases |p|
  {
    if p != [] {
      NodeAtWellFormed(n.children[ChildIndex(n.children, p[0])].node, p[1..]);
    }
  }

  /** One key further down from a module reaches its child under that key. */
  lemma {:induction false} NodeAtExtend(n: Node, p: Path, key: string)
    requires NodeAt(n, p).Some?
    ensures var m := NodeAt(n, p).value; var i := ChildIndex(m.children, key);
      NodeAt(n, p + [key]) == if i == -1 then None else Some(m.children[i].node)
    decreases |p|
  {
    if p == [] {
      assert [key][1..] == [];
    } else {
      assert (p + [key])[0] == p[0] && (p + [key])[1..] == p[1..] + [key];
      NodeAtExtend(n.children[ChildIndex(n.children, p[0])].node, p[1..], key);
    }
  }

  /** Every Linear strictly below any module of `n` is a leaf, if it is so
      for `n`. */
  lemma {:induction false} NodeAtLeaves(n: Node, p: Path)
    requires LinearsAreLeaves(n) && NodeAt(n, p).Some?
    ensures LinearsAreLeaves(NodeAt(n, p).value)
    decreases |p|
  {
    if p != [] {
      NodeAtLeaves(n.children[ChildIndex(n.children, p[0])].node, p[1..]);
    }
  }

  /** The subtrees replace_qlinear may be handed: the module at `at` exists,
      its subtree is well-formed, and every Linear strictly below it is a leaf.
      The rest of the model is not constrained: an earlier call may have
      attached a replacement under the key "" elsewhere. */
  predicate Substitutable(t: Node, at: Path)
  {
    NodeAt(t, at).Some? && WellFormed(NodeAt(t, at).value) && LinearsAreLeaves(NodeAt(t, at).value)
  }

  /** The parent of a module that exists exists too. */
  lemma {:induction false} NodeAtPrefix(n: Node, q: Path, key: string)
    requires NodeAt(n, q + [key]).Some?
    ensures NodeAt(n, q).Some?
    decreases |q|
  {
    if q != [] {
      assert (q + [key])[0] == q[0] && (q + [key])[1..] == q[1..] + [key];
      var i := ChildIndex(n.children, q[0]);
      NodeAtPrefix(n.children[i].node, q[1..], key);
    }
  }

  /** Every pair listed below a module lies under its path; those listed
      from the children `j..` lie under one of those children. */
  lemma {:induction false} NamedUnder(n: Node, name: string, path: Path, e: Entry)
    requires e in Named(n, name, path)
    ensures |path| <= |e.path| && e.path[..|path|] == path
    decreases n, 1
  {
    if e != Entry(name, path, n) {
      NamedFromUnder(n, name, path, 0, e);
    }
  }

  lemma {:induction false} NamedFromUnder(n: Node, name: string, path: Path, j: nat, e: Entry)
    requires j <= |n.children| && e in NamedFrom(n, name, path, j)
    ensures |path| < |e.path| && e.path[..|path|] == path
    ensures exists k :: j <= k < |n.children| && e.path[|path|] == n.children[k].key
    decreases n, 0, |n.children| - j
  {
    var c := n.children[j];
    var cpath := path + [c.key];
    if e in Named(c.node, SubName(name, c.key), cpath) {
      NamedUnder(c.node, SubName(name, c.key), cpath, e);
      assert e.path[..|path|] == e.path[..|cpath|][..|path|];
      assert e.path[|path|] == cpath[|path|] == c.key;
    } else {
      NamedFromUnder(n, name, path, j + 1, e);
    }
  }

  /** No two pairs of a list share a path. */
  predicate PathsDistinct(es: seq<Entry>)
  {
    forall a, b :: 0 <= a < b < |es| ==> es[a].path != es[b].path
  }

  lemma ConcatDistinct(xs: seq<Entry>, ys: seq<Entry>)
    requires PathsDistinct(xs) && PathsDistinct(ys)
    requires forall x, y :: x in xs && y in ys ==> x.path != y.path
    ensures PathsDistinct(xs + ys)
  {
    var zs := xs + ys;
    forall a, b | 0 <= a < b < |zs| ensures zs[a].path != zs[b].path {
      if b < |xs| {
        assert zs[a] == xs[a] && zs[b] == xs[b];
      } else if a >= |xs| {
        assert zs[a] == ys[a - |xs|] && zs[b] == ys[b - |xs|];
      } else {
        assert zs[a] in xs && zs[b] in ys;
      }
    }
  }

  /** In a well-formed tree, `named_modules` lists every path once. */
  lemma {:induction false} NamedDistinct(n: Node, name: string, path: Path)
    requires WellFormed(n)
    ensures PathsDistinct(Named(n, name, path))
    decreases n, 1
  {
    var rest := NamedFrom(n, name, path, 0);
    NamedFromDistinct(n, name, path, 0);
    forall x, y | x in [Entry(name, path, n)] && y in rest ensures x.path != y.path {
      NamedFromUnder(n, name, path, 0, y);
    }
    ConcatDistinct([Entry(name, path, n)], rest);
  }

  lemma {:induction false} NamedFromDistinct(n: Node, name: string, path: Path, j: nat)
    requires WellFormed(n) && j <= |n.children|
    ensures PathsDistinct(NamedFrom(n, name, path, j))
    decreases n, 0, |n.children| - j
  {
    if j < |n.children| {
      var c := n.children[j];
      var cpath := path + [c.key];
      var xs := Named(c.node, SubName(name, c.key), cpath);
      var ys := NamedFrom(n, name, path, j + 1);
      NamedDistinct(c.node, SubName(name, c.key), cpath);
      NamedFromDistinct(n, name, path, j + 1);
      forall x, y | x in xs && y in ys ensures x.path != y.path {
        NamedUnder(c.node, SubName(name, c.key), cpath, x);
        assert x.path[|path|] == cpath[|path|] == c.key by {
          assert x.path[..|cpath|][|path|] == x.path[|path|];
        }
        NamedFromUnder(n, name, path, j + 1, y);
      }
      ConcatDistinct(xs, ys);
    }
  }

  /** The lookup `module_name_dict[Dotted(q)]` of replace_qlinear returns the
      module at path `q` whenever that module exists. */
  lemma IndexFindsPath(n: Node, q: Path)
    requires WellFormed(n) && ValidKeys(q) && NodeAt(n, q).Some?
    ensures var d := NameIndex(Named(n, "", []));
      Dotted(q) in d && d[Dotted(q)].path == q && d[Dotted(q)].node == NodeAt(n, q).value
  {
    var es := Named(n, "", []);
    assert Dotted([]) == "";
    NamedComplete(n, "", [], q);
    var e :| e in es && e.path == [] + q && e.node == NodeAt(n, q).value;
    NamedSound(n, [], e);
    NameIndexSound(es);
    var f := NameIndex(es)[Dotted(q)];
    NamedSound(n, [], f);
    DottedInjective(f.path, q);
    assert f.path[0..] == f.path;
  }

  // ---------------------------------------------------------------------
  // Lemmas about Splice and SetAt

  /** Writing back the module found at a path leaves the tree as it was. */
  lemma {:induction false} SpliceSelf(n: Node, p: Path)
    requires NodeAt(n, p).Some?
    ensures Splice(n, p, NodeAt(n, p).value) == n
    decreases |p|
  {
    if p != [] {
      var i := ChildIndex(n.children, p[0]);
      SpliceSelf(n.children[i].node, p[1..]);
      assert n.children[i := Child(p[0], n.children[i].node)] == n.children;
    }
  }

  /** After a splice at `p`, the module at `p` is the spliced one. */
  lemma {:induction false} NodeAtSplice(n: Node, p: Path, x: Node)
    requires NodeAt(n, p).Some?
    ensures NodeAt(Splice(n, p, x), p) == Some(x)
    decreases |p|
  {
    if p != [] {
      var i := ChildIndex(n.children, p[0]);
      NodeAtSplice(n.children[i].node, p[1..], x);
      var cs := n.children[i := Child(p[0], Splice(n.children[i].node, p[1..], x))];
      ChildIndexSameKeys(cs, n.children, p[0]);
    }
  }

  /** A second splice at the same path overrides the first. */
  lemma {:induction false} SpliceTwice(n: Node, p: Path, x: Node, y: Node)
    requires NodeAt(n, p).Some?
    ensures Splice(Splice(n, p, x), p, y) == Splice(n, p, y)
    decreases |p|
  {
    if p != [] {
      var i := ChildIndex(n.children, p[0]);
      SpliceTwice(n.children[i].node, p[1..], x, y);
      var cs := n.children[i := Child(p[0], Splice(n.children[i].node, p[1..], x))];
      ChildIndexSameKeys(cs, n.children, p[0]);
    }
  }

  /** A `setattr` addressed below a spliced subtree acts inside that subtree. */
  lemma {:induction false} SetAtUnderSplice(n: Node, at: Path, x: Node, q: Path, key: string, v: Node)
    requires NodeAt(n, at).Some?
    ensures SetAt(Splice(n, at, x), at + q, key, v) == Splice(n, at, SetAt(x, q, key, v))
    decreases |at|
  {
    if at != [] {
      var i := ChildIndex(n.children, at[0]);
      var c := n.children[i].node;
      var inner := Splice(c, at[1..], x);
      var cs := n.children[i := Child(at[0], inner)];
      assert Splice(n, at, x) == Node(n.kind, cs);
      ChildIndexSameKeys(cs, n.children, at[0]);
      SetAtUnderSplice(c, at[1..], x, q, key, v);
      SetAtChild(Node(n.kind, cs), i, at[0], at[1..] + q, key, v);
      assert at + q == [at[0]] + (at[1..] + q);
      UpdateTwice(n.children, i, Child(at[0], inner), Child(at[0], SetAt(inner, at[1..] + q, key, v)));
    } else {
      assert at + q == q;
    }
  }

  /** A second update at the same position overrides the first. */
  lemma UpdateTwice<T>(s: seq<T>, i: int, a: T, b: T)
    requires 0 <= i < |s|
    ensures s[i := a][i := b] == s[i := b]
  {
  }

  /** `setattr` below the child at position `i` rebuilds that child only. */
  lemma SetAtChild(m: Node, i: int, k: string, rest: Path, key: string, v: Node)
    requires 0 <= i < |m.children| && ChildIndex(m.children, k) == i
    ensures SetAt(m, [k] + rest, key, v)
         == Node(m.kind, m.children[i := Child(k, SetAt(m.children[i].node, rest, key, v))])
  {
    assert ([k] + rest)[0] == k && ([k] + rest)[1..] == rest;
  }

  /** Neither path is a prefix of the other (they part at some key), so
      the subtrees they reach are disjoint. */
  predicate Disjoint(p: Path, q: Path)
    decreases |p|
  {
    |p| > 0 && |q| > 0 && (p[0] != q[0] || Disjoint(p[1..], q[1..]))
  }

  /** Paths that hold different keys at a common position are disjoint. */
  lemma {:induction false} DisjointAt(p: Path, q: Path, k: int)
    requires 0 <= k < |p| && k < |q| && p[k] != q[k]
    ensures Disjoint(p, q)
    decreases k
  {
    if k > 0 && p[0] == q[0] {
      assert p[1..][k - 1] == p[k] && q[1..][k - 1] == q[k];
      DisjointAt(p[1..], q[1..], k - 1);
    }
  }

  lemma {:induction false} DisjointSymmetric(p: Path, q: Path)
    requires Disjoint(p, q)
    ensures Disjoint(q, p)
    decreases |p|
  {
    if p[0] == q[0] {
      DisjointSymmetric(p[1..], q[1..]);
    }
  }

  /** A path disjoint from `q` stays so when extended. */
  lemma {:induction false} DisjointExtend(p: Path, q: Path, r: Path)
    requires Disjoint(p, q)
    ensures Disjoint(p + r, q)
    decreases |p|
  {
    assert (p + r)[0] == p[0];
    if p[0] == q[0] {
      assert (p + r)[1..] == p[1..] + r;
      DisjointExtend(p[1..], q[1..], r);
    }
  }

  /** A Linear anywhere below the root of a model whose Linears are leaves
      is a leaf. */
  lemma LinearLeafAt(n: Node, q: Path)
    requires LinearsAreLeaves(n) && q != [] && NodeAt(n, q).Some? && NodeAt(n, q).value.kind.Linear?
    ensures NodeAt(n, q).value.children == []
  {
    var parent, key := q[..|q| - 1], q[|q| - 1];
    assert q == parent + [key];
    NodeAtPrefix(n, parent, key);
    NodeAtLeaves(n, parent);
    NodeAtExtend(n, parent, key);
  }

  /** A splice leaves every disjoint subtree as it was. */
  lemma {:induction false} NodeAtSpliceDisjoint(n: Node, p: Path, x: Node, q: Path)
    requires Disjoint(p, q)
    ensures NodeAt(Splice(n, p, x), q) == NodeAt(n, q)
    decreases |p|
  {
    var i := ChildIndex(n.children, p[0]);
    if i != -1 {
      var cs := n.children[i := Child(p[0], Splice(n.children[i].node, p[1..], x))];
      if p[0] == q[0] {
        NodeAtSpliceDisjoint(n.children[i].node, p[1..], x, q[1..]);
        ChildIndexSameKeys(cs, n.children, q[0]);
      } else {
        var j := ChildIndex(n.children, q[0]);
        ChildIndexSameKeys(cs, n.children, q[0]);
      }
    }
  }
}
