/** String helpers with Python's meaning: the `in` operator on strings,
    `str.rfind`, `str.replace` of one character, `str(i)` of a natural
    number, and the dotted module names that `named_modules` produces. */
module Strings {

  /** `t` occurs in `s` starting at index `i`. */
  predicate OccursAt(s: string, t: string, i: int)
  {
    0 <= i && i + |t| <= |s| && s[i..i + |t|] == t
  }

  /** Python's `t in s`: `t` occurs in `s` at some index. */
  predicate Contains(s: string, t: string)
  {
    exists i | 0 <= i <= |s| - |t| :: OccursAt(s, t, i)
  }

  /** If `u` occurs in `t` and `t` occurs in `s`, then `u` occurs in `s`. */
  lemma ContainsTransitive(s: string, t: string, u: string)
    requires Contains(s, t) && Contains(t, u)
    ensures Contains(s, u)
  {
    var i :| 0 <= i <= |s| - |t| && OccursAt(s, t, i);
    var j :| 0 <= j <= |t| - |u| && OccursAt(t, u, j);
    assert s[i + j..i + j + |u|] == u by {
      forall k | 0 <= k < |u| ensures s[i + j + k] == u[k] {
        assert s[i + j + k] == s[i..i + |t|][j + k];
        assert t[j + k] == t[j..j + |u|][k];
      }
    }
    assert OccursAt(s, u, i + j);
  }

  /** An occurrence gives `t in s`. */
  lemma ContainsAt(s: string, t: string, i: int)
    requires OccursAt(s, t, i)
    ensures Contains(s, t)
  {
  }

  /** `t` cannot occur in `s` when one of its characters does not. */
  lemma ContainsMissingChar(s: string, t: string, c: char)
    requires c in t && c !in s
    ensures !Contains(s, t)
  {
  }

  /** Where a two-character `t` occurring in `a + b` at `i` lies. */
  lemma OccursSeam(a: string, b: string, t: string, i: int)
    requires |t| == 2 && |a| > 0 && |b| > 0 && OccursAt(a + b, t, i)
    ensures OccursAt(a, t, i) || OccursAt(b, t, i - |a|) || t == [a[|a| - 1], b[0]]
  {
    var s := a + b;
    if i + 2 <= |a| {
      assert s[i..i + 2] == a[i..i + 2];
    } else if i >= |a| {
      assert s[i..i + 2] == b[i - |a|..i - |a| + 2];
    } else {
      assert s[i..i + 2] == [a[|a| - 1], b[0]];
    }
  }

  /** A two-character `t` occurs in `a + b` only inside `a`, inside `b`,
      or across the seam. */
  lemma ContainsSeam(a: string, b: string, t: string)
    requires |t| == 2 && |a| > 0 && |b| > 0
    ensures Contains(a + b, t) ==> Contains(a, t) || Contains(b, t) || t == [a[|a| - 1], b[0]]
  {
    if Contains(a + b, t) {
      var i :| 0 <= i <= |a + b| - |t| && OccursAt(a + b, t, i);
      OccursSeam(a, b, t, i);
      if OccursAt(a, t, i) {
        ContainsAt(a, t, i);
      } else if OccursAt(b, t, i - |a|) {
        ContainsAt(b, t, i - |a|);
      }
    }
  }

  /** Python's `s.rfind(c)`: the last index of `c` in `s`, or -1. */
  function RFind(s: string, c: char): (r: int)
    ensures -1 <= r < |s|
    ensures r >= 0 ==> s[r] == c
    ensures forall j :: r < j < |s| ==> s[j] != c
  {
    if s == [] then -1
    else if s[|s| - 1] == c then |s| - 1
    else RFind(s[..|s| - 1], c)
  }

  /** Python's `s.replace(a, b)` for single characters. */
  function ReplaceChar(s: string, a: char, b: char): (r: string)
    ensures |r| == |s|
    ensures forall i :: 0 <= i < |s| ==> r[i] == (if s[i] == a then b else s[i])
  {
    if s == [] then [] else ReplaceChar(s[..|s| - 1], a, b) + [if s[|s| - 1] == a then b else s[|s| - 1]]
  }

  /** Python's `str(n)` for a natural number: decimal digits, no leading zero. */
  function NatToString(n: nat): (r: string)
    ensures |r| >= 1
    ensures forall i :: 0 <= i < |r| ==> '0' <= r[i] <= '9'
    ensures n >= 10 <==> |r| >= 2
  {
    if n < 10 then [Digit(n)] else NatToString(n / 10) + [Digit(n % 10)]
  }

  function Digit(d: nat): (c: char)
    requires d < 10
    ensures '0' <= c <= '9' && c as int - '0' as int == d
  {
    ('0' as int + d) as char
  }

  /** Distinct numbers print differently, so `block{i}` names never collide. */
  lemma {:induction false} NatToStringInjective(a: nat, b: nat)
    requires NatToString(a) == NatToString(b)
    ensures a == b
  {
    var sa, sb := NatToString(a), NatToString(b);
    if a >= 10 && b >= 10 {
      var qa, ra, qb, rb := a / 10, a % 10, b / 10, b % 10;
      assert sa == NatToString(qa) + [Digit(ra)];
      assert sb == NatToString(qb) + [Digit(rb)];
      assert NatToString(qa) == sa[..|sa| - 1] == sb[..|sb| - 1] == NatToString(qb);
      NatToStringInjective(qa, qb);
      assert Digit(ra) == sa[|sa| - 1] == sb[|sb| - 1] == Digit(rb);
    } else if a < 10 && b < 10 {
      assert Digit(a) == sa[0] == sb[0] == Digit(b);
    }
  }

  /** A key that `nn.Module.add_module` accepts: non-empty, without '.'. */
  predicate ValidKey(k: string)
  {
    k != "" && '.' !in k
  }

  predicate ValidKeys(p: seq<string>)
  {
    forall i :: 0 <= i < |p| ==> ValidKey(p[i])
  }

  /** How `named_modules` extends a name prefix by one child key. */
  function SubName(prefix: string, key: string): string
  {
    prefix + (if prefix == "" then "" else ".") + key
  }

  /** The dotted name under which `named_modules` lists the module reached
      by the key path `p`; the root is listed as "". */
  function Dotted(p: seq<string>): string
  {
    if p == [] then "" else SubName(Dotted(p[..|p| - 1]), p[|p| - 1])
  }

  lemma {:induction false} DottedEmpty(p: seq<string>)
    requires ValidKeys(p)
    ensures Dotted(p) == "" <==> p == []
  {
    if p != [] {
      assert |Dotted(p)| >= |p[|p| - 1]| > 0;
    }
  }

  /** The dotted name of a key path contains a '.' exactly between keys. */
  lemma {:induction false} DottedNoDot(p: seq<string>)
    requires ValidKeys(p) && |p| <= 1
    ensures '.' !in Dotted(p)
  {
    if |p| == 1 {
      assert Dotted(p) == p[0];
    }
  }

  lemma RFindAbsent(s: string, c: char)
    requires c !in s
    ensures RFind(s, c) == -1
  {
  }

  /** The last `c` of `x + [c] + y` is the one before `y` when `y` has none. */
  lemma {:induction false} RFindLast(x: string, c: char, y: string)
    requires c !in y
    ensures RFind(x + [c] + y, c) == |x|
    decreases |y|
  {
    var s := x + [c] + y;
    if y != [] {
      assert s[|s| - 1] == y[|y| - 1];
      assert s[..|s| - 1] == x + [c] + y[..|y| - 1];
      RFindLast(x, c, y[..|y| - 1]);
    } else {
      assert s[|s| - 1] == c;
    }
  }

  /** The parent/key split of replace_qlinear: `rfind('.')` on a dotted
      name finds the separator before the last key, so `name[:ind]` is the
      parent's dotted name (or there is no '.', and the parent is the root)
      and `name[ind+1:]` is the last key. */
  lemma SplitDotted(p: seq<string>)
    requires ValidKeys(p) && p != []
    ensures var name, ind := Dotted(p), RFind(Dotted(p), '.');
      && (ind == -1 <==> |p| == 1)
      && (ind != -1 ==> 0 <= ind && name[..ind] == Dotted(p[..|p| - 1]))
      && name[ind + 1..] == p[|p| - 1]
  {
    var parent, last := Dotted(p[..|p| - 1]), p[|p| - 1];
    assert ValidKey(last);
    assert ValidKeys(p[..|p| - 1]);
    DottedEmpty(p[..|p| - 1]);
    if |p| == 1 {
      assert Dotted(p) == last;
      RFindAbsent(last, '.');
    } else {
      assert Dotted(p) == parent + "." + last;
      SplitAtLastDot(parent, last);
    }
  }

  /** `rfind('.')` on `parent + "." + last`, where `last` has no '.'. */
  lemma SplitAtLastDot(parent: string, last: string)
    requires '.' !in last
    ensures var name := parent + "." + last;
      && RFind(name, '.') == |parent|
      && name[..|parent|] == parent
      && name[|parent| + 1..] == last
  {
    RFindLast(parent, '.', last);
    assert parent + "." + last == parent + ['.'] + last;
  }

  /** A non-empty sequence is its front followed by its last element. */
  lemma SplitLast<T>(s: seq<T>)
    requires s != []
    ensures s == s[..|s| - 1] + [s[|s| - 1]]
  {
  }

  /** Different key paths get different dotted names, so the name index of
      replace_qlinear maps each name back to exactly one module. */
  lemma {:induction false} DottedInjective(p: seq<string>, q: seq<string>)
    requires ValidKeys(p) && ValidKeys(q)
    requires Dotted(p) == Dotted(q)
    ensures p == q
    decreases |p|
  {
    DottedEmpty(p);
    DottedEmpty(q);
    if p != [] {
      SplitDotted(p);
      SplitDotted(q);
      var name, ind := Dotted(p), RFind(Dotted(p), '.');
      var p', q' := p[..|p| - 1], q[..|q| - 1];
      assert p[|p| - 1] == name[ind + 1..] == q[|q| - 1];
      SplitLast(p);
      SplitLast(q);
      if ind == -1 {
        assert p' == [] == q';
      } else {
        assert ValidKeys(p') && ValidKeys(q');
        assert Dotted(p') == name[..ind] == Dotted(q');
        DottedInjective(p', q');
      }
    }
  }
}
