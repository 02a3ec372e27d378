/** Name mangling: every scope is named by the `|`-joined path of names from its module down. */
module Mangling {
  import opened Prelude
  import opened ScopeTree

  const DELIMITER := "|"

  /** The names on the way from the module to a scope, both included. */
  function Path(t: Tree, s: ScopeId): (p: seq<string>)
    requires LinksOk(t) && s < |t.scopes|
    ensures p != []
  {
    Above(t, s) + [t.scopes[s].name]
  }

  function Above(t: Tree, s: ScopeId): seq<string>
    requires LinksOk(t) && s < |t.scopes|
    decreases s, 0
  {
    if Parent(t, s).None? then [] else Above(t, Parent(t, s).value) + [t.scopes[Parent(t, s).value].name]
  }

  function MangledName(t: Tree, s: ScopeId): string
    requires LinksOk(t) && s < |t.scopes|
  {
    Join(Path(t, s), DELIMITER)
  }

  /** The name of a scope is that of the scope around it, the delimiter and its own. */
  lemma MangledInside(t: Tree, s: ScopeId)
    requires LinksOk(t) && s < |t.scopes|
    ensures MangledName(t, s) ==
            if Parent(t, s).None? then t.scopes[s].name
            else MangledName(t, Parent(t, s).value) + "|" + t.scopes[s].name
  {
    if Parent(t, s).Some? {
      var p := Path(t, Parent(t, s).value);
      assert Path(t, s) == p + [t.scopes[s].name];
      JoinSnoc(p, t.scopes[s].name);
    }
  }

  lemma {:induction false} JoinSnoc(p: seq<string>, x: string)
    requires p != []
    ensures Join(p + [x], DELIMITER) == Join(p, DELIMITER) + "|" + x
  {
    var all := p + [x];
    JoinSplits(all);
    JoinSplits(p);
    assert all[0] == p[0] && all[1..] == p[1..] + [x];
    if |p| == 1 {
      assert all[1..] == [x];
      assert p[0] + (DELIMITER + x) == p[0] + "|" + x;
    } else {
      JoinSnoc(p[1..], x);
      var rest := Join(p[1..], DELIMITER);
      assert p[0] + (DELIMITER + (rest + "|" + x)) == p[0] + (DELIMITER + rest) + "|" + x;
    }
  }

  // ----- distinct scopes have distinct names -----

  predicate Plain(s: string) { '|' !in s }

  predicate PlainNames(t: Tree) {
    forall s :: 0 <= s < |t.scopes| ==> Plain(t.scopes[s].name)
  }

  /** Scopes with the same parent, and modules among themselves, have different names. */
  predicate SiblingsNamedApart(t: Tree) {
    forall a, b :: (0 <= a < |t.scopes| && 0 <= b < |t.scopes| && t.scopes[a].parent == t.scopes[b].parent
                    && t.scopes[a].name == t.scopes[b].name) ==> a == b
  }

  predicate AllPlain(parts: seq<string>) {
    forall i :: 0 <= i < |parts| ==> Plain(parts[i])
  }

  /** The first part ends at the first delimiter. */
  lemma FirstPart(a: string, b: string, r: string, q: string)
    requires Plain(a) && Plain(b) && a + r == b + q
    requires r == [] || r[0] == '|'
    requires q == [] || q[0] == '|'
    ensures a == b && r == q
  {
    NotShorter(a, b, r, q);
    NotShorter(b, a, q, r);
    assert a == (a + r)[..|a|] == (b + q)[..|b|] == b;
    assert r == (a + r)[|a|..] == (b + q)[|b|..] == q;
  }

  lemma NotShorter(a: string, b: string, r: string, q: string)
    requires Plain(b) && a + r == b + q
    requires r == [] || r[0] == '|'
    ensures |b| <= |a|
  {
    assert forall i :: 0 <= i < |b| ==> (b + q)[i] == b[i];
    assert r != [] ==> (a + r)[|a|] == r[0];
  }

  /** What follows the first part in a joined text. */
  function Tail(parts: seq<string>): string
    requires parts != []
  {
    if |parts| == 1 then "" else DELIMITER + Join(parts[1..], DELIMITER)
  }

  lemma JoinSplits(parts: seq<string>)
    requires parts != []
    ensures Join(parts, DELIMITER) == parts[0] + Tail(parts)
  {
    if |parts| > 1 {
      assert parts[0] + DELIMITER + Join(parts[1..], DELIMITER) == parts[0] + (DELIMITER + Join(parts[1..], DELIMITER));
    }
  }

  lemma {:induction false} JoinInjective(p: seq<string>, q: seq<string>)
    requires p != [] && q != [] && AllPlain(p) && AllPlain(q) && Join(p, DELIMITER) == Join(q, DELIMITER)
    ensures p == q
  {
    JoinSplits(p);
    JoinSplits(q);
    FirstPart(p[0], q[0], Tail(p), Tail(q));
    assert p == [p[0]] + p[1..] && q == [q[0]] + q[1..];
    if |p| > 1 && |q| > 1 {
      assert Tail(p)[1..] == Join(p[1..], DELIMITER) && Tail(q)[1..] == Join(q[1..], DELIMITER);
      JoinInjective(p[1..], q[1..]);
    }
  }

  lemma {:induction false} PathPlain(t: Tree, s: ScopeId)
    requires LinksOk(t) && s < |t.scopes| && PlainNames(t)
    ensures AllPlain(Path(t, s))
  {
    if Parent(t, s).Some? {
      PathPlain(t, Parent(t, s).value);
      assert Path(t, s) == Path(t, Parent(t, s).value) + [t.scopes[s].name];
    }
  }

  lemma {:induction false} PathInjective(t: Tree, a: ScopeId, b: ScopeId)
    requires LinksOk(t) && SiblingsNamedApart(t) && a < |t.scopes| && b < |t.scopes| && Path(t, a) == Path(t, b)
    ensures a == b
    decreases a
  {
    var p, q := Path(t, a), Path(t, b);
    assert p[|p| - 1] == t.scopes[a].name && q[|q| - 1] == t.scopes[b].name;
    assert Above(t, a) == p[..|p| - 1] == q[..|q| - 1] == Above(t, b);
    if Parent(t, a).Some? && Parent(t, b).Some? {
      PathInjective(t, Parent(t, a).value, Parent(t, b).value);
    } else {
      assert Parent(t, a).None? ==> |Above(t, a)| == 0;
      assert Parent(t, b).None? ==> |Above(t, b)| == 0;
    }
  }

  /** Distinct scopes get distinct mangled names. */
  lemma ManglingInjective(t: Tree, a: ScopeId, b: ScopeId)
    requires LinksOk(t) && PlainNames(t) && SiblingsNamedApart(t) && a < |t.scopes| && b < |t.scopes| && a != b
    ensures MangledName(t, a) != MangledName(t, b)
  {
    if MangledName(t, a) == MangledName(t, b) {
      PathPlain(t, a);
      PathPlain(t, b);
      JoinInjective(Path(t, a), Path(t, b));
      PathInjective(t, a, b);
    }
  }

  // ----- the pass -----

  /** Every scope below `s` has its path as its name. */
  ghost predicate Named(t: Tree, names: map<ScopeId, string>, s: ScopeId)
    requires LinksOk(t)
  {
    forall d :: 0 <= d < |t.scopes| && Under(t, s, d) ==> d in names && names[d] == MangledName(t, d)
  }

  ghost predicate SameOutside(t: Tree, before: map<ScopeId, string>, after: map<ScopeId, string>, s: ScopeId)
    requires LinksOk(t)
  {
    forall d :: 0 <= d < |t.scopes| && !Under(t, s, d) ==> (d in before <==> d in after) && (d in before ==> before[d] == after[d])
  }

  class Mangler {
    var prefixStack: seq<string>
    var mangledName: map<ScopeId, string>

    constructor ()
      ensures prefixStack == [] && mangledName == map[]
    {
      prefixStack, mangledName := [], map[];
    }

    /** Names one scope and everything below it; the stack is as it was. */
    method MangleScope(t: Tree, s: ScopeId)
      requires LinksOk(t) && s < |t.scopes| && prefixStack == Above(t, s)
      modifies this
      ensures prefixStack == old(prefixStack)
      ensures Named(t, mangledName, s) && SameOutside(t, old(mangledName), mangledName, s)
      decreases |t.scopes| - s, |t.scopes[s].children| + 1
    {
      prefixStack := prefixStack + [t.scopes[s].name];
      mangledName := mangledName[s := Join(prefixStack, DELIMITER)];
      MangleChildren(t, s);
      prefixStack := prefixStack[..|prefixStack| - 1];
    }

    method MangleChildren(t: Tree, s: ScopeId)
      requires LinksOk(t) && s < |t.scopes| && prefixStack == Path(t, s)
      requires s in mangledName && mangledName[s] == MangledName(t, s)
      modifies this
      ensures prefixStack == old(prefixStack)
      ensures Named(t, mangledName, s) && SameOutside(t, old(mangledName), mangledName, s)
      decreases |t.scopes| - s, |t.scopes[s].children|
    {
      var children := t.scopes[s].children;
      var i := 0;
      while i < |children|
        invariant 0 <= i <= |children| && prefixStack == old(prefixStack)
        invariant s in mangledName && mangledName[s] == MangledName(t, s)
        invariant forall k :: 0 <= k < i ==> Named(t, mangledName, children[k])
        invariant SameOutside(t, old(mangledName), mangledName, s)
      {
        ghost var before := mangledName;
        MangleScope(t, children[i]);
        ChildNamed(t, s, i, old(mangledName), before, mangledName);
        i := i + 1;
      }
      AllNamed(t, s, mangledName);
    }

    /** The pass over all modules. */
    method MangleModules(t: Tree)
      requires LinksOk(t) && prefixStack == []
      modifies this
      ensures prefixStack == []
      ensures forall s :: 0 <= s < |t.scopes| && t.scopes[s].kind == Global ==> Named(t, mangledName, s)
    {
      var s := 0;
      while s < |t.scopes|
        invariant 0 <= s <= |t.scopes| && prefixStack == []
        invariant forall r :: 0 <= r < s && t.scopes[r].kind == Global ==> Named(t, mangledName, r)
      {
        ghost var before := mangledName;
        if t.scopes[s].kind == Global {
          MangleScope(t, s);
          forall r | 0 <= r < s && t.scopes[r].kind == Global ensures Named(t, mangledName, r) {
            RootsApart(t, r, s, before, mangledName);
          }
        }
        s := s + 1;
      }
    }
  }

  /** Naming one subtree keeps the names of its siblings. */
  lemma ChildNamed(t: Tree, s: ScopeId, i: nat, start: map<ScopeId, string>, before: map<ScopeId, string>, after: map<ScopeId, string>)
    requires LinksOk(t) && s < |t.scopes| && i < |t.scopes[s].children|
    requires s in before && before[s] == MangledName(t, s)
    requires forall k :: 0 <= k < i ==> Named(t, before, t.scopes[s].children[k])
    requires SameOutside(t, start, before, s) && SameOutside(t, before, after, t.scopes[s].children[i])
    ensures s in after && after[s] == MangledName(t, s)
    ensures forall k :: 0 <= k < i ==> Named(t, after, t.scopes[s].children[k])
    ensures SameOutside(t, start, after, s)
  {
    var c := t.scopes[s].children[i];
    if Under(t, c, s) {
      UnderIsLater(t, c, s);
    }
    forall k, d | 0 <= k < i && 0 <= d < |t.scopes| && Under(t, t.scopes[s].children[k], d)
      ensures d in after && after[d] == MangledName(t, d)
    {
      assert Named(t, before, t.scopes[s].children[k]);
      if Under(t, c, d) {
        SiblingsDisjoint(t, s, t.scopes[s].children[k], c, d);
      }
    }
    forall d | 0 <= d < |t.scopes| && !Under(t, s, d) ensures !Under(t, c, d) {
      if Under(t, c, d) {
        UnderTransitive(t, s, c, d);
      }
    }
  }

  lemma AllNamed(t: Tree, s: ScopeId, names: map<ScopeId, string>)
    requires LinksOk(t) && s < |t.scopes| && s in names && names[s] == MangledName(t, s)
    requires forall k :: 0 <= k < |t.scopes[s].children| ==> Named(t, names, t.scopes[s].children[k])
    ensures Named(t, names, s)
  {
    forall d | 0 <= d < |t.scopes| && Under(t, s, d) ensures d in names && names[d] == MangledName(t, d) {
      if d != s {
        UnderChild(t, s, d);
        var k :| 0 <= k < |t.scopes[s].children| && Under(t, t.scopes[s].children[k], d);
        assert Named(t, names, t.scopes[s].children[k]);
      }
    }
  }

  lemma RootsApart(t: Tree, r: ScopeId, s: ScopeId, before: map<ScopeId, string>, after: map<ScopeId, string>)
    requires LinksOk(t) && r < s < |t.scopes| && t.scopes[s].kind == Global
    requires Named(t, before, r) && SameOutside(t, before, after, s)
    ensures Named(t, after, r)
  {
    forall d | 0 <= d < |t.scopes| && Under(t, r, d) ensures d in after && after[d] == MangledName(t, d) {
      if Under(t, s, d) {
        AncestorsComparable(t, r, s, d);
      }
    }
  }
}
