/** Numbering of locals: parameters after the two environment parameters, then all variables of a function and its blocks. */
module LocalNumbering {
  import opened Prelude
  import opened ScopeTree

  /** Every function takes a context and a `this` before its own parameters. */
  const ENV_PARAM_LEN := 2

  datatype Indexes = Indexes(index: map<VarId, int>, localIndex: map<ScopeId, int>)

  predicate Numbers(t: Tree, s: ScopeId)
    requires s < |t.scopes|
  {
    t.scopes[s].kind == Function || t.scopes[s].kind == Block
  }

  /** The variables numbered from scope `s`: its own, then those of its nested blocks in order. */
  function VarsBelow(t: Tree, s: ScopeId): seq<VarId>
    requires LinksOk(t) && s < |t.scopes|
    decreases |t.scopes| - s, |t.scopes[s].children| + 1
  {
    (if Numbers(t, s) then t.scopes[s].vars else []) + BlocksFrom(t, s, 0)
  }

  function BlocksFrom(t: Tree, s: ScopeId, i: nat): seq<VarId>
    requires LinksOk(t) && s < |t.scopes| && i <= |t.scopes[s].children|
    decreases |t.scopes| - s, |t.scopes[s].children| - i
  {
    if i == |t.scopes[s].children| then []
    else ChildVars(t, s, i) + BlocksFrom(t, s, i + 1)
  }

  function ChildVars(t: Tree, s: ScopeId, i: nat): seq<VarId>
    requires LinksOk(t) && s < |t.scopes| && i < |t.scopes[s].children|
    decreases |t.scopes| - s, 0
  {
    var c := t.scopes[s].children[i];
    if t.scopes[c].kind == Block then VarsBelow(t, c) else []
  }

  /** Consecutive indexes from `k` on. */
  function Assign(index: map<VarId, int>, vs: seq<VarId>, k: int): map<VarId, int>
    decreases vs
  {
    if vs == [] then index else Assign(index[vs[0] := k], vs[1..], k + 1)
  }

  function Start(t: Tree, s: ScopeId): int
    requires s < |t.scopes|
  {
    if t.scopes[s].kind == Function then |t.scopes[s].params| + ENV_PARAM_LEN else 0
  }

  /** `initVariableIndex` and then `initParamIndex` of one scope; other kinds of scope are left alone. */
  function InitScope(t: Tree, a: Indexes, s: ScopeId): Indexes
    requires LinksOk(t) && s < |t.scopes|
  {
    if t.scopes[s].kind == Function || t.scopes[s].kind == Global then
      var vs := VarsBelow(t, s);
      var index := Assign(a.index, vs, Start(t, s));
      Indexes(if t.scopes[s].kind == Function then Assign(index, t.scopes[s].params, ENV_PARAM_LEN) else index,
              a.localIndex[s := Start(t, s) + |vs|])
    else a
  }

  // ----- which variables a function numbers -----

  /** The function or module whose numbering covers a scope, if any. */
  function Home(t: Tree, s: ScopeId): (h: Option<ScopeId>)
    requires LinksOk(t) && s < |t.scopes|
    ensures h.Some? ==> h.value <= s && t.scopes[h.value].kind in {Function, Global}
  {
    match t.scopes[s].kind
    case Function => Some(s)
    case Global => Some(s)
    case Block => if Parent(t, s).None? then None else Home(t, Parent(t, s).value)
    case _ => None
  }

  /** Where a variable numbered from `s` is declared. */
  lemma {:induction false} VarsBelowDeclared(t: Tree, s: ScopeId, k: nat) returns (d: ScopeId)
    requires LinksOk(t) && s < |t.scopes| && k < |VarsBelow(t, s)|
    ensures d < |t.scopes| && VarsBelow(t, s)[k] in t.scopes[d].vars && Numbers(t, d) && Under(t, s, d)
    ensures Home(t, d) == Home(t, s)
    decreases |t.scopes| - s, |t.scopes[s].children| + 1
  {
    var own := if Numbers(t, s) then t.scopes[s].vars else [];
    if k < |own| {
      d := s;
    } else {
      d := BlocksDeclared(t, s, 0, k - |own|);
    }
  }

  lemma {:induction false} BlocksDeclared(t: Tree, s: ScopeId, i: nat, k: nat) returns (d: ScopeId)
    requires LinksOk(t) && s < |t.scopes| && i <= |t.scopes[s].children| && k < |BlocksFrom(t, s, i)|
    ensures d < |t.scopes| && BlocksFrom(t, s, i)[k] in t.scopes[d].vars && Numbers(t, d) && Home(t, d) == Home(t, s)
    ensures exists j :: i <= j < |t.scopes[s].children| && Under(t, t.scopes[s].children[j], d)
    ensures Under(t, s, d)
    decreases |t.scopes| - s, |t.scopes[s].children| - i
  {
    var c := t.scopes[s].children[i];
    var first := if t.scopes[c].kind == Block then VarsBelow(t, c) else [];
    if k < |first| {
      d := VarsBelowDeclared(t, c, k);
      UnderTransitive(t, s, c, d);
    } else {
      d := BlocksDeclared(t, s, i + 1, k - |first|);
    }
  }

  lemma VarOwner(t: Tree, d: ScopeId, e: ScopeId, v: VarId)
    requires VarsOk(t) && d < |t.scopes| && e < |t.scopes| && v in t.scopes[d].vars && v in Owned(t, e)
    ensures d == e
  {
    var i :| 0 <= i < |t.scopes[d].vars| && t.scopes[d].vars[i] == v;
    assert Owned(t, d)[|t.scopes[d].params| + i] == v;
    var j :| 0 <= j < |Owned(t, e)| && Owned(t, e)[j] == v;
  }

  lemma ConcatNoDuplicates(a: seq<VarId>, b: seq<VarId>)
    requires NoDuplicates(a) && NoDuplicates(b)
    requires forall i, j :: 0 <= i < |a| && 0 <= j < |b| ==> a[i] != b[j]
    ensures NoDuplicates(a + b)
  {
  }

  lemma VarsNoDuplicates(t: Tree, s: ScopeId)
    requires VarsOk(t) && s < |t.scopes|
    ensures NoDuplicates(t.scopes[s].vars)
  {
    var n := |t.scopes[s].params|;
    forall i, j | 0 <= i < j < |t.scopes[s].vars| ensures t.scopes[s].vars[i] != t.scopes[s].vars[j] {
      assert Owned(t, s)[n + i] == t.scopes[s].vars[i] && Owned(t, s)[n + j] == t.scopes[s].vars[j];
    }
  }

  lemma {:induction false} VarsBelowNoDuplicates(t: Tree, s: ScopeId)
    requires LinksOk(t) && VarsOk(t) && s < |t.scopes|
    ensures NoDuplicates(VarsBelow(t, s))
    decreases |t.scopes| - s, |t.scopes[s].children| + 1
  {
    BlocksNoDuplicates(t, s, 0);
    VarsNoDuplicates(t, s);
    if Numbers(t, s) {
      var own, rest := t.scopes[s].vars, BlocksFrom(t, s, 0);
      forall i, j | 0 <= i < |own| && 0 <= j < |rest| ensures own[i] != rest[j] {
        var d := BlocksDeclared(t, s, 0, j);
        var k :| 0 <= k < |t.scopes[s].children| && Under(t, t.scopes[s].children[k], d);
        UnderIsLater(t, t.scopes[s].children[k], d);
        if own[i] == rest[j] {
          VarOwner(t, d, s, own[i]);
        }
      }
      ConcatNoDuplicates(own, rest);
    } else {
      assert [] + BlocksFrom(t, s, 0) == BlocksFrom(t, s, 0);
    }
  }

  lemma {:induction false} BlocksNoDuplicates(t: Tree, s: ScopeId, i: nat)
    requires LinksOk(t) && VarsOk(t) && s < |t.scopes| && i <= |t.scopes[s].children|
    ensures NoDuplicates(BlocksFrom(t, s, i))
    decreases |t.scopes| - s, |t.scopes[s].children| - i
  {
    if i < |t.scopes[s].children| {
      var c := t.scopes[s].children[i];
      BlocksNoDuplicates(t, s, i + 1);
      var rest := BlocksFrom(t, s, i + 1);
      if t.scopes[c].kind == Block {
        VarsBelowNoDuplicates(t, c);
        var first := VarsBelow(t, c);
        forall a, b | 0 <= a < |first| && 0 <= b < |rest| ensures first[a] != rest[b] {
          FirstAndRestDiffer(t, s, i, a, b);
        }
        ConcatNoDuplicates(first, rest);
      } else {
        assert [] + rest == rest;
      }
    }
  }

  lemma FirstAndRestDiffer(t: Tree, s: ScopeId, i: nat, a: nat, b: nat)
    requires LinksOk(t) && VarsOk(t) && s < |t.scopes| && i < |t.scopes[s].children|
    requires a < |VarsBelow(t, t.scopes[s].children[i])| && b < |BlocksFrom(t, s, i + 1)|
    ensures VarsBelow(t, t.scopes[s].children[i])[a] != BlocksFrom(t, s, i + 1)[b]
  {
    var c := t.scopes[s].children[i];
    var d := VarsBelowDeclared(t, c, a);
    var e := BlocksDeclared(t, s, i + 1, b);
    var k :| i + 1 <= k < |t.scopes[s].children| && Under(t, t.scopes[s].children[k], e);
    if VarsBelow(t, c)[a] == BlocksFrom(t, s, i + 1)[b] {
      VarOwner(t, d, e, VarsBelow(t, c)[a]);
      SiblingsDisjoint(t, s, c, t.scopes[s].children[k], d);
    }
  }

  /** `d` is `f`, or a block in `f` or in such a block. */
  predicate LocalTo(t: Tree, f: ScopeId, d: ScopeId)
    requires LinksOk(t) && d < |t.scopes|
  {
    d == f || (t.scopes[d].kind == Block && Parent(t, d).Some? && LocalTo(t, f, Parent(t, d).value))
  }

  /** Declared in a function, or in a block that belongs to it or to a module, with no function between. */
  ghost predicate IsLocal(t: Tree, f: ScopeId, v: VarId)
    requires LinksOk(t) && f < |t.scopes|
  {
    exists d :: 0 <= d < |t.scopes| && LocalTo(t, f, d) && t.scopes[d].kind in {Function, Block} && v in t.scopes[d].vars
  }

  /** The list of a nested block stands in one piece in that of its parent, */
  lemma {:induction false} BlockAt(t: Tree, s: ScopeId, i: nat, j: nat) returns (k: nat)
    requires LinksOk(t) && s < |t.scopes| && i <= j < |t.scopes[s].children|
    requires t.scopes[t.scopes[s].children[j]].kind == Block
    ensures Inside(VarsBelow(t, t.scopes[s].children[j]), BlocksFrom(t, s, i), k)
    decreases j - i
  {
    if i < j {
      k := BlockAt(t, s, i + 1, j);
      k := k + |ChildVars(t, s, i)|;
    } else {
      k := 0;
    }
  }

  predicate Inside(part: seq<VarId>, all: seq<VarId>, k: nat) {
    k + |part| <= |all| && forall i {:trigger part[i]} :: 0 <= i < |part| ==> all[k + i] == part[i]
  }

  lemma InsideTransitive(a: seq<VarId>, b: seq<VarId>, c: seq<VarId>, k: nat, m: nat)
    requires Inside(a, b, k) && Inside(b, c, m)
    ensures Inside(a, c, k + m)
  {
    forall i {:trigger a[i]} | 0 <= i < |a| ensures c[k + m + i] == a[i] {
      assert b[k + i] == a[i] && c[m + (k + i)] == b[k + i];
    }
  }

  /** and so in that of the function it is local to. */
  lemma {:induction false} LocalInside(t: Tree, f: ScopeId, d: ScopeId) returns (k: nat)
    requires LinksOk(t) && f < |t.scopes| && d < |t.scopes| && LocalTo(t, f, d)
    ensures Inside(VarsBelow(t, d), VarsBelow(t, f), k)
    decreases d
  {
    if d == f {
      k := 0;
    } else {
      var p := Parent(t, d).value;
      assert d in t.scopes[p].children;
      var j :| 0 <= j < |t.scopes[p].children| && t.scopes[p].children[j] == d;
      var m := LocalInside(t, f, p);
      var i := BlockAt(t, p, 0, j);
      var n := BlocksInside(t, p);
      InsideTransitive(VarsBelow(t, d), BlocksFrom(t, p, 0), VarsBelow(t, p), i, n);
      InsideTransitive(VarsBelow(t, d), VarsBelow(t, p), VarsBelow(t, f), i + n, m);
      k := i + n + m;
    }
  }

  lemma BlocksInside(t: Tree, s: ScopeId) returns (n: nat)
    requires LinksOk(t) && s < |t.scopes|
    ensures Inside(BlocksFrom(t, s, 0), VarsBelow(t, s), n)
  {
    var own, rest := if Numbers(t, s) then t.scopes[s].vars else [], BlocksFrom(t, s, 0);
    n := |own|;
    AppendedInside(own, rest);
    assert VarsBelow(t, s) == own + rest;
  }

  lemma AppendedInside(a: seq<VarId>, b: seq<VarId>)
    ensures Inside(b, a + b, |a|)
  {
  }

  /** The variables of a scope stand in a row, in the order of their declarations. */
  lemma DeclaredInARow(t: Tree, f: ScopeId, d: ScopeId) returns (k: nat)
    requires LinksOk(t) && f < |t.scopes| && d < |t.scopes| && LocalTo(t, f, d) && t.scopes[d].kind in {Function, Block}
    ensures Inside(t.scopes[d].vars, VarsBelow(t, f), k)
  {
    k := LocalInside(t, f, d);
    assert Inside(t.scopes[d].vars, VarsBelow(t, d), 0);
    InsideTransitive(t.scopes[d].vars, VarsBelow(t, d), VarsBelow(t, f), 0, k);
  }

  lemma {:induction false} LocalByHome(t: Tree, f: ScopeId, d: ScopeId)
    requires LinksOk(t) && f < |t.scopes| && d < |t.scopes| && Under(t, f, d)
    requires Home(t, d).Some? && Home(t, d) == Home(t, f)
    ensures LocalTo(t, f, d)
  {
    if d != f {
      HomeAbove(t, f, d);
      LocalByHome(t, f, Parent(t, d).value);
    }
  }

  /** A function numbers its own variables and those of its blocks, all of them and no others. */
  lemma VarsBelowComplete(t: Tree, f: ScopeId, v: VarId)
    requires LinksOk(t) && f < |t.scopes| && t.scopes[f].kind in {Function, Global}
    ensures v in VarsBelow(t, f) <==> IsLocal(t, f, v)
  {
    if v in VarsBelow(t, f) {
      var k :| 0 <= k < |VarsBelow(t, f)| && VarsBelow(t, f)[k] == v;
      var d := VarsBelowDeclared(t, f, k);
      LocalByHome(t, f, d);
    }
    if IsLocal(t, f, v) {
      var d :| 0 <= d < |t.scopes| && LocalTo(t, f, d) && t.scopes[d].kind in {Function, Block} && v in t.scopes[d].vars;
      var k := DeclaredInARow(t, f, d);
      var i :| 0 <= i < |t.scopes[d].vars| && t.scopes[d].vars[i] == v;
      assert VarsBelow(t, f)[k + i] == v;
    }
  }

  /** Below its home, a scope is a block. */
  lemma HomeAbove(t: Tree, f: ScopeId, d: ScopeId)
    requires LinksOk(t) && f < |t.scopes| && d < |t.scopes| && Under(t, f, d) && d != f
    requires Home(t, d).Some? && Home(t, d) == Home(t, f)
    ensures t.scopes[d].kind == Block && Home(t, Parent(t, d).value) == Home(t, f)
  {
    UnderIsLater(t, f, Parent(t, d).value);
  }

  // ----- what assigning does -----

  lemma {:induction false} AssignAt(index: map<VarId, int>, vs: seq<VarId>, k: int, i: nat)
    requires NoDuplicates(vs) && i < |vs|
    ensures vs[i] in Assign(index, vs, k) && Assign(index, vs, k)[vs[i]] == k + i
    decreases vs
  {
    if i == 0 {
      AssignElsewhere(index[vs[0] := k], vs[1..], k + 1, vs[0]);
    } else {
      AssignAt(index[vs[0] := k], vs[1..], k + 1, i - 1);
    }
  }

  lemma {:induction false} AssignElsewhere(index: map<VarId, int>, vs: seq<VarId>, k: int, v: VarId)
    requires v !in vs
    ensures v in Assign(index, vs, k) <==> v in index
    ensures v in index ==> Assign(index, vs, k)[v] == index[v]
    decreases vs
  {
    if vs != [] {
      AssignElsewhere(index[vs[0] := k], vs[1..], k + 1, v);
    }
  }

  /** Parameters at 2, 3, ...; then the variables, without a gap; the counter for temporaries stands behind them. */
  predicate Numbered(t: Tree, a: Indexes, f: ScopeId)
    requires LinksOk(t) && f < |t.scopes|
  {
    var ps, vs := t.scopes[f].params, VarsBelow(t, f);
    && (forall i :: 0 <= i < |ps| ==> ps[i] in a.index && a.index[ps[i]] == ENV_PARAM_LEN + i)
    && (forall i :: 0 <= i < |vs| ==> vs[i] in a.index && a.index[vs[i]] == Start(t, f) + i)
    && f in a.localIndex && a.localIndex[f] == Start(t, f) + |vs|
  }

  lemma ParamsNoDuplicates(t: Tree, s: ScopeId)
    requires VarsOk(t) && s < |t.scopes|
    ensures NoDuplicates(t.scopes[s].params)
  {
    forall i, j | 0 <= i < j < |t.scopes[s].params| ensures t.scopes[s].params[i] != t.scopes[s].params[j] {
      assert Owned(t, s)[i] == t.scopes[s].params[i] && Owned(t, s)[j] == t.scopes[s].params[j];
    }
  }

  /** A variable numbered by one function or module is not touched by another. */
  lemma VarsOfOthers(t: Tree, f: ScopeId, g: ScopeId, k: nat)
    requires LinksOk(t) && VarsOk(t) && f < |t.scopes| && g < |t.scopes| && k < |VarsBelow(t, f)|
    requires t.scopes[f].kind in {Function, Global} && t.scopes[g].kind in {Function, Global}
    ensures f != g ==> VarsBelow(t, f)[k] !in VarsBelow(t, g)
    ensures VarsBelow(t, f)[k] !in t.scopes[g].params
  {
    var v := VarsBelow(t, f)[k];
    var d := VarsBelowDeclared(t, f, k);
    if v in VarsBelow(t, g) {
      var m :| 0 <= m < |VarsBelow(t, g)| && VarsBelow(t, g)[m] == v;
      var e := VarsBelowDeclared(t, g, m);
      assert v in Owned(t, e);
      VarOwner(t, d, e, v);
    }
    if v in t.scopes[g].params {
      ParamIsNotVar(t, d, g, v);
    }
  }

  lemma ParamIsNotVar(t: Tree, d: ScopeId, g: ScopeId, v: VarId)
    requires VarsOk(t) && d < |t.scopes| && g < |t.scopes| && v in t.scopes[d].vars
    ensures v !in t.scopes[g].params
  {
    var i :| 0 <= i < |t.scopes[d].vars| && t.scopes[d].vars[i] == v;
    var k := |t.scopes[d].params| + i;
    assert Owned(t, d)[k] == v;
    forall j | 0 <= j < |t.scopes[g].params| ensures t.scopes[g].params[j] != v {
      assert Owned(t, g)[j] == t.scopes[g].params[j];
    }
  }

  lemma ParamsOfOthers(t: Tree, f: ScopeId, g: ScopeId, i: nat)
    requires LinksOk(t) && VarsOk(t) && f < |t.scopes| && g < |t.scopes| && i < |t.scopes[f].params|
    ensures t.scopes[f].params[i] !in VarsBelow(t, g)
    ensures f != g ==> t.scopes[f].params[i] !in t.scopes[g].params
  {
    var v := t.scopes[f].params[i];
    assert Owned(t, f)[i] == v;
    if v in VarsBelow(t, g) {
      var m :| 0 <= m < |VarsBelow(t, g)| && VarsBelow(t, g)[m] == v;
      var d := VarsBelowDeclared(t, g, m);
      ParamIsNotVar(t, d, f, v);
    }
    if v in t.scopes[g].params {
      var j :| 0 <= j < |t.scopes[g].params| && t.scopes[g].params[j] == v;
      assert Owned(t, g)[j] == v;
    }
  }

  lemma InitNumbers(t: Tree, a: Indexes, f: ScopeId)
    requires LinksOk(t) && VarsOk(t) && f < |t.scopes| && t.scopes[f].kind in {Function, Global}
    ensures Numbered(t, InitScope(t, a, f), f)
  {
    var ps, vs := t.scopes[f].params, VarsBelow(t, f);
    var index := Assign(a.index, vs, Start(t, f));
    VarsBelowNoDuplicates(t, f);
    ParamsNoDuplicates(t, f);
    forall i | 0 <= i < |vs|
      ensures vs[i] in InitScope(t, a, f).index && InitScope(t, a, f).index[vs[i]] == Start(t, f) + i
    {
      AssignAt(a.index, vs, Start(t, f), i);
      VarsOfOthers(t, f, f, i);
      AssignElsewhere(index, ps, ENV_PARAM_LEN, vs[i]);
    }
    forall i | 0 <= i < |ps|
      ensures ps[i] in InitScope(t, a, f).index && InitScope(t, a, f).index[ps[i]] == ENV_PARAM_LEN + i
    {
      AssignAt(index, ps, ENV_PARAM_LEN, i);
    }
  }

  /** Numbering another scope changes nothing for `f`. */
  lemma InitKeeps(t: Tree, a: Indexes, f: ScopeId, g: ScopeId)
    requires LinksOk(t) && VarsOk(t) && f < |t.scopes| && g < |t.scopes| && f != g
    requires t.scopes[f].kind in {Function, Global} && Numbered(t, a, f)
    ensures Numbered(t, InitScope(t, a, g), f)
  {
    if t.scopes[g].kind in {Function, Global} {
      var ps, vs := t.scopes[f].params, VarsBelow(t, f);
      var index := Assign(a.index, VarsBelow(t, g), Start(t, g));
      forall i | 0 <= i < |vs|
        ensures vs[i] in InitScope(t, a, g).index && InitScope(t, a, g).index[vs[i]] == Start(t, f) + i
      {
        VarsOfOthers(t, f, g, i);
        AssignElsewhere(a.index, VarsBelow(t, g), Start(t, g), vs[i]);
        AssignElsewhere(index, t.scopes[g].params, ENV_PARAM_LEN, vs[i]);
      }
      forall i | 0 <= i < |ps|
        ensures ps[i] in InitScope(t, a, g).index && InitScope(t, a, g).index[ps[i]] == ENV_PARAM_LEN + i
      {
        ParamsOfOthers(t, f, g, i);
        AssignElsewhere(a.index, VarsBelow(t, g), Start(t, g), ps[i]);
        AssignElsewhere(index, t.scopes[g].params, ENV_PARAM_LEN, ps[i]);
      }
    }
  }

  // ----- the traversal -----

  /** The scopes below `s` in the order they are visited. */
  function Preorder(t: Tree, s: ScopeId): seq<ScopeId>
    requires LinksOk(t) && s < |t.scopes|
    decreases |t.scopes| - s, |t.scopes[s].children| + 1
  {
    [s] + PreorderFrom(t, s, 0)
  }

  function PreorderFrom(t: Tree, s: ScopeId, i: nat): seq<ScopeId>
    requires LinksOk(t) && s < |t.scopes| && i <= |t.scopes[s].children|
    decreases |t.scopes| - s, |t.scopes[s].children| - i
  {
    if i == |t.scopes[s].children| then []
    else Preorder(t, t.scopes[s].children[i]) + PreorderFrom(t, s, i + 1)
  }

  lemma {:induction false} PreorderSound(t: Tree, s: ScopeId, d: ScopeId)
    requires LinksOk(t) && s < |t.scopes| && d in Preorder(t, s)
    ensures d < |t.scopes| && Under(t, s, d)
    decreases |t.scopes| - s, |t.scopes[s].children| + 1
  {
    if d != s {
      PreorderFromSound(t, s, 0, d);
    }
  }

  lemma {:induction false} PreorderFromSound(t: Tree, s: ScopeId, i: nat, d: ScopeId)
    requires LinksOk(t) && s < |t.scopes| && i <= |t.scopes[s].children| && d in PreorderFrom(t, s, i)
    ensures d < |t.scopes| && Under(t, s, d)
    ensures exists j :: i <= j < |t.scopes[s].children| && Under(t, t.scopes[s].children[j], d)
    decreases |t.scopes| - s, |t.scopes[s].children| - i
  {
    var c := t.scopes[s].children[i];
    if d in Preorder(t, c) {
      PreorderSound(t, c, d);
      UnderTransitive(t, s, c, d);
    } else {
      PreorderFromSound(t, s, i + 1, d);
    }
  }

  lemma {:induction false} PreorderComplete(t: Tree, s: ScopeId, d: ScopeId)
    requires LinksOk(t) && s < |t.scopes| && d < |t.scopes| && Under(t, s, d)
    ensures d in Preorder(t, s)
    decreases |t.scopes| - s
  {
    if d != s {
      UnderChild(t, s, d);
      var i :| 0 <= i < |t.scopes[s].children| && Under(t, t.scopes[s].children[i], d);
      PreorderComplete(t, t.scopes[s].children[i], d);
      PreorderFromHolds(t, s, 0, i, d);
    }
  }

  lemma {:induction false} PreorderFromHolds(t: Tree, s: ScopeId, i: nat, j: nat, d: ScopeId)
    requires LinksOk(t) && s < |t.scopes| && i <= j < |t.scopes[s].children| && d in Preorder(t, t.scopes[s].children[j])
    ensures d in PreorderFrom(t, s, i)
    decreases j - i
  {
    var first, rest := Preorder(t, t.scopes[s].children[i]), PreorderFrom(t, s, i + 1);
    assert PreorderFrom(t, s, i) == first + rest;
    if i < j {
      PreorderFromHolds(t, s, i + 1, j, d);
      assert d in rest;
    } else {
      assert d in first;
    }
  }

  lemma {:induction false} PreorderNoDuplicates(t: Tree, s: ScopeId)
    requires LinksOk(t) && s < |t.scopes|
    ensures NoDuplicates(Preorder(t, s))
    decreases |t.scopes| - s, |t.scopes[s].children| + 1
  {
    PreorderFromNoDuplicates(t, s, 0);
    var rest := PreorderFrom(t, s, 0);
    forall j | 0 <= j < |rest| ensures rest[j] != s {
      PreorderFromSound(t, s, 0, rest[j]);
      var k :| 0 <= k < |t.scopes[s].children| && Under(t, t.scopes[s].children[k], rest[j]);
      UnderIsLater(t, t.scopes[s].children[k], rest[j]);
    }
    ConcatNoDuplicates([s], rest);
  }

  lemma {:induction false} PreorderFromNoDuplicates(t: Tree, s: ScopeId, i: nat)
    requires LinksOk(t) && s < |t.scopes| && i <= |t.scopes[s].children|
    ensures NoDuplicates(PreorderFrom(t, s, i))
    decreases |t.scopes| - s, |t.scopes[s].children| - i
  {
    if i < |t.scopes[s].children| {
      var c := t.scopes[s].children[i];
      PreorderNoDuplicates(t, c);
      PreorderFromNoDuplicates(t, s, i + 1);
      var first, rest := Preorder(t, c), PreorderFrom(t, s, i + 1);
      forall a, b | 0 <= a < |first| && 0 <= b < |rest| ensures first[a] != rest[b] {
        PreorderSound(t, c, first[a]);
        PreorderFromSound(t, s, i + 1, rest[b]);
        var k :| i + 1 <= k < |t.scopes[s].children| && Under(t, t.scopes[s].children[k], rest[b]);
        if first[a] == rest[b] {
          SiblingsDisjoint(t, s, c, t.scopes[s].children[k], first[a]);
        }
      }
      ConcatNoDuplicates(first, rest);
    }
  }

  predicate InRange(t: Tree, order: seq<ScopeId>) {
    forall i :: 0 <= i < |order| ==> order[i] < |t.scopes|
  }

  /** Numbering the scopes of a list in turn. */
  function InitAll(t: Tree, a: Indexes, order: seq<ScopeId>): Indexes
    requires LinksOk(t) && InRange(t, order)
    decreases order
  {
    if order == [] then a else InitAll(t, InitScope(t, a, order[0]), order[1..])
  }

  lemma SuffixInRange(t: Tree, p: seq<ScopeId>, q: seq<ScopeId>)
    requires InRange(t, p + q)
    ensures InRange(t, q)
  {
    forall i | 0 <= i < |q| ensures q[i] < |t.scopes| {
      assert q[i] == (p + q)[|p| + i];
    }
  }

  lemma {:induction false} InitAllAppend(t: Tree, a: Indexes, p: seq<ScopeId>, q: seq<ScopeId>)
    requires LinksOk(t) && InRange(t, p) && InRange(t, q)
    ensures InRange(t, p + q) && InitAll(t, a, p + q) == InitAll(t, InitAll(t, a, p), q)
    decreases p
  {
    if p == [] {
      assert p + q == q;
    } else {
      assert (p + q)[1..] == p[1..] + q;
      InitAllAppend(t, InitScope(t, a, p[0]), p[1..], q);
    }
  }

  lemma {:induction false} InitAllKeeps(t: Tree, a: Indexes, order: seq<ScopeId>, f: ScopeId)
    requires LinksOk(t) && VarsOk(t) && InRange(t, order) && f < |t.scopes| && f !in order
    requires t.scopes[f].kind in {Function, Global} && Numbered(t, a, f)
    ensures Numbered(t, InitAll(t, a, order), f)
    decreases order
  {
    if order != [] {
      InitKeeps(t, a, f, order[0]);
      InitAllKeeps(t, InitScope(t, a, order[0]), order[1..], f);
    }
  }

  lemma {:induction false} InitAllNumbers(t: Tree, a: Indexes, order: seq<ScopeId>, i: nat)
    requires LinksOk(t) && VarsOk(t) && InRange(t, order) && NoDuplicates(order) && i < |order|
    requires t.scopes[order[i]].kind in {Function, Global}
    ensures Numbered(t, InitAll(t, a, order), order[i])
    decreases order
  {
    if i == 0 {
      InitNumbers(t, a, order[0]);
      InitAllKeeps(t, InitScope(t, a, order[0]), order[1..], order[0]);
    } else {
      InitAllNumbers(t, InitScope(t, a, order[0]), order[1..], i - 1);
    }
  }

  /** A variable that is neither parameter nor local of a function or module in the list keeps its index, or has none. */
  lemma {:induction false} OthersUntouched(t: Tree, a: Indexes, order: seq<ScopeId>, v: VarId)
    requires LinksOk(t) && InRange(t, order)
    requires forall i :: 0 <= i < |order| ==> !NumberedBy(t, order[i], v)
    ensures var b := InitAll(t, a, order); (v in b.index <==> v in a.index) && (v in a.index ==> b.index[v] == a.index[v])
    decreases order
  {
    if order != [] {
      var s := order[0];
      assert !NumberedBy(t, s, v);
      if t.scopes[s].kind in {Function, Global} {
        VarsBelowComplete(t, s, v);
        AssignElsewhere(a.index, VarsBelow(t, s), Start(t, s), v);
        if t.scopes[s].kind == Function {
          AssignElsewhere(Assign(a.index, VarsBelow(t, s), Start(t, s)), t.scopes[s].params, ENV_PARAM_LEN, v);
        }
      }
      OthersUntouched(t, InitScope(t, a, s), order[1..], v);
    }
  }

  ghost predicate NumberedBy(t: Tree, s: ScopeId, v: VarId)
    requires LinksOk(t) && s < |t.scopes|
  {
    t.scopes[s].kind in {Function, Global} && (IsLocal(t, s, v) || (t.scopes[s].kind == Function && v in t.scopes[s].params))
  }

  lemma PreorderInRange(t: Tree, s: ScopeId)
    requires LinksOk(t) && s < |t.scopes|
    ensures InRange(t, Preorder(t, s))
  {
    forall i | 0 <= i < |Preorder(t, s)| ensures Preorder(t, s)[i] < |t.scopes| {
      PreorderSound(t, s, Preorder(t, s)[i]);
    }
  }

  /** After a module has been traversed, each of its functions has its parameters and variables numbered. */
  lemma ModuleNumbered(t: Tree, a: Indexes, root: ScopeId, f: ScopeId)
    requires LinksOk(t) && VarsOk(t) && root < |t.scopes| && f < |t.scopes| && Under(t, root, f)
    requires t.scopes[f].kind in {Function, Global}
    ensures InRange(t, Preorder(t, root)) && Numbered(t, InitAll(t, a, Preorder(t, root)), f)
  {
    PreorderInRange(t, root);
    PreorderNoDuplicates(t, root);
    PreorderComplete(t, root, f);
    var i :| 0 <= i < |Preorder(t, root)| && Preorder(t, root)[i] == f;
    InitAllNumbers(t, a, Preorder(t, root), i);
  }

  /** No two locals of a function share an index, and temporaries come behind all of them. */
  lemma IndexesDistinct(t: Tree, a: Indexes, f: ScopeId, u: VarId, v: VarId)
    requires LinksOk(t) && VarsOk(t) && f < |t.scopes| && t.scopes[f].kind == Function && Numbered(t, a, f)
    requires u in t.scopes[f].params || IsLocal(t, f, u)
    requires v in t.scopes[f].params || IsLocal(t, f, v)
    ensures u in a.index && v in a.index && f in a.localIndex && (a.index[u] == a.index[v] ==> u == v)
    ensures ENV_PARAM_LEN <= a.index[u] < a.localIndex[f]
    ensures u in t.scopes[f].params && v !in t.scopes[f].params ==> a.index[u] < a.index[v]
  {
    LocalIndex(t, a, f, u);
    LocalIndex(t, a, f, v);
  }

  /** The local with an index. */
  function LocalAt(t: Tree, f: ScopeId, n: int): VarId
    requires LinksOk(t) && f < |t.scopes| && t.scopes[f].kind == Function
    requires ENV_PARAM_LEN <= n < Start(t, f) + |VarsBelow(t, f)|
  {
    if n < Start(t, f) then t.scopes[f].params[n - ENV_PARAM_LEN] else VarsBelow(t, f)[n - Start(t, f)]
  }

  /** The index of a local: its place among the parameters, or behind them its place in the list of variables. */
  lemma LocalIndex(t: Tree, a: Indexes, f: ScopeId, u: VarId)
    requires LinksOk(t) && f < |t.scopes| && t.scopes[f].kind == Function && Numbered(t, a, f)
    requires u in t.scopes[f].params || IsLocal(t, f, u)
    ensures f in a.localIndex && a.localIndex[f] == Start(t, f) + |VarsBelow(t, f)|
    ensures u in a.index && ENV_PARAM_LEN <= a.index[u] < a.localIndex[f]
    ensures u in t.scopes[f].params <==> a.index[u] < Start(t, f)
    ensures LocalAt(t, f, a.index[u]) == u
  {
    if u in t.scopes[f].params {
      var i :| 0 <= i < |t.scopes[f].params| && t.scopes[f].params[i] == u;
      assert a.index[t.scopes[f].params[i]] == ENV_PARAM_LEN + i;
    } else {
      VarsBelowComplete(t, f, u);
      var i :| 0 <= i < |VarsBelow(t, f)| && VarsBelow(t, f)[i] == u;
      assert a.index[VarsBelow(t, f)[i]] == Start(t, f) + i;
    }
  }

  /** Every index from 2 on, or for a module from 0 on, up to the counter belongs to a local. */
  lemma NoIndexWasted(t: Tree, a: Indexes, f: ScopeId, n: int) returns (u: VarId)
    requires LinksOk(t) && f < |t.scopes| && t.scopes[f].kind in {Function, Global} && Numbered(t, a, f)
    requires (if t.scopes[f].kind == Function then 2 else 0) <= n < a.localIndex[f]
    ensures u in a.index && a.index[u] == n
    ensures IsLocal(t, f, u) || (t.scopes[f].kind == Function && u in t.scopes[f].params)
  {
    if n < Start(t, f) {
      u := t.scopes[f].params[n - ENV_PARAM_LEN];
    } else {
      u := VarsBelow(t, f)[n - Start(t, f)];
      VarsBelowComplete(t, f, u);
    }
  }

  /** The variables of one scope have consecutive indexes. */
  lemma ConsecutiveIndexes(t: Tree, a: Indexes, f: ScopeId, d: ScopeId, i: nat)
    requires LinksOk(t) && f < |t.scopes| && Numbered(t, a, f)
    requires d < |t.scopes| && LocalTo(t, f, d) && t.scopes[d].kind in {Function, Block} && i + 1 < |t.scopes[d].vars|
    ensures var u, v := t.scopes[d].vars[i], t.scopes[d].vars[i + 1];
            u in a.index && v in a.index && a.index[v] == a.index[u] + 1
  {
    var k := DeclaredInARow(t, f, d);
    assert VarsBelow(t, f)[k + i] == t.scopes[d].vars[i] && VarsBelow(t, f)[k + (i + 1)] == t.scopes[d].vars[i + 1];
  }

  // ----- the numbering methods -----

  class IndexAllocator {
    var index: map<VarId, int>
    var localIndex: map<ScopeId, int>

    constructor ()
      ensures Now() == Indexes(map[], map[])
    {
      index, localIndex := map[], map[];
    }

    function Now(): Indexes
      reads this
    {
      Indexes(index, localIndex)
    }

    /** Gives the variables of a list the next indexes of `root`. */
    method NumberList(root: ScopeId, vs: seq<VarId>)
      requires root in localIndex
      modifies this
      ensures root in old(localIndex)
      ensures index == Assign(old(index), vs, old(localIndex)[root])
      ensures localIndex == old(localIndex)[root := old(localIndex)[root] + |vs|]
    {
      var i := 0;
      while i < |vs|
        invariant 0 <= i <= |vs| && root in localIndex
        invariant localIndex == old(localIndex)[root := old(localIndex)[root] + i]
        invariant Assign(old(index), vs, old(localIndex)[root]) == Assign(index, vs[i..], localIndex[root])
      {
        assert vs[i..][0] == vs[i] && vs[i..][1..] == vs[i + 1..];
        index := index[vs[i] := localIndex[root]];
        localIndex := localIndex[root := localIndex[root] + 1];
        i := i + 1;
      }
      assert vs[i..] == [];
    }

    /** Numbers the variables of a scope and of its nested blocks with the counter of `root`. */
    method AssignVariableIndex(t: Tree, root: ScopeId, s: ScopeId)
      requires LinksOk(t) && s < |t.scopes| && root in localIndex
      modifies this
      ensures root in old(localIndex)
      ensures index == Assign(old(index), VarsBelow(t, s), old(localIndex)[root])
      ensures localIndex == old(localIndex)[root := old(localIndex)[root] + |VarsBelow(t, s)|]
      decreases |t.scopes| - s
    {
      var own := if Numbers(t, s) then t.scopes[s].vars else [];
      AssignAppend(index, own, BlocksFrom(t, s, 0), localIndex[root]);
      NumberList(root, own);
      NumberBlocks(t, root, s);
    }

    /** A child that is no block is left to a numbering of its own. */
    method NumberChild(t: Tree, root: ScopeId, s: ScopeId, i: nat)
      requires LinksOk(t) && s < |t.scopes| && root in localIndex && i < |t.scopes[s].children|
      modifies this
      ensures root in old(localIndex)
      ensures index == Assign(old(index), ChildVars(t, s, i), old(localIndex)[root])
      ensures localIndex == old(localIndex)[root := old(localIndex)[root] + |ChildVars(t, s, i)|]
      decreases |t.scopes| - s, 0
    {
      var c := t.scopes[s].children[i];
      if t.scopes[c].kind == Block {
        AssignVariableIndex(t, root, c);
      }
    }

    method NumberBlocks(t: Tree, root: ScopeId, s: ScopeId)
      requires LinksOk(t) && s < |t.scopes| && root in localIndex
      modifies this
      ensures root in old(localIndex)
      ensures index == Assign(old(index), BlocksFrom(t, s, 0), old(localIndex)[root])
      ensures localIndex == old(localIndex)[root := old(localIndex)[root] + |BlocksFrom(t, s, 0)|]
      decreases |t.scopes| - s, 1
    {
      var children := t.scopes[s].children;
      var i := 0;
      ghost var was, end := localIndex, localIndex[root] + |BlocksFrom(t, s, 0)|;
      ghost var target := Assign(index, BlocksFrom(t, s, 0), localIndex[root]);
      while i < |children|
        invariant 0 <= i <= |children| && root in localIndex
        invariant localIndex == was[root := localIndex[root]] && localIndex[root] + |BlocksFrom(t, s, i)| == end
        invariant Assign(index, BlocksFrom(t, s, i), localIndex[root]) == target
      {
        AssignAppend(index, ChildVars(t, s, i), BlocksFrom(t, s, i + 1), localIndex[root]);
        NumberChild(t, root, s, i);
        i := i + 1;
      }
    }

    /** Fails in the source when the scope was initialized before. */
    method InitVariableIndex(t: Tree, s: ScopeId)
      requires LinksOk(t) && s < |t.scopes| && s !in localIndex && t.scopes[s].kind in {Function, Global}
      modifies this
      ensures index == Assign(old(index), VarsBelow(t, s), Start(t, s))
      ensures localIndex == old(localIndex)[s := Start(t, s) + |VarsBelow(t, s)|]
    {
      var n := Start(t, s);
      localIndex := localIndex[s := n];
      assert localIndex[s] == n;
      label Set:
      AssignVariableIndex(t, s, s);
      assert localIndex == old@Set(localIndex)[s := n + |VarsBelow(t, s)|];
    }

    method InitParamIndex(t: Tree, s: ScopeId)
      requires s < |t.scopes|
      modifies this`index
      ensures index == if t.scopes[s].kind == Function then Assign(old(index), t.scopes[s].params, ENV_PARAM_LEN) else old(index)
    {
      if t.scopes[s].kind == Function {
        var params := t.scopes[s].params;
        var i := 0;
        while i < |params|
          invariant 0 <= i <= |params|
          invariant Assign(old(index), params, ENV_PARAM_LEN) == Assign(index, params[i..], ENV_PARAM_LEN + i)
        {
          assert params[i..][0] == params[i] && params[i..][1..] == params[i + 1..];
          index := index[params[i] := i + ENV_PARAM_LEN];
          i := i + 1;
        }
        assert params[i..] == [];
      }
    }

    method InitOne(t: Tree, s: ScopeId)
      requires LinksOk(t) && s < |t.scopes| && s !in localIndex
      modifies this
      ensures Now() == InitScope(t, old(Now()), s)
    {
      if t.scopes[s].kind == Function || t.scopes[s].kind == Global {
        InitVariableIndex(t, s);
        InitParamIndex(t, s);
      }
    }

    /** Numbers a scope and everything below it; no scope is initialized twice. */
    method TraverseScopeTree(t: Tree, s: ScopeId)
      requires LinksOk(t) && s < |t.scopes| && Untouched(t, s, localIndex)
      modifies this
      ensures InRange(t, Preorder(t, s)) && Now() == InitAll(t, old(Now()), Preorder(t, s))
      ensures GrowsBelow(t, s, old(localIndex), localIndex)
      decreases |t.scopes| - s
    {
      PreorderInRange(t, s);
      ghost var order, before := Preorder(t, s), localIndex;
      InitOne(t, s);
      assert order[1..] == PreorderFrom(t, s, 0);
      ChildrenUntouched(t, s, before, localIndex);
      var children := t.scopes[s].children;
      var i := 0;
      while i < |children|
        invariant 0 <= i <= |children| && InRange(t, PreorderFrom(t, s, i))
        invariant InitAll(t, old(Now()), order) == InitAll(t, Now(), PreorderFrom(t, s, i))
        invariant GrowsBelow(t, s, before, localIndex)
        invariant forall k :: i <= k < |children| ==> Untouched(t, children[k], localIndex)
      {
        ghost var now := localIndex;
        PreorderInRange(t, children[i]);
        SuffixInRange(t, Preorder(t, children[i]), PreorderFrom(t, s, i + 1));
        InitAllAppend(t, Now(), Preorder(t, children[i]), PreorderFrom(t, s, i + 1));
        TraverseScopeTree(t, children[i]);
        GrowsFurther(t, s, i, before, now, localIndex);
        i := i + 1;
      }
    }
  }

  /** Nothing below `s` has been initialized. */
  ghost predicate Untouched(t: Tree, s: ScopeId, local: map<ScopeId, int>)
    requires LinksOk(t)
  {
    forall d :: 0 <= d < |t.scopes| && Under(t, s, d) ==> d !in local
  }

  /** Only scopes below `s` have been initialized since. */
  ghost predicate GrowsBelow(t: Tree, s: ScopeId, before: map<ScopeId, int>, after: map<ScopeId, int>)
    requires LinksOk(t)
  {
    forall d :: d in after && d !in before ==> d < |t.scopes| && Under(t, s, d)
  }

  lemma ChildrenUntouched(t: Tree, s: ScopeId, before: map<ScopeId, int>, after: map<ScopeId, int>)
    requires LinksOk(t) && s < |t.scopes| && Untouched(t, s, before) && after.Keys <= before.Keys + {s}
    ensures forall k :: 0 <= k < |t.scopes[s].children| ==> Untouched(t, t.scopes[s].children[k], after)
  {
    forall k, d | 0 <= k < |t.scopes[s].children| && 0 <= d < |t.scopes| && Under(t, t.scopes[s].children[k], d)
      ensures d !in after
    {
      UnderIsLater(t, t.scopes[s].children[k], d);
      UnderTransitive(t, s, t.scopes[s].children[k], d);
    }
  }

  lemma GrowsFurther(t: Tree, s: ScopeId, i: nat, before: map<ScopeId, int>, now: map<ScopeId, int>, after: map<ScopeId, int>)
    requires LinksOk(t) && s < |t.scopes| && i < |t.scopes[s].children|
    requires GrowsBelow(t, s, before, now) && GrowsBelow(t, t.scopes[s].children[i], now, after)
    requires forall k :: i <= k < |t.scopes[s].children| ==> Untouched(t, t.scopes[s].children[k], now)
    ensures GrowsBelow(t, s, before, after)
    ensures forall k :: i + 1 <= k < |t.scopes[s].children| ==> Untouched(t, t.scopes[s].children[k], after)
  {
    var c := t.scopes[s].children[i];
    forall d | d in after && d !in before ensures d < |t.scopes| && Under(t, s, d) {
      if d !in now {
        UnderTransitive(t, s, c, d);
      }
    }
    forall k, d | i + 1 <= k < |t.scopes[s].children| && 0 <= d < |t.scopes| && Under(t, t.scopes[s].children[k], d)
      ensures d !in after
    {
      assert Untouched(t, t.scopes[s].children[k], now);
      if d in after {
        SiblingsDisjoint(t, s, c, t.scopes[s].children[k], d);
      }
    }
  }

  lemma {:induction false} AssignAppend(index: map<VarId, int>, us: seq<VarId>, vs: seq<VarId>, k: int)
    ensures Assign(index, us + vs, k) == Assign(Assign(index, us, k), vs, k + |us|)
    decreases us
  {
    if us == [] {
      assert us + vs == vs;
    } else {
      assert (us + vs)[1..] == us[1..] + vs;
      AssignAppend(index[us[0] := k], us[1..], vs, k + 1);
    }
  }
}
