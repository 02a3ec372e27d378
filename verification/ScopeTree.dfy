/**
 The scope tree after scanning: scopes numbered in the order they are created, so
 a parent has a smaller number than its children, and the variables they own.
 */
module ScopeTree {
  import opened Prelude

  type ScopeId = nat

  type VarId = nat

  datatype Kind = Global | Function | Block | Class | Namespace

  datatype Scope = Scope(kind: Kind, name: string, parent: Option<ScopeId>, children: seq<ScopeId>,
                         params: seq<VarId>, vars: seq<VarId>)

  /** `names[v]` is the name of variable `v`. */
  datatype Tree = Tree(scopes: seq<Scope>, names: seq<string>)

  /** Parameters first, as the context pass visits them. */
  function Owned(t: Tree, s: ScopeId): seq<VarId>
    requires s < |t.scopes|
  {
    t.scopes[s].params + t.scopes[s].vars
  }

  predicate LinksOk(t: Tree) {
    && (forall s :: 0 <= s < |t.scopes| ==> (t.scopes[s].parent.None? <==> t.scopes[s].kind == Global))
    && (forall s :: 0 <= s < |t.scopes| && t.scopes[s].parent.Some? ==>
          t.scopes[s].parent.value < s && s in t.scopes[t.scopes[s].parent.value].children)
    && (forall s, i :: 0 <= s < |t.scopes| && 0 <= i < |t.scopes[s].children| ==>
          t.scopes[s].children[i] < |t.scopes| && t.scopes[t.scopes[s].children[i]].parent == Some(s))
    && (forall s, i, j :: 0 <= s < |t.scopes| && 0 <= i < j < |t.scopes[s].children| ==>
          t.scopes[s].children[i] != t.scopes[s].children[j])
  }

  /** Every variable is declared in one place. */
  predicate VarsOk(t: Tree) {
    && (forall s, i :: 0 <= s < |t.scopes| && 0 <= i < |Owned(t, s)| ==> Owned(t, s)[i] < |t.names|)
    && (forall s, i, s', i' ::
          (0 <= s < |t.scopes| && 0 <= i < |Owned(t, s)| && 0 <= s' < |t.scopes| && 0 <= i' < |Owned(t, s')|
           && Owned(t, s)[i] == Owned(t, s')[i']) ==> s == s' && i == i')
    && (forall s :: 0 <= s < |t.scopes| && t.scopes[s].kind != Function ==> t.scopes[s].params == [])
    && (forall s :: 0 <= s < |t.scopes| && t.scopes[s].kind == Class ==> t.scopes[s].vars == [])
  }

  /** Namespaces occur only in modules and namespaces; the scanner rejects others. */
  predicate NamespacesOk(t: Tree) {
    forall s :: 0 <= s < |t.scopes| && t.scopes[s].kind == Namespace ==>
      t.scopes[s].parent.Some? && t.scopes[s].parent.value < |t.scopes|
      && t.scopes[t.scopes[s].parent.value].kind in {Global, Namespace}
  }

  predicate Shaped(t: Tree) {
    LinksOk(t) && VarsOk(t) && NamespacesOk(t)
  }

  function Parent(t: Tree, s: ScopeId): (p: Option<ScopeId>)
    requires LinksOk(t) && s < |t.scopes|
    ensures p.Some? ==> p.value < s
  {
    t.scopes[s].parent
  }

  function NearestFunction(t: Tree, s: ScopeId): (f: Option<ScopeId>)
    requires LinksOk(t) && s < |t.scopes|
    ensures f.Some? ==> f.value <= s && t.scopes[f.value].kind == Function
  {
    if t.scopes[s].kind == Function then Some(s)
    else if Parent(t, s).None? then None
    else NearestFunction(t, Parent(t, s).value)
  }

  /** Functions, and blocks inside a function, own a `@context` variable: the first of their variables. */
  predicate HasContext(t: Tree, s: ScopeId)
    requires LinksOk(t) && s < |t.scopes|
  {
    t.scopes[s].kind == Function
    || (t.scopes[s].kind == Block && Parent(t, s).Some? && NearestFunction(t, Parent(t, s).value).Some?)
  }

  predicate ContextsOk(t: Tree)
    requires LinksOk(t)
  {
    forall s :: 0 <= s < |t.scopes| && HasContext(t, s) ==> t.scopes[s].vars != []
  }

  predicate WellFormed(t: Tree) {
    Shaped(t) && ContextsOk(t)
  }

  function ContextVar(t: Tree, s: ScopeId): VarId
    requires WellFormed(t) && s < |t.scopes| && HasContext(t, s)
  {
    t.scopes[s].vars[0]
  }

  /** `d` is `s` or lies below it. */
  predicate Under(t: Tree, s: ScopeId, d: ScopeId)
    requires LinksOk(t) && d < |t.scopes|
  {
    d == s || (Parent(t, d).Some? && Under(t, s, Parent(t, d).value))
  }

  lemma UnderIsLater(t: Tree, s: ScopeId, d: ScopeId)
    requires LinksOk(t) && d < |t.scopes| && Under(t, s, d)
    ensures s <= d
  {
  }

  lemma {:induction false} UnderTransitive(t: Tree, a: ScopeId, b: ScopeId, c: ScopeId)
    requires LinksOk(t) && b < |t.scopes| && c < |t.scopes| && Under(t, a, b) && Under(t, b, c)
    ensures Under(t, a, c)
  {
    if c != b {
      UnderTransitive(t, a, b, Parent(t, c).value);
    }
  }

  /** Ancestors of one scope are comparable. */
  lemma {:induction false} AncestorsComparable(t: Tree, a: ScopeId, b: ScopeId, c: ScopeId)
    requires LinksOk(t) && c < |t.scopes| && Under(t, a, c) && Under(t, b, c) && a <= b
    ensures b < |t.scopes| && Under(t, a, b)
  {
    if c != b {
      UnderIsLater(t, b, c);
      AncestorsComparable(t, a, b, Parent(t, c).value);
    }
  }

  /** What lies below a scope lies below exactly one of its children. */
  lemma {:induction false} UnderChild(t: Tree, s: ScopeId, d: ScopeId)
    requires LinksOk(t) && s < |t.scopes| && d < |t.scopes| && Under(t, s, d) && d != s
    ensures exists i :: 0 <= i < |t.scopes[s].children| && Under(t, t.scopes[s].children[i], d)
  {
    var p := Parent(t, d).value;
    if p == s {
      assert d in t.scopes[s].children;
      var i :| 0 <= i < |t.scopes[s].children| && t.scopes[s].children[i] == d;
      assert Under(t, t.scopes[s].children[i], d);
    } else {
      UnderChild(t, s, p);
      var i :| 0 <= i < |t.scopes[s].children| && Under(t, t.scopes[s].children[i], p);
      assert Under(t, t.scopes[s].children[i], d);
    }
  }

  lemma SiblingsDisjoint(t: Tree, s: ScopeId, a: ScopeId, b: ScopeId, d: ScopeId)
    requires LinksOk(t) && a < |t.scopes| && b < |t.scopes| && d < |t.scopes|
    requires Parent(t, a) == Some(s) && Parent(t, b) == Some(s) && Under(t, a, d) && Under(t, b, d)
    ensures a == b
  {
    if a < b {
      AncestorsComparable(t, a, b, d);
      UnderIsLater(t, a, s);
    } else if b < a {
      AncestorsComparable(t, b, a, d);
      UnderIsLater(t, b, s);
    }
  }

  // ----- lookup -----

  function FirstNamed(t: Tree, vs: seq<VarId>, x: string): (v: Option<VarId>)
    ensures v.Some? ==> v.value in vs && v.value < |t.names| && t.names[v.value] == x
    ensures v.None? ==> forall i :: 0 <= i < |vs| && vs[i] < |t.names| ==> t.names[vs[i]] != x
  {
    if vs == [] then None
    else if vs[0] < |t.names| && t.names[vs[0]] == x then Some(vs[0])
    else FirstNamed(t, vs[1..], x)
  }

  /** `findVariable(x, false)`: variables of the scope before its parameters. */
  function FindLocal(t: Tree, s: ScopeId, x: string): (v: Option<VarId>)
    requires s < |t.scopes|
    ensures v.Some? ==> v.value in Owned(t, s)
  {
    var v := FirstNamed(t, t.scopes[s].vars, x);
    if v.Some? then v
    else if t.scopes[s].kind == Function then FirstNamed(t, t.scopes[s].params, x)
    else None
  }

  datatype Found = Found(scope: ScopeId, v: VarId)

  /** The declaration a name denotes when used in scope `s`. */
  function Lookup(t: Tree, s: ScopeId, x: string): (r: Option<Found>)
    requires LinksOk(t) && s < |t.scopes|
    ensures r.Some? ==> r.value.scope <= s && Under(t, r.value.scope, s)
                        && FindLocal(t, r.value.scope, x) == Some(r.value.v)
  {
    var v := FindLocal(t, s, x);
    if v.Some? then Some(Found(s, v.value))
    else if Parent(t, s).None? then None
    else Lookup(t, Parent(t, s).value, x)
  }

  // ----- what lookup finds -----

  predicate IsNamed(t: Tree, v: VarId, x: string) { v < |t.names| && t.names[v] == x }

  /** No variable of the list has the name. */
  predicate Unnamed(t: Tree, vs: seq<VarId>, x: string) {
    forall i :: 0 <= i < |vs| ==> !IsNamed(t, vs[i], x)
  }

  /** `v` is the first variable of the list with the name. */
  predicate FirstWithName(t: Tree, vs: seq<VarId>, x: string, v: VarId) {
    exists i :: 0 <= i < |vs| && vs[i] == v && IsNamed(t, v, x) && Unnamed(t, vs[..i], x)
  }

  /** Some variable or parameter of the scope has the name. */
  predicate Owns(t: Tree, s: ScopeId, x: string)
    requires s < |t.scopes|
  {
    !Unnamed(t, t.scopes[s].vars, x) || !Unnamed(t, t.scopes[s].params, x)
  }

  /** The variable or parameter a name denotes in a scope that owns it. */
  predicate Denotes(t: Tree, s: ScopeId, x: string, v: VarId)
    requires s < |t.scopes|
  {
    if Unnamed(t, t.scopes[s].vars, x) then FirstWithName(t, t.scopes[s].params, x, v)
    else FirstWithName(t, t.scopes[s].vars, x, v)
  }

  lemma {:induction false} FirstNamedIff(t: Tree, vs: seq<VarId>, x: string, v: VarId)
    ensures FirstNamed(t, vs, x) == Some(v) <==> FirstWithName(t, vs, x, v)
    ensures FirstNamed(t, vs, x) == None <==> Unnamed(t, vs, x)
  {
    if vs != [] {
      FirstNamedIff(t, vs[1..], x, v);
      if IsNamed(t, vs[0], x) {
        assert vs[..0] == [];
        assert FirstWithName(t, vs, x, v) ==> v == vs[0] by {
          forall i | 0 < i < |vs| ensures !Unnamed(t, vs[..i], x) {
            assert vs[..i][0] == vs[0];
          }
        }
      } else {
        forall i | 0 < i < |vs| ensures Unnamed(t, vs[..i], x) <==> Unnamed(t, vs[1..][..i - 1], x) {
          assert vs[..i] == [vs[0]] + vs[1..][..i - 1];
        }
        if FirstWithName(t, vs[1..], x, v) {
          var i :| 0 <= i < |vs[1..]| && vs[1..][i] == v && IsNamed(t, v, x) && Unnamed(t, vs[1..][..i], x);
          assert vs[i + 1] == v && Unnamed(t, vs[..i + 1], x);
        }
        if FirstWithName(t, vs, x, v) {
          var i :| 0 <= i < |vs| && vs[i] == v && IsNamed(t, v, x) && Unnamed(t, vs[..i], x);
          assert vs[1..][i - 1] == v && Unnamed(t, vs[1..][..i - 1], x);
        }
        if Unnamed(t, vs[1..], x) {
          forall i | 0 <= i < |vs| ensures !IsNamed(t, vs[i], x) {
            if i > 0 {
              assert vs[1..][i - 1] == vs[i];
            }
          }
        }
      }
    }
  }

  /** A scope finds exactly its own variables and parameters. */
  lemma FindLocalIff(t: Tree, s: ScopeId, x: string, v: VarId)
    requires VarsOk(t) && s < |t.scopes|
    ensures FindLocal(t, s, x) == Some(v) <==> Denotes(t, s, x, v)
    ensures FindLocal(t, s, x) == None <==> !Owns(t, s, x)
  {
    FirstNamedIff(t, t.scopes[s].vars, x, v);
    FirstNamedIff(t, t.scopes[s].params, x, v);
  }

  /** No scope between `d` and `s` owns the name, `d` itself excepted. */
  ghost predicate NoneBetween(t: Tree, d: ScopeId, s: ScopeId, x: string)
    requires LinksOk(t) && s < |t.scopes|
  {
    forall e :: 0 <= e < |t.scopes| && e != d && Under(t, d, e) && Under(t, e, s) ==> !Owns(t, e, x)
  }

  /** No scope around `s` owns the name. */
  ghost predicate NoneAround(t: Tree, s: ScopeId, x: string)
    requires LinksOk(t) && s < |t.scopes|
  {
    forall e :: 0 <= e < |t.scopes| && Under(t, e, s) ==> !Owns(t, e, x)
  }

  lemma UnderAntisymmetric(t: Tree, a: ScopeId, b: ScopeId)
    requires LinksOk(t) && a < |t.scopes| && b < |t.scopes| && Under(t, a, b) && Under(t, b, a)
    ensures a == b
  {
    UnderIsLater(t, a, b);
    UnderIsLater(t, b, a);
  }

  /** A name denotes the innermost declaration around its use, and nothing only if there is none. */
  lemma {:induction false} LookupIff(t: Tree, s: ScopeId, x: string, d: ScopeId, v: VarId)
    requires LinksOk(t) && VarsOk(t) && s < |t.scopes|
    ensures Lookup(t, s, x) == Some(Found(d, v)) <==>
            d < |t.scopes| && Under(t, d, s) && Denotes(t, d, x, v) && NoneBetween(t, d, s, x)
    ensures Lookup(t, s, x) == None <==> NoneAround(t, s, x)
  {
    FindLocalIff(t, s, x, v);
    if d < |t.scopes| && Denotes(t, d, x, v) {
      OwnersDenote(t, d, x, v);
    }
    if !Owns(t, s, x) && Parent(t, s).Some? {
      LookupIff(t, Parent(t, s).value, x, d, v);
      AroundParent(t, d, s, x);
    } else if Owns(t, s, x) {
      FindLocalIff(t, s, x, FindLocal(t, s, x).value);
      if d < |t.scopes| && d != s && Under(t, d, s) {
        assert !NoneBetween(t, d, s, x);
      } else if d == s {
        forall e | 0 <= e < |t.scopes| && Under(t, d, e) && Under(t, e, s) ensures e == d {
          UnderAntisymmetric(t, d, e);
        }
      }
    }
  }

  lemma OwnersDenote(t: Tree, d: ScopeId, x: string, v: VarId)
    requires VarsOk(t) && d < |t.scopes| && Denotes(t, d, x, v)
    ensures Owns(t, d, x)
  {
    FindLocalIff(t, d, x, v);
  }

  /** From a scope that does not own the name the search goes on around its parent. */
  lemma AroundParent(t: Tree, d: ScopeId, s: ScopeId, x: string)
    requires LinksOk(t) && s < |t.scopes| && Parent(t, s).Some? && !Owns(t, s, x)
    ensures NoneAround(t, s, x) <==> NoneAround(t, Parent(t, s).value, x)
    ensures d < |t.scopes| && d != s && Under(t, d, s) ==> (NoneBetween(t, d, s, x) <==> NoneBetween(t, d, Parent(t, s).value, x))
  {
    var p := Parent(t, s).value;
    forall e | 0 <= e < |t.scopes| ensures Under(t, e, s) <==> e == s || Under(t, e, p) {
    }
  }
}
