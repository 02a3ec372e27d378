/**
 Closure conversion as a whole: marking, then the context pass over the scope
 trees. Every captured variable can be reached from every place that uses it.
 */
module ClosureSoundness {
  import opened Prelude
  import opened ScopeTree
  import opened CaptureMarking
  import opened ClosureConversion

  // ----- the pass over a tree -----

  function ParseTree(t: Tree, closures: set<VarId>, a: Attributes, s: ScopeId): (b: Attributes)
    requires WellFormed(t) && TypesOk(t, a) && s < |t.scopes|
    ensures TypesOk(t, b)
    decreases |t.scopes| - s, |t.scopes[s].children| + 1
  {
    ParseScopeTypes(t, closures, a, s);
    ParseChildren(t, closures, ParseScope(t, closures, a, s), s, 0)
  }

  function ParseChildren(t: Tree, closures: set<VarId>, a: Attributes, s: ScopeId, i: nat): (b: Attributes)
    requires WellFormed(t) && TypesOk(t, a) && s < |t.scopes| && i <= |t.scopes[s].children|
    ensures TypesOk(t, b)
    decreases |t.scopes| - s, |t.scopes[s].children| - i
  {
    if i == |t.scopes[s].children| then a
    else ParseChildren(t, closures, ParseTree(t, closures, a, t.scopes[s].children[i]), s, i + 1)
  }

  /** All modules in turn. */
  function ParseForest(t: Tree, closures: set<VarId>, a: Attributes, s: ScopeId): (b: Attributes)
    requires WellFormed(t) && TypesOk(t, a) && s <= |t.scopes|
    ensures TypesOk(t, b)
    decreases |t.scopes| - s
  {
    if s == |t.scopes| then a
    else ParseForest(t, closures, ParseModule(t, closures, a, s), s + 1)
  }

  /** Every module is parsed when its turn comes; other scopes are reached from their module. */
  function ParseModule(t: Tree, closures: set<VarId>, a: Attributes, s: ScopeId): (b: Attributes)
    requires WellFormed(t) && TypesOk(t, a) && s < |t.scopes|
    ensures TypesOk(t, b)
  {
    if t.scopes[s].kind == Global then ParseTree(t, closures, a, s) else a
  }

  // ----- frames compose -----

  lemma SameVarsTransitive(t: Tree, a: Attributes, b: Attributes, c: Attributes, s: ScopeId)
    requires s < |t.scopes| && SameVars(t, a, b, s) && SameVars(t, b, c, s)
    ensures SameVars(t, a, c, s)
  {
    forall v | v in Owned(t, s) ensures SameVar(a, c, v) {
      assert SameVar(a, b, v) && SameVar(b, c, v);
    }
  }

  lemma FrameTransitive(t: Tree, closures: set<VarId>, a: Attributes, b: Attributes, c: Attributes, s: ScopeId)
    requires LinksOk(t) && Frame(t, closures, a, b, s) && Frame(t, closures, b, c, s)
    ensures Frame(t, closures, a, c, s)
  {
    forall d | 0 <= d < |t.scopes| && !Under(t, s, d) ensures SameVars(t, a, c, d) {
      SameVarsTransitive(t, a, b, c, d);
    }
    forall v | v !in closures ensures SameNumber(a, c, v) {
      assert SameNumber(a, b, v) && SameNumber(b, c, v);
    }
  }

  lemma FrameOfChild(t: Tree, closures: set<VarId>, a: Attributes, b: Attributes, s: ScopeId, c: ScopeId)
    requires LinksOk(t) && c < |t.scopes| && Parent(t, c) == Some(s) && Frame(t, closures, a, b, c)
    ensures Frame(t, closures, a, b, s)
  {
    forall d | 0 <= d < |t.scopes| && !Under(t, s, d) ensures SameVars(t, a, b, d) {
      if Under(t, c, d) {
        UnderTransitive(t, s, c, d);
      }
    }
  }

  lemma FrameReflexive(t: Tree, closures: set<VarId>, a: Attributes, s: ScopeId)
    requires WellFormed(t) && TypesOk(t, a)
    ensures Frame(t, closures, a, a, s)
  {
    forall d | 0 <= d < |t.scopes| ensures SameVars(t, a, a, d) {
      OwnedInRange(t, d);
    }
  }

  lemma {:induction false} SkipUpAbove(t: Tree, s: ScopeId)
    requires LinksOk(t) && s < |t.scopes| && SkipUp(t, s).Some?
    ensures Under(t, SkipUp(t, s).value, s)
  {
    if SkipUp(t, s).value != s {
      SkipUpAbove(t, Parent(t, s).value);
      UnderTransitive(t, SkipUp(t, s).value, Parent(t, s).value, s);
    }
  }

  lemma AroundAbove(t: Tree, s: ScopeId)
    requires LinksOk(t) && s < |t.scopes| && Around(t, s).Some?
    ensures Under(t, Around(t, s).value, s)
  {
    SkipUpAbove(t, Parent(t, s).value);
  }

  /** A finished scope stays finished while scopes elsewhere are handled. */
  lemma DoneStays(t: Tree, closures: set<VarId>, a: Attributes, b: Attributes, s: ScopeId, d: ScopeId)
    requires WellFormed(t) && TypesOk(t, a) && TypesOk(t, b) && s < |t.scopes| && d < |t.scopes|
    requires Frame(t, closures, a, b, s) && !Under(t, s, d) && ScopeDone(t, closures, a, d)
    ensures ScopeDone(t, closures, b, d)
  {
    if HasContext(t, d) {
      OwnedInRange(t, d);
      assert SameVars(t, a, b, d);
      SameContext(t, a, b, d);
      var e := Around(t, d);
      if e.Some? {
        AroundAbove(t, d);
        if Under(t, s, e.value) {
          UnderTransitive(t, s, e.value, d);
        }
        SameContext(t, a, b, e.value);
      }
      SlotsStay(t, closures, a, b, d);
      NumbersStay(t, closures, a, b, d);
    }
  }

  lemma SameContext(t: Tree, a: Attributes, b: Attributes, d: ScopeId)
    requires WellFormed(t) && TypesOk(t, a) && TypesOk(t, b) && d < |t.scopes| && HasContext(t, d) && SameVars(t, a, b, d)
    ensures ContextOf(t, a, d) == ContextOf(t, b, d)
  {
    OwnedInRange(t, d);
    assert SameVar(a, b, ContextVar(t, d));
  }

  lemma SlotsStay(t: Tree, closures: set<VarId>, a: Attributes, b: Attributes, d: ScopeId)
    requires WellFormed(t) && TypesOk(t, a) && TypesOk(t, b) && d < |t.scopes| && HasContext(t, d)
    requires SameVars(t, a, b, d) && a.contexts <= b.contexts && SlotsDone(t, closures, a, d)
    ensures SlotsDone(t, closures, b, d)
  {
    SameContext(t, a, b, d);
    var k := ContextOf(t, a, d);
    forall i | 0 <= i < |Owned(t, d)| && Owned(t, d)[i] in closures
      ensures HasSlot(Slots(b.contexts[k].freeVarTypeList, b.belongCtx, b.closureIndex), Owned(t, d)[i],
                      b.types[Owned(t, d)[i]], ContextVar(t, d))
    {
      assert HasSlot(Slots(a.contexts[k].freeVarTypeList, a.belongCtx, a.closureIndex), Owned(t, d)[i],
                     a.types[Owned(t, d)[i]], ContextVar(t, d));
      assert Owned(t, d)[i] in Owned(t, d);
      assert SameVar(a, b, Owned(t, d)[i]);
    }
  }

  lemma NumbersStay(t: Tree, closures: set<VarId>, a: Attributes, b: Attributes, d: ScopeId)
    requires WellFormed(t) && TypesOk(t, a) && TypesOk(t, b) && d < |t.scopes| && HasContext(t, d)
    requires SameVars(t, a, b, d) && a.contexts <= b.contexts && NumbersDone(t, closures, a, d)
    ensures NumbersDone(t, closures, b, d)
  {
    SameContext(t, a, b, d);
    var vs := Owned(t, d);
    forall i | 0 <= i < |vs| && vs[i] in closures ensures HasNumber(b.closureIndex, vs[i], Marked(vs[..i], closures)) {
      assert HasNumber(a.closureIndex, vs[i], Marked(vs[..i], closures));
      assert vs[i] in vs;
      assert SameVar(a, b, vs[i]);
    }
  }

  // ----- every scope below the start is finished -----

  ghost predicate AllDone(t: Tree, closures: set<VarId>, a: Attributes, s: ScopeId)
    requires WellFormed(t) && TypesOk(t, a)
  {
    forall d :: 0 <= d < |t.scopes| && Under(t, s, d) ==> ScopeDone(t, closures, a, d)
  }

  /** The scope and its first `i` subtrees. */
  ghost predicate Covered(t: Tree, s: ScopeId, i: nat, d: ScopeId)
    requires LinksOk(t) && s < |t.scopes| && d < |t.scopes| && i <= |t.scopes[s].children|
  {
    d == s || exists k :: 0 <= k < i && Under(t, t.scopes[s].children[k], d)
  }

  lemma {:induction false} TreeDone(t: Tree, closures: set<VarId>, a: Attributes, s: ScopeId)
    requires WellFormed(t) && TypesOk(t, a) && s < |t.scopes| && ContextsUncaptured(t, closures)
    ensures AllDone(t, closures, ParseTree(t, closures, a, s), s)
    ensures Frame(t, closures, a, ParseTree(t, closures, a, s), s)
    decreases |t.scopes| - s, |t.scopes[s].children| + 1
  {
    ParseScopeDone(t, closures, a, s);
    var b := ParseScope(t, closures, a, s);
    ChildrenDone(t, closures, b, s, 0);
    FrameTransitive(t, closures, a, b, ParseTree(t, closures, a, s), s);
  }

  lemma CoveredBefore(t: Tree, s: ScopeId, i: nat, d: ScopeId)
    requires LinksOk(t) && s < |t.scopes| && i < |t.scopes[s].children| && d < |t.scopes|
    requires Covered(t, s, i + 1, d) && !Under(t, t.scopes[s].children[i], d)
    ensures Covered(t, s, i, d)
  {
    if d != s {
      var k :| 0 <= k < i + 1 && Under(t, t.scopes[s].children[k], d);
      assert k < i;
    }
  }

  lemma {:induction false} ChildrenDone(t: Tree, closures: set<VarId>, a: Attributes, s: ScopeId, i: nat)
    requires WellFormed(t) && TypesOk(t, a) && s < |t.scopes| && i <= |t.scopes[s].children| && ContextsUncaptured(t, closures)
    requires forall d :: 0 <= d < |t.scopes| && Covered(t, s, i, d) ==> ScopeDone(t, closures, a, d)
    ensures AllDone(t, closures, ParseChildren(t, closures, a, s, i), s)
    ensures Frame(t, closures, a, ParseChildren(t, closures, a, s, i), s)
    decreases |t.scopes| - s, |t.scopes[s].children| - i
  {
    if i == |t.scopes[s].children| {
      FrameReflexive(t, closures, a, s);
      forall d | 0 <= d < |t.scopes| && Under(t, s, d) ensures ScopeDone(t, closures, a, d) {
        if d != s {
          UnderChild(t, s, d);
        }
        assert Covered(t, s, i, d);
      }
    } else {
      var c := t.scopes[s].children[i];
      var b := ParseTree(t, closures, a, c);
      TreeDone(t, closures, a, c);
      forall d | 0 <= d < |t.scopes| && Covered(t, s, i + 1, d) ensures ScopeDone(t, closures, b, d) {
        if !Under(t, c, d) {
          CoveredBefore(t, s, i, d);
          DoneStays(t, closures, a, b, c, d);
        }
      }
      ChildrenDone(t, closures, b, s, i + 1);
      FrameOfChild(t, closures, a, b, s, c);
      FrameTransitive(t, closures, a, b, ParseChildren(t, closures, b, s, i + 1), s);
    }
  }

  /** The module a scope belongs to. */
  function Root(t: Tree, s: ScopeId): (r: ScopeId)
    requires LinksOk(t) && s < |t.scopes|
    ensures r <= s && t.scopes[r].kind == Global && Under(t, r, s)
  {
    if Parent(t, s).None? then s
    else
      var r := Root(t, Parent(t, s).value);
      r
  }

  lemma RootsDisjoint(t: Tree, r: ScopeId, d: ScopeId)
    requires LinksOk(t) && d < |t.scopes| && r < |t.scopes| && t.scopes[r].kind == Global && Under(t, r, d)
    ensures Root(t, d) == r
  {
    if d != r {
      RootsDisjoint(t, r, Parent(t, d).value);
    }
  }

  /** Parsing one module finishes its scopes and keeps those of earlier modules finished. */
  lemma ModuleDone(t: Tree, closures: set<VarId>, a: Attributes, s: ScopeId, d: ScopeId)
    requires WellFormed(t) && TypesOk(t, a) && s < |t.scopes| && d < |t.scopes| && ContextsUncaptured(t, closures)
    requires Root(t, d) < s ==> ScopeDone(t, closures, a, d)
    ensures Root(t, d) <= s ==> ScopeDone(t, closures, ParseModule(t, closures, a, s), d)
  {
    if t.scopes[s].kind == Global {
      TreeDone(t, closures, a, s);
      if Under(t, s, d) {
        RootsDisjoint(t, s, d);
      } else if Root(t, d) < s {
        DoneStays(t, closures, a, ParseTree(t, closures, a, s), s, d);
      }
    }
  }

  /** The scopes of all modules before `s` are finished. */
  ghost predicate ModulesDone(t: Tree, closures: set<VarId>, a: Attributes, s: ScopeId)
    requires WellFormed(t) && TypesOk(t, a)
  {
    forall d :: 0 <= d < |t.scopes| && Root(t, d) < s ==> ScopeDone(t, closures, a, d)
  }

  lemma NextModuleDone(t: Tree, closures: set<VarId>, a: Attributes, s: ScopeId)
    requires WellFormed(t) && TypesOk(t, a) && s < |t.scopes| && ContextsUncaptured(t, closures) && ModulesDone(t, closures, a, s)
    ensures ModulesDone(t, closures, ParseModule(t, closures, a, s), s + 1)
  {
    forall d | 0 <= d < |t.scopes| && Root(t, d) < s + 1 ensures ScopeDone(t, closures, ParseModule(t, closures, a, s), d) {
      ModuleDone(t, closures, a, s, d);
    }
  }

  lemma {:induction false} AllModulesDone(t: Tree, closures: set<VarId>, a: Attributes, s: ScopeId)
    requires WellFormed(t) && TypesOk(t, a) && s <= |t.scopes| && ContextsUncaptured(t, closures) && ModulesDone(t, closures, a, s)
    ensures ModulesDone(t, closures, ParseForest(t, closures, a, s), |t.scopes|)
    decreases |t.scopes| - s
  {
    if s < |t.scopes| {
      var b := ParseModule(t, closures, a, s);
      assert ParseForest(t, closures, a, s) == ParseForest(t, closures, b, s + 1);
      NextModuleDone(t, closures, a, s);
      assert ModulesDone(t, closures, ParseForest(t, closures, b, s + 1), |t.scopes|) by {
        AllModulesDone(t, closures, b, s + 1);
      }
    }
  }

  lemma ForestDone(t: Tree, closures: set<VarId>, a: Attributes, d: ScopeId)
    requires WellFormed(t) && TypesOk(t, a) && d < |t.scopes| && ContextsUncaptured(t, closures)
    ensures ScopeDone(t, closures, ParseForest(t, closures, a, 0), d)
  {
    AllModulesDone(t, closures, a, 0);
    assert Root(t, d) < |t.scopes|;
  }

  /** Variables that are not marked are as before. */
  lemma {:induction false} ForestKeepsUnmarked(t: Tree, closures: set<VarId>, a: Attributes, s: ScopeId, v: VarId)
    requires WellFormed(t) && TypesOk(t, a) && s <= |t.scopes| && v !in closures && ContextsUncaptured(t, closures)
    ensures SameNumber(a, ParseForest(t, closures, a, s), v)
    decreases |t.scopes| - s
  {
    if s < |t.scopes| {
      if t.scopes[s].kind == Global {
        TreeDone(t, closures, a, s);
      }
      ForestKeepsUnmarked(t, closures, ParseModule(t, closures, a, s), s + 1, v);
    }
  }

  // ----- walking the chain of contexts -----

  predicate Chained(contexts: seq<Context>) {
    forall k :: 0 <= k < |contexts| && contexts[k].parent.Some? ==> contexts[k].parent.value < k
  }

  /** The context `n` parent links away. */
  function Walk(contexts: seq<Context>, k: nat, n: nat): (r: Option<nat>)
    requires Chained(contexts) && k < |contexts|
    ensures r.Some? ==> r.value <= k && (n > 0 ==> r.value < k)
    decreases n
  {
    if n == 0 then Some(k)
    else if contexts[k].parent.None? then None
    else Walk(contexts, contexts[k].parent.value, n - 1)
  }

  lemma {:induction false} WalkFurther(contexts: seq<Context>, k: nat, m: nat, n: nat)
    requires Chained(contexts) && k < |contexts| && Walk(contexts, k, m).Some?
    ensures Walk(contexts, k, m + n) == Walk(contexts, Walk(contexts, k, m).value, n)
    decreases m
  {
    if m > 0 {
      WalkFurther(contexts, contexts[k].parent.value, m - 1, n);
    }
  }

  /** Links from the context of `e` to that of `d`: two per function, one per block. */
  function Links(t: Tree, e: ScopeId, d: ScopeId): nat
    requires WellFormed(t) && e < |t.scopes|
    decreases e
  {
    if e == d then 0
    else (if t.scopes[e].kind == Function then 2 else 1)
         + (if Around(t, e).Some? then Links(t, Around(t, e).value, d) else 0)
  }

  lemma {:induction false} BelowFunction(t: Tree, d: ScopeId, s: ScopeId)
    requires LinksOk(t) && s < |t.scopes| && d < |t.scopes| && Under(t, d, s) && NearestFunction(t, d).Some?
    ensures NearestFunction(t, s).Some?
  {
    if s != d && t.scopes[s].kind != Function {
      BelowFunction(t, d, Parent(t, s).value);
    }
  }

  lemma {:induction false} SkipUpStops(t: Tree, d: ScopeId, s: ScopeId)
    requires LinksOk(t) && s < |t.scopes| && d < |t.scopes| && Under(t, d, s) && HasContext(t, d)
    ensures SkipUp(t, s).Some? && Under(t, d, SkipUp(t, s).value) && HasContext(t, SkipUp(t, s).value)
  {
    if t.scopes[s].kind == Class || t.scopes[s].kind == Namespace {
      SkipUpStops(t, d, Parent(t, s).value);
    } else if s != d {
      BelowFunction(t, d, Parent(t, s).value);
    }
  }

  /** The environments between a scope and one around it form a chain. */
  lemma AroundExists(t: Tree, d: ScopeId, e: ScopeId)
    requires LinksOk(t) && e < |t.scopes| && d < |t.scopes| && Under(t, d, e) && e != d && HasContext(t, d)
    ensures Around(t, e).Some? && Under(t, d, Around(t, e).value)
  {
    SkipUpStops(t, d, Parent(t, e).value);
  }

  lemma {:induction false} WalkReaches(t: Tree, closures: set<VarId>, a: Attributes, e: ScopeId, d: ScopeId)
    requires WellFormed(t) && TypesOk(t, a) && e < |t.scopes| && d < |t.scopes| && Under(t, d, e)
    requires HasContext(t, d) && HasContext(t, e)
    requires forall s :: 0 <= s < |t.scopes| ==> ScopeDone(t, closures, a, s)
    ensures Walk(a.contexts, ContextOf(t, a, e), Links(t, e, d)) == Some(ContextOf(t, a, d))
    decreases e
  {
    if e != d {
      AroundExists(t, d, e);
      var p := Around(t, e).value;
      var k, step := ContextOf(t, a, e), if t.scopes[e].kind == Function then 2 else 1;
      assert ScopeDone(t, closures, a, e);
      assert Walk(a.contexts, k, 1) == a.contexts[k].parent;
      assert Walk(a.contexts, k, step) == Some(ContextOf(t, a, p)) by {
        if step == 2 {
          WalkFurther(a.contexts, k, 1, 1);
        }
      }
      WalkReaches(t, closures, a, p, d);
      WalkFurther(a.contexts, k, step, Links(t, p, d));
    }
  }

  /** No earlier context on the walk is the one looked for. */
  lemma WalkReachesOnce(contexts: seq<Context>, k: nat, m: nat, n: nat)
    requires Chained(contexts) && k < |contexts| && n < m && Walk(contexts, k, m).Some?
    ensures Walk(contexts, k, n) != Walk(contexts, k, m)
  {
    if Walk(contexts, k, n).Some? {
      WalkFurther(contexts, k, n, m - n);
    }
  }

  // ----- the theorem -----

  lemma {:induction false} NamespaceNotInFunction(t: Tree, s: ScopeId)
    requires Shaped(t) && s < |t.scopes| && t.scopes[s].kind in {Namespace, Global}
    ensures NearestFunction(t, s).None?
  {
    if t.scopes[s].kind == Namespace {
      NamespaceNotInFunction(t, Parent(t, s).value);
    }
  }

  /** A scope inside a function that declares a variable has a context. */
  lemma DeclaringHasContext(t: Tree, d: ScopeId, v: VarId)
    requires WellFormed(t) && d < |t.scopes| && NearestFunction(t, d).Some? && v in Owned(t, d)
    ensures HasContext(t, d)
  {
    if t.scopes[d].kind == Namespace || t.scopes[d].kind == Global {
      NamespaceNotInFunction(t, d);
    }
  }

  /** The environments with a context: functions, and blocks somewhere inside one. */
  lemma HasContextIff(t: Tree, s: ScopeId)
    requires LinksOk(t) && s < |t.scopes|
    ensures HasContext(t, s) <==> t.scopes[s].kind == Function || (t.scopes[s].kind == Block && InFunction(t, s))
  {
    if t.scopes[s].kind == Block {
      InFunctionIff(t, s);
    }
  }

  /** Context variables never get captured: they are named `@context`, and no identifier is. */
  lemma ContextsStayUncaptured(t: Tree, uses: seq<Use>, marked: set<VarId>)
    requires WellFormed(t) && UsesOk(t, uses) && ContextsUncaptured(t, marked)
    requires forall s :: 0 <= s < |t.scopes| && HasContext(t, s) ==>
               ContextVar(t, s) < |t.names| && t.names[ContextVar(t, s)] == "@context"
    requires forall i :: 0 <= i < |uses| ==> uses[i].name != "@context"
    ensures ContextsUncaptured(t, MarkAll(t, uses, marked))
  {
    forall s | 0 <= s < |t.scopes| && HasContext(t, s) && ContextVar(t, s) in MarkAll(t, uses, marked) ensures false {
      var i := MarkedIsCaptured(t, uses, marked, ContextVar(t, s));
    }
  }

  /** The attributes when the whole program has been handled. */
  function Converted(t: Tree, uses: seq<Use>, marked: set<VarId>, a: Attributes): Attributes
    requires WellFormed(t) && TypesOk(t, a) && UsesOk(t, uses)
  {
    ParseForest(t, MarkAll(t, uses, marked), a, 0)
  }

  /** A captured variable has a slot of its own type in the context of the scope that declares it. */
  lemma CapturedHasSlot(t: Tree, uses: seq<Use>, marked: set<VarId>, a: Attributes, i: nat)
    requires WellFormed(t) && TypesOk(t, a) && UsesOk(t, uses) && i < |uses|
    requires ContextsUncaptured(t, MarkAll(t, uses, marked)) && Captured(t, uses[i].scope, uses[i].name).Some?
    ensures var c := Captured(t, uses[i].scope, uses[i].name).value;
            var b := Converted(t, uses, marked, a);
            && c.v in MarkAll(t, uses, marked) && c.scope < |t.scopes| && HasContext(t, c.scope) && c.v < |b.types|
            && TypesOk(t, b)
            && HasSlot(Slots(b.contexts[ContextOf(t, b, c.scope)].freeVarTypeList, b.belongCtx, b.closureIndex),
                       c.v, b.types[c.v], ContextVar(t, c.scope))
  {
    var c := Captured(t, uses[i].scope, uses[i].name).value;
    var closures := MarkAll(t, uses, marked);
    CapturedIsMarked(t, uses, marked, i);
    DeclaringHasContext(t, c.scope, c.v);
    OwnedInRange(t, c.scope);
    ForestDone(t, closures, a, c.scope);
    var j :| 0 <= j < |Owned(t, c.scope)| && Owned(t, c.scope)[j] == c.v;
    assert SlotsDone(t, closures, Converted(t, uses, marked, a), c.scope);
  }

  /**
   The slots of a scope: its marked parameters and then its marked variables, in order and without gaps.
   Variables that are not marked have no slot but one they had before.
   */
  lemma SlotsInOrder(t: Tree, uses: seq<Use>, marked: set<VarId>, a: Attributes, d: ScopeId)
    requires WellFormed(t) && TypesOk(t, a) && UsesOk(t, uses) && d < |t.scopes| && HasContext(t, d)
    requires ContextsUncaptured(t, MarkAll(t, uses, marked))
    ensures var b, closures := Converted(t, uses, marked, a), MarkAll(t, uses, marked);
            var params, vars := t.scopes[d].params, t.scopes[d].vars;
            && TypesOk(t, b)
            && |b.contexts[ContextOf(t, b, d)].freeVarTypeList| == Marked(params, closures) + Marked(vars, closures)
            && (forall i :: 0 <= i < |params| && params[i] in closures ==>
                  HasNumber(b.closureIndex, params[i], Marked(params[..i], closures)))
            && (forall i :: 0 <= i < |vars| && vars[i] in closures ==>
                  HasNumber(b.closureIndex, vars[i], Marked(params, closures) + Marked(vars[..i], closures)))
            && (forall v :: v !in closures ==> SameNumber(a, b, v))
  {
    var b, closures := Converted(t, uses, marked, a), MarkAll(t, uses, marked);
    ForestDone(t, closures, a, d);
    NumbersOfParts(t, closures, b, d);
    forall v | v !in closures ensures SameNumber(a, b, v) {
      ForestKeepsUnmarked(t, closures, a, 0, v);
    }
  }

  lemma NumbersOfParts(t: Tree, closures: set<VarId>, b: Attributes, d: ScopeId)
    requires WellFormed(t) && TypesOk(t, b) && d < |t.scopes| && HasContext(t, d) && NumbersDone(t, closures, b, d)
    ensures var params, vars := t.scopes[d].params, t.scopes[d].vars;
            && |b.contexts[ContextOf(t, b, d)].freeVarTypeList| == Marked(params, closures) + Marked(vars, closures)
            && (forall i :: 0 <= i < |params| && params[i] in closures ==>
                  HasNumber(b.closureIndex, params[i], Marked(params[..i], closures)))
            && (forall i :: 0 <= i < |vars| && vars[i] in closures ==>
                  HasNumber(b.closureIndex, vars[i], Marked(params, closures) + Marked(vars[..i], closures)))
  {
    var params, vars, all := t.scopes[d].params, t.scopes[d].vars, Owned(t, d);
    MarkedAppend(params, vars, closures);
    forall i | 0 <= i < |params| && params[i] in closures
      ensures HasNumber(b.closureIndex, params[i], Marked(params[..i], closures))
    {
      assert all[i] == params[i] && all[..i] == params[..i];
    }
    forall i | 0 <= i < |vars| && vars[i] in closures
      ensures HasNumber(b.closureIndex, vars[i], Marked(params, closures) + Marked(vars[..i], closures))
    {
      var k := |params| + i;
      assert all[k] == vars[i] && all[..k] == params + vars[..i];
      MarkedAppend(params, vars[..i], closures);
    }
  }

  lemma {:induction false} MarkedAppend(us: seq<VarId>, vs: seq<VarId>, closures: set<VarId>)
    ensures Marked(us + vs, closures) == Marked(us, closures) + Marked(vs, closures)
  {
    if us == [] {
      assert us + vs == vs;
    } else {
      assert (us + vs)[1..] == us[1..] + vs;
      MarkedAppend(us[1..], vs, closures);
    }
  }

  /** Two captured variables of one scope have different slots. */
  lemma SlotsDiffer(t: Tree, uses: seq<Use>, marked: set<VarId>, a: Attributes, d: ScopeId, v: VarId, w: VarId)
    requires WellFormed(t) && TypesOk(t, a) && UsesOk(t, uses) && d < |t.scopes| && HasContext(t, d)
    requires ContextsUncaptured(t, MarkAll(t, uses, marked)) && v != w
    requires v in Owned(t, d) && w in Owned(t, d) && v in MarkAll(t, uses, marked) && w in MarkAll(t, uses, marked)
    ensures var b := Converted(t, uses, marked, a);
            v in b.closureIndex && w in b.closureIndex && b.closureIndex[v] != b.closureIndex[w]
  {
    var b, closures, all := Converted(t, uses, marked, a), MarkAll(t, uses, marked), Owned(t, d);
    ForestDone(t, closures, a, d);
    assert NumbersDone(t, closures, b, d);
    var i :| 0 <= i < |all| && all[i] == v;
    var j :| 0 <= j < |all| && all[j] == w;
    assert HasNumber(b.closureIndex, v, Marked(all[..i], closures)) && HasNumber(b.closureIndex, w, Marked(all[..j], closures));
    if i < j {
      MarkedGrows(all, closures, i, j);
    } else {
      MarkedGrows(all, closures, j, i);
    }
  }

  lemma MarkedGrows(vs: seq<VarId>, closures: set<VarId>, i: nat, j: nat)
    requires i < j <= |vs| && vs[i] in closures
    ensures Marked(vs[..i], closures) < Marked(vs[..j], closures)
  {
    assert vs[..j] == vs[..i] + vs[i..j] && vs[i..j][0] == vs[i];
    MarkedAppend(vs[..i], vs[i..j], closures);
  }

  /**
   From every environment between a use and the declaration it captures, and in
   particular from the function of the use, following parent links leads to the
   context of the declaring scope after exactly `Links` steps and not before.
   */
  lemma ClosureConversionSound(t: Tree, uses: seq<Use>, marked: set<VarId>, a: Attributes, i: nat, e: ScopeId)
    requires WellFormed(t) && TypesOk(t, a) && UsesOk(t, uses) && i < |uses|
    requires ContextsUncaptured(t, MarkAll(t, uses, marked)) && Captured(t, uses[i].scope, uses[i].name).Some?
    requires var c := Captured(t, uses[i].scope, uses[i].name).value;
             e == NearestFunction(t, uses[i].scope).value
             || (e < |t.scopes| && HasContext(t, e) && Under(t, e, uses[i].scope) && Under(t, c.scope, e))
    ensures var c := Captured(t, uses[i].scope, uses[i].name).value;
            var b := Converted(t, uses, marked, a);
            && HasContext(t, c.scope) && HasContext(t, e) && Chained(b.contexts)
            && Walk(b.contexts, ContextOf(t, b, e), Links(t, e, c.scope)) == Some(ContextOf(t, b, c.scope))
            && forall n :: 0 <= n < Links(t, e, c.scope) ==>
                 Walk(b.contexts, ContextOf(t, b, e), n) != Some(ContextOf(t, b, c.scope))
  {
    var u := uses[i].scope;
    var c := Captured(t, u, uses[i].name).value;
    var closures := MarkAll(t, uses, marked);
    var b := Converted(t, uses, marked, a);
    DeclaringHasContext(t, c.scope, c.v);
    NearestFunctionAbove(t, u);
    var f := NearestFunction(t, u).value;
    AboveFunction(t, u, f, c.scope);
    AncestorsComparable(t, c.scope, f, u);
    forall s | 0 <= s < |t.scopes| ensures ScopeDone(t, closures, b, s) {
      ForestDone(t, closures, a, s);
    }
    WalkReaches(t, closures, b, e, c.scope);
    forall n | 0 <= n < Links(t, e, c.scope)
      ensures Walk(b.contexts, ContextOf(t, b, e), n) != Some(ContextOf(t, b, c.scope))
    {
      WalkReachesOnce(b.contexts, ContextOf(t, b, e), Links(t, e, c.scope), n);
    }
  }

  // ----- the resolver -----

  class CustomTypeResolver {
    var types: seq<VarType>
    var contexts: seq<Context>
    var belongCtx: map<VarId, VarId>
    var closureIndex: map<VarId, nat>
    var realParamCtxType: map<ScopeId, nat>

    constructor (a: Attributes)
      ensures Now() == a
    {
      types, contexts, belongCtx, closureIndex, realParamCtxType :=
        a.types, a.contexts, a.belongCtx, a.closureIndex, a.paramCtx;
    }

    function Now(): Attributes
      reads this
    {
      Attributes(types, contexts, belongCtx, closureIndex, realParamCtxType)
    }

    method NewContext(c: Context) returns (k: nat)
      modifies this`contexts
      ensures k == |old(contexts)| && contexts == old(contexts) + [c]
    {
      k := |contexts|;
      contexts := contexts + [c];
    }

    /** Gives the marked variables of one list their slots, appending to the list of their types. */
    method CollectSlots(vs: seq<VarId>, closures: set<VarId>, ctx: VarId, list: seq<VarType>) returns (r: seq<VarType>)
      requires forall i :: 0 <= i < |vs| ==> vs[i] < |types|
      modifies this`belongCtx, this`closureIndex
      ensures Slots(r, belongCtx, closureIndex)
              == Collect(vs, closures, types, ctx, Slots(list, old(belongCtx), old(closureIndex)))
    {
      r := list;
      var i := 0;
      while i < |vs|
        invariant 0 <= i <= |vs|
        invariant Collect(vs, closures, types, ctx, Slots(list, old(belongCtx), old(closureIndex)))
                  == Collect(vs[i..], closures, types, ctx, Slots(r, belongCtx, closureIndex))
      {
        assert vs[i..][0] == vs[i] && vs[i..][1..] == vs[i + 1..];
        if vs[i] in closures {
          belongCtx := belongCtx[vs[i] := ctx];
          closureIndex := closureIndex[vs[i] := |r|];
          r := r + [types[vs[i]]];
        }
        i := i + 1;
      }
      assert vs[i..] == [];
    }

    method ParseVarContextType(t: Tree, closures: set<VarId>, s: ScopeId, parent: nat)
      requires WellFormed(t) && s < |t.scopes| && HasContext(t, s) && |types| == |t.names|
      modifies this
      ensures ContextVar(t, s) < |old(types)| && forall i :: 0 <= i < |Owned(t, s)| ==> Owned(t, s)[i] < |old(types)|
      ensures var r := Collect(Owned(t, s), closures, old(types), ContextVar(t, s),
                               Slots([], old(belongCtx), old(closureIndex)));
              Now() == Attributes(old(types)[ContextVar(t, s) := ContextType(|old(contexts)|)],
                                  old(contexts) + [Context(Some(parent), r.list)],
                                  r.belongCtx, r.closureIndex, old(realParamCtxType))
    {
      OwnedInRange(t, s);
      var list := OwnSlots(t, closures, s);
      var k := NewContext(Context(Some(parent), list));
      types := types[ContextVar(t, s) := ContextType(k)];
    }

    /** The slots of a scope's own captured parameters and variables. */
    method OwnSlots(t: Tree, closures: set<VarId>, s: ScopeId) returns (list: seq<VarType>)
      requires WellFormed(t) && s < |t.scopes| && HasContext(t, s) && |types| == |t.names|
      modifies this
      ensures forall i :: 0 <= i < |Owned(t, s)| ==> Owned(t, s)[i] < |types|
      ensures var r := Collect(Owned(t, s), closures, old(types), ContextVar(t, s),
                               Slots([], old(belongCtx), old(closureIndex)));
              list == r.list && Now() == old(Now()).(belongCtx := r.belongCtx, closureIndex := r.closureIndex)
    {
      var ctx, params, vars := ContextVar(t, s), t.scopes[s].params, t.scopes[s].vars;
      PartsInRange(t, s);
      CollectAppend(params, vars, closures, types, ctx, Slots([], belongCtx, closureIndex));
      list := CollectSlots(params, closures, ctx, []);
      list := CollectSlots(vars, closures, ctx, list);
    }

    method ParseOne(t: Tree, closures: set<VarId>, s: ScopeId)
      requires WellFormed(t) && TypesOk(t, Now()) && s < |t.scopes|
      modifies this
      ensures Now() == ParseScope(t, closures, old(Now()), s)
    {
      if HasContext(t, s) {
        var e := Around(t, s);
        var parent: Option<nat> := None;
        if e.Some? {
          parent := Some(types[ContextVar(t, e.value)].c);
        }
        if t.scopes[s].kind == Function {
          var p := NewContext(Context(parent, []));
          realParamCtxType := realParamCtxType[s := p];
          ParseVarContextType(t, closures, s, p);
        } else if parent.Some? {
          ParseVarContextType(t, closures, s, parent.value);
        } else {
          var p := NewContext(Context(None, []));
          ParseVarContextType(t, closures, s, p);
        }
      }
    }

    method ParseContext(t: Tree, closures: set<VarId>, s: ScopeId)
      requires WellFormed(t) && TypesOk(t, Now()) && s < |t.scopes|
      modifies this
      ensures TypesOk(t, Now()) && Now() == ParseTree(t, closures, old(Now()), s)
      decreases |t.scopes| - s
    {
      ParseScopeTypes(t, closures, Now(), s);
      ParseOne(t, closures, s);
      var children := t.scopes[s].children;
      var i := 0;
      while i < |children|
        invariant 0 <= i <= |children| && TypesOk(t, Now())
        invariant ParseTree(t, closures, old(Now()), s) == ParseChildren(t, closures, Now(), s, i)
      {
        ParseContext(t, closures, children[i]);
        i := i + 1;
      }
    }

    /** The context pass over all modules. */
    method Visit(t: Tree, closures: set<VarId>)
      requires WellFormed(t) && TypesOk(t, Now())
      modifies this
      ensures TypesOk(t, Now()) && Now() == ParseForest(t, closures, old(Now()), 0)
    {
      var s := 0;
      while s < |t.scopes|
        invariant 0 <= s <= |t.scopes| && TypesOk(t, Now())
        invariant ParseForest(t, closures, old(Now()), 0) == ParseForest(t, closures, Now(), s)
      {
        if t.scopes[s].kind == Global {
          ParseContext(t, closures, s);
        }
        s := s + 1;
      }
    }
  }

  lemma PartsInRange(t: Tree, s: ScopeId)
    requires WellFormed(t) && s < |t.scopes|
    ensures Owned(t, s) == t.scopes[s].params + t.scopes[s].vars
    ensures forall i :: 0 <= i < |Owned(t, s)| ==> Owned(t, s)[i] < |t.names|
    ensures forall i :: 0 <= i < |t.scopes[s].params| ==> t.scopes[s].params[i] < |t.names|
    ensures forall i :: 0 <= i < |t.scopes[s].vars| ==> t.scopes[s].vars[i] < |t.names|
  {
    OwnedInRange(t, s);
    var params, vars := t.scopes[s].params, t.scopes[s].vars;
    assert forall i :: 0 <= i < |params| ==> params[i] == Owned(t, s)[i];
    assert forall i :: 0 <= i < |vars| ==> vars[i] == Owned(t, s)[|params| + i];
  }

  lemma {:induction false} CollectAppend(us: seq<VarId>, vs: seq<VarId>, closures: set<VarId>, types: seq<VarType>, ctx: VarId, a: Slots)
    requires forall i :: 0 <= i < |us| ==> us[i] < |types|
    requires forall i :: 0 <= i < |vs| ==> vs[i] < |types|
    ensures Collect(us + vs, closures, types, ctx, a) == Collect(vs, closures, types, ctx, Collect(us, closures, types, ctx, a))
  {
    if us == [] {
      assert us + vs == vs;
    } else {
      assert (us + vs)[1..] == us[1..] + vs;
      CollectAppend(us[1..], vs, closures, types, ctx, if us[0] in closures then AddSlot(a, us[0], types[us[0]], ctx) else a);
    }
  }
}
