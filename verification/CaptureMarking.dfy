/** Identifier resolution marks the variables that closures capture. */
module CaptureMarking {
  import opened Prelude
  import opened ScopeTree

  /** The declaration a use captures: it lies outside the nearest function of the use, but inside some function. */
  function Captured(t: Tree, s: ScopeId, x: string): Option<Found>
    requires LinksOk(t) && s < |t.scopes|
  {
    var f, d := NearestFunction(t, s), Lookup(t, s, x);
    if f.Some? && d.Some? && d.value.scope != f.value && !Under(t, f.value, d.value.scope)
       && NearestFunction(t, d.value.scope).Some?
    then d else None
  }

  lemma {:induction false} NearestFunctionAbove(t: Tree, s: ScopeId)
    requires LinksOk(t) && s < |t.scopes| && NearestFunction(t, s).Some?
    ensures Under(t, NearestFunction(t, s).value, s)
  {
    if t.scopes[s].kind != Function {
      NearestFunctionAbove(t, Parent(t, s).value);
    }
  }

  /** Walking up, the function of the use has been passed exactly when the walk is strictly above it. */
  lemma AboveFunction(t: Tree, s: ScopeId, f: ScopeId, d: ScopeId)
    requires LinksOk(t) && s < |t.scopes| && NearestFunction(t, s) == Some(f) && d < |t.scopes| && Under(t, d, s)
    ensures d < f <==> !Under(t, f, d)
  {
    NearestFunctionAbove(t, s);
    if d < f {
      if Under(t, f, d) {
        UnderIsLater(t, f, d);
      }
    } else {
      AncestorsComparable(t, f, d, s);
    }
  }

  datatype Use = Use(scope: ScopeId, name: string)

  /** The marks after resolving one use. */
  function MarkUse(t: Tree, u: Use, closures: set<VarId>): set<VarId>
    requires LinksOk(t) && u.scope < |t.scopes|
  {
    var c := Captured(t, u.scope, u.name);
    if c.Some? then closures + {c.value.v} else closures
  }

  function MarkScope(t: Tree, u: Use, free: set<ScopeId>): set<ScopeId>
    requires LinksOk(t) && u.scope < |t.scopes|
  {
    var c := Captured(t, u.scope, u.name);
    if c.Some? then free + {c.value.scope} else free
  }

  class ExpressionProcessor {
    /** Variables marked by `setVarIsClosure`, and scopes whose `hasFreeVar` is set. */
    var closures: set<VarId>
    var hasFreeVar: set<ScopeId>

    constructor (closures: set<VarId>)
      ensures this.closures == closures && hasFreeVar == {}
    {
      this.closures, hasFreeVar := closures, {};
    }

    method VisitIdentifier(t: Tree, u: Use)
      requires LinksOk(t) && u.scope < |t.scopes|
      modifies this
      ensures closures == MarkUse(t, u, old(closures)) && hasFreeVar == MarkScope(t, u, old(hasFreeVar))
    {
      var varReferenceScope := NearestFunction(t, u.scope);
      if varReferenceScope.Some? {
        var scope, variable, maybeClosureVar := WalkUp(t, u, varReferenceScope.value);
        if scope.Some? {
          AboveFunction(t, u.scope, varReferenceScope.value, scope.value);
        }
        if maybeClosureVar && scope.Some? && NearestFunction(t, scope.value).Some? {
          closures := closures + {variable.value};
          hasFreeVar := hasFreeVar + {scope.value};
        }
      }
    }

    /** Resolves every identifier of the program. */
    method VisitAll(t: Tree, uses: seq<Use>)
      requires LinksOk(t) && UsesOk(t, uses)
      modifies this
      ensures closures == MarkAll(t, uses, old(closures)) && hasFreeVar == MarkAllScopes(t, uses, old(hasFreeVar))
    {
      var i := 0;
      while i < |uses|
        invariant 0 <= i <= |uses|
        invariant MarkAll(t, uses, old(closures)) == MarkAll(t, uses[i..], closures)
        invariant MarkAllScopes(t, uses, old(hasFreeVar)) == MarkAllScopes(t, uses[i..], hasFreeVar)
      {
        assert uses[i..][0] == uses[i] && uses[i..][1..] == uses[i + 1..];
        VisitIdentifier(t, uses[i]);
        i := i + 1;
      }
      assert uses[i..] == [];
    }
  }

  /** The innermost scope around a use that declares the name, and whether the use's function was left on the way. */
  method WalkUp(t: Tree, u: Use, f: ScopeId) returns (scope: Option<ScopeId>, variable: Option<VarId>, maybeClosureVar: bool)
    requires LinksOk(t) && u.scope < |t.scopes| && NearestFunction(t, u.scope) == Some(f)
    ensures Lookup(t, u.scope, u.name) ==
            if scope.Some? && variable.Some? then Some(Found(scope.value, variable.value)) else None
    ensures scope.Some? <==> variable.Some?
    ensures scope.Some? ==> (maybeClosureVar <==> scope.value < f)
  {
    scope, variable, maybeClosureVar := Some(u.scope), None, false;
    NearestFunctionAbove(t, u.scope);
    while scope.Some?
      invariant scope.Some? ==> scope.value < |t.scopes| && Under(t, scope.value, u.scope)
      invariant scope.Some? ==> Lookup(t, u.scope, u.name) == Lookup(t, scope.value, u.name)
      invariant scope.None? ==> Lookup(t, u.scope, u.name) == None
      invariant variable == None
      invariant scope.Some? ==> (maybeClosureVar <==> scope.value < f)
      decreases if scope.Some? then scope.value + 1 else 0
    {
      variable := FindLocal(t, scope.value, u.name);
      if variable.Some? {
        return;
      }
      if f == scope.value {
        maybeClosureVar := true;
      }
      ParentAgainst(t, f, scope.value, u.scope);
      scope := Parent(t, scope.value);
    }
  }

  predicate UsesOk(t: Tree, uses: seq<Use>) {
    forall i :: 0 <= i < |uses| ==> uses[i].scope < |t.scopes|
  }

  function MarkAll(t: Tree, uses: seq<Use>, closures: set<VarId>): set<VarId>
    requires LinksOk(t) && UsesOk(t, uses)
  {
    if uses == [] then closures else MarkAll(t, uses[1..], MarkUse(t, uses[0], closures))
  }

  function MarkAllScopes(t: Tree, uses: seq<Use>, free: set<ScopeId>): set<ScopeId>
    requires LinksOk(t) && UsesOk(t, uses)
  {
    if uses == [] then free else MarkAllScopes(t, uses[1..], MarkScope(t, uses[0], free))
  }

  lemma {:induction false} MarksGrow(t: Tree, uses: seq<Use>, closures: set<VarId>)
    requires LinksOk(t) && UsesOk(t, uses)
    ensures closures <= MarkAll(t, uses, closures)
  {
    if uses != [] {
      MarksGrow(t, uses[1..], MarkUse(t, uses[0], closures));
    }
  }

  /** Every captured variable ends up marked. */
  lemma {:induction false} CapturedIsMarked(t: Tree, uses: seq<Use>, closures: set<VarId>, i: nat)
    requires LinksOk(t) && UsesOk(t, uses) && i < |uses|
    requires Captured(t, uses[i].scope, uses[i].name).Some?
    ensures Captured(t, uses[i].scope, uses[i].name).value.v in MarkAll(t, uses, closures)
  {
    var next := MarkUse(t, uses[0], closures);
    if i == 0 {
      MarksGrow(t, uses[1..], next);
    } else {
      CapturedIsMarked(t, uses[1..], next, i - 1);
    }
  }

  /** Nothing else gets marked. */
  lemma {:induction false} MarkedIsCaptured(t: Tree, uses: seq<Use>, closures: set<VarId>, v: VarId) returns (i: nat)
    requires LinksOk(t) && UsesOk(t, uses) && v in MarkAll(t, uses, closures) && v !in closures
    ensures i < |uses| && Captured(t, uses[i].scope, uses[i].name).Some?
    ensures Captured(t, uses[i].scope, uses[i].name).value.v == v
  {
    var next := MarkUse(t, uses[0], closures);
    if v in next {
      i := 0;
    } else {
      var k := MarkedIsCaptured(t, uses[1..], next, v);
      i := k + 1;
    }
  }

  // ----- what gets marked, in terms of the scope tree -----

  /**
   A use in `s` captures `v` of scope `d`: `d` is the innermost scope around the use that owns the name, a function
   lies between the two, and `d` is itself inside a function.
   */
  ghost predicate Captures(t: Tree, s: ScopeId, x: string, d: ScopeId, v: VarId)
    requires LinksOk(t) && s < |t.scopes|
  {
    && d < |t.scopes| && Under(t, d, s) && Denotes(t, d, x, v) && NoneBetween(t, d, s, x)
    && (exists f :: 0 <= f < |t.scopes| && f != d && t.scopes[f].kind == Function && Under(t, d, f) && Under(t, f, s))
    && InFunction(t, d)
  }

  ghost predicate InFunction(t: Tree, s: ScopeId)
    requires LinksOk(t) && s < |t.scopes|
  {
    exists f :: 0 <= f < |t.scopes| && t.scopes[f].kind == Function && Under(t, f, s)
  }

  /** No function around a scope is nearer than the nearest. */
  lemma {:induction false} NearestIsNearest(t: Tree, s: ScopeId, f: ScopeId)
    requires LinksOk(t) && s < |t.scopes| && f < |t.scopes| && t.scopes[f].kind == Function && Under(t, f, s)
    ensures NearestFunction(t, s).Some? && Under(t, f, NearestFunction(t, s).value)
  {
    if t.scopes[s].kind != Function {
      NearestIsNearest(t, Parent(t, s).value, f);
    }
  }

  lemma InFunctionIff(t: Tree, s: ScopeId)
    requires LinksOk(t) && s < |t.scopes|
    ensures InFunction(t, s) <==> NearestFunction(t, s).Some?
  {
    if NearestFunction(t, s).Some? {
      NearestFunctionAbove(t, s);
    } else if InFunction(t, s) {
      var f :| 0 <= f < |t.scopes| && t.scopes[f].kind == Function && Under(t, f, s);
      NearestIsNearest(t, s, f);
    }
  }

  lemma CapturedIff(t: Tree, s: ScopeId, x: string, d: ScopeId, v: VarId)
    requires LinksOk(t) && VarsOk(t) && s < |t.scopes|
    ensures Captured(t, s, x) == Some(Found(d, v)) <==> Captures(t, s, x, d, v)
  {
    LookupIff(t, s, x, d, v);
    if d < |t.scopes| && Under(t, d, s) {
      InFunctionIff(t, d);
      FunctionBetweenIff(t, s, d);
    }
  }

  /** A function lies between a scope and one around it exactly when the nearest function does. */
  lemma FunctionBetweenIff(t: Tree, s: ScopeId, d: ScopeId)
    requires LinksOk(t) && s < |t.scopes| && d < |t.scopes| && Under(t, d, s)
    ensures (exists f :: 0 <= f < |t.scopes| && f != d && t.scopes[f].kind == Function && Under(t, d, f) && Under(t, f, s))
            <==> NearestFunction(t, s).Some? && d != NearestFunction(t, s).value && !Under(t, NearestFunction(t, s).value, d)
  {
    var n := NearestFunction(t, s);
    if f :| 0 <= f < |t.scopes| && f != d && t.scopes[f].kind == Function && Under(t, d, f) && Under(t, f, s) {
      NearestIsNearest(t, s, f);
      if Under(t, n.value, d) {
        UnderTransitive(t, f, n.value, d);
        UnderAntisymmetric(t, d, f);
      }
    }
    if n.Some? && !Under(t, n.value, d) {
      NearestFunctionAbove(t, s);
      AboveFunction(t, s, n.value, d);
      AncestorsComparable(t, d, n.value, s);
    }
  }

  /** The marks after all uses: those before, and the variables some use captures. */
  lemma MarkedIff(t: Tree, uses: seq<Use>, closures: set<VarId>, v: VarId)
    requires LinksOk(t) && VarsOk(t) && UsesOk(t, uses)
    ensures v in MarkAll(t, uses, closures) <==>
            v in closures || exists i, d :: 0 <= i < |uses| && Captures(t, uses[i].scope, uses[i].name, d, v)
  {
    MarksGrow(t, uses, closures);
    if i, d :| 0 <= i < |uses| && Captures(t, uses[i].scope, uses[i].name, d, v) {
      CapturedIff(t, uses[i].scope, uses[i].name, d, v);
      CapturedIsMarked(t, uses, closures, i);
    }
    if v in MarkAll(t, uses, closures) && v !in closures {
      var i := MarkedIsCaptured(t, uses, closures, v);
      CapturedIff(t, uses[i].scope, uses[i].name, Captured(t, uses[i].scope, uses[i].name).value.scope, v);
    }
  }

  /** The scopes marked along with them are those that own a captured variable. */
  lemma {:induction false} ScopeMarkedIff(t: Tree, uses: seq<Use>, free: set<ScopeId>, d: ScopeId)
    requires LinksOk(t) && VarsOk(t) && UsesOk(t, uses)
    ensures d in MarkAllScopes(t, uses, free) <==>
            d in free || exists i, v :: 0 <= i < |uses| && Captures(t, uses[i].scope, uses[i].name, d, v)
    decreases |uses|
  {
    if uses != [] {
      var u, rest := uses[0], uses[1..];
      var next := MarkScope(t, u, free);
      ScopeMarkedIff(t, rest, next, d);
      ScopeOfUse(t, u, free, d);
      assert forall i :: 0 <= i < |rest| ==> rest[i] == uses[i + 1];
      if i, v :| 0 <= i < |uses| && Captures(t, uses[i].scope, uses[i].name, d, v) {
        assert i > 0 ==> Captures(t, rest[i - 1].scope, rest[i - 1].name, d, v);
      }
    }
  }

  lemma ScopeOfUse(t: Tree, u: Use, free: set<ScopeId>, d: ScopeId)
    requires LinksOk(t) && VarsOk(t) && u.scope < |t.scopes|
    ensures d in MarkScope(t, u, free) <==> d in free || exists v :: Captures(t, u.scope, u.name, d, v)
  {
    var c := Captured(t, u.scope, u.name);
    if c.Some? {
      CapturedIff(t, u.scope, u.name, c.value.scope, c.value.v);
    }
    if v :| Captures(t, u.scope, u.name, d, v) {
      CapturedIff(t, u.scope, u.name, d, v);
    }
  }

  /** One step up: still around the use, and strictly above its function only if it was at or above it. */
  lemma ParentAgainst(t: Tree, f: ScopeId, s: ScopeId, u: ScopeId)
    requires LinksOk(t) && s < |t.scopes| && u < |t.scopes| && Under(t, f, u) && Under(t, s, u)
    ensures Parent(t, s).Some? ==> Under(t, Parent(t, s).value, u)
    ensures f < s ==> Parent(t, s).Some? && f <= Parent(t, s).value
  {
    if Parent(t, s).Some? {
      UnderTransitive(t, Parent(t, s).value, s, u);
    }
    if f < s {
      AncestorsComparable(t, f, s, u);
      UnderIsLater(t, f, Parent(t, s).value);
    }
  }
}
