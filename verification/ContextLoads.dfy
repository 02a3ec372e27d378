/**
 The loads that reach a captured variable. At run time only contexts with captured
 variables have a struct of their own, {parent struct, variables...}; the others
 stand for the struct around them, and the walk makes no load for them.
 */
module ContextLoads {
  import opened Prelude
  import opened ScopeTree
  import opened CaptureMarking
  import opened ClosureConversion
  import opened ClosureSoundness

  /** The struct a context variable holds, named by the context it was made for; none where no context has variables. */
  function StructOf(contexts: seq<Context>, k: nat): (s: Option<nat>)
    requires Chained(contexts) && k < |contexts|
    ensures s.Some? ==> s.value <= k && contexts[s.value].freeVarTypeList != []
    decreases k
  {
    if contexts[k].freeVarTypeList != [] then Some(k)
    else if contexts[k].parent.Some? then StructOf(contexts, contexts[k].parent.value)
    else None
  }

  datatype Field = Enclosing(struct: Option<nat>) | Variable(vt: VarType)

  /** The fields of the struct made for context `s`. */
  function FieldOf(contexts: seq<Context>, s: nat, i: nat): Field
    requires Chained(contexts) && s < |contexts| && i <= |contexts[s].freeVarTypeList|
  {
    if i > 0 then Variable(contexts[s].freeVarTypeList[i - 1])
    else if contexts[s].parent.Some? then Enclosing(StructOf(contexts, contexts[s].parent.value))
    else Enclosing(None)
  }

  /** One parent link: a load of field 0, unless the context has no variables. */
  function LoadStep(contexts: seq<Context>, k: nat, ref: Option<nat>): Option<nat>
    requires Chained(contexts) && k < |contexts|
  {
    if contexts[k].freeVarTypeList == [] || ref.None? || ref.value >= |contexts| then ref
    else FieldOf(contexts, ref.value, 0).struct
  }

  lemma StepKeepsStruct(contexts: seq<Context>, k: nat)
    requires Chained(contexts) && k < |contexts| && contexts[k].parent.Some?
    ensures LoadStep(contexts, k, StructOf(contexts, k)) == StructOf(contexts, contexts[k].parent.value)
  {
  }

  /** What the reference is after `n` parent links. */
  function LoadAll(contexts: seq<Context>, k: nat, ref: Option<nat>, n: nat): Option<nat>
    requires Chained(contexts) && k < |contexts|
    decreases n
  {
    if n == 0 || contexts[k].parent.None? then ref
    else LoadAll(contexts, contexts[k].parent.value, LoadStep(contexts, k, ref), n - 1)
  }

  /** The loads follow the links: they lead to the struct of the context the links lead to. */
  lemma {:induction false} LoadsFollowLinks(contexts: seq<Context>, k: nat, n: nat)
    requires Chained(contexts) && k < |contexts| && Walk(contexts, k, n).Some?
    ensures LoadAll(contexts, k, StructOf(contexts, k), n) == StructOf(contexts, Walk(contexts, k, n).value)
    decreases n
  {
    if n > 0 {
      StepKeepsStruct(contexts, k);
      LoadsFollowLinks(contexts, contexts[k].parent.value, n - 1);
    }
  }

  /** The loop that emits the loads, with the reference they yield at run time. */
  method EmitLoads(contexts: seq<Context>, from: nat, to: nat, ghost n: nat) returns (ref: Option<nat>)
    requires Chained(contexts) && from < |contexts| && Walk(contexts, from, n) == Some(to)
    ensures ref == StructOf(contexts, to)
  {
    ref := StructOf(contexts, from);
    var curr: nat := from;
    ghost var left: nat := n;
    while curr != to
      invariant curr < |contexts| && Walk(contexts, curr, left) == Some(to)
      invariant ref == StructOf(contexts, curr)
      decreases curr
    {
      if |contexts[curr].freeVarTypeList| != 0 {
        ref := FieldOf(contexts, ref.value, 0).struct;
      }
      curr := contexts[curr].parent.value;
      left := left - 1;
    }
  }

  /** No other marked variable of the scope has the slot of `v`. */
  ghost predicate FieldIsItsOwn(t: Tree, closures: set<VarId>, a: Attributes, d: ScopeId, v: VarId)
    requires d < |t.scopes|
  {
    v in a.closureIndex &&
    forall w :: w in Owned(t, d) && w in closures && w != v ==> w in a.closureIndex && a.closureIndex[w] != a.closureIndex[v]
  }

  /**
   From every environment between a use and the declaration it captures, the loads made on the
   way end at the struct of the declaring scope, whose field behind `closureIndex` is the variable, and
   that of no other captured variable of the scope.
   */
  lemma LoadsReachVariable(t: Tree, uses: seq<Use>, marked: set<VarId>, a: Attributes, i: nat, e: ScopeId)
    requires WellFormed(t) && TypesOk(t, a) && UsesOk(t, uses) && i < |uses|
    requires ContextsUncaptured(t, MarkAll(t, uses, marked)) && Captured(t, uses[i].scope, uses[i].name).Some?
    requires var c := Captured(t, uses[i].scope, uses[i].name).value;
             e == NearestFunction(t, uses[i].scope).value
             || (e < |t.scopes| && HasContext(t, e) && Under(t, e, uses[i].scope) && Under(t, c.scope, e))
    ensures var c := Captured(t, uses[i].scope, uses[i].name).value;
            var b := Converted(t, uses, marked, a);
            && HasContext(t, c.scope) && HasContext(t, e) && Chained(b.contexts)
            && var from, to := ContextOf(t, b, e), ContextOf(t, b, c.scope);
               && LoadAll(b.contexts, from, StructOf(b.contexts, from), Links(t, e, c.scope)) == Some(to)
               && c.v in b.closureIndex && b.closureIndex[c.v] + 1 <= |b.contexts[to].freeVarTypeList|
               && FieldOf(b.contexts, to, b.closureIndex[c.v] + 1) == Variable(b.types[c.v])
               && FieldIsItsOwn(t, MarkAll(t, uses, marked), b, c.scope, c.v)
  {
    var c := Captured(t, uses[i].scope, uses[i].name).value;
    var b := Converted(t, uses, marked, a);
    ClosureConversionSound(t, uses, marked, a, i, e);
    CapturedHasSlot(t, uses, marked, a, i);
    LoadsFollowLinks(b.contexts, ContextOf(t, b, e), Links(t, e, c.scope));
    forall w | w in Owned(t, c.scope) && w in MarkAll(t, uses, marked) && w != c.v
      ensures w in b.closureIndex && b.closureIndex[w] != b.closureIndex[c.v]
    {
      SlotsDiffer(t, uses, marked, a, c.scope, c.v, w);
    }
  }
}
