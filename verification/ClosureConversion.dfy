/**
 The context pass: every scope that has a `@context` variable gets a context type
 that lists its captured variables and links to the context around it.
 */
module ClosureConversion {
  import opened Prelude
  import opened ScopeTree

  /** A type: an ordinary one, or the context type with the given number. */
  datatype VarType = Plain(id: nat) | ContextType(c: nat)

  /** A context type: its parent context and the types of its captured variables. */
  datatype Context = Context(parent: Option<nat>, freeVarTypeList: seq<VarType>)

  /** The variable attributes the pass writes, and the context types made so far. */
  datatype Attributes = Attributes(types: seq<VarType>, contexts: seq<Context>, belongCtx: map<VarId, VarId>,
                                   closureIndex: map<VarId, nat>, paramCtx: map<ScopeId, nat>)

  // ----- slots -----

  datatype Slots = Slots(list: seq<VarType>, belongCtx: map<VarId, VarId>, closureIndex: map<VarId, nat>)

  function AddSlot(a: Slots, v: VarId, vt: VarType, ctx: VarId): Slots {
    Slots(a.list + [vt], a.belongCtx[v := ctx], a.closureIndex[v := |a.list|])
  }

  /** Gives each marked variable of `vs` the next slot. */
  function Collect(vs: seq<VarId>, closures: set<VarId>, types: seq<VarType>, ctx: VarId, a: Slots): Slots
    requires forall i :: 0 <= i < |vs| ==> vs[i] < |types|
  {
    if vs == [] then a
    else Collect(vs[1..], closures, types, ctx, if vs[0] in closures then AddSlot(a, vs[0], types[vs[0]], ctx) else a)
  }

  predicate HasSlot(a: Slots, v: VarId, vt: VarType, ctx: VarId) {
    && v in a.belongCtx && a.belongCtx[v] == ctx
    && v in a.closureIndex && a.closureIndex[v] < |a.list| && a.list[a.closureIndex[v]] == vt
  }

  predicate SameSlot(a: Slots, b: Slots, v: VarId) {
    && (v in a.belongCtx <==> v in b.belongCtx) && (v in a.belongCtx ==> a.belongCtx[v] == b.belongCtx[v])
    && (v in a.closureIndex <==> v in b.closureIndex) && (v in a.closureIndex ==> a.closureIndex[v] == b.closureIndex[v])
  }

  lemma {:induction false} CollectFrame(vs: seq<VarId>, closures: set<VarId>, types: seq<VarType>, ctx: VarId, a: Slots, u: VarId)
    requires forall i :: 0 <= i < |vs| ==> vs[i] < |types|
    ensures u !in vs || u !in closures ==> SameSlot(a, Collect(vs, closures, types, ctx, a), u)
    ensures a.list <= Collect(vs, closures, types, ctx, a).list
  {
    if vs != [] {
      CollectFrame(vs[1..], closures, types, ctx, if vs[0] in closures then AddSlot(a, vs[0], types[vs[0]], ctx) else a, u);
    }
  }

  lemma {:induction false} CollectSlots(vs: seq<VarId>, closures: set<VarId>, types: seq<VarType>, ctx: VarId, a: Slots, i: nat)
    requires forall k :: 0 <= k < |vs| ==> vs[k] < |types|
    requires forall k, m :: 0 <= k < m < |vs| ==> vs[k] != vs[m]
    requires i < |vs| && vs[i] in closures
    ensures HasSlot(Collect(vs, closures, types, ctx, a), vs[i], types[vs[i]], ctx)
    ensures Collect(vs, closures, types, ctx, a).closureIndex[vs[i]] == |a.list| + Marked(vs[..i], closures)
  {
    MarkedSplit(vs, closures, i);
    var b := if vs[0] in closures then AddSlot(a, vs[0], types[vs[0]], ctx) else a;
    if i == 0 {
      CollectFrame(vs[1..], closures, types, ctx, b, vs[0]);
      assert b.list[|a.list|] == types[vs[0]];
    } else {
      CollectSlots(vs[1..], closures, types, ctx, b, i - 1);
    }
  }

  /** How many variables of a list are marked. */
  function Marked(vs: seq<VarId>, closures: set<VarId>): nat {
    if vs == [] then 0 else (if vs[0] in closures then 1 else 0) + Marked(vs[1..], closures)
  }

  lemma MarkedSplit(vs: seq<VarId>, closures: set<VarId>, i: nat)
    requires i < |vs|
    ensures Marked(vs[..i], closures)
            == if i == 0 then 0 else (if vs[0] in closures then 1 else 0) + Marked(vs[1..][..i - 1], closures)
  {
    if i > 0 {
      assert vs[..i][1..] == vs[1..][..i - 1];
    }
  }

  /** There are as many slots as marked variables. */
  lemma {:induction false} CollectLength(vs: seq<VarId>, closures: set<VarId>, types: seq<VarType>, ctx: VarId, a: Slots)
    requires forall i :: 0 <= i < |vs| ==> vs[i] < |types|
    ensures |Collect(vs, closures, types, ctx, a).list| == |a.list| + Marked(vs, closures)
  {
    if vs != [] {
      CollectLength(vs[1..], closures, types, ctx, if vs[0] in closures then AddSlot(a, vs[0], types[vs[0]], ctx) else a);
    }
  }

  // ----- the pass as a function -----

  /** The scope itself, or the first one around it that is neither a class nor a namespace. */
  function SkipUp(t: Tree, s: ScopeId): (e: Option<ScopeId>)
    requires LinksOk(t) && s < |t.scopes|
    ensures e.Some? ==> e.value <= s && e.value < |t.scopes|
  {
    if t.scopes[s].kind != Class && t.scopes[s].kind != Namespace then Some(s)
    else if Parent(t, s).None? then None
    else SkipUp(t, Parent(t, s).value)
  }

  /** The environment around a scope, if it has a context. */
  function Around(t: Tree, s: ScopeId): (e: Option<ScopeId>)
    requires LinksOk(t) && s < |t.scopes|
    ensures e.Some? ==> e.value < s && HasContext(t, e.value)
  {
    if Parent(t, s).None? then None
    else
      var e := SkipUp(t, Parent(t, s).value);
      if e.Some? && HasContext(t, e.value) then e else None
  }

  predicate TypesOk(t: Tree, a: Attributes)
    requires WellFormed(t)
  {
    && |a.types| == |t.names|
    && (forall s :: 0 <= s < |t.scopes| && HasContext(t, s) ==>
          ContextVar(t, s) < |a.types| && a.types[ContextVar(t, s)].ContextType?
          && a.types[ContextVar(t, s)].c < |a.contexts|)
    && (forall k :: 0 <= k < |a.contexts| && a.contexts[k].parent.Some? ==> a.contexts[k].parent.value < k)
  }

  /** The context type of a scope. */
  function ContextOf(t: Tree, a: Attributes, s: ScopeId): (c: nat)
    requires WellFormed(t) && TypesOk(t, a) && s < |t.scopes| && HasContext(t, s)
    ensures c < |a.contexts|
  {
    a.types[ContextVar(t, s)].c
  }

  function ParentContext(t: Tree, a: Attributes, s: ScopeId): (c: Option<nat>)
    requires WellFormed(t) && TypesOk(t, a) && s < |t.scopes|
    ensures c.Some? ==> c.value < |a.contexts|
  {
    var e := Around(t, s);
    if e.Some? then Some(ContextOf(t, a, e.value)) else None
  }

  /** A function first gets the context of its context parameter; a block outside any context gets an empty one. */
  function WithParam(t: Tree, a: Attributes, s: ScopeId): Attributes
    requires WellFormed(t) && TypesOk(t, a) && s < |t.scopes|
  {
    var p := ParentContext(t, a, s);
    if t.scopes[s].kind == Function then
      a.(contexts := a.contexts + [Context(p, [])], paramCtx := a.paramCtx[s := |a.contexts|])
    else if p.None? then a.(contexts := a.contexts + [Context(None, [])])
    else a
  }

  function OuterContext(t: Tree, a: Attributes, s: ScopeId): nat
    requires WellFormed(t) && TypesOk(t, a) && s < |t.scopes|
  {
    var p := ParentContext(t, a, s);
    if t.scopes[s].kind == Function || p.None? then |a.contexts| else p.value
  }

  lemma OwnedInRange(t: Tree, s: ScopeId)
    requires WellFormed(t) && s < |t.scopes|
    ensures forall i :: 0 <= i < |Owned(t, s)| ==> Owned(t, s)[i] < |t.names|
    ensures forall i, j :: 0 <= i < j < |Owned(t, s)| ==> Owned(t, s)[i] != Owned(t, s)[j]
    ensures HasContext(t, s) ==> ContextVar(t, s) in Owned(t, s)
  {
    if HasContext(t, s) {
      assert Owned(t, s)[|t.scopes[s].params|] == ContextVar(t, s);
    }
  }

  function ParseScope(t: Tree, closures: set<VarId>, a: Attributes, s: ScopeId): Attributes
    requires WellFormed(t) && TypesOk(t, a) && s < |t.scopes|
  {
    if !HasContext(t, s) then a
    else
      OwnedInRange(t, s);
      var b := WithParam(t, a, s);
      var r := Collect(Owned(t, s), closures, a.types, ContextVar(t, s), Slots([], a.belongCtx, a.closureIndex));
      Attributes(b.types[ContextVar(t, s) := ContextType(|b.contexts|)],
                 b.contexts + [Context(Some(OuterContext(t, a, s)), r.list)],
                 r.belongCtx, r.closureIndex, b.paramCtx)
  }

  // ----- one scope -----

  /** The captured variables of a scope have their slots in the scope's own context. */
  predicate SlotsDone(t: Tree, closures: set<VarId>, a: Attributes, s: ScopeId)
    requires WellFormed(t) && TypesOk(t, a) && s < |t.scopes| && HasContext(t, s)
  {
    var k := ContextOf(t, a, s);
    forall i :: 0 <= i < |Owned(t, s)| && Owned(t, s)[i] in closures ==>
      Owned(t, s)[i] < |a.types| &&
      HasSlot(Slots(a.contexts[k].freeVarTypeList, a.belongCtx, a.closureIndex),
              Owned(t, s)[i], a.types[Owned(t, s)[i]], ContextVar(t, s))
  }

  /** They are numbered without gaps, and the context has no further slots. */
  predicate NumbersDone(t: Tree, closures: set<VarId>, a: Attributes, s: ScopeId)
    requires WellFormed(t) && TypesOk(t, a) && s < |t.scopes| && HasContext(t, s)
  {
    && |a.contexts[ContextOf(t, a, s)].freeVarTypeList| == Marked(Owned(t, s), closures)
    && forall i :: 0 <= i < |Owned(t, s)| && Owned(t, s)[i] in closures ==>
         HasNumber(a.closureIndex, Owned(t, s)[i], Marked(Owned(t, s)[..i], closures))
  }

  predicate HasNumber(closureIndex: map<VarId, nat>, v: VarId, n: nat) {
    v in closureIndex && closureIndex[v] == n
  }

  /** The context of a scope links to the context around it: directly for a block, by way of the parameter for a function. */
  predicate LinkDone(t: Tree, a: Attributes, s: ScopeId)
    requires WellFormed(t) && TypesOk(t, a) && s < |t.scopes| && HasContext(t, s)
  {
    var p := a.contexts[ContextOf(t, a, s)].parent;
    var e := ParentContext(t, a, s);
    p.Some? && p.value < |a.contexts| &&
    if t.scopes[s].kind == Function then
      a.contexts[p.value] == Context(e, []) && s in a.paramCtx && a.paramCtx[s] == p.value
    else e.Some? ==> p == e
  }

  predicate ScopeDone(t: Tree, closures: set<VarId>, a: Attributes, s: ScopeId)
    requires WellFormed(t) && TypesOk(t, a) && s < |t.scopes|
  {
    HasContext(t, s) ==> SlotsDone(t, closures, a, s) && NumbersDone(t, closures, a, s) && LinkDone(t, a, s)
  }

  /** Type and slot of a variable are the same in both. */
  predicate SameVar(a: Attributes, b: Attributes, v: VarId) {
    && v < |a.types| == |b.types| && a.types[v] == b.types[v]
    && SameSlot(Slots([], a.belongCtx, a.closureIndex), Slots([], b.belongCtx, b.closureIndex), v)
  }

  /** Attributes of the variables of a scope are the same in both. */
  predicate SameVars(t: Tree, a: Attributes, b: Attributes, s: ScopeId)
    requires s < |t.scopes|
  {
    && (forall v :: v in Owned(t, s) ==> SameVar(a, b, v))
    && (s in a.paramCtx ==> s in b.paramCtx && a.paramCtx[s] == b.paramCtx[s])
  }

  /** What handling the scopes below `s` leaves alone. */
  ghost predicate Frame(t: Tree, closures: set<VarId>, a: Attributes, b: Attributes, s: ScopeId)
    requires LinksOk(t)
  {
    && a.contexts <= b.contexts && |a.types| == |b.types|
    && (forall v :: v in closures && v < |a.types| ==> a.types[v] == b.types[v])
    && (forall d :: 0 <= d < |t.scopes| && !Under(t, s, d) ==> SameVars(t, a, b, d))
    && (forall v :: v !in closures ==> SameNumber(a, b, v))
  }

  /** The slot of a variable, or that it has none, is the same in both. */
  predicate SameNumber(a: Attributes, b: Attributes, v: VarId) {
    SameSlot(Slots([], a.belongCtx, a.closureIndex), Slots([], b.belongCtx, b.closureIndex), v)
  }

  /** Context variables are not captured: no identifier is spelled `@context`. */
  predicate ContextsUncaptured(t: Tree, closures: set<VarId>)
    requires WellFormed(t)
  {
    forall s :: 0 <= s < |t.scopes| && HasContext(t, s) ==> ContextVar(t, s) !in closures
  }

  lemma ParseScopeTypes(t: Tree, closures: set<VarId>, a: Attributes, s: ScopeId)
    requires WellFormed(t) && TypesOk(t, a) && s < |t.scopes|
    ensures TypesOk(t, ParseScope(t, closures, a, s))
  {
    if HasContext(t, s) {
      var b := ParseScope(t, closures, a, s);
      OwnedInRange(t, s);
      assert |b.contexts| > |a.contexts|;
      assert OuterContext(t, a, s) < |b.contexts| - 1;
    }
  }

  lemma ParseScopeFrame(t: Tree, closures: set<VarId>, a: Attributes, s: ScopeId)
    requires WellFormed(t) && TypesOk(t, a) && s < |t.scopes| && ContextsUncaptured(t, closures)
    ensures Frame(t, closures, a, ParseScope(t, closures, a, s), s)
  {
    var b := ParseScope(t, closures, a, s);
    forall d | 0 <= d < |t.scopes| && !Under(t, s, d) ensures SameVars(t, a, b, d) {
      forall v | v in Owned(t, d) ensures SameVar(a, b, v) {
        var i :| 0 <= i < |Owned(t, d)| && Owned(t, d)[i] == v;
        OtherVarStays(t, closures, a, s, d, i);
      }
    }
    forall v | v !in closures ensures SameNumber(a, b, v) {
      UnmarkedStays(t, closures, a, s, v);
    }
  }

  /** Parsing a scope gives no slot to variables that are not marked. */
  lemma UnmarkedStays(t: Tree, closures: set<VarId>, a: Attributes, s: ScopeId, v: VarId)
    requires WellFormed(t) && TypesOk(t, a) && s < |t.scopes| && v !in closures
    ensures SameNumber(a, ParseScope(t, closures, a, s), v)
  {
    if HasContext(t, s) {
      OwnedInRange(t, s);
      CollectFrame(Owned(t, s), closures, a.types, ContextVar(t, s), Slots([], a.belongCtx, a.closureIndex), v);
    }
  }

  /** Parsing a scope leaves the variables of other scopes alone. */
  lemma OtherVarStays(t: Tree, closures: set<VarId>, a: Attributes, s: ScopeId, d: ScopeId, i: nat)
    requires WellFormed(t) && TypesOk(t, a) && s < |t.scopes| && d < |t.scopes| && s != d && i < |Owned(t, d)|
    ensures SameVar(a, ParseScope(t, closures, a, s), Owned(t, d)[i])
  {
    OwnedInRange(t, d);
    if HasContext(t, s) {
      OwnedInRange(t, s);
      OwnersDiffer(t, s, d, i);
      CollectFrame(Owned(t, s), closures, a.types, ContextVar(t, s), Slots([], a.belongCtx, a.closureIndex), Owned(t, d)[i]);
    }
  }

  lemma OwnersDiffer(t: Tree, s: ScopeId, d: ScopeId, i: nat)
    requires WellFormed(t) && s < |t.scopes| && d < |t.scopes| && s != d && i < |Owned(t, d)|
    ensures Owned(t, d)[i] !in Owned(t, s)
  {
  }

  lemma ParseScopeSlots(t: Tree, closures: set<VarId>, a: Attributes, s: ScopeId)
    requires WellFormed(t) && TypesOk(t, a) && s < |t.scopes| && HasContext(t, s) && ContextsUncaptured(t, closures)
    ensures TypesOk(t, ParseScope(t, closures, a, s)) && SlotsDone(t, closures, ParseScope(t, closures, a, s), s)
  {
    ParseScopeTypes(t, closures, a, s);
    OwnedInRange(t, s);
    var sl := Slots([], a.belongCtx, a.closureIndex);
    forall i | 0 <= i < |Owned(t, s)| && Owned(t, s)[i] in closures
      ensures HasSlot(Collect(Owned(t, s), closures, a.types, ContextVar(t, s), sl), Owned(t, s)[i],
                      a.types[Owned(t, s)[i]], ContextVar(t, s))
    {
      CollectSlots(Owned(t, s), closures, a.types, ContextVar(t, s), sl, i);
    }
  }

  lemma ParseScopeNumbers(t: Tree, closures: set<VarId>, a: Attributes, s: ScopeId)
    requires WellFormed(t) && TypesOk(t, a) && s < |t.scopes| && HasContext(t, s)
    ensures TypesOk(t, ParseScope(t, closures, a, s)) && NumbersDone(t, closures, ParseScope(t, closures, a, s), s)
  {
    ParseScopeTypes(t, closures, a, s);
    OwnedInRange(t, s);
    var sl := Slots([], a.belongCtx, a.closureIndex);
    var vs := Owned(t, s);
    CollectLength(vs, closures, a.types, ContextVar(t, s), sl);
    forall i | 0 <= i < |vs| && vs[i] in closures
      ensures HasNumber(Collect(vs, closures, a.types, ContextVar(t, s), sl).closureIndex, vs[i], Marked(vs[..i], closures))
    {
      CollectSlots(vs, closures, a.types, ContextVar(t, s), sl, i);
    }
  }

  lemma ParseScopeLink(t: Tree, closures: set<VarId>, a: Attributes, s: ScopeId)
    requires WellFormed(t) && TypesOk(t, a) && s < |t.scopes| && HasContext(t, s) && ContextsUncaptured(t, closures)
    ensures TypesOk(t, ParseScope(t, closures, a, s)) && LinkDone(t, ParseScope(t, closures, a, s), s)
  {
    ParseScopeTypes(t, closures, a, s);
    var b := ParseScope(t, closures, a, s);
    var e := Around(t, s);
    if e.Some? {
      assert ContextVar(t, e.value) != ContextVar(t, s) by {
        OwnedInRange(t, e.value);
        OwnedInRange(t, s);
        OwnersDiffer(t, s, e.value, |t.scopes[e.value].params|);
      }
    }
    assert ParentContext(t, b, s) == ParentContext(t, a, s);
  }

  lemma ParseScopeDone(t: Tree, closures: set<VarId>, a: Attributes, s: ScopeId)
    requires WellFormed(t) && TypesOk(t, a) && s < |t.scopes| && ContextsUncaptured(t, closures)
    ensures var b := ParseScope(t, closures, a, s);
            TypesOk(t, b) && Frame(t, closures, a, b, s) && ScopeDone(t, closures, b, s)
  {
    ParseScopeTypes(t, closures, a, s);
    ParseScopeFrame(t, closures, a, s);
    if HasContext(t, s) {
      ParseScopeSlots(t, closures, a, s);
      ParseScopeNumbers(t, closures, a, s);
      ParseScopeLink(t, closures, a, s);
    }
  }
}
