/**
 When for-of lowering is covered: a check on the program text that makes a loop
 stable, and programs outside the covered set that lowering does change.
 */
module LoweringForOf {
  import opened Prelude
  import opened LoweringSyntax
  import opened LoweringSemantics
  import opened Lowering
  import opened LoweringEmitted
  import opened LoweringCorrectness
  import opened LoweringLabels

  /** Whether evaluating an expression never reads the heap. */
  predicate HeapFree(e: Expr) {
    match e
    case Num(_) => true
    case Var(_) => true
    case Add(l, r) => HeapFree(l) && HeapFree(r)
    case Less(l, r) => HeapFree(l) && HeapFree(r)
    case Len(_) => false
    case Index(_, _) => false
  }

  predicate KeepsAction(a: Action, arr: Expr) {
    match a
    case Assign(x, _) => x !in Vars(arr)
    case SetElem(_, _, _) => false
    case Push(_, _) => false
  }

  predicate KeepsStep(o: Option<Action>, arr: Expr) {
    o.Some? ==> KeepsAction(o.value, arr)
  }

  /** `if (i < a.length) a[i] = e; ...`, a write that cannot lengthen the array. */
  predicate GuardedWrite(s: Stmt) {
    s.If? && s.thn.Do? && s.thn.a.SetElem? && s.cond == Less(s.thn.a.idx, Len(s.thn.a.arr))
  }

  /**
   No statement assigns a variable of `arr` or changes the length of an array.
   Elements may be written where the write is guarded and `arr` reads none.
   */
  predicate Keeps(s: Stmt, arr: Expr)
    decreases s, 1
  {
    match s
    case Do(a) => KeepsAction(a, arr)
    case Block(_, body) => KeepsSeq(body, arr)
    case If(_, t, e) => ((GuardedWrite(s) && HeapFree(arr)) || Keeps(t, arr)) && Keeps(e, arr)
    case While(_, b) => Keeps(b, arr)
    case DoWhile(b, _) => Keeps(b, arr)
    case For(_, i, _, n, b) => KeepsStep(i, arr) && KeepsStep(n, arr) && Keeps(b, arr)
    case ForOf(_, x, _, b) => User(x) !in Vars(arr) && Keeps(b, arr)
    case Switch(_, cs) => KeepsClauses(cs, arr)
    case _ => true
  }

  predicate KeepsSeq(ss: seq<Stmt>, arr: Expr)
    decreases ss, 0
  {
    ss == [] || (Keeps(ss[0], arr) && KeepsSeq(ss[1..], arr))
  }

  predicate KeepsClauses(cs: seq<Clause>, arr: Expr)
    decreases cs, 0
  {
    cs == [] || (KeepsSeq(cs[0].body, arr) && KeepsClauses(cs[1..], arr))
  }

  // ----- what a keeping statement leaves alone -----

  ghost predicate SameFrame(f: Frame, g: Frame, vs: set<Name>) {
    forall x :: x in vs ==> f.Declares(x) == g.Declares(x) && (f.Declares(x) ==> f.Get(x) == g.Get(x))
  }

  ghost predicate SameScopes(fs: seq<Frame>, gs: seq<Frame>, vs: set<Name>) {
    |fs| == |gs| && (fs == [] || (SameFrame(fs[0], gs[0], vs) && SameScopes(fs[1..], gs[1..], vs)))
  }

  ghost predicate SameLengths(h: seq<seq<Value>>, k: seq<seq<Value>>) {
    |h| == |k| && forall i :: 0 <= i < |h| ==> |h[i]| == |k[i]|
  }

  ghost predicate Kept(st: State, st1: State, arr: Expr) {
    && SameScopes(st.frames, st1.frames, Vars(arr))
    && SameLengths(st.heap, st1.heap)
    && (HeapFree(arr) || st.heap == st1.heap)
  }

  ghost predicate KeptBy(st: State, r: Run, arr: Expr) {
    r.Done? ==> Kept(st, r.st, arr)
  }

  lemma SameScopesReflexive(fs: seq<Frame>, vs: set<Name>)
    ensures SameScopes(fs, fs, vs)
  {
  }

  lemma SameScopesTransitive(fs: seq<Frame>, gs: seq<Frame>, hs: seq<Frame>, vs: set<Name>)
    requires SameScopes(fs, gs, vs) && SameScopes(gs, hs, vs)
    ensures SameScopes(fs, hs, vs)
  {
  }

  lemma KeptTransitive(a: State, b: State, c: State, arr: Expr)
    requires Kept(a, b, arr) && Kept(b, c, arr)
    ensures Kept(a, c, arr)
  {
    SameScopesTransitive(a.frames, b.frames, c.frames, Vars(arr));
  }

  lemma UpdateKeeps(fs: seq<Frame>, x: Name, v: Value, vs: set<Name>)
    requires x !in vs
    ensures SameScopes(fs, Update(fs, x, v), vs)
  {
    if fs != [] {
      if fs[0].Declares(x) {
        assert Update(fs, x, v)[1..] == fs[1..];
        SameScopesReflexive(fs[1..], vs);
      } else {
        assert Update(fs, x, v)[1..] == Update(fs[1..], x, v);
        UpdateKeeps(fs[1..], x, v, vs);
      }
    }
  }

  lemma StepKeeps(o: Option<Action>, st: State, arr: Expr)
    requires KeepsStep(o, arr)
    ensures Kept(st, Step(o, st), arr)
  {
    SameScopesReflexive(st.frames, Vars(arr));
    if o.Some? && o.value.Assign? {
      UpdateKeeps(st.frames, o.value.x, Eval(o.value.e, st), Vars(arr));
    }
  }

  lemma BindKeeps(x: string, v: Value, st: State, arr: Expr)
    requires User(x) !in Vars(arr)
    ensures Kept(st, Bind(x, v, st), arr)
  {
    UpdateKeeps(st.frames, User(x), v, Vars(arr));
  }

  /** Scopes opened and closed around a keeping run do not matter. */
  lemma ScopeKeeps(ds: seq<string>, st: State, r: Run, arr: Expr)
    requires KeptBy(Enter(ds, false, st), r, arr)
    ensures KeptBy(st, LeaveRun(r), arr)
  {
    assert Enter(ds, false, st).frames[1..] == st.frames;
  }

  lemma GuardedWriteKeeps(s: Stmt, st: State, arr: Expr)
    requires GuardedWrite(s) && HeapFree(arr) && Truthy(Eval(s.cond, st))
    ensures Kept(st, Perform(s.thn.a, st), arr)
  {
    SameScopesReflexive(st.frames, Vars(arr));
    var w := s.thn.a;
    var v, k := Eval(w.arr, st), Eval(w.idx, st);
    assert Eval(Len(w.arr), st) == Number(|Elements(v, st.heap)|);
    assert k.Number? && k.n < |Elements(v, st.heap)|;
  }

  lemma {:induction false} KeepingRun(s: Stmt, st: State, fuel: nat, arr: Expr)
    requires Keeps(s, arr)
    ensures KeptBy(st, Exec(s, st, fuel), arr)
    decreases fuel, s, 1
  {
    SameScopesReflexive(st.frames, Vars(arr));
    match s
    case Do(a) => StepKeeps(Some(a), st, arr);
    case Block(ds, body) =>
      KeepingSeq(body, Enter(ds, false, st), fuel, arr);
      ScopeKeeps(ds, st, ExecSeq(body, Enter(ds, false, st), fuel), arr);
    case If(_, t, e) =>
      KeepingRun(e, st, fuel, arr);
      if Keeps(t, arr) {
        KeepingRun(t, st, fuel, arr);
      } else if Truthy(Eval(s.cond, st)) {
        GuardedWriteKeeps(s, st, arr);
      }
    case While(c, b) => KeepingLoop(PreTest, [], None, Some(c), None, b, st, fuel, arr);
    case DoWhile(b, c) => KeepingLoop(PostTest, [], None, Some(c), None, b, st, fuel, arr);
    case For(ds, i, c, n, b) => KeepingLoop(PreTest, ds, i, c, n, b, st, fuel, arr);
    case ForOf(ds, x, e, b) =>
      var st1 := Enter(ds, false, st);
      KeepingForOf(x, Eval(e, st1), 0, b, st1, fuel, arr);
      ScopeKeeps(ds, st, Absorb(IterateOf(x, Eval(e, st1), 0, b, st1, fuel)), arr);
    case Switch(e, cs) => KeepingClauses(cs, Select(Tests(cs), Eval(e, st), st), st, fuel, arr);
    case _ =>
  }

  lemma {:induction false} KeepingLoop(k: LoopKind, ds: seq<string>, i: Option<Action>, c: Option<Expr>, n: Option<Action>,
                                       b: Stmt, st: State, fuel: nat, arr: Expr)
    requires KeepsStep(i, arr) && KeepsStep(n, arr) && Keeps(b, arr)
    ensures KeptBy(st, LeaveRun(Absorb(Iterate(k, c, n, b, Step(i, Enter(ds, false, st)), fuel))), arr)
    decreases fuel, b, 3
  {
    var st1 := Enter(ds, false, st);
    var r := Iterate(k, c, n, b, Step(i, st1), fuel);
    StepKeeps(i, st1, arr);
    KeepingIterate(k, c, n, b, Step(i, st1), fuel, arr);
    if r.Done? {
      KeptTransitive(st1, Step(i, st1), r.st, arr);
    }
    ScopeKeeps(ds, st, Absorb(r), arr);
  }

  lemma {:induction false} KeepingSeq(ss: seq<Stmt>, st: State, fuel: nat, arr: Expr)
    requires KeepsSeq(ss, arr)
    ensures KeptBy(st, ExecSeq(ss, st, fuel), arr)
    decreases fuel, ss, 0
  {
    if ss == [] {
      SameScopesReflexive(st.frames, Vars(arr));
    } else {
      KeepingRun(ss[0], st, fuel, arr);
      var r := Exec(ss[0], st, fuel);
      if r.Done? && r.out == Normal {
        KeepingSeq(ss[1..], r.st, fuel, arr);
        var q := ExecSeq(ss[1..], r.st, fuel);
        if q.Done? {
          KeptTransitive(st, r.st, q.st, arr);
        }
      }
    }
  }

  lemma KeepsClauseAt(cs: seq<Clause>, i: nat, arr: Expr)
    requires KeepsClauses(cs, arr) && i < |cs|
    ensures KeepsSeq(cs[i].body, arr)
  {
    if i > 0 {
      KeepsClauseAt(cs[1..], i - 1, arr);
    }
  }

  lemma {:induction false} KeepingClauses(cs: seq<Clause>, i: nat, st: State, fuel: nat, arr: Expr)
    requires KeepsClauses(cs, arr)
    ensures KeptBy(st, ExecClauses(cs, i, st, fuel), arr)
    decreases fuel, cs, |cs| - i
  {
    SameScopesReflexive(st.frames, Vars(arr));
    if i < |cs| {
      KeepsClauseAt(cs, i, arr);
      KeepingSeq(cs[i].body, st, fuel, arr);
      var r := ExecSeq(cs[i].body, st, fuel);
      if r.Done? && r.out == Normal {
        KeepingClauses(cs, i + 1, r.st, fuel, arr);
        var q := ExecClauses(cs, i + 1, r.st, fuel);
        if q.Done? {
          KeptTransitive(st, r.st, q.st, arr);
        }
      }
    }
  }

  lemma {:induction false} KeepingIterate(k: LoopKind, c: Option<Expr>, n: Option<Action>, b: Stmt, st: State, fuel: nat, arr: Expr)
    requires Keeps(b, arr) && KeepsStep(n, arr)
    ensures KeptBy(st, Iterate(k, c, n, b, st, fuel), arr)
    decreases fuel, b, 2
  {
    SameScopesReflexive(st.frames, Vars(arr));
    if fuel > 0 && (k != PreTest || Holds(c, st)) {
      KeepingRun(b, st, fuel - 1, arr);
      var r := Exec(b, st, fuel - 1);
      if GoesOn(r) {
        var st1 := Step(n, r.st);
        StepKeeps(n, r.st, arr);
        KeptTransitive(st, r.st, st1, arr);
        KeepingIterate(k, c, n, b, st1, fuel - 1, arr);
        var q := Iterate(k, c, n, b, st1, fuel - 1);
        if q.Done? {
          KeptTransitive(st, st1, q.st, arr);
        }
      }
    }
  }

  lemma KeepsScope(b: Stmt, arr: Expr)
    requires Keeps(b, arr)
    ensures Keeps(AsScope(b), arr)
  {
    assert [b][1..] == [];
  }

  lemma {:induction false} KeepingForOf(x: string, v: Value, i: nat, b: Stmt, st: State, fuel: nat, arr: Expr)
    requires Keeps(b, arr) && User(x) !in Vars(arr)
    ensures KeptBy(st, IterateOf(x, v, i, b, st, fuel), arr)
    decreases fuel, b, 2
  {
    SameScopesReflexive(st.frames, Vars(arr));
    if fuel > 0 && i < |Elements(v, st.heap)| {
      var st1 := Bind(x, Elements(v, st.heap)[i], st);
      BindKeeps(x, Elements(v, st.heap)[i], st, arr);
      KeepsScope(b, arr);
      KeepingRun(AsScope(b), st1, fuel - 1, arr);
      var r := Exec(AsScope(b), st1, fuel - 1);
      if r.Done? {
        KeptTransitive(st, st1, r.st, arr);
        if GoesOn(r) {
          KeepingForOf(x, v, i + 1, b, r.st, fuel - 1, arr);
          var q := IterateOf(x, v, i + 1, b, r.st, fuel - 1);
          if q.Done? {
            KeptTransitive(st, r.st, q.st, arr);
          }
        }
      }
    }
  }

  lemma LookupKept(fs: seq<Frame>, gs: seq<Frame>, x: Name, vs: set<Name>)
    requires SameScopes(fs, gs, vs) && x in vs
    ensures Lookup(fs, x) == Lookup(gs, x)
  {
  }

  lemma {:induction false} EvalKept(e: Expr, st: State, st1: State, vs: set<Name>)
    requires SameScopes(st.frames, st1.frames, vs) && Vars(e) <= vs
    requires HeapFree(e) || st.heap == st1.heap
    ensures Eval(e, st1) == Eval(e, st)
  {
    match e
    case Num(_) =>
    case Var(x) => LookupKept(st.frames, st1.frames, x, vs);
    case Add(l, r) => EvalKept(l, st, st1, vs); EvalKept(r, st, st1, vs);
    case Less(l, r) => EvalKept(l, st, st1, vs); EvalKept(r, st, st1, vs);
    case Len(a) => EvalKept(a, st, st1, vs);
    case Index(a, i) => EvalKept(a, st, st1, vs); EvalKept(i, st, st1, vs);
  }

  /** A loop whose body keeps the iterated expression in the checked sense is stable. */
  lemma KeepingIsStable(x: string, arr: Expr, b: Stmt)
    requires Keeps(b, arr) && User(x) !in Vars(arr)
    ensures Stable(x, arr, b)
  {
    forall st: State, w: Value, fuel: nat
      ensures var r := Exec(AsScope(b), Bind(x, w, st), fuel);
              r.Done? && (r.out == Normal || r.out == Continued) ==>
                && Eval(arr, r.st) == Eval(arr, st)
                && |Elements(Eval(arr, st), r.st.heap)| == |Elements(Eval(arr, st), st.heap)|
    {
      var st1 := Bind(x, w, st);
      var r := Exec(AsScope(b), st1, fuel);
      BindKeeps(x, w, st, arr);
      KeepsScope(b, arr);
      KeepingRun(AsScope(b), st1, fuel, arr);
      if r.Done? {
        KeptTransitive(st, st1, r.st, arr);
        EvalKept(arr, st, r.st, Vars(arr));
      }
    }
  }

  // ----- programs outside the covered set that lowering changes -----

  /** `for (x of a) body` in a scope where `a` is array 0, `b` is array 1 and `x`, `y` are undefined. */
  function Loop(x: string, a: string, body: Stmt): Stmt { ForOf([], x, Var(User(a)), body) }

  predicate Distinct(x: string, y: string, a: string, b: string) {
    x != y && x != a && x != b && y != a && y != b && a != b
  }

  function Scope(x: string, y: string, a: string, b: string): Frame {
    Frame(map[x := Undef, y := Undef, a := Arr(0), b := Arr(1)], None)
  }

  function LoweredRun(s: Stmt, st: State, fuel: nat): TRun
    requires Scoped(s, false, false)
  {
    TExec(Lower(s, NO_LABELS, {}).t, st, fuel)
  }

  lemma BelowFrame(f: Frame, fs: seq<Frame>, x: Name, v: Value)
    requires !f.Declares(x)
    ensures Lookup([f] + fs, x) == Lookup(fs, x)
    ensures Update([f] + fs, x, v) == [f] + Update(fs, x, v)
  {
    assert ([f] + fs)[1..] == fs;
  }

  lemma TopFrame(f: Frame, fs: seq<Frame>, x: Name, v: Value)
    requires f.Declares(x)
    ensures Lookup([f] + fs, x) == f.Get(x)
    ensures Update([f] + fs, x, v) == [f.Set(x, v)] + fs
  {
    assert ([f] + fs)[1..] == fs;
  }

  // ----- rounds of the emitted loop -----

  lemma EmittedStart(x: string, a: string, body: Stmt, st: State, fuel: nat)
    ensures Emitted(Loop(x, a, body), st, fuel)
            == LeaveRun(Absorb(EmittedCount(x, Var(User(a)), 0, |Elements(Lookup(st.frames, User(a)), st.heap)|, body,
                                            Enter([], false, st), fuel)))
  {
    BelowFrame(Fresh([], false), st.frames, User(a), Undef);
    assert Eval(Var(User(a)), Enter([], false, st)) == Lookup(st.frames, User(a));
  }

  /** An emitted loop over a one-element array, given what its round does. */
  lemma OneEmittedRound(x: string, a: string, body: Stmt, st: State, fs1: seq<Frame>, heap1: seq<seq<Value>>)
    requires |Elements(Lookup(st.frames, User(a)), st.heap)| == 1
    requires EmittedInside(x, Var(User(a)), 0, body, State([Fresh([], false)] + st.frames, st.heap), 1)
             == Done(Normal, State([Fresh([], false)] + fs1, heap1))
    ensures Emitted(Loop(x, a, body), st, 2) == Done(Normal, State(fs1, heap1))
  {
    var arr, st1, st2 := Var(User(a)), State([Fresh([], false)] + st.frames, st.heap), State([Fresh([], false)] + fs1, heap1);
    EmittedStart(x, a, body, st, 2);
    OneRoundCounts(x, arr, body, st1, st2);
    LeavesTo(fs1, heap1);
  }

  lemma OneRoundCounts(x: string, arr: Expr, body: Stmt, st: State, st1: State)
    requires EmittedInside(x, arr, 0, body, st, 1) == Done(Normal, st1)
    ensures EmittedCount(x, arr, 0, 1, body, st, 2) == Done(Normal, st1)
  {
    EmittedRound(x, arr, 0, 1, body, st, st1, 2);
    EmittedEnd(x, arr, 1, body, st1, 1);
  }

  lemma LeavesTo(fs: seq<Frame>, heap: seq<seq<Value>>)
    ensures LeaveRun(Absorb(Done(Normal, State([Fresh([], false)] + fs, heap)))) == Done(Normal, State(fs, heap))
  {
    assert ([Fresh([], false)] + fs)[1..] == fs;
  }

  /** One round that goes on. */
  lemma EmittedRound(x: string, arr: Expr, i: nat, n: nat, body: Stmt, st: State, st1: State, fuel: nat)
    requires i < n && fuel > 0 && EmittedInside(x, arr, i, body, st, fuel - 1) == Done(Normal, st1)
    ensures EmittedCount(x, arr, i, n, body, st, fuel) == EmittedCount(x, arr, i + 1, n, body, st1, fuel - 1)
  {
  }

  lemma EmittedEnd(x: string, arr: Expr, n: nat, body: Stmt, st: State, fuel: nat)
    requires fuel > 0
    ensures EmittedCount(x, arr, n, n, body, st, fuel) == Done(Normal, st)
  {
  }

  /** A source loop over a one-element array, given what its body does. */
  lemma OneSourceIteration(x: string, a: string, body: Stmt, st: State, v: Value, fs1: seq<Frame>)
    requires Elements(Lookup(st.frames, User(a)), st.heap) == [v]
    requires Exec(AsScope(body), State([Fresh([], false)] + Update(st.frames, User(x), v), st.heap), 1)
             == Done(Normal, State([Fresh([], false)] + fs1, st.heap))
    ensures Exec(Loop(x, a, body), st, 2) == Done(Normal, State(fs1, st.heap))
  {
    var st1, st2 := Enter([], false, st), State([Fresh([], false)] + fs1, st.heap);
    BelowFrame(Fresh([], false), st.frames, User(x), v);
    SourceStart(x, a, body, st, 2);
    LastIteration(x, Lookup(st.frames, User(a)), body, st1, st2, v);
    assert st2.frames[1..] == fs1;
  }

  lemma SourceStart(x: string, a: string, body: Stmt, st: State, fuel: nat)
    ensures Exec(Loop(x, a, body), st, fuel)
            == LeaveRun(Absorb(IterateOf(x, Lookup(st.frames, User(a)), 0, body, Enter([], false, st), fuel)))
  {
    BelowFrame(Fresh([], false), st.frames, User(a), Undef);
    assert Eval(Var(User(a)), Enter([], false, st)) == Lookup(st.frames, User(a));
  }

  lemma LastIteration(x: string, w: Value, body: Stmt, st1: State, st2: State, v: Value)
    requires Elements(w, st1.heap) == [v] && st2.heap == st1.heap
    requires Exec(AsScope(body), Bind(x, v, st1), 1) == Done(Normal, st2)
    ensures IterateOf(x, w, 0, body, st1, 2) == Done(Normal, st2)
  {
    assert IterateOf(x, w, 1, body, st2, 1) == Done(Normal, st2);
  }

  /** A scope where `x` has a value and `a` is array 0. */
  function Plainly(x: string, a: string, w: Value): Frame {
    Frame(map[x := w, a := Arr(0)], None)
  }

  /** What is left of a scope in which `x` was to be assigned, if the element is not found or `ds` takes it. */
  function Left(x: string, ds: seq<string>, f: Frame): Frame
    requires x in f.user
  {
    if x in ds then f else f.Set(User(x), Undef)
  }

  /** How a body opens its scope: with braces, as a loop of its own, or not at all. */
  datatype Head = Braced(decls: seq<string>) | BareFor(decls: seq<string>) | BareForOf(decls: seq<string>) | Other

  function HeadOf(b: Stmt): Head {
    match b
    case Block(ds, _) => Braced(ds)
    case For(ds, _, _, _, _) => BareFor(ds)
    case ForOf(ds, _, _, _) => BareForOf(ds)
    case _ => Other
  }

  predicate Declared(h: Head, x: string) { !h.Other? && x in h.decls }

  /** A body that declares `h.decls` and does nothing: `{ let ... }` or `for (let ...; 0;) ;`. */
  function Idle(h: Head): Stmt
    requires h.Braced? || h.BareFor?
  {
    if h.Braced? then Block(h.decls, []) else For(h.decls, None, Some(Num(0)), None, Empty)
  }

  lemma IdleRuns(h: Head, st: State)
    requires h.Braced? || h.BareFor?
    ensures Exec(AsScope(Idle(h)), st, 1) == Done(Normal, st)
  {
    assert Enter(h.decls, false, st).frames[1..] == st.frames;
  }

  /**
   A body that declares its own `x` keeps the element from reaching the outer one,
   and one that declares its own `a` keeps the element from being found.
   */
  lemma ShadowingChangesMeaning(x: string, a: string, h: Head, w: Value, v: Value)
    requires x != a && (h.Braced? || h.BareFor?) && (x in h.decls || a in h.decls)
    ensures var f := Plainly(x, a, w);
            var s, st := Loop(x, a, Idle(h)), State([f], [[v]]);
            && Exec(s, st, 2) == Done(Normal, State([f.Set(User(x), v)], st.heap))
            && LoweredRun(s, st, 2) == TDone(TNormal, State([Left(x, h.decls, f)], st.heap))
  {
    var f := Plainly(x, a, w);
    var st := State([f], [[v]]);
    TopFrame(f, [], User(a), Undef);
    TopFrame(f, [], User(x), v);
    assert [f] + [] == [f] && Lookup(st.frames, User(a)) == Arr(0);
    var g := f.Set(User(x), v);
    assert Update([f], User(x), v) == [g] + [] == [g];
    IdleRuns(h, State([Fresh([], false)] + [g], st.heap));
    OneSourceIteration(x, a, Idle(h), st, v, [g]);
    ShadowingEmitted(x, a, h, w, v);
  }

  lemma ShadowingEmitted(x: string, a: string, h: Head, w: Value, v: Value)
    requires x != a && (h.Braced? || h.BareFor?) && (x in h.decls || a in h.decls)
    ensures var f := Plainly(x, a, w);
            LoweredRun(Loop(x, a, Idle(h)), State([f], [[v]]), 2) == TDone(TNormal, State([Left(x, h.decls, f)], [[v]]))
  {
    var f := Plainly(x, a, w);
    var st := State([f], [[v]]);
    TopFrame(f, [], User(a), Undef);
    assert [f] + [] == [f];
    ShadowedRound(x, a, h, w, [[v]]);
    OneEmittedRound(x, a, Idle(h), st, [Left(x, h.decls, f)], st.heap);
    ProgramMeaning(Loop(x, a, Idle(h)), st, 2);
  }

  lemma ShadowedRound(x: string, a: string, h: Head, w: Value, heap: seq<seq<Value>>)
    requires x != a && (h.Braced? || h.BareFor?) && (x in h.decls || a in h.decls)
    ensures EmittedInside(x, Var(User(a)), 0, Idle(h), State([Fresh([], false)] + [Plainly(x, a, w)], heap), 1)
            == Done(Normal, State([Fresh([], false)] + [Left(x, h.decls, Plainly(x, a, w))], heap))
  {
    ShadowedFetch(x, a, h.decls, w, heap);
  }

  /** The element goes to the body's own variable, or is not found. */
  lemma ShadowedFetch(x: string, a: string, ds: seq<string>, w: Value, heap: seq<seq<Value>>)
    requires x != a && (x in ds || a in ds)
    ensures var st0 := State([Fresh([], false)] + [Plainly(x, a, w)], heap);
            Leave(Fetch(x, Var(User(a)), 0, Enter(ds, false, st0)))
            == State([Fresh([], false)] + [Left(x, ds, Plainly(x, a, w))], heap)
  {
    var f := Plainly(x, a, w);
    var st1 := Enter(ds, false, State([Fresh([], false)] + [f], heap));
    if x !in ds {
      TopFrame(Fresh(ds, false), st1.frames[1..], User(a), Undef);
      assert Eval(Var(User(a)), st1) == Undef;
    }
    var els := Elements(Eval(Var(User(a)), st1), heap);
    BoundBelow(x, ds, if 0 < |els| then els[0] else Undef, f, heap);
  }

  /** An assignment to `x` in a scope with the declarations `ds`, seen from outside it. */
  lemma BoundBelow(x: string, ds: seq<string>, v: Value, f: Frame, heap: seq<seq<Value>>)
    requires x in f.user && (x in ds || v == Undef)
    ensures Leave(Bind(x, v, Enter(ds, false, State([Fresh([], false)] + [f], heap))))
            == State([Fresh([], false)] + [Left(x, ds, f)], heap)
  {
    var e, below := Fresh(ds, false), [Fresh([], false)] + [f];
    if x in ds {
      TopFrame(e, below, User(x), v);
      assert ([e.Set(User(x), v)] + below)[1..] == below;
    } else {
      BelowFrame(e, below, User(x), v);
      BelowFrame(Fresh([], false), [f], User(x), v);
      TopFrame(f, [], User(x), v);
      assert [f] + [] == [f] && [f.Set(User(x), v)] + [] == [f.Set(User(x), v)];
      assert ([e] + Update(below, User(x), v))[1..] == Update(below, User(x), v);
    }
  }

  /** A program that iterates over `a`, with a body that opens its scope as `h` says and keeps `a` as it is. */
  ghost predicate KeepingLoopOver(s: Stmt, x: string, a: string, h: Head) {
    && s.ForOf? && s == ForOf(s.decls, x, Var(User(a)), s.loopBody) && HeadOf(s.loopBody) == h
    && Scoped(s, false, false) && Good(s.loopBody) && Keeps(s.loopBody, Var(User(a)))
  }

  /** Whatever the keeping body, the lowered loop has the runs of the source. */
  ghost predicate KeepingLoopsPreserved(x: string, a: string, h: Head) {
    forall s: Stmt, st: State, fuel: nat :: KeepingLoopOver(s, x, a, h) && Plain(st) ==>
      TExec(Lower(s, NO_LABELS, {}).t, st, fuel) == AsTarget(Exec(s, st, fuel))
  }

  /**
   For bodies that keep the array, the scope the element assignment is put in is the exact obstacle:
   it must not be that of a for-of loop and must not declare `x` or `a`.
   */
  lemma KeepingLoopsPreservedIff(x: string, a: string, h: Head)
    requires x != a
    ensures KeepingLoopsPreserved(x, a, h) <==> !h.BareForOf? && !Declared(h, x) && !Declared(h, a)
  {
    if h.BareForOf? {
      BareForOfFails(x, a, h.decls);
    } else if Declared(h, x) || Declared(h, a) {
      DeclaringFails(x, a, h);
    } else {
      forall s: Stmt, st: State, fuel: nat | KeepingLoopOver(s, x, a, h) && Plain(st)
        ensures TExec(Lower(s, NO_LABELS, {}).t, st, fuel) == AsTarget(Exec(s, st, fuel))
      {
        KeepingLoopPreserved(s, x, a, h, st, fuel);
      }
    }
  }

  lemma KeepingLoopPreserved(s: Stmt, x: string, a: string, h: Head, st: State, fuel: nat)
    requires KeepingLoopOver(s, x, a, h) && x != a && Plain(st)
    requires !h.BareForOf? && !Declared(h, x) && !Declared(h, a)
    ensures TExec(Lower(s, NO_LABELS, {}).t, st, fuel) == AsTarget(Exec(s, st, fuel))
  {
    KeepingIsStable(x, Var(User(a)), s.loopBody);
    assert Vars(s.arr) == {User(a)} && Unshadowed(x, s.arr, s.loopBody);
    ProgramPreserved(s, st, fuel);
  }

  /** One run whose variable `x` gets its element in the source alone. */
  lemma ElementMissing(s: Stmt, x: string, a: string, h: Head, f: Frame, heap: seq<seq<Value>>)
    requires KeepingLoopOver(s, x, a, h) && f.counters == None && x in f.user && f.user[x] == Undef
    requires Exec(s, State([f], heap), 2) == Done(Normal, State([f.Set(User(x), Number(1))], heap))
    requires LoweredRun(s, State([f], heap), 2) == TDone(TNormal, State([f], heap))
    ensures !KeepingLoopsPreserved(x, a, h)
  {
    var st := State([f], heap);
    assert Plain(st) && f.Set(User(x), Number(1)).user[x] != f.user[x];
    assert TExec(Lower(s, NO_LABELS, {}).t, st, 2) != AsTarget(Exec(s, st, 2));
  }

  lemma DeclaringFails(x: string, a: string, h: Head)
    requires x != a && (h.Braced? || h.BareFor?) && (x in h.decls || a in h.decls)
    ensures !KeepingLoopsPreserved(x, a, h)
  {
    var s := Loop(x, a, Idle(h));
    ShadowingChangesMeaning(x, a, h, Undef, Number(1));
    assert Left(x, h.decls, Plainly(x, a, Undef)) == Plainly(x, a, Undef);
    assert KeepingLoopOver(s, x, a, h);
    ElementMissing(s, x, a, h, Plainly(x, a, Undef), [[Number(1)]]);
  }

  lemma BareForOfFails(x: string, a: string, ds: seq<string>)
    requires x != a
    ensures !KeepingLoopsPreserved(x, a, BareForOf(ds))
  {
    var y := x + a + "y";
    var b := y + "b";
    assert |x| < |y| && |a| < |y| && |y| < |b|;
    var s := Loop(x, a, Nested(ds, y, b));
    UnbracedNestingChangesMeaning(x, y, a, b, ds, Undef, Number(1));
    var f := Scope(x, y, a, b);
    assert f.Set(User(x), Undef) == f && Left(x, ds, f) == f;
    NestedKeeps(x, y, a, b, ds);
    ElementMissing(s, x, a, BareForOf(ds), f, [[Number(1)], []]);
  }

  lemma NestedKeeps(x: string, y: string, a: string, b: string, ds: seq<string>)
    requires Distinct(x, y, a, b)
    ensures KeepingLoopOver(Loop(x, a, Nested(ds, y, b)), x, a, BareForOf(ds))
  {
    KeepingIsStable(y, Var(User(b)), Empty);
    assert Vars(Var(User(b))) == {User(b)} && Unshadowed(y, Var(User(b)), Empty);
  }

  /** `for (x of a) { a = b; }` walks the first array in the source, and reads the second one when lowered. */
  lemma ReassigningChangesMeaning(x: string, y: string, a: string, b: string, v: Value)
    requires Distinct(x, y, a, b) && v != Undef
    ensures var s := Loop(x, a, ActionBody(Assign(User(a), Var(User(b)))));
            var st := State([Scope(x, y, a, b)], [[v, v], []]);
            var end := Scope(x, y, a, b).Set(User(a), Arr(1));
            && Exec(s, st, 3) == Done(Normal, State([end.Set(User(x), v)], st.heap))
            && LoweredRun(s, st, 3) == TDone(TNormal, State([end], st.heap))
  {
    ReassigningSource(x, y, a, b, v);
    ReassigningTarget(x, y, a, b, v);
  }

  /** The reassignment, in the innermost of two scopes above the program's. */
  lemma Reassigns(a: string, b: string, e: Frame, below: Frame, f: Frame, heap: seq<seq<Value>>)
    requires !e.Declares(User(a)) && !e.Declares(User(b)) && !below.Declares(User(a)) && !below.Declares(User(b))
    requires a in f.user && b in f.user
    ensures Leave(Perform(Assign(User(a), Var(User(b))), State([e] + ([below] + [f]), heap)))
            == State([below] + [f.Set(User(a), f.user[b])], heap)
  {
    var w := f.user[b];
    BelowFrame(e, [below] + [f], User(b), w);
    BelowFrame(e, [below] + [f], User(a), w);
    BelowFrame(below, [f], User(b), w);
    BelowFrame(below, [f], User(a), w);
    TopFrame(f, [], User(b), w);
    TopFrame(f, [], User(a), w);
    var g := f.Set(User(a), w);
    assert [f] + [] == [f] && [g] + [] == [g];
  }

  /** A round with a body of one action: the element is read, then the action is done, in a scope of its own. */
  lemma ActionRound(x: string, a: string, act: Action, i: nat, f: Frame, g: Frame, heap: seq<seq<Value>>, st1: State, fuel: nat)
    requires x != a && x in f.user && a in f.user && f.counters == None
    requires var els := Elements(f.user[a], heap); g == f.Set(User(x), if i < |els| then els[i] else Undef)
    requires Leave(Perform(act, State([Fresh([], false)] + ([Fresh([], false)] + [g]), heap))) == st1
    ensures EmittedInside(x, Var(User(a)), i, ActionBody(act), State([Fresh([], false)] + [f], heap), fuel) == Done(Normal, st1)
  {
    var e, w := Fresh([], false), g.user[x];
    var st0 := State([e] + [f], heap);
    BelowFrame(e, st0.frames, User(a), w);
    BelowFrame(e, [f], User(a), w);
    BelowFrame(e, st0.frames, User(x), w);
    BelowFrame(e, [f], User(x), w);
    TopFrame(f, [], User(a), w);
    TopFrame(f, [], User(x), w);
    assert [f] + [] == [f] && [g] + [] == [g];
    assert Eval(Var(User(a)), Enter([], false, st0)) == f.user[a];
    var st2 := State([e] + ([e] + [g]), heap);
    assert Fetch(x, Var(User(a)), i, Enter([], false, st0)) == st2;
    assert [Do(act)][1..] == [];
    assert EmittedSeq([Do(act)], st2, fuel) == Done(Normal, Perform(act, st2));
  }

  lemma ReassigningEmittedRound(x: string, a: string, b: string, i: nat, n: nat, f: Frame, w: Value,
                                heap: seq<seq<Value>>, fuel: nat)
    requires x != a && x != b && x in f.user && a in f.user && b in f.user && f.counters == None
    requires i < n && fuel > 0
    requires var els := Elements(f.user[a], heap); w == if i < |els| then els[i] else Undef
    ensures var body, e := ActionBody(Assign(User(a), Var(User(b)))), Fresh([], false);
            EmittedCount(x, Var(User(a)), i, n, body, State([e] + [f], heap), fuel)
            == EmittedCount(x, Var(User(a)), i + 1, n, body, State([e] + [f.Set(User(x), w).Set(User(a), f.user[b])], heap), fuel - 1)
  {
    var act, e := Assign(User(a), Var(User(b))), Fresh([], false);
    var g := f.Set(User(x), w);
    var st1 := State([e] + [g.Set(User(a), f.user[b])], heap);
    Reassigns(a, b, e, e, g, heap);
    ActionRound(x, a, act, i, f, g, heap, st1, fuel - 1);
    EmittedRound(x, Var(User(a)), i, n, ActionBody(act), State([e] + [f], heap), st1, fuel);
  }

  /** The second round reads the array the first one assigned, which is empty. */
  lemma ReassigningRounds(x: string, y: string, a: string, b: string, v: Value, heap: seq<seq<Value>>)
    requires Distinct(x, y, a, b) && heap == [[v, v], []]
    ensures var body, e := ActionBody(Assign(User(a), Var(User(b)))), Fresh([], false);
            EmittedCount(x, Var(User(a)), 0, 2, body, State([e] + [Scope(x, y, a, b)], heap), 3)
            == Done(Normal, State([e] + [Scope(x, y, a, b).Set(User(a), Arr(1))], heap))
  {
    var f := Scope(x, y, a, b);
    var f1 := f.Set(User(x), v).Set(User(a), Arr(1));
    var f2 := f1.Set(User(x), Undef).Set(User(a), Arr(1));
    ReassigningEmittedRound(x, a, b, 0, 2, f, v, heap, 3);
    ReassigningEmittedRound(x, a, b, 1, 2, f1, Undef, heap, 2);
    EmittedEnd(x, Var(User(a)), 2, ActionBody(Assign(User(a), Var(User(b)))), State([Fresh([], false)] + [f2], heap), 1);
    assert f2 == f.Set(User(a), Arr(1));
  }

  lemma ReassigningTarget(x: string, y: string, a: string, b: string, v: Value)
    requires Distinct(x, y, a, b)
    ensures var s := Loop(x, a, ActionBody(Assign(User(a), Var(User(b)))));
            var st := State([Scope(x, y, a, b)], [[v, v], []]);
            LoweredRun(s, st, 3) == TDone(TNormal, State([Scope(x, y, a, b).Set(User(a), Arr(1))], st.heap))
  {
    var act, g := Assign(User(a), Var(User(b))), Scope(x, y, a, b).Set(User(a), Arr(1));
    var st := State([Scope(x, y, a, b)], [[v, v], []]);
    ReassigningRounds(x, y, a, b, v, st.heap);
    assert ([Fresh([], false)] + [g])[1..] == [g];
    EmittedStart(x, a, ActionBody(act), st, 3);
    TopFrame(Scope(x, y, a, b), [], User(a), Undef);
    assert [Scope(x, y, a, b)] + [] == [Scope(x, y, a, b)];
    LoopIsWritten(x, a, act);
    ProgramMeaning(Loop(x, a, ActionBody(act)), st, 3);
  }

  lemma LoopIsWritten(x: string, a: string, act: Action)
    requires UserAction(act)
    ensures Written(Loop(x, a, ActionBody(act)))
  {
    assert Written(Do(act)) && [Do(act)][1..] == [] && WrittenSeq([]);
    assert WrittenSeq([Do(act)]);
  }

  lemma ReassigningRound(x: string, a: string, b: string, i: nat, v: Value, f: Frame, heap: seq<seq<Value>>, fuel: nat)
    requires x != a && x != b && a in f.user && b in f.user && x in f.user && fuel > 0
    requires |heap| > 0 && i < |heap[0]| && heap[0][i] == v
    ensures var body := ActionBody(Assign(User(a), Var(User(b))));
            var f1 := f.Set(User(x), v).Set(User(a), f.user[b]);
            IterateOf(x, Arr(0), i, body, State([Fresh([], false)] + [f], heap), fuel)
            == IterateOf(x, Arr(0), i + 1, body, State([Fresh([], false)] + [f1], heap), fuel - 1)
  {
    var act := Assign(User(a), Var(User(b)));
    var e, g := Fresh([], false), f.Set(User(x), v);
    var st := State([e] + [f], heap);
    BelowFrame(e, [f], User(x), v);
    TopFrame(f, [], User(x), v);
    assert [f] + [] == [f] && [g] + [] == [g];
    var st1 := State([e] + [g], heap);
    assert Bind(x, v, st) == st1;
    var st2 := Enter([], false, st1);
    assert st2 == State([e] + ([e] + [g]), heap);
    Reassigns(a, b, e, e, g, heap);
    assert [Do(act)][1..] == [];
    assert ExecSeq([Do(act)], st2, fuel - 1) == Done(Normal, Perform(act, st2));
    assert Exec(ActionBody(act), st1, fuel - 1) == Done(Normal, State([e] + [g.Set(User(a), f.user[b])], heap));
  }

  lemma ReassigningSource(x: string, y: string, a: string, b: string, v: Value)
    requires Distinct(x, y, a, b)
    ensures var s := Loop(x, a, ActionBody(Assign(User(a), Var(User(b)))));
            var st := State([Scope(x, y, a, b)], [[v, v], []]);
            Exec(s, st, 3) == Done(Normal, State([Scope(x, y, a, b).Set(User(a), Arr(1)).Set(User(x), v)], st.heap))
  {
    var body := ActionBody(Assign(User(a), Var(User(b))));
    var f, heap: seq<seq<Value>> := Scope(x, y, a, b), [[v, v], []];
    var f1 := f.Set(User(x), v).Set(User(a), Arr(1));
    var f2 := f1.Set(User(x), v).Set(User(a), Arr(1));
    ReassigningRound(x, a, b, 0, v, f, heap, 3);
    ReassigningRound(x, a, b, 1, v, f1, heap, 2);
    var end := State([Fresh([], false)] + [f2], heap);
    assert IterateOf(x, Arr(0), 2, body, end, 1) == Done(Normal, end);
    SourceStart(x, a, body, State([f], heap), 3);
    TopFrame(f, [], User(a), Undef);
    assert [f] + [] == [f] && end.frames[1..] == [f2];
    assert f2 == f.Set(User(a), Arr(1)).Set(User(x), v);
  }

  /** `for (y of b) ;` with declarations. */
  function Nested(ds: seq<string>, y: string, b: string): Stmt { ForOf(ds, y, Var(User(b)), Empty) }

  /**
   An unbraced for-of inside a for-of: the outer element is read with the inner
   loop's counter, which is not set yet, so the outer variable never gets it.
   */
  lemma UnbracedNestingChangesMeaning(x: string, y: string, a: string, b: string, ds: seq<string>, w: Value, v: Value)
    requires Distinct(x, y, a, b)
    ensures var f := Scope(x, y, a, b).Set(User(x), w);
            var s, st := Loop(x, a, Nested(ds, y, b)), State([f], [[v], []]);
            && Exec(s, st, 2) == Done(Normal, State([f.Set(User(x), v)], st.heap))
            && LoweredRun(s, st, 2) == TDone(TNormal, State([Left(x, ds, f)], st.heap))
  {
    var body := Nested(ds, y, b);
    var f := Scope(x, y, a, b).Set(User(x), w);
    var st := State([f], [[v], []]);
    assert Lookup(st.frames, User(a)) == Arr(0);
    var g := f.Set(User(x), v);
    assert Update([f], User(x), v) == [g];
    EmptyArrayLoop(ds, y, b, State([Fresh([], false)] + [g], st.heap));
    OneSourceIteration(x, a, body, st, v, [g]);
    NestedEmitted(x, y, a, b, ds, w, f, st.heap);
  }

  lemma NestedEmitted(x: string, y: string, a: string, b: string, ds: seq<string>, w: Value, f: Frame, heap: seq<seq<Value>>)
    requires Distinct(x, y, a, b) && f == Scope(x, y, a, b).Set(User(x), w)
    requires |heap| == 2 && |heap[0]| == 1 && heap[1] == []
    ensures LoweredRun(Loop(x, a, Nested(ds, y, b)), State([f], heap), 2) == TDone(TNormal, State([Left(x, ds, f)], heap))
  {
    var st := State([f], heap);
    TopFrame(f, [], User(a), Undef);
    assert [f] + [] == [f];
    NestedRound(x, y, a, b, ds, f, heap);
    OneEmittedRound(x, a, Nested(ds, y, b), st, [Left(x, ds, f)], heap);
    ProgramMeaning(Loop(x, a, Nested(ds, y, b)), st, 2);
  }

  /** No declaration puts elements into an empty array. */
  lemma EmptyBelow(ds: seq<string>, counters: bool, b: string, st: State)
    requires Elements(Lookup(st.frames, User(b)), st.heap) == []
    ensures Elements(Eval(Var(User(b)), Enter(ds, counters, st)), st.heap) == []
  {
    if b in ds {
      TopFrame(Fresh(ds, counters), st.frames, User(b), Undef);
    } else {
      BelowFrame(Fresh(ds, counters), st.frames, User(b), Undef);
    }
  }

  lemma EmptyArrayLoop(ds: seq<string>, y: string, b: string, st: State)
    requires Elements(Lookup(st.frames, User(b)), st.heap) == []
    ensures Exec(Nested(ds, y, b), st, 1) == Done(Normal, st)
  {
    EmptyBelow(ds, false, b, st);
    assert Enter(ds, false, st).frames[1..] == st.frames;
  }

  lemma NestedRound(x: string, y: string, a: string, b: string, ds: seq<string>, f: Frame, heap: seq<seq<Value>>)
    requires Distinct(x, y, a, b) && x in f.user && b in f.user && f.user[b] == Arr(1) && |heap| == 2 && heap[1] == []
    ensures EmittedInside(x, Var(User(a)), 0, Nested(ds, y, b), State([Fresh([], false)] + [f], heap), 1)
            == Done(Normal, State([Fresh([], false)] + [Left(x, ds, f)], heap))
  {
    var st0 := State([Fresh([], false)] + [f], heap);
    var st1 := Bind(x, Undef, Enter(ds, false, st0));
    BoundBelow(x, ds, Undef, f, heap);
    BelowFrame(Fresh([], false), [f], User(b), Undef);
    TopFrame(f, [], User(b), Undef);
    assert [f] + [] == [f];
    EmptyBelow(ds, false, b, st0);
    OtherStays(Enter(ds, false, st0).frames, x, Undef, b);
    assert EmittedForOf(y, Var(User(b)), Empty, st1, 1) == Done(Normal, st1);
  }

  lemma OtherStays(fs: seq<Frame>, x: string, v: Value, b: string)
    requires x != b
    ensures Lookup(Update(fs, User(x), v), User(b)) == Lookup(fs, User(b))
  {
    UpdateKeeps(fs, User(x), v, {User(b)});
    LookupKept(fs, Update(fs, User(x), v), User(b), {User(b)});
  }

  /** A body of one action. */
  function ActionBody(act: Action): (s: Stmt)
    ensures Scoped(s, true, true)
  {
    assert Scoped(Do(act), true, true) && ScopedSeq([], true, true) && [Do(act)][1..] == [];
    assert ScopedSeq([Do(act)], true, true);
    Block([], [Do(act)])
  }

  /** The action appends 0 to the array in `a`. */
  ghost predicate Appends(act: Action, a: string) {
    forall st: State :: Perform(act, st) == Perform(Push(Var(User(a)), Num(0)), st)
  }

  lemma WriteAtEndAppends(a: string)
    ensures Appends(SetElem(Var(User(a)), Len(Var(User(a))), Num(0)), a)
  {
    var arr := Var(User(a));
    forall st: State ensures Perform(SetElem(arr, Len(arr), Num(0)), st) == Perform(Push(arr, Num(0)), st) {
      assert Eval(Len(arr), st) == Number(|Elements(Eval(arr, st), st.heap)|);
    }
  }

  /** `for (x of a) { a.push(0); }` never ends in the source; the cached length ends the lowered loop. */
  lemma GrowingArrayChangesMeaning(x: string, y: string, a: string, b: string, v: Value, fuel: nat)
    requires Distinct(x, y, a, b)
    ensures var s, st := Loop(x, a, ActionBody(Push(Var(User(a)), Num(0)))), State([Scope(x, y, a, b)], [[v], []]);
            && Exec(s, st, fuel) == Timeout
            && LoweredRun(s, st, 2) == TDone(TNormal, State([Scope(x, y, a, b).Set(User(x), v)], [[v, Number(0)], []]))
  {
    GrowingLoop(x, y, a, b, v, Push(Var(User(a)), Num(0)), fuel);
  }

  /** So does `for (x of a) { a[a.length] = 0; }`, which is why `Keeps` asks for guarded writes. */
  lemma ExtendingWriteChangesMeaning(x: string, y: string, a: string, b: string, v: Value, fuel: nat)
    requires Distinct(x, y, a, b)
    ensures var s := Loop(x, a, ActionBody(SetElem(Var(User(a)), Len(Var(User(a))), Num(0))));
            var st := State([Scope(x, y, a, b)], [[v], []]);
            && Exec(s, st, fuel) == Timeout
            && LoweredRun(s, st, 2) == TDone(TNormal, State([Scope(x, y, a, b).Set(User(x), v)], [[v, Number(0)], []]))
  {
    WriteAtEndAppends(a);
    GrowingLoop(x, y, a, b, v, SetElem(Var(User(a)), Len(Var(User(a))), Num(0)), fuel);
  }

  lemma GrowingLoop(x: string, y: string, a: string, b: string, v: Value, act: Action, fuel: nat)
    requires Distinct(x, y, a, b) && Appends(act, a) && UserAction(act)
    ensures var s, st := Loop(x, a, ActionBody(act)), State([Scope(x, y, a, b)], [[v], []]);
            && Exec(s, st, fuel) == Timeout
            && LoweredRun(s, st, 2) == TDone(TNormal, State([Scope(x, y, a, b).Set(User(x), v)], [[v, Number(0)], []]))
  {
    var f := Scope(x, y, a, b);
    var st := State([f], [[v], []]);
    TopFrame(f, [], User(a), Undef);
    assert [f] + [] == [f];
    BelowFrame(Fresh([], false), [f], User(a), Undef);
    GrowsForever(x, a, 0, act, Enter([], false, st), fuel);
    AppendingRound(x, a, f, act, v);
    OneEmittedRound(x, a, ActionBody(act), st, [f.Set(User(x), v)], [[v, Number(0)], []]);
    LoopIsWritten(x, a, act);
    ProgramMeaning(Loop(x, a, ActionBody(act)), st, 2);
  }

  lemma GrowsForever(x: string, a: string, i: nat, act: Action, st: State, fuel: nat)
    requires x != a && Lookup(st.frames, User(a)) == Arr(0) && |st.heap| > 0 && i < |st.heap[0]| && Appends(act, a)
    ensures IterateOf(x, Arr(0), i, ActionBody(act), st, fuel) == Timeout
    decreases fuel
  {
    if fuel > 0 {
      var st1 := Bind(x, st.heap[0][i], st);
      BindKeeps(x, st.heap[0][i], st, Var(User(a)));
      LookupKept(st.frames, st1.frames, User(a), {User(a)});
      var st2 := Enter([], false, st1);
      assert st2.frames[1..] == st1.frames;
      assert Eval(Var(User(a)), st2) == Arr(0);
      var st3 := Perform(act, st2);
      assert st3 == Perform(Push(Var(User(a)), Num(0)), st2);
      assert [Do(act)][1..] == [];
      assert ExecSeq([Do(act)], st2, fuel - 1) == Done(Normal, st3);
      GrowsForever(x, a, i + 1, act, Leave(st3), fuel - 1);
    }
  }

  lemma AppendingRound(x: string, a: string, f: Frame, act: Action, v: Value)
    requires x != a && x in f.user && a in f.user && f.user[a] == Arr(0) && f.counters == None && Appends(act, a)
    ensures EmittedInside(x, Var(User(a)), 0, ActionBody(act), State([Fresh([], false)] + [f], [[v], []]), 1)
            == Done(Normal, State([Fresh([], false)] + [f.Set(User(x), v)], [[v, Number(0)], []]))
  {
    var e, g, heap: seq<seq<Value>> := Fresh([], false), f.Set(User(x), v), [[v], []];
    var st := State([e] + ([e] + [g]), heap);
    PushStep(a, e, g, heap, v);
    assert Perform(act, st) == Perform(Push(Var(User(a)), Num(0)), st);
    ActionRound(x, a, act, 0, f, g, heap, State([e] + [g], [[v, Number(0)], []]), 1);
  }

  lemma PushStep(a: string, e: Frame, g: Frame, heap: seq<seq<Value>>, v: Value)
    requires !e.Declares(User(a)) && a in g.user && g.user[a] == Arr(0) && heap == [[v], []]
    ensures var st := State([e] + ([e] + [g]), heap);
            Leave(Perform(Push(Var(User(a)), Num(0)), st)) == State([e] + [g], [[v, Number(0)], []])
  {
    var st := State([e] + ([e] + [g]), heap);
    BelowFrame(e, [e] + [g], User(a), Undef);
    BelowFrame(e, [g], User(a), Undef);
    TopFrame(g, [], User(a), Undef);
    assert [g] + [] == [g];
    assert Eval(Var(User(a)), st) == Arr(0);
    assert heap[0] + [Number(0)] == [v, Number(0)];
    assert heap[0 := [v, Number(0)]] == [[v, Number(0)], []];
    assert st.frames[1..] == [e] + [g];
  }
}
