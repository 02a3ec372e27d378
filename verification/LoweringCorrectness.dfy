/**
 The lowered form of any statement, run from a state that differs only in
 compiler-made variables, does what is told on the source, for every fuel. For
 covered statements that is the meaning of the source.
 */
module LoweringCorrectness {
  import opened Prelude
  import opened LoweringSyntax
  import opened LoweringSemantics
  import opened Lowering
  import opened LoweringEmitted

  // ----- what the source program can see of a state of the lowered program -----

  function Shown(f: Frame): Frame { Frame(f.user, None) }

  function ShownAll(fs: seq<Frame>): seq<Frame> {
    if fs == [] then [] else [Shown(fs[0])] + ShownAll(fs[1..])
  }

  function MaskedAll(fs: seq<Frame>): seq<Option<Counters>> {
    if fs == [] then [] else [fs[0].counters] + MaskedAll(fs[1..])
  }

  function View(s: State): State { State(ShownAll(s.frames), s.heap) }

  lemma LookupView(fs: seq<Frame>, x: Name)
    requires !Hidden(x)
    ensures Lookup(ShownAll(fs), x) == Lookup(fs, x)
  {
    if fs != [] {
      assert ShownAll(fs)[1..] == ShownAll(fs[1..]);
      LookupView(fs[1..], x);
    }
  }

  lemma {:induction false} EvalView(e: Expr, s: State)
    requires UserExpr(e)
    ensures Eval(e, View(s)) == Eval(e, s)
  {
    match e
    case Num(_) =>
    case Var(x) => assert x in Vars(e); LookupView(s.frames, x);
    case Add(l, r) => assert UserExpr(l) && UserExpr(r); EvalView(l, s); EvalView(r, s);
    case Less(l, r) => assert UserExpr(l) && UserExpr(r); EvalView(l, s); EvalView(r, s);
    case Len(a) => assert UserExpr(a); EvalView(a, s);
    case Index(a, i) => assert UserExpr(a) && UserExpr(i); EvalView(a, s); EvalView(i, s);
  }

  lemma UpdateView(fs: seq<Frame>, x: Name, v: Value)
    requires !Hidden(x)
    ensures ShownAll(Update(fs, x, v)) == Update(ShownAll(fs), x, v)
    ensures MaskedAll(Update(fs, x, v)) == MaskedAll(fs)
  {
    if fs != [] {
      assert ShownAll(fs)[1..] == ShownAll(fs[1..]);
      if fs[0].Declares(x) {
        var f := fs[0].Set(x, v);
        assert ([f] + fs[1..])[1..] == fs[1..];
      } else {
        UpdateView(fs[1..], x, v);
        assert ([fs[0]] + Update(fs[1..], x, v))[1..] == Update(fs[1..], x, v);
      }
    }
  }

  lemma PerformView(a: Action, s: State)
    requires UserAction(a)
    ensures View(Perform(a, s)) == Perform(a, View(s))
    ensures MaskedAll(Perform(a, s).frames) == MaskedAll(s.frames)
  {
    match a
    case Assign(x, e) => EvalView(e, s); UpdateView(s.frames, x, Eval(e, s));
    case SetElem(r, i, e) => EvalView(r, s); EvalView(i, s); EvalView(e, s);
    case Push(r, e) => EvalView(r, s); EvalView(e, s);
  }

  lemma StepView(o: Option<Action>, s: State)
    requires UserStep(o)
    ensures View(Step(o, s)) == Step(o, View(s))
    ensures MaskedAll(Step(o, s).frames) == MaskedAll(s.frames)
  {
    if o.Some? {
      PerformView(o.value, s);
    }
  }

  lemma HoldsView(test: Option<Expr>, s: State)
    requires UserTest(test)
    ensures Holds(test, View(s)) == Holds(test, s)
  {
    if test.Some? {
      EvalView(test.value, s);
    }
  }

  lemma EnterView(ds: seq<string>, s: State)
    ensures View(Enter(ds, false, s)) == Enter(ds, false, View(s))
    ensures MaskedAll(Enter(ds, false, s).frames) == [None] + MaskedAll(s.frames)
  {
    assert Enter(ds, false, s).frames[1..] == s.frames;
  }

  lemma LeaveView(s: State)
    ensures View(Leave(s)) == Leave(View(s))
    ensures s.frames != [] ==> MaskedAll(Leave(s).frames) == MaskedAll(s.frames)[1..]
  {
    if s.frames != [] {
      assert ShownAll(s.frames)[1..] == ShownAll(s.frames[1..]);
    }
  }

  lemma FirstEqualView(tests: seq<Option<Expr>>, v: Value, s: State)
    requires forall i :: 0 <= i < |tests| ==> UserTest(tests[i])
    ensures FirstEqual(tests, v, View(s)) == FirstEqual(tests, v, s)
  {
    if tests != [] {
      if tests[0].Some? {
        EvalView(tests[0].value, s);
      }
      FirstEqualView(tests[1..], v, s);
    }
  }

  // ----- agreement of runs -----

  /** A jump of the source is the branch to the label on top of the matching stack. */
  predicate SameOutcome(o: Outcome, t: TOutcome, c: Context, flags: set<string>) {
    match o
    case Normal => t == TNormal
    case Returned(v) => t == TReturned(v)
    case Broke => c.breaks != [] && t == Br(Top(c.breaks))
    case Continued => c.loops != [] && t == Br(ContinueLabel(Top(c.loops))) && ContinueLabel(Top(c.loops)) in flags
  }

  predicate Agree(r: Run, t: TRun, c: Context, flags: set<string>, masked: seq<Option<Counters>>) {
    match r
    case Timeout => t.TTimeout?
    case Done(o, s) =>
      t.TDone? && s == View(t.st) && MaskedAll(t.st.frames) == masked && SameOutcome(o, t.out, c, flags)
  }

  lemma AgreeLeave(r: Run, t: TRun, c: Context, flags: set<string>, m: Option<Counters>, masked: seq<Option<Counters>>)
    requires Agree(r, t, c, flags, [m] + masked)
    ensures Agree(LeaveRun(r), TLeaveRun(t), c, flags, masked)
  {
    if r.Done? {
      assert t.st.frames != [];
      LeaveView(t.st);
    }
  }

  lemma {:induction false} FlagsGrow(s: Stmt, c: Context, flags: set<string>)
    requires ScopedIn(s, c)
    ensures flags <= Lower(s, c, flags).flags
    decreases s, 1
  {
    match s
    case Block(_, body) => FlagsGrowSeq(body, c, flags);
    case If(_, t, e) => FlagsGrow(t, c, flags); FlagsGrow(e, c, Lower(t, c, flags).flags);
    case While(_, b) => FlagsGrow(b, InLoop(LoopLabel(s, |c.loops|), c), flags);
    case DoWhile(b, _) => FlagsGrow(b, InLoop(LoopLabel(s, |c.loops|), c), flags);
    case For(_, _, _, _, b) => FlagsGrow(b, InLoop(LoopLabel(s, |c.loops|), c), flags);
    case ForOf(_, _, _, b) => FlagsGrow(b, InLoop(LoopLabel(s, |c.loops|), c), flags);
    case Switch(_, cs) => FlagsGrowClauses(cs, InSwitch(c), flags);
    case _ =>
  }

  lemma {:induction false} FlagsGrowSeq(ss: seq<Stmt>, c: Context, flags: set<string>)
    requires ScopedSeq(ss, c.loops != [], c.breaks != [])
    ensures flags <= LowerSeq(ss, c, flags).flags
    decreases ss, 0
  {
    if ss != [] {
      FlagsGrow(ss[0], c, flags);
      FlagsGrowSeq(ss[1..], c, Lower(ss[0], c, flags).flags);
    }
  }

  lemma {:induction false} FlagsGrowClauses(cs: seq<Clause>, c: Context, flags: set<string>)
    requires c.breaks != [] && ScopedClauses(cs, c.loops != [])
    ensures flags <= LowerClauses(cs, c, flags).flags
    decreases cs, 0
  {
    if cs != [] {
      FlagsGrowSeq(cs[0].body, c, flags);
      FlagsGrowClauses(cs[1..], c, LowerSeq(cs[0].body, c, flags).flags);
    }
  }

  // ----- labels that must not be confused -----

  lemma LoopLabelsDiffer(loop: string)
    ensures BlockLabel(loop) != ContinueLabel(loop) && BlockLabel(loop) != loop
  {
    assert BlockLabel(loop)[|loop|] == 'b' && ContinueLabel(loop)[|loop|] == '_';
  }

  lemma ContinuePassesSwitch(loop: string, depth: nat)
    ensures ContinueLabel(loop) != BreakSwitchLabel(depth)
  {
    var s, t := ContinueLabel(loop), BreakSwitchLabel(depth);
    DecimalHasOnlyDigits(depth, |Decimal(depth)| - 1);
    assert s[|s| - 1] == "_continue"[8] == 'e';
    assert t[|t| - 1] == Decimal(depth)[|Decimal(depth)| - 1];
  }

  // ----- the simulation -----

  /** The main theorem: every statement that may be written is emitted with the runs told on the source. */
  lemma {:induction false} LoweringMeaning(s: Stmt, c: Context, flags: set<string>, st: State, fuel: nat)
    requires ScopedIn(s, c) && Written(s)
    ensures Agree(Emitted(s, View(st), fuel), TExec(Lower(s, c, flags).t, st, fuel),
                  c, Lower(s, c, flags).flags, MaskedAll(st.frames))
    decreases fuel, s, 1
  {
    match s
    case Block(_, _) => BlockMeaning(s, c, flags, st, fuel);
    case If(_, _, _) => IfMeaning(s, c, flags, st, fuel);
    case While(_, _) => LoopMeaning(s, c, flags, st, fuel);
    case DoWhile(_, _) => LoopMeaning(s, c, flags, st, fuel);
    case For(_, _, _, _, _) => LoopMeaning(s, c, flags, st, fuel);
    case ForOf(_, _, _, _) => ForOfMeaning(s, c, flags, st, fuel);
    case Switch(_, _) => SwitchMeaning(s, c, flags, st, fuel);
    case _ => SimpleMeaning(s, c, flags, st, fuel);
  }

  predicate Simple(s: Stmt) { s.Empty? || s.Do? || s.Return? || s.Break? || s.Continue? }

  lemma SimpleMeaning(s: Stmt, c: Context, flags: set<string>, st: State, fuel: nat)
    requires Simple(s) && ScopedIn(s, c) && Written(s)
    ensures Agree(Emitted(s, View(st), fuel), TExec(Lower(s, c, flags).t, st, fuel),
                  c, Lower(s, c, flags).flags, MaskedAll(st.frames))
  {
    match s
    case Do(a) => PerformView(a, st);
    case Return(e) => EvalView(e, st);
    case _ =>
  }

  lemma {:induction false} IfMeaning(s: Stmt, c: Context, flags: set<string>, st: State, fuel: nat)
    requires s.If? && ScopedIn(s, c) && Written(s)
    ensures Agree(Emitted(s, View(st), fuel), TExec(Lower(s, c, flags).t, st, fuel),
                  c, Lower(s, c, flags).flags, MaskedAll(st.frames))
    decreases fuel, s, 0
  {
    var fl := Lower(s.thn, c, flags).flags;
    EvalView(s.cond, st);
    FlagsGrow(s.els, c, fl);
    LoweringMeaning(s.thn, c, flags, st, fuel);
    LoweringMeaning(s.els, c, fl, st, fuel);
  }

  lemma {:induction false} LoopMeaning(s: Stmt, c: Context, flags: set<string>, st: State, fuel: nat)
    requires (s.While? || s.DoWhile? || s.For?) && ScopedIn(s, c) && Written(s)
    ensures Agree(Emitted(s, View(st), fuel), TExec(Lower(s, c, flags).t, st, fuel),
                  c, Lower(s, c, flags).flags, MaskedAll(st.frames))
    decreases fuel, s, 0
  {
    var loop := LoopLabel(s, |c.loops|);
    match s
    case While(e, b) => PlainLoopMeaning(PreTest, loop, [], None, Some(e), None, b, c, flags, st, fuel);
    case DoWhile(b, e) => PlainLoopMeaning(PostTest, loop, [], None, Some(e), None, b, c, flags, st, fuel);
    case For(ds, i, e, n, b) => PlainLoopMeaning(PreTest, loop, ds, i, e, n, b, c, flags, st, fuel);
  }

  lemma {:induction false} BlockMeaning(s: Stmt, c: Context, flags: set<string>, st: State, fuel: nat)
    requires s.Block? && ScopedIn(s, c) && Written(s)
    ensures Agree(Emitted(s, View(st), fuel), TExec(Lower(s, c, flags).t, st, fuel),
                  c, Lower(s, c, flags).flags, MaskedAll(st.frames))
    decreases fuel, s, 0
  {
    EnterView(s.decls, st);
    SeqMeaning(s.body, c, flags, Enter(s.decls, false, st), fuel);
    var r := LowerSeq(s.body, c, flags);
    AgreeLeave(EmittedSeq(s.body, Enter(s.decls, false, View(st)), fuel), TExecSeq(r.ts, Enter(s.decls, false, st), fuel),
               c, r.flags, None, MaskedAll(st.frames));
  }

  lemma {:induction false} SeqMeaning(ss: seq<Stmt>, c: Context, flags: set<string>, st: State, fuel: nat)
    requires ScopedSeq(ss, c.loops != [], c.breaks != []) && WrittenSeq(ss)
    ensures Agree(EmittedSeq(ss, View(st), fuel), TExecSeq(LowerSeq(ss, c, flags).ts, st, fuel),
                  c, LowerSeq(ss, c, flags).flags, MaskedAll(st.frames))
    decreases fuel, ss, 0
  {
    if ss != [] {
      var r := Lower(ss[0], c, flags);
      var q := LowerSeq(ss[1..], c, r.flags);
      assert ([r.t] + q.ts)[1..] == q.ts;
      LoweringMeaning(ss[0], c, flags, st, fuel);
      FlagsGrowSeq(ss[1..], c, r.flags);
      var t := TExec(r.t, st, fuel);
      if t.TDone? && t.out == TNormal {
        SeqMeaning(ss[1..], c, r.flags, t.st, fuel);
      }
    }
  }

  /** A body run either falls through to the end of the iteration on both sides or leaves the loop on both. */
  lemma BodyCases(s: Run, t: TRun, loop: string, c: Context, flags: set<string>, masked: seq<Option<Counters>>)
    requires Agree(s, t, InLoop(loop, c), flags, masked)
    ensures var q := CatchOpt(ContinueFlag(loop, flags), t);
            if GoesOn(s) then q == TDone(TNormal, t.st)
            else q == t && (t.TDone? ==> t.out != Br(loop) && t.out != TNormal)
                 && Agree(Absorb(s), Catch(BlockLabel(loop), t), Context([], [], []), {}, masked)
  {
    LoopLabelsDiffer(loop);
  }

  /** The loop on both sides, with a break caught at the loop's block. */
  predicate LoopAgrees(k: LoopKind, loop: string, test: Option<Expr>, incr: Option<Action>, b: Stmt, r: Lowered,
                       st: State, fuel: nat)
  {
    Agree(Absorb(EmittedIterate(k, test, incr, b, View(st), fuel)),
          Catch(BlockLabel(loop), TIterate(k, loop, ContinueFlag(loop, r.flags), test, incr, r.t, st, fuel)),
          Context([], [], []), {}, MaskedAll(st.frames))
  }

  /** Iterating a body keeps agreeing. */
  lemma {:induction false} IterationMeaning(k: LoopKind, loop: string, test: Option<Expr>, incr: Option<Action>, b: Stmt,
                                              c: Context, flags: set<string>, st: State, fuel: nat)
    requires Scoped(b, true, true) && Written(b) && UserTest(test) && UserStep(incr)
    ensures LoopAgrees(k, loop, test, incr, b, Lower(b, InLoop(loop, c), flags), st, fuel)
    decreases fuel, b, 2
  {
    var r := Lower(b, InLoop(loop, c), flags);
    HoldsView(test, st);
    if fuel == 0 || (k == PreTest && !Holds(test, st)) {
      IterationEnds(k, loop, test, incr, b, r, st, fuel);
    } else {
      var s, t := Emitted(b, View(st), fuel - 1), TExec(r.t, st, fuel - 1);
      LoweringMeaning(b, InLoop(loop, c), flags, st, fuel - 1);
      if GoesOn(s) {
        IterationRest(k, loop, test, incr, b, c, flags, s, t, st, fuel);
      } else {
        IterationStops(k, loop, test, incr, b, r, c, s, t, st, fuel);
      }
    }
  }

  lemma IterationEnds(k: LoopKind, loop: string, test: Option<Expr>, incr: Option<Action>, b: Stmt, r: Lowered,
                      st: State, fuel: nat)
    requires fuel == 0 || (k == PreTest && !Holds(test, View(st)) && !Holds(test, st))
    ensures LoopAgrees(k, loop, test, incr, b, r, st, fuel)
  {
  }

  /** A body run that leaves the loop ends the iteration on both sides. */
  lemma IterationStops(k: LoopKind, loop: string, test: Option<Expr>, incr: Option<Action>, b: Stmt, r: Lowered,
                       c: Context, s: Run, t: TRun, st: State, fuel: nat)
    requires fuel > 0 && s == Emitted(b, View(st), fuel - 1) && !GoesOn(s) && t == TExec(r.t, st, fuel - 1)
    requires k == PreTest ==> Holds(test, View(st)) && Holds(test, st)
    requires Agree(s, t, InLoop(loop, c), r.flags, MaskedAll(st.frames))
    ensures LoopAgrees(k, loop, test, incr, b, r, st, fuel)
  {
    BodyCases(s, t, loop, c, r.flags, MaskedAll(st.frames));
  }

  /** What follows a body run that goes on: the increment, the test of a do loop, the next iterations. */
  lemma {:induction false} IterationRest(k: LoopKind, loop: string, test: Option<Expr>, incr: Option<Action>, b: Stmt,
                                         c: Context, flags: set<string>, s: Run, t: TRun, st: State, fuel: nat)
    requires Scoped(b, true, true) && Written(b) && UserTest(test) && UserStep(incr) && fuel > 0
    requires s == Emitted(b, View(st), fuel - 1) && GoesOn(s) && (k == PreTest ==> Holds(test, View(st)) && Holds(test, st))
    requires var r := Lower(b, InLoop(loop, c), flags);
             t == TExec(r.t, st, fuel - 1) && Agree(s, t, InLoop(loop, c), r.flags, MaskedAll(st.frames))
    ensures LoopAgrees(k, loop, test, incr, b, Lower(b, InLoop(loop, c), flags), st, fuel)
    decreases fuel, b, 1
  {
    var r := Lower(b, InLoop(loop, c), flags);
    BodyCases(s, t, loop, c, r.flags, MaskedAll(st.frames));
    var st1 := Step(incr, t.st);
    StepView(incr, t.st);
    HoldsView(test, st1);
    if k != PostTest || Holds(test, st1) {
      IterationMeaning(k, loop, test, incr, b, c, flags, st1, fuel - 1);
    }
    IterationGoesOn(k, loop, test, incr, b, r, s, t, st, st1, fuel);
  }

  /** One more iteration in front of a loop that agrees. */
  lemma IterationGoesOn(k: LoopKind, loop: string, test: Option<Expr>, incr: Option<Action>, b: Stmt, r: Lowered,
                        s: Run, t: TRun, st: State, st1: State, fuel: nat)
    requires fuel > 0 && s == Emitted(b, View(st), fuel - 1) && GoesOn(s) && t == TExec(r.t, st, fuel - 1) && t.TDone?
    requires k == PreTest ==> Holds(test, View(st)) && Holds(test, st)
    requires CatchOpt(ContinueFlag(loop, r.flags), t) == TDone(TNormal, t.st)
    requires st1 == Step(incr, t.st) && View(st1) == Step(incr, s.st) && MaskedAll(st1.frames) == MaskedAll(st.frames)
    requires Holds(test, View(st1)) == Holds(test, st1)
    requires k != PostTest || Holds(test, st1) ==> LoopAgrees(k, loop, test, incr, b, r, st1, fuel - 1)
    ensures LoopAgrees(k, loop, test, incr, b, r, st, fuel)
  {
  }

  lemma AgreeAnyContext(r: Run, t: TRun, c: Context, flags: set<string>, masked: seq<Option<Counters>>)
    requires Agree(r, t, Context([], [], []), {}, masked)
    ensures Agree(r, t, c, flags, masked)
  {
  }

  lemma SingletonRun(t: TStmt, st: State, fuel: nat)
    ensures TExecSeq([t], st, fuel) == TExec(t, st, fuel)
  {
    var r := TExec(t, st, fuel);
    if r.TDone? && r.out == TNormal {
      assert [t][1..] == [];
      assert TExecSeq([], r.st, fuel) == r;
    }
  }

  /** A loop in the scope it was given, and the end of that scope. */
  lemma {:induction false} LoopInScope(k: LoopKind, loop: string, init: Option<Action>, test: Option<Expr>, incr: Option<Action>,
                                       b: Stmt, c: Context, flags: set<string>, st: State, masked: seq<Option<Counters>>, fuel: nat)
    requires Scoped(b, true, true) && Written(b) && UserStep(init) && UserTest(test) && UserStep(incr)
    requires MaskedAll(st.frames) == [None] + masked
    ensures var r := Lower(b, InLoop(loop, c), flags);
            Agree(LeaveRun(Absorb(EmittedIterate(k, test, incr, b, Step(init, View(st)), fuel))),
                  TLeaveRun(TExecSeq([LoopOf(k, loop, init, test, incr, r)], st, fuel)), c, r.flags, masked)
    decreases fuel, b, 3
  {
    var r := Lower(b, InLoop(loop, c), flags);
    var st1 := Step(init, st);
    StepView(init, st);
    var loopStmt := LoopOf(k, loop, init, test, incr, r);
    SingletonRun(loopStmt, st, fuel);
    var src := Absorb(EmittedIterate(k, test, incr, b, View(st1), fuel));
    var tgt := TExec(loopStmt, st, fuel);
    assert Agree(src, tgt, Context([], [], []), {}, [None] + masked) by {
      IterationMeaning(k, loop, test, incr, b, c, flags, st1, fuel);
    }
    AgreeAnyContext(src, tgt, c, r.flags, [None] + masked);
    AgreeLeave(src, tgt, c, r.flags, None, masked);
  }

  function LoopOf(k: LoopKind, loop: string, init: Option<Action>, test: Option<Expr>, incr: Option<Action>, r: Lowered): TStmt {
    TLoop(k, loop, BlockLabel(loop), ContinueFlag(loop, r.flags), init, test, incr, r.t)
  }

  lemma {:induction false} PlainLoopMeaning(k: LoopKind, loop: string, ds: seq<string>, init: Option<Action>,
                                            test: Option<Expr>, incr: Option<Action>, b: Stmt,
                                            c: Context, flags: set<string>, st: State, fuel: nat)
    requires Scoped(b, true, true) && Written(b) && UserStep(init) && UserTest(test) && UserStep(incr)
    ensures var r := Lower(b, InLoop(loop, c), flags);
            Agree(LeaveRun(Absorb(EmittedIterate(k, test, incr, b, Step(init, Enter(ds, false, View(st))), fuel))),
                  TExec(PlainLoop(k, loop, init, test, incr, ds, r), st, fuel), c, r.flags, MaskedAll(st.frames))
    decreases fuel, b, 4
  {
    EnterView(ds, st);
    LoopInScope(k, loop, init, test, incr, b, c, flags, Enter(ds, false, st), MaskedAll(st.frames), fuel);
  }

  // ----- switch -----

  lemma TestsLowered(cs: seq<Clause>, c: Context, flags: set<string>)
    requires c.breaks != [] && ScopedClauses(cs, c.loops != [])
    ensures |LowerClauses(cs, c, flags).cs| == |cs|
    ensures TTests(LowerClauses(cs, c, flags).cs) == Tests(cs)
  {
    if cs != [] {
      var r := LowerSeq(cs[0].body, c, flags);
      TestsLowered(cs[1..], c, r.flags);
      var q := LowerClauses(cs[1..], c, r.flags);
      assert TTests([TClause(cs[0].test, r.ts)] + q.cs) == [cs[0].test] + TTests(q.cs);
      assert Tests(cs) == [cs[0].test] + Tests(cs[1..]);
    }
  }

  lemma WrittenAt(cs: seq<Clause>, i: nat)
    requires WrittenClauses(cs) && i < |cs|
    ensures UserTest(cs[i].test) && WrittenSeq(cs[i].body)
  {
    if i > 0 {
      WrittenAt(cs[1..], i - 1);
    }
  }

  /** The flags with which clause `i` is lowered. */
  function FlagsAt(cs: seq<Clause>, i: nat, c: Context, flags: set<string>): set<string>
    requires c.breaks != [] && ScopedClauses(cs, c.loops != []) && i <= |cs|
  {
    if i == 0 then flags else FlagsAt(cs[1..], i - 1, c, LowerSeq(cs[0].body, c, flags).flags)
  }

  lemma ClauseLowered(cs: seq<Clause>, i: nat, c: Context, flags: set<string>)
    requires c.breaks != [] && ScopedClauses(cs, c.loops != []) && i < |cs|
    ensures ScopedSeq(cs[i].body, c.loops != [], true)
    ensures |LowerClauses(cs, c, flags).cs| == |cs|
    ensures var r := LowerSeq(cs[i].body, c, FlagsAt(cs, i, c, flags));
            && LowerClauses(cs, c, flags).cs[i].body == r.ts
            && r.flags <= LowerClauses(cs, c, flags).flags
  {
    TestsLowered(cs, c, flags);
    var r := LowerSeq(cs[0].body, c, flags);
    if i == 0 {
      FlagsGrowClauses(cs[1..], c, r.flags);
    } else {
      ClauseLowered(cs[1..], i - 1, c, r.flags);
    }
  }

  /** A switch catches the break that targets it and lets a continue of the enclosing loop pass. */
  lemma SwitchAbsorbs(s: Run, t: TRun, c: Context, flags: set<string>, masked: seq<Option<Counters>>)
    requires Agree(s, t, InSwitch(c), flags, masked)
    ensures Agree(Absorb(s), Catch(BreakSwitchLabel(|c.switches| + 1), t), c, flags, masked)
  {
    if c.loops != [] {
      ContinuePassesSwitch(Top(c.loops), |c.switches| + 1);
    }
  }

  // ----- the order of the switch node -----

  lemma {:induction false} AllCases(ts: seq<TClause>)
    requires forall i :: 0 <= i < |ts| ==> ts[i].test.Some?
    ensures Cases(ts) == ts && DefaultOf(ts) == []
  {
    if ts != [] {
      AllCases(ts[1..]);
      assert ts == [ts[0]] + ts[1..];
    }
  }

  lemma {:induction false} DefaultIs(ts: seq<TClause>, d: nat)
    requires d < |ts| && ts[d].test.None? && forall i :: 0 <= i < |ts| && i != d ==> ts[i].test.Some?
    ensures Cases(ts) == ts[..d] + ts[d + 1..] && DefaultOf(ts) == [ts[d]]
  {
    if d == 0 {
      AllCases(ts[1..]);
      assert ts[..0] + ts[1..] == ts[1..];
    } else {
      DefaultIs(ts[1..], d - 1);
      assert [ts[0]] + (ts[1..][..d - 1] + ts[1..][d..]) == ts[..d] + ts[d + 1..];
    }
  }

  lemma {:induction false} NoDefaultFound(tests: seq<Option<Expr>>)
    ensures FirstDefault(tests) == |tests| ==> forall i :: 0 <= i < |tests| ==> tests[i].Some?
  {
    if tests != [] {
      NoDefaultFound(tests[1..]);
    }
  }

  lemma {:induction false} FirstDefaultIs(tests: seq<Option<Expr>>)
    ensures FirstDefault(tests) < |tests| ==> tests[FirstDefault(tests)].None?
  {
    if tests != [] {
      FirstDefaultIs(tests[1..]);
    }
  }

  /** The clauses of the node, position by position. */
  lemma NodeOrderAt(ts: seq<TClause>, tests: seq<Option<Expr>>, p: nat)
    requires TTests(ts) == tests && OneDefault(tests)
    ensures |NodeOrder(ts)| == |ts| && (p < |ts| ==> NodeOrder(ts)[p] == ts[ClauseAt(|ts|, FirstDefault(tests), p)])
  {
    var d := FirstDefault(tests);
    assert |ts| == |tests| && forall j :: 0 <= j < |ts| ==> ts[j].test == TTests(ts)[j] == tests[j];
    FirstDefaultIs(tests);
    NoDefaultFound(tests);
    if d < |ts| {
      DefaultIs(ts, d);
    } else {
      AllCases(ts);
    }
  }

  lemma {:induction false} FirstEqualIs(tests: seq<Option<Expr>>, v: Value, st: State, i: nat)
    requires i <= |tests| && (i < |tests| ==> tests[i].Some? && Eval(tests[i].value, st) == v)
    requires forall j :: 0 <= j < i && tests[j].Some? ==> Eval(tests[j].value, st) != v
    ensures FirstEqual(tests, v, st) == i
  {
    if i > 0 {
      FirstEqualIs(tests[1..], v, st, i - 1);
    }
  }

  lemma {:induction false} FirstEqualFinds(tests: seq<Option<Expr>>, v: Value, st: State)
    ensures var i := FirstEqual(tests, v, st);
            && (i < |tests| ==> tests[i].Some? && Eval(tests[i].value, st) == v)
            && forall j :: 0 <= j < i && tests[j].Some? ==> Eval(tests[j].value, st) != v
  {
    if tests != [] {
      FirstEqualFinds(tests[1..], v, st);
    }
  }

  lemma {:induction false} DefaultAt(tests: seq<Option<Expr>>, d: nat)
    requires d <= |tests| && (d < |tests| ==> tests[d].None?) && forall i :: 0 <= i < d ==> tests[i].Some?
    ensures FirstDefault(tests) == d
  {
    if d > 0 {
      DefaultAt(tests[1..], d - 1);
    }
  }

  /** Tests in the order of the node. */
  ghost predicate Reordered(tests: seq<Option<Expr>>, node: seq<Option<Expr>>) {
    |node| == |tests| && forall p :: 0 <= p < |node| ==> node[p] == tests[ClauseAt(|tests|, FirstDefault(tests), p)]
  }

  /** The emitted switch starts where it is told to. */
  lemma NodeStarts(tests: seq<Option<Expr>>, node: seq<Option<Expr>>, v: Value, st: State)
    requires OneDefault(tests) && Reordered(tests, node)
    ensures Entry(node, v, st) == StartAt(tests, v, st)
  {
    var n, i, d := |tests|, FirstEqual(tests, v, st), FirstDefault(tests);
    FirstEqualFinds(tests, v, st);
    FirstDefaultIs(tests);
    NoDefaultFound(tests);
    if i < n {
      FirstEqualIs(node, v, st, if d < i then i - 1 else i);
    } else {
      NodeEqualsNone(tests, node, v, st);
      DefaultAt(node, if d < n then n - 1 else n);
    }
  }

  lemma NodeEqualsNone(tests: seq<Option<Expr>>, node: seq<Option<Expr>>, v: Value, st: State)
    requires Reordered(tests, node) && FirstEqual(tests, v, st) == |tests|
    ensures FirstEqual(node, v, st) == |node|
  {
    FirstEqualFinds(tests, v, st);
    FirstEqualIs(node, v, st, |node|);
  }

  lemma NodeReordered(cs: seq<Clause>, c: Context, flags: set<string>)
    requires c.breaks != [] && ScopedClauses(cs, c.loops != []) && OneDefault(Tests(cs))
    ensures Reordered(Tests(cs), TTests(NodeOrder(LowerClauses(cs, c, flags).cs)))
  {
    var ts, tests := LowerClauses(cs, c, flags).cs, Tests(cs);
    TestsLowered(cs, c, flags);
    NodeOrderAt(ts, tests, 0);
    forall p | 0 <= p < |ts| ensures TTests(NodeOrder(ts))[p] == tests[ClauseAt(|tests|, FirstDefault(tests), p)] {
      NodeOrderAt(ts, tests, p);
      assert ts[ClauseAt(|tests|, FirstDefault(tests), p)].test == TTests(ts)[ClauseAt(|tests|, FirstDefault(tests), p)];
    }
  }

  lemma {:induction false} ClausesMeaning(cs: seq<Clause>, p: nat, c: Context, flags: set<string>, st: State, fuel: nat)
    requires c.breaks != [] && ScopedClauses(cs, c.loops != []) && WrittenClauses(cs) && OneDefault(Tests(cs))
    ensures Agree(EmittedClauses(cs, p, View(st), fuel), TExecClauses(NodeOrder(LowerClauses(cs, c, flags).cs), p, st, fuel),
                  c, LowerClauses(cs, c, flags).flags, MaskedAll(st.frames))
    decreases fuel, cs, |cs| - p
  {
    var ts := LowerClauses(cs, c, flags).cs;
    TestsLowered(cs, c, flags);
    NodeOrderAt(ts, Tests(cs), p);
    if p < |cs| {
      var i := ClauseAt(|cs|, FirstDefault(Tests(cs)), p);
      ClauseLowered(cs, i, c, flags);
      WrittenAt(cs, i);
      SeqMeaning(cs[i].body, c, FlagsAt(cs, i, c, flags), st, fuel);
      var t := TExecSeq(NodeOrder(ts)[p].body, st, fuel);
      if t.TDone? && t.out == TNormal {
        ClausesMeaning(cs, p + 1, c, flags, t.st, fuel);
      }
    }
  }

  lemma StartView(cs: seq<Clause>, v: Value, st: State)
    requires WrittenClauses(cs)
    ensures StartAt(Tests(cs), v, View(st)) == StartAt(Tests(cs), v, st)
  {
    forall i | 0 <= i < |cs| ensures UserTest(Tests(cs)[i]) { WrittenAt(cs, i); }
    FirstEqualView(Tests(cs), v, st);
  }

  lemma {:induction false} SwitchMeaning(s: Stmt, c: Context, flags: set<string>, st: State, fuel: nat)
    requires s.Switch? && ScopedIn(s, c) && Written(s)
    ensures Agree(Emitted(s, View(st), fuel), TExec(Lower(s, c, flags).t, st, fuel),
                  c, Lower(s, c, flags).flags, MaskedAll(st.frames))
    decreases fuel, s, 0
  {
    var cs, c1 := s.clauses, InSwitch(c);
    var r := LowerClauses(cs, c1, flags);
    var v := Eval(s.subject, st);
    var p := StartAt(Tests(cs), v, st);
    NodeReordered(cs, c1, flags);
    NodeStarts(Tests(cs), TTests(NodeOrder(r.cs)), v, st);
    EvalView(s.subject, st);
    StartView(cs, v, st);
    var src, tgt := EmittedClauses(cs, p, View(st), fuel), TExecClauses(NodeOrder(r.cs), p, st, fuel);
    assert Agree(src, tgt, c1, r.flags, MaskedAll(st.frames)) by {
      ClausesMeaning(cs, p, c1, flags, st, fuel);
    }
    SwitchAbsorbs(src, tgt, c, r.flags, MaskedAll(st.frames));
  }

  // ----- for-of -----

  /** The innermost scope holds the loop counter `i` and the cached length `n`. */
  predicate Counting(fs: seq<Frame>, i: int, n: int) {
    fs != [] && fs[0].counters == Some(Counters(Number(i), Number(n)))
  }

  lemma CountingStep(st: State, i: int, n: int)
    requires Counting(st.frames, i, n)
    ensures var st1 := Perform(Assign(LoopIndex, Add(Var(LoopIndex), Num(1))), st);
            && View(st1) == View(st) && Counting(st1.frames, i + 1, n)
            && MaskedAll(st1.frames[1..]) == MaskedAll(st.frames[1..])
  {
    var e := Add(Var(LoopIndex), Num(1));
    assert Eval(Var(LoopIndex), st) == Number(i);
    assert Eval(e, st) == Number(i + 1);
    var f := st.frames[0].Set(LoopIndex, Number(i + 1));
    assert ([f] + st.frames[1..])[1..] == st.frames[1..];
  }

  function ForOfBody(x: string, arr: Expr, b: Stmt, c: Context, flags: set<string>): TStmt
    requires ScopedIn(b, c)
  {
    Prepend(ElementAssign(x, arr), Lower(b, c, flags).t)
  }

  /** A run that left a for-of scope open on top: it agrees, and the scopes below kept their counters. */
  predicate AgreeInLoop(r: Run, t: TRun, below: seq<Option<Counters>>) {
    match r
    case Timeout => t.TTimeout?
    case Done(o, s) =>
      && t.TDone? && s == View(t.st) && SameOutcome(o, t.out, Context([], [], []), {})
      && t.st.frames != [] && MaskedAll(t.st.frames[1..]) == below
  }

  lemma AgreeOnTail(r: Run, t: TRun, st: State)
    requires Agree(r, t, Context([], [], []), {}, MaskedAll(st.frames)) && st.frames != []
    ensures AgreeInLoop(r, t, MaskedAll(st.frames[1..]))
  {
    if r.Done? {
      assert MaskedAll(t.st.frames)[1..] == MaskedAll(st.frames)[1..];
    }
  }

  lemma LoopTest(loop: string, flags: set<string>, body: TStmt, i: nat, n: nat, st: State)
    requires Counting(st.frames, i, n)
    ensures Holds(IndexLoop(loop, flags, body).test, st) == (i < n)
  {
    assert Eval(Var(LoopIndex), st) == Number(i) && Eval(Var(LastIndex), st) == Number(n);
  }

  function RunLoop(l: TStmt, st: State, fuel: nat): TRun
    requires l.TLoop?
  {
    TIterate(l.kind, l.loopLabel, l.cont, l.test, l.incr, l.loopBody, st, fuel)
  }

  lemma LoopGoesOn(l: TStmt, st: State, st1: State, fuel: nat)
    requires l.TLoop? && l.kind == PreTest && l.incr.Some? && fuel > 0 && Holds(l.test, st)
    requires CatchOpt(l.cont, TExec(l.loopBody, st, fuel - 1)) == TDone(TNormal, st1)
    ensures RunLoop(l, st, fuel) == RunLoop(l, Perform(l.incr.value, st1), fuel - 1)
  {
  }

  lemma LoopStops(l: TStmt, st: State, fuel: nat)
    requires l.TLoop? && l.kind == PreTest && fuel > 0 && Holds(l.test, st)
    requires var q := CatchOpt(l.cont, TExec(l.loopBody, st, fuel - 1));
             q.TDone? ==> q.out != Br(l.loopLabel) && q.out != TNormal
    ensures RunLoop(l, st, fuel) == CatchOpt(l.cont, TExec(l.loopBody, st, fuel - 1))
  {
  }

  /** After a body run that kept the counters, the increment leads to the next iteration. */
  lemma NextIteration(i: nat, n: nat, st: State, st1: State)
    requires Counting(st.frames, i, n) && MaskedAll(st1.frames) == MaskedAll(st.frames)
    ensures var st2 := Perform(Assign(LoopIndex, Add(Var(LoopIndex), Num(1))), st1);
            && View(st2) == View(st1) && Counting(st2.frames, i + 1, n)
            && MaskedAll(st2.frames[1..]) == MaskedAll(st.frames[1..])
  {
    assert MaskedAll(st1.frames)[0] == MaskedAll(st.frames)[0];
    assert MaskedAll(st1.frames)[1..] == MaskedAll(st.frames)[1..];
    CountingStep(st1, i, n);
  }

  // ----- rounds of a for-of loop -----

  lemma {:induction false} CountMeaning(x: string, arr: Expr, b: Stmt, loop: string, i: nat, n: nat,
                                        c: Context, flags: set<string>, st: State, fuel: nat)
    requires Scoped(b, true, true) && Written(b) && UserExpr(arr) && Counting(st.frames, i, n)
    ensures var c1 := InLoop(loop, c);
            var l := IndexLoop(loop, Lower(b, c1, flags).flags, ForOfBody(x, arr, b, c1, flags));
            AgreeInLoop(Absorb(EmittedCount(x, arr, i, n, b, View(st), fuel)),
                        Catch(BlockLabel(loop), RunLoop(l, st, fuel)), MaskedAll(st.frames[1..]))
    decreases fuel, b, 3
  {
    var c1 := InLoop(loop, c);
    var fl := Lower(b, c1, flags).flags;
    var l := IndexLoop(loop, fl, ForOfBody(x, arr, b, c1, flags));
    if fuel == 0 || i >= n {
      CountEnds(x, arr, b, l, loop, i, n, fl, st, fuel);
    } else {
      var s := EmittedInside(x, arr, i, b, View(st), fuel - 1);
      var t := TExec(l.loopBody, st, fuel - 1);
      assert Agree(s, t, c1, fl, MaskedAll(st.frames)) by {
        InsideMeaning(x, arr, b, i, n, c1, flags, st, fuel - 1);
      }
      if GoesOn(s) {
        CountRest(x, arr, b, l, loop, i, n, c, flags, s.st, t, st, fuel);
      }
      CountStep(x, arr, b, l, loop, i, n, c, fl, s, t, st, fuel);
    }
  }

  /** The rounds after one that goes on. */
  lemma {:induction false} CountRest(x: string, arr: Expr, b: Stmt, l: TStmt, loop: string, i: nat, n: nat,
                                     c: Context, flags: set<string>, s: State, t: TRun, st: State, fuel: nat)
    requires Scoped(b, true, true) && Written(b) && UserExpr(arr) && Counting(st.frames, i, n) && i < n && fuel > 0
    requires l == IndexLoop(loop, Lower(b, InLoop(loop, c), flags).flags, ForOfBody(x, arr, b, InLoop(loop, c), flags))
    requires t.TDone? && s == View(t.st) && MaskedAll(t.st.frames) == MaskedAll(st.frames)
    ensures AgreeInLoop(Absorb(EmittedCount(x, arr, i + 1, n, b, s, fuel - 1)),
                        Catch(BlockLabel(loop), RunLoop(l, Perform(l.incr.value, t.st), fuel - 1)),
                        MaskedAll(st.frames[1..]))
    decreases fuel, b, 2
  {
    NextIteration(i, n, st, t.st);
    CountMeaning(x, arr, b, loop, i + 1, n, c, flags, Perform(l.incr.value, t.st), fuel - 1);
  }

  /** No further round: both loops end, or run out of fuel. */
  lemma CountEnds(x: string, arr: Expr, b: Stmt, l: TStmt, loop: string, i: nat, n: nat, fl: set<string>, st: State, fuel: nat)
    requires l.TLoop? && l == IndexLoop(loop, fl, l.loopBody) && Counting(st.frames, i, n) && (fuel == 0 || i >= n)
    ensures AgreeInLoop(Absorb(EmittedCount(x, arr, i, n, b, View(st), fuel)), Catch(BlockLabel(loop), RunLoop(l, st, fuel)),
                        MaskedAll(st.frames[1..]))
  {
    LoopTest(loop, fl, l.loopBody, i, n, st);
  }

  /** A round and agreement of the remaining rounds make agreement of the loop. */
  lemma CountStep(x: string, arr: Expr, b: Stmt, l: TStmt, loop: string, i: nat, n: nat,
                  c: Context, fl: set<string>, s: Run, t: TRun, st: State, fuel: nat)
    requires l.TLoop? && l == IndexLoop(loop, fl, l.loopBody) && fuel > 0 && Counting(st.frames, i, n) && i < n
    requires s == EmittedInside(x, arr, i, b, View(st), fuel - 1) && t == TExec(l.loopBody, st, fuel - 1)
    requires Agree(s, t, InLoop(loop, c), fl, MaskedAll(st.frames))
    requires GoesOn(s) ==>
               AgreeInLoop(Absorb(EmittedCount(x, arr, i + 1, n, b, s.st, fuel - 1)),
                           Catch(BlockLabel(loop), RunLoop(l, Perform(l.incr.value, t.st), fuel - 1)),
                           MaskedAll(st.frames[1..]))
    ensures AgreeInLoop(Absorb(EmittedCount(x, arr, i, n, b, View(st), fuel)), Catch(BlockLabel(loop), RunLoop(l, st, fuel)),
                        MaskedAll(st.frames[1..]))
  {
    LoopTest(loop, fl, l.loopBody, i, n, st);
    BodyCases(s, t, loop, c, fl, MaskedAll(st.frames));
    if GoesOn(s) {
      LoopGoesOn(l, st, t.st, fuel);
    } else {
      LoopStops(l, st, fuel);
      AgreeOnTail(Absorb(s), Catch(BlockLabel(loop), t), st);
    }
  }

  // ----- what the element assignment does in the scope of the body -----

  lemma FetchView(x: string, arr: Expr, i: nat, n: nat, ds: seq<string>, st: State)
    requires Counting(st.frames, i, n) && UserExpr(arr)
    ensures var st1 := Perform(ElementAssign(x, arr), Enter(ds, false, st));
            && View(st1) == Fetch(x, arr, i, Enter(ds, false, View(st)))
            && MaskedAll(st1.frames) == [None] + MaskedAll(st.frames)
  {
    var st0 := Enter(ds, false, st);
    EnterView(ds, st);
    assert st0.frames[1..] == st.frames && !st0.frames[0].Declares(LoopIndex);
    assert Lookup(st.frames, LoopIndex) == Number(i);
    assert Eval(Var(LoopIndex), st0) == Number(i);
    EvalView(arr, st0);
    UpdateView(st0.frames, User(x), Eval(ElementAssign(x, arr).e, st0));
  }

  /** In the scope of an inner for-of loop the counter is not set. */
  lemma InnerFetchView(x: string, arr: Expr, ds: seq<string>, st: State)
    ensures var st1 := Perform(ElementAssign(x, arr), Enter(ds, true, st));
            && View(st1) == Bind(x, Undef, Enter(ds, false, View(st)))
            && HasCounters(st1) && MaskedAll(st1.frames[1..]) == MaskedAll(st.frames)
  {
    var st0 := Enter(ds, true, st);
    CountersEntered(ds, st);
    assert Eval(Var(LoopIndex), st0) == Undef && Eval(ElementAssign(x, arr).e, st0) == Undef;
    UpdateView(st0.frames, User(x), Undef);
    var st1 := Perform(ElementAssign(x, arr), st0);
    MaskedTail(st1);
    MaskedTail(st0);
  }

  /** The innermost scope is that of a for-of loop. */
  predicate HasCounters(st: State) { st.frames != [] && st.frames[0].counters.Some? }

  lemma CountersEntered(ds: seq<string>, st: State)
    ensures var st0 := Enter(ds, true, st);
            View(st0) == Enter(ds, false, View(st)) && HasCounters(st0) && MaskedAll(st0.frames[1..]) == MaskedAll(st.frames)
  {
    assert Enter(ds, true, st).frames[1..] == st.frames;
  }

  lemma MaskedTail(st: State)
    requires st.frames != []
    ensures MaskedAll(st.frames) != [] && MaskedAll(st.frames)[0] == st.frames[0].counters
    ensures MaskedAll(st.frames)[1..] == MaskedAll(st.frames[1..])
  {
  }

  lemma PrependRuns(a: Action, ds: seq<string>, counters: bool, body: seq<TStmt>, st: State, fuel: nat)
    ensures TExec(TBlock(ds, counters, [TDo(a)] + body), st, fuel)
            == TLeaveRun(TExecSeq(body, Perform(a, Enter(ds, counters, st)), fuel))
  {
    assert ([TDo(a)] + body)[1..] == body;
    assert TExec(TDo(a), Enter(ds, counters, st), fuel) == TDone(TNormal, Perform(a, Enter(ds, counters, st)));
  }

  // ----- a round -----

  /** One round: fetch the element inside the body's scope, run the body, keep the counter. */
  lemma {:induction false} InsideMeaning(x: string, arr: Expr, b: Stmt, i: nat, n: nat, c: Context, flags: set<string>,
                                         st: State, fuel: nat)
    requires ScopedIn(b, c) && Written(b) && UserExpr(arr) && Counting(st.frames, i, n)
    ensures Agree(EmittedInside(x, arr, i, b, View(st), fuel), TExec(ForOfBody(x, arr, b, c, flags), st, fuel),
                  c, Lower(b, c, flags).flags, MaskedAll(st.frames))
    decreases fuel, b, 3
  {
    FetchView(x, arr, i, n, BodyDecls(b), st);
    match b
    case Block(_, _) => InsideBlock(x, arr, b, i, c, flags, st, fuel);
    case While(_, _) => InsideLoop(x, arr, b, i, c, flags, st, fuel);
    case DoWhile(_, _) => InsideLoop(x, arr, b, i, c, flags, st, fuel);
    case For(_, _, _, _, _) => InsideLoop(x, arr, b, i, c, flags, st, fuel);
    case ForOf(_, _, _, _) => InsideForOf(x, arr, b, i, c, flags, st, fuel);
    case _ => InsideOther(x, arr, b, i, c, flags, st, fuel);
  }

  /** The element assignment in the scope of the body does what is told of it. */
  ghost predicate Fetches(x: string, arr: Expr, i: nat, ds: seq<string>, st: State) {
    var st1 := Perform(ElementAssign(x, arr), Enter(ds, false, st));
    View(st1) == Fetch(x, arr, i, Enter(ds, false, View(st))) && MaskedAll(st1.frames) == [None] + MaskedAll(st.frames)
  }

  lemma {:induction false} InsideBlock(x: string, arr: Expr, b: Stmt, i: nat, c: Context, flags: set<string>, st: State, fuel: nat)
    requires b.Block? && ScopedIn(b, c) && Written(b) && Fetches(x, arr, i, b.decls, st)
    ensures Agree(EmittedInside(x, arr, i, b, View(st), fuel), TExec(ForOfBody(x, arr, b, c, flags), st, fuel),
                  c, Lower(b, c, flags).flags, MaskedAll(st.frames))
    decreases fuel, b, 1
  {
    var a, r := ElementAssign(x, arr), LowerSeq(b.body, c, flags);
    var st1 := Perform(a, Enter(b.decls, false, st));
    PrependRuns(a, b.decls, false, r.ts, st, fuel);
    SeqMeaning(b.body, c, flags, st1, fuel);
    AgreeLeave(EmittedSeq(b.body, View(st1), fuel), TExecSeq(r.ts, st1, fuel), c, r.flags, None, MaskedAll(st.frames));
  }

  lemma {:induction false} InsideLoop(x: string, arr: Expr, b: Stmt, i: nat, c: Context, flags: set<string>, st: State, fuel: nat)
    requires (b.While? || b.DoWhile? || b.For?) && ScopedIn(b, c) && Written(b) && Fetches(x, arr, i, BodyDecls(b), st)
    ensures Agree(EmittedInside(x, arr, i, b, View(st), fuel), TExec(ForOfBody(x, arr, b, c, flags), st, fuel),
                  c, Lower(b, c, flags).flags, MaskedAll(st.frames))
    decreases fuel, b, 1
  {
    var a, loop := ElementAssign(x, arr), LoopLabel(b, |c.loops|);
    var st1 := Perform(a, Enter(BodyDecls(b), false, st));
    var r := Lower(b.loopBody, InLoop(loop, c), flags);
    match b
    case While(e, b2) =>
      PrependRuns(a, [], false, [LoopOf(PreTest, loop, None, Some(e), None, r)], st, fuel);
      LoopInScope(PreTest, loop, None, Some(e), None, b2, c, flags, st1, MaskedAll(st.frames), fuel);
    case DoWhile(b2, e) =>
      PrependRuns(a, [], false, [LoopOf(PostTest, loop, None, Some(e), None, r)], st, fuel);
      LoopInScope(PostTest, loop, None, Some(e), None, b2, c, flags, st1, MaskedAll(st.frames), fuel);
    case For(ds, init, e, incr, b2) =>
      PrependRuns(a, ds, false, [LoopOf(PreTest, loop, init, e, incr, r)], st, fuel);
      LoopInScope(PreTest, loop, init, e, incr, b2, c, flags, st1, MaskedAll(st.frames), fuel);
  }

  lemma {:induction false} InsideForOf(x: string, arr: Expr, b: Stmt, i: nat, c: Context, flags: set<string>, st: State, fuel: nat)
    requires b.ForOf? && ScopedIn(b, c) && Written(b)
    ensures Agree(EmittedInside(x, arr, i, b, View(st), fuel), TExec(ForOfBody(x, arr, b, c, flags), st, fuel),
                  c, Lower(b, c, flags).flags, MaskedAll(st.frames))
    decreases fuel, b, 1
  {
    var a := ElementAssign(x, arr);
    var st1 := Perform(a, Enter(b.decls, true, st));
    InnerFetchView(x, arr, b.decls, st);
    PrependRuns(a, b.decls, true, [TDo(Assign(LastIndex, Len(b.arr))), ForOfInner(b, c, flags)], st, fuel);
    ForOfInScope(b, c, flags, st1, fuel);
  }

  lemma {:induction false} InsideOther(x: string, arr: Expr, b: Stmt, i: nat, c: Context, flags: set<string>, st: State, fuel: nat)
    requires !(b.Block? || b.While? || b.DoWhile? || b.For? || b.ForOf?) && ScopedIn(b, c) && Written(b) && Fetches(x, arr, i, [], st)
    ensures Agree(EmittedInside(x, arr, i, b, View(st), fuel), TExec(ForOfBody(x, arr, b, c, flags), st, fuel),
                  c, Lower(b, c, flags).flags, MaskedAll(st.frames))
    decreases fuel, b, 2
  {
    var a, r := ElementAssign(x, arr), Lower(b, c, flags);
    var st1 := Perform(a, Enter([], false, st));
    assert [TDo(a), r.t] == [TDo(a)] + [r.t];
    PrependRuns(a, [], false, [r.t], st, fuel);
    SingletonRun(r.t, st1, fuel);
    LoweringMeaning(b, c, flags, st1, fuel);
    AgreeLeave(Emitted(b, View(st1), fuel), TExec(r.t, st1, fuel), c, r.flags, None, MaskedAll(st.frames));
  }

  // ----- the whole loop -----

  /** The scope of a lowered for-of loop, once counter and length are set. */
  function Started(arr: Expr, st: State): State {
    Perform(Assign(LoopIndex, Num(0)), Perform(Assign(LastIndex, Len(arr)), st))
  }

  lemma StartedCounts(arr: Expr, st: State)
    requires UserExpr(arr) && HasCounters(st)
    ensures var st2 := Started(arr, st);
            && View(st2) == View(st) && st2.frames[1..] == st.frames[1..]
            && Counting(st2.frames, 0, |Elements(Eval(arr, View(st)), st.heap)|)
  {
    var n := Eval(Len(arr), st);
    EvalView(arr, st);
    var f1 := st.frames[0].Set(LastIndex, n);
    var f2 := f1.Set(LoopIndex, Number(0));
    var st1 := Perform(Assign(LastIndex, Len(arr)), st);
    assert st1.frames == [f1] + st.frames[1..] && st1.frames[1..] == st.frames[1..];
    var st2 := Started(arr, st);
    assert st2.frames == [f2] + st.frames[1..] && st2.frames[1..] == st.frames[1..];
  }

  lemma TwoStepRun(a: Action, t: TStmt, st: State, fuel: nat)
    ensures TExecSeq([TDo(a), t], st, fuel) == TExec(t, Perform(a, st), fuel)
  {
    assert [TDo(a), t][1..] == [t];
    SingletonRun(t, Perform(a, st), fuel);
  }

  lemma AgreeLeaveLoop(r: Run, t: TRun, c: Context, flags: set<string>, below: seq<Option<Counters>>)
    requires AgreeInLoop(r, t, below)
    ensures Agree(LeaveRun(r), TLeaveRun(t), c, flags, below)
  {
    if r.Done? {
      LeaveView(t.st);
    }
  }

  /** The loop a for-of is lowered to, behind the assignments that start its counters. */
  function ForOfInner(s: Stmt, c: Context, flags: set<string>): TStmt
    requires s.ForOf? && ScopedIn(s, c)
  {
    var loop := LoopLabel(s, |c.loops|);
    var c1 := InLoop(loop, c);
    IndexLoop(loop, Lower(s.loopBody, c1, flags).flags, ForOfBody(s.x, s.arr, s.loopBody, c1, flags))
  }

  /** A for-of loop in a scope with counters, and the end of that scope. */
  lemma {:induction false} ForOfInScope(s: Stmt, c: Context, flags: set<string>, st: State, fuel: nat)
    requires s.ForOf? && ScopedIn(s, c) && Written(s) && HasCounters(st)
    ensures Agree(LeaveRun(Absorb(EmittedForOf(s.x, s.arr, s.loopBody, View(st), fuel))),
                  TLeaveRun(TExecSeq([TDo(Assign(LastIndex, Len(s.arr))), ForOfInner(s, c, flags)], st, fuel)),
                  c, Lower(s, c, flags).flags, MaskedAll(st.frames[1..]))
    decreases fuel, s.loopBody, 4
  {
    var loop, inner := LoopLabel(s, |c.loops|), ForOfInner(s, c, flags);
    var st2, n := Started(s.arr, st), |Elements(Eval(s.arr, View(st)), st.heap)|;
    StartedCounts(s.arr, st);
    TwoStepRun(Assign(LastIndex, Len(s.arr)), inner, st, fuel);
    CountMeaning(s.x, s.arr, s.loopBody, loop, 0, n, c, flags, st2, fuel);
    AgreeLeaveLoop(Absorb(EmittedCount(s.x, s.arr, 0, n, s.loopBody, View(st2), fuel)),
                   Catch(BlockLabel(loop), RunLoop(inner, st2, fuel)), c, Lower(s, c, flags).flags, MaskedAll(st.frames[1..]));
  }

  lemma {:induction false} ForOfMeaning(s: Stmt, c: Context, flags: set<string>, st: State, fuel: nat)
    requires s.ForOf? && ScopedIn(s, c) && Written(s)
    ensures Agree(Emitted(s, View(st), fuel), TExec(Lower(s, c, flags).t, st, fuel),
                  c, Lower(s, c, flags).flags, MaskedAll(st.frames))
    decreases fuel, s, 0
  {
    CountersEntered(s.decls, st);
    ForOfInScope(s, c, flags, Enter(s.decls, true, st), fuel);
  }

  // ----- covered programs -----

  /** Lowering preserves the meaning of covered statements. */
  lemma LoweringPreservesMeaning(s: Stmt, c: Context, flags: set<string>, st: State, fuel: nat)
    requires ScopedIn(s, c) && Good(s)
    ensures Agree(Exec(s, View(st), fuel), TExec(Lower(s, c, flags).t, st, fuel),
                  c, Lower(s, c, flags).flags, MaskedAll(st.frames))
  {
    GoodIsWritten(s);
    LoweringMeaning(s, c, flags, st, fuel);
    RunsAsWritten(s, View(st), fuel);
  }
}
