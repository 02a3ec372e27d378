/**
 The statement processor: label stacks, break and continue, and the rewriting
 of for-of into an indexed for loop.
 */
module Lowering {
  import opened Prelude
  import opened LoweringSyntax

  /** The three label stacks, bottom first. */
  datatype Context = Context(loops: seq<string>, breaks: seq<string>, switches: seq<nat>)

  datatype Lowered = Lowered(t: TStmt, flags: set<string>)

  datatype LoweredSeq = LoweredSeq(ts: seq<TStmt>, flags: set<string>)

  datatype LoweredClauses = LoweredClauses(cs: seq<TClause>, flags: set<string>)

  const NO_LABELS := Context([], [], [])

  function Top<T>(stack: seq<T>): T
    requires stack != []
  {
    stack[|stack| - 1]
  }

  function BlockLabel(loop: string): string { loop + "block" }

  function ContinueLabel(loop: string): string { loop + "_continue" }

  function LoopLabel(s: Stmt, depth: nat): string {
    (if s.While? then "while_loop_" else if s.DoWhile? then "do_loop_" else "for_loop_") + Decimal(depth)
  }

  function BreakSwitchLabel(depth: nat): string { "break-switch-" + Decimal(depth) }

  function SwitchLabel(depth: nat): string { "_" + Decimal(depth) }

  function InLoop(loop: string, c: Context): Context {
    Context(c.loops + [loop], c.breaks + [BlockLabel(loop)], c.switches)
  }

  function InSwitch(c: Context): Context {
    Context(c.loops, c.breaks + [BreakSwitchLabel(|c.switches| + 1)], c.switches + [|c.switches|])
  }

  /** What the TypeScript checker guarantees: jumps occur only where they have a target. */
  predicate Scoped(s: Stmt, inLoop: bool, inBreakable: bool)
    decreases s, 1
  {
    match s
    case Block(_, body) => ScopedSeq(body, inLoop, inBreakable)
    case If(_, t, e) => Scoped(t, inLoop, inBreakable) && Scoped(e, inLoop, inBreakable)
    case While(_, b) => Scoped(b, true, true)
    case DoWhile(b, _) => Scoped(b, true, true)
    case For(_, _, _, _, b) => Scoped(b, true, true)
    case ForOf(_, _, _, b) => Scoped(b, true, true)
    case Switch(_, cs) => ScopedClauses(cs, inLoop)
    case Break => inBreakable
    case Continue => inLoop
    case _ => true
  }

  predicate ScopedSeq(ss: seq<Stmt>, inLoop: bool, inBreakable: bool)
    decreases ss, 0
  {
    ss == [] || (Scoped(ss[0], inLoop, inBreakable) && ScopedSeq(ss[1..], inLoop, inBreakable))
  }

  predicate ScopedClauses(cs: seq<Clause>, inLoop: bool)
    decreases cs, 0
  {
    cs == [] || (ScopedSeq(cs[0].body, inLoop, true) && ScopedClauses(cs[1..], inLoop))
  }

  predicate ScopedIn(s: Stmt, c: Context) {
    Scoped(s, c.loops != [], c.breaks != [])
  }

  // ----- the lowering as a function of the statement, the stacks and the continue flags -----

  function ContinueFlag(loop: string, flags: set<string>): Option<string> {
    if ContinueLabel(loop) in flags then Some(ContinueLabel(loop)) else None
  }

  /** Puts the element assignment first in the scope of a lowered for-of body. */
  function Prepend(a: Action, body: TStmt): TStmt {
    if body.TBlock? then TBlock(body.decls, body.counters, [TDo(a)] + body.body)
    else TBlock([], false, [TDo(a), body])
  }

  function ElementAssign(x: string, arr: Expr): Action { Assign(User(x), Index(arr, Var(LoopIndex))) }

  function IndexLoop(loop: string, flags: set<string>, body: TStmt): TStmt {
    TLoop(PreTest, loop, BlockLabel(loop), ContinueFlag(loop, flags),
          Some(Assign(LoopIndex, Num(0))),
          Some(Less(Var(LoopIndex), Var(LastIndex))),
          Some(Assign(LoopIndex, Add(Var(LoopIndex), Num(1)))),
          body)
  }

  function ForOfLoop(ds: seq<string>, arr: Expr, loop: TStmt): TStmt {
    TBlock(ds, true, [TDo(Assign(LastIndex, Len(arr))), loop])
  }

  function PlainLoop(k: LoopKind, loop: string, init: Option<Action>, test: Option<Expr>, incr: Option<Action>,
                     ds: seq<string>, b: Lowered): TStmt
  {
    TBlock(ds, false, [TLoop(k, loop, BlockLabel(loop), ContinueFlag(loop, b.flags), init, test, incr, b.t)])
  }

  // ----- the clauses of a switch -----

  function Cases(cs: seq<TClause>): seq<TClause> {
    if cs == [] then []
    else if cs[0].test.Some? then [cs[0]] + Cases(cs[1..])
    else Cases(cs[1..])
  }

  /** The last default clause, of which the grammar admits only one. */
  function DefaultOf(cs: seq<TClause>): (d: seq<TClause>)
    ensures |d| <= 1 && forall i :: 0 <= i < |d| ==> d[i].test.None?
  {
    if cs == [] then []
    else if DefaultOf(cs[1..]) != [] then DefaultOf(cs[1..])
    else if cs[0].test.None? then [cs[0]]
    else []
  }

  /** The order in which a switch node holds its clauses: the default is taken out and put behind all cases. */
  function NodeOrder(cs: seq<TClause>): seq<TClause> {
    Cases(cs) + DefaultOf(cs)
  }

  lemma {:induction false} NodeOrderSnoc(cs: seq<TClause>, c: TClause)
    ensures Cases(cs + [c]) == Cases(cs) + if c.test.Some? then [c] else []
    ensures DefaultOf(cs + [c]) == if c.test.None? then [c] else DefaultOf(cs)
  {
    var all := cs + [c];
    if cs == [] {
      assert all[1..] == [];
    } else {
      assert all[0] == cs[0] && all[1..] == cs[1..] + [c];
      NodeOrderSnoc(cs[1..], c);
    }
  }

  /** The loop that builds a switch node. */
  method BuildSwitch(clauses: seq<TClause>) returns (cs: seq<TClause>)
    ensures cs == NodeOrder(clauses)
  {
    var caseNodes, defaultNode: Option<TClause> := [], None;
    var i := 0;
    while i < |clauses|
      invariant i <= |clauses|
      invariant caseNodes == Cases(clauses[..i])
      invariant (if defaultNode.Some? then [defaultNode.value] else []) == DefaultOf(clauses[..i])
    {
      var clause := clauses[i];
      assert clauses[..i + 1] == clauses[..i] + [clause];
      NodeOrderSnoc(clauses[..i], clause);
      if clause.test.None? {
        defaultNode := Some(clause);
      } else {
        caseNodes := caseNodes + [clause];
      }
      i := i + 1;
    }
    assert clauses[..i] == clauses;
    cs := caseNodes + if defaultNode.Some? then [defaultNode.value] else [];
  }

  function Lower(s: Stmt, c: Context, flags: set<string>): Lowered
    requires ScopedIn(s, c)
    decreases s, 1
  {
    match s
    case Empty => Lowered(TEmpty, flags)
    case Do(a) => Lowered(TDo(a), flags)
    case Return(e) => Lowered(TReturn(e), flags)
    case Block(ds, body) =>
      var r := LowerSeq(body, c, flags);
      Lowered(TBlock(ds, false, r.ts), r.flags)
    case If(e, t, f) =>
      var r := Lower(t, c, flags);
      var q := Lower(f, c, r.flags);
      Lowered(TIf(e, r.t, q.t), q.flags)
    case While(e, b) =>
      var loop := LoopLabel(s, |c.loops|);
      var r := Lower(b, InLoop(loop, c), flags);
      Lowered(PlainLoop(PreTest, loop, None, Some(e), None, [], r), r.flags)
    case DoWhile(b, e) =>
      var loop := LoopLabel(s, |c.loops|);
      var r := Lower(b, InLoop(loop, c), flags);
      Lowered(PlainLoop(PostTest, loop, None, Some(e), None, [], r), r.flags)
    case For(ds, i, e, n, b) =>
      var loop := LoopLabel(s, |c.loops|);
      var r := Lower(b, InLoop(loop, c), flags);
      Lowered(PlainLoop(PreTest, loop, i, e, n, ds, r), r.flags)
    case ForOf(ds, x, arr, b) =>
      var loop := LoopLabel(s, |c.loops|);
      var r := Lower(b, InLoop(loop, c), flags);
      Lowered(ForOfLoop(ds, arr, IndexLoop(loop, r.flags, Prepend(ElementAssign(x, arr), r.t))), r.flags)
    case Switch(e, cs) =>
      var r := LowerClauses(cs, InSwitch(c), flags);
      Lowered(TSwitch(e, SwitchLabel(|c.switches|), BreakSwitchLabel(|c.switches| + 1), NodeOrder(r.cs)), r.flags)
    case Break => Lowered(TBreak(Top(c.breaks)), flags)
    case Continue =>
      var target := ContinueLabel(Top(c.loops));
      Lowered(TContinue(target), flags + {target})
  }

  function LowerSeq(ss: seq<Stmt>, c: Context, flags: set<string>): LoweredSeq
    requires ScopedSeq(ss, c.loops != [], c.breaks != [])
    decreases ss, 0
  {
    if ss == [] then LoweredSeq([], flags)
    else
      var r := Lower(ss[0], c, flags);
      var q := LowerSeq(ss[1..], c, r.flags);
      LoweredSeq([r.t] + q.ts, q.flags)
  }

  function LowerClauses(cs: seq<Clause>, c: Context, flags: set<string>): LoweredClauses
    requires c.breaks != [] && ScopedClauses(cs, c.loops != [])
    decreases cs, 0
  {
    if cs == [] then LoweredClauses([], flags)
    else
      var r := LowerSeq(cs[0].body, c, flags);
      var q := LowerClauses(cs[1..], c, r.flags);
      LoweredClauses([TClause(cs[0].test, r.ts)] + q.cs, q.flags)
  }

  lemma LowerSeqUnfold(ss: seq<Stmt>, i: nat, c: Context, flags: set<string>)
    requires i < |ss| && ScopedSeq(ss[i..], c.loops != [], c.breaks != [])
    ensures ScopedIn(ss[i], c) && ScopedSeq(ss[i + 1..], c.loops != [], c.breaks != [])
    ensures var r := Lower(ss[i], c, flags);
            var q := LowerSeq(ss[i + 1..], c, r.flags);
            LowerSeq(ss[i..], c, flags) == LoweredSeq([r.t] + q.ts, q.flags)
  {
    assert ss[i] == ss[i..][0] && ss[i + 1..] == ss[i..][1..];
  }

  // ----- the processor itself -----

  class StatementProcessor {
    var loopLabelStack: seq<string>
    var breakLabelsStack: seq<string>
    var switchLabelStack: seq<nat>
    var continueFlagMap: set<string>

    constructor ()
      ensures Labels() == Context([], [], [])
      ensures continueFlagMap == {}
    {
      loopLabelStack, breakLabelsStack, switchLabelStack, continueFlagMap := [], [], [], {};
    }

    function Labels(): Context
      reads this
    {
      Context(loopLabelStack, breakLabelsStack, switchLabelStack)
    }

    method PushLoop(loop: string)
      modifies this
      ensures Labels() == InLoop(loop, old(Labels()))
      ensures continueFlagMap == old(continueFlagMap)
    {
      breakLabelsStack := breakLabelsStack + [BlockLabel(loop)];
      loopLabelStack := loopLabelStack + [loop];
    }

    method PopLoop()
      requires loopLabelStack != [] && breakLabelsStack != []
      modifies this
      ensures Labels() == Context(old(loopLabelStack)[..|old(loopLabelStack)| - 1],
                                  old(breakLabelsStack)[..|old(breakLabelsStack)| - 1], old(switchLabelStack))
      ensures continueFlagMap == old(continueFlagMap)
    {
      breakLabelsStack := breakLabelsStack[..|breakLabelsStack| - 1];
      loopLabelStack := loopLabelStack[..|loopLabelStack| - 1];
    }

    /** Lowers the body of a loop between pushing and popping the loop's labels. */
    method VisitLoopBody(loop: string, b: Stmt) returns (t: TStmt)
      requires Scoped(b, true, true)
      modifies this
      ensures Labels() == old(Labels())
      ensures Lowered(t, continueFlagMap) == Lower(b, InLoop(loop, old(Labels())), old(continueFlagMap))
      decreases b, 2
    {
      PushLoop(loop);
      t := VisitNode(b);
      PopLoop();
    }

    method VisitNode(s: Stmt) returns (t: TStmt)
      requires ScopedIn(s, Labels())
      modifies this
      ensures Labels() == old(Labels())
      ensures Lowered(t, continueFlagMap) == Lower(s, old(Labels()), old(continueFlagMap))
      decreases s, 1
    {
      match s
      case Empty => t := TEmpty;
      case Do(a) => t := TDo(a);
      case Return(e) => t := TReturn(e);
      case Block(ds, body) =>
        var ts := VisitStatements(body);
        t := TBlock(ds, false, ts);
      case If(e, thn, els) =>
        var a := VisitNode(thn);
        var b := VisitNode(els);
        t := TIf(e, a, b);
      case While(e, b) =>
        var loop := LoopLabel(s, |loopLabelStack|);
        var body := VisitLoopBody(loop, b);
        t := PlainLoop(PreTest, loop, None, Some(e), None, [], Lowered(body, continueFlagMap));
      case DoWhile(b, e) =>
        var loop := LoopLabel(s, |loopLabelStack|);
        var body := VisitLoopBody(loop, b);
        t := PlainLoop(PostTest, loop, None, Some(e), None, [], Lowered(body, continueFlagMap));
      case For(ds, i, e, n, b) =>
        var loop := LoopLabel(s, |loopLabelStack|);
        var body := VisitLoopBody(loop, b);
        t := PlainLoop(PreTest, loop, i, e, n, ds, Lowered(body, continueFlagMap));
      case ForOf(ds, x, arr, b) =>
        var loop := LoopLabel(s, |loopLabelStack|);
        var body := VisitLoopBody(loop, b);
        t := ForOfLoop(ds, arr, IndexLoop(loop, continueFlagMap, Prepend(ElementAssign(x, arr), body)));
      case Switch(e, cs) =>
        var depth := |switchLabelStack|;
        switchLabelStack := switchLabelStack + [depth];
        breakLabelsStack := breakLabelsStack + [BreakSwitchLabel(|switchLabelStack|)];
        var clauses := VisitClauses(cs);
        var ordered := BuildSwitch(clauses);
        t := TSwitch(e, SwitchLabel(Top(switchLabelStack)), Top(breakLabelsStack), ordered);
        switchLabelStack := switchLabelStack[..|switchLabelStack| - 1];
        breakLabelsStack := breakLabelsStack[..|breakLabelsStack| - 1];
      case Break => t := TBreak(Top(breakLabelsStack));
      case Continue =>
        var target := ContinueLabel(Top(loopLabelStack));
        continueFlagMap := continueFlagMap + {target};
        t := TContinue(target);
    }

    method VisitStatements(ss: seq<Stmt>) returns (ts: seq<TStmt>)
      requires ScopedSeq(ss, loopLabelStack != [], breakLabelsStack != [])
      modifies this
      ensures Labels() == old(Labels())
      ensures LoweredSeq(ts, continueFlagMap) == LowerSeq(ss, old(Labels()), old(continueFlagMap))
      decreases ss, 0
    {
      ts := [];
      var i := 0;
      while i < |ss|
        invariant 0 <= i <= |ss|
        invariant Labels() == old(Labels())
        invariant ScopedSeq(ss[i..], loopLabelStack != [], breakLabelsStack != [])
        invariant var rest := LowerSeq(ss[i..], old(Labels()), continueFlagMap);
                  LowerSeq(ss, old(Labels()), old(continueFlagMap)) == LoweredSeq(ts + rest.ts, rest.flags)
      {
        LowerSeqUnfold(ss, i, Labels(), continueFlagMap);
        var t := VisitNode(ss[i]);
        ghost var rest := LowerSeq(ss[i + 1..], Labels(), continueFlagMap);
        assert ts + ([t] + rest.ts) == (ts + [t]) + rest.ts;
        ts := ts + [t];
        i := i + 1;
      }
      assert ts + [] == ts;
    }

    method VisitClauses(cs: seq<Clause>) returns (ts: seq<TClause>)
      requires breakLabelsStack != [] && ScopedClauses(cs, loopLabelStack != [])
      modifies this
      ensures Labels() == old(Labels())
      ensures LoweredClauses(ts, continueFlagMap) == LowerClauses(cs, old(Labels()), old(continueFlagMap))
      decreases cs, 0
    {
      ts := [];
      var i := 0;
      while i < |cs|
        invariant 0 <= i <= |cs|
        invariant Labels() == old(Labels())
        invariant ScopedClauses(cs[i..], loopLabelStack != [])
        invariant var rest := LowerClauses(cs[i..], old(Labels()), continueFlagMap);
                  LowerClauses(cs, old(Labels()), old(continueFlagMap)) == LoweredClauses(ts + rest.cs, rest.flags)
      {
        ghost var before := ts;
        ghost var rest := LowerClauses(cs[i..], Labels(), continueFlagMap);
        assert cs[i] == cs[i..][0] && cs[i + 1..] == cs[i..][1..];
        var body := VisitStatements(cs[i].body);
        ts := ts + [TClause(cs[i].test, body)];
        assert before + rest.cs == ts + rest.cs[1..];
        i := i + 1;
      }
      assert ts + [] == ts;
    }
  }
}
