/**
 What the emitted program does, told on the source: a switch runs its default
 behind all cases, and its first case when nothing matches and there is no default;
 a for-of loop counts up to a length taken once and fetches each element inside the
 scope of its body. For covered programs this is the meaning of the source.
 */
module LoweringEmitted {
  import opened Prelude
  import opened LoweringSyntax
  import opened LoweringSemantics

  // ----- the order of clauses -----

  /** Section 14.12 of ECMA-262 2023: a case block has at most one default clause. */
  predicate OneDefault(tests: seq<Option<Expr>>) {
    forall i, j :: 0 <= i < j < |tests| ==> tests[i].Some? || tests[j].Some?
  }

  /** Which of `n` clauses runs at position `p` when the one at `d` is moved behind all others; `d == n` moves none. */
  function ClauseAt(n: nat, d: nat, p: nat): (i: nat)
    requires d <= n && p < n
    ensures i < n
  {
    if p < d then p else if p < n - 1 then p + 1 else if d < n then d else p
  }

  /** The position of the first clause to run: a matching case, else the default, else the first case. */
  function StartAt(tests: seq<Option<Expr>>, v: Value, st: State): (p: nat) {
    var i, d := FirstEqual(tests, v, st), FirstDefault(tests);
    if i < |tests| then if d < i then i - 1 else i
    else if d < |tests| then |tests| - 1
    else 0
  }

  // ----- runs -----

  /** Reads element `i` in the current scope and assigns it to what `x` names there. */
  function Fetch(x: string, arr: Expr, i: nat, st: State): State {
    var els := Elements(Eval(arr, st), st.heap);
    Bind(x, if i < |els| then els[i] else Undef, st)
  }

  function Emitted(s: Stmt, st: State, fuel: nat): Run
    decreases fuel, s, 1
  {
    match s
    case Block(ds, body) => LeaveRun(EmittedSeq(body, Enter(ds, false, st), fuel))
    case If(c, t, e) => if Truthy(Eval(c, st)) then Emitted(t, st, fuel) else Emitted(e, st, fuel)
    case While(c, b) => LeaveRun(Absorb(EmittedIterate(PreTest, Some(c), None, b, Enter([], false, st), fuel)))
    case DoWhile(b, c) => LeaveRun(Absorb(EmittedIterate(PostTest, Some(c), None, b, Enter([], false, st), fuel)))
    case For(ds, i, c, n, b) => LeaveRun(Absorb(EmittedIterate(PreTest, c, n, b, Step(i, Enter(ds, false, st)), fuel)))
    case ForOf(ds, x, arr, b) => LeaveRun(Absorb(EmittedForOf(x, arr, b, Enter(ds, false, st), fuel)))
    case Switch(e, cs) => Absorb(EmittedClauses(cs, StartAt(Tests(cs), Eval(e, st), st), st, fuel))
    case Empty => Done(Normal, st)
    case Do(a) => Done(Normal, Perform(a, st))
    case Return(e) => Done(Returned(Eval(e, st)), st)
    case Break => Done(Broke, st)
    case Continue => Done(Continued, st)
  }

  function EmittedSeq(ss: seq<Stmt>, st: State, fuel: nat): Run
    decreases fuel, ss, 0
  {
    if ss == [] then Done(Normal, st)
    else
      var r := Emitted(ss[0], st, fuel);
      if r.Done? && r.out == Normal then EmittedSeq(ss[1..], r.st, fuel) else r
  }

  /** Clause bodies from position `p` on, falling through. */
  function EmittedClauses(cs: seq<Clause>, p: nat, st: State, fuel: nat): Run
    decreases fuel, cs, |cs| - p
  {
    if p >= |cs| then Done(Normal, st)
    else
      var r := EmittedSeq(cs[ClauseAt(|cs|, FirstDefault(Tests(cs)), p)].body, st, fuel);
      if r.Done? && r.out == Normal then EmittedClauses(cs, p + 1, r.st, fuel) else r
  }

  function EmittedIterate(k: LoopKind, test: Option<Expr>, incr: Option<Action>, b: Stmt, st: State, fuel: nat): Run
    decreases fuel, b, 2
  {
    if fuel == 0 then Timeout
    else if k == PreTest && !Holds(test, st) then Done(Normal, st)
    else
      var r := Emitted(b, st, fuel - 1);
      if GoesOn(r) then
        var st1 := Step(incr, r.st);
        if k == PostTest && !Holds(test, st1) then Done(Normal, st1)
        else EmittedIterate(k, test, incr, b, st1, fuel - 1)
      else r
  }

  predicate GoesOn(r: Run) { r.Done? && (r.out == Normal || r.out == Continued) }

  /** The length is taken when the loop starts. */
  function EmittedForOf(x: string, arr: Expr, b: Stmt, st: State, fuel: nat): Run
    decreases fuel, b, 4
  {
    EmittedCount(x, arr, 0, |Elements(Eval(arr, st), st.heap)|, b, st, fuel)
  }

  function EmittedCount(x: string, arr: Expr, i: nat, n: nat, b: Stmt, st: State, fuel: nat): Run
    decreases fuel, b, 3
  {
    if fuel == 0 then Timeout
    else if i >= n then Done(Normal, st)
    else
      var r := EmittedInside(x, arr, i, b, st, fuel - 1);
      if GoesOn(r) then EmittedCount(x, arr, i + 1, n, b, r.st, fuel - 1) else r
  }

  /**
   A round: the element is fetched first thing in the scope the body opens. In the scope of an inner for-of
   loop the index is that of the inner loop, which is not set yet.
   */
  function EmittedInside(x: string, arr: Expr, i: nat, b: Stmt, st: State, fuel: nat): Run
    decreases fuel, b, 2
  {
    match b
    case Block(ds, body) => LeaveRun(EmittedSeq(body, Fetch(x, arr, i, Enter(ds, false, st)), fuel))
    case While(c, b2) =>
      LeaveRun(Absorb(EmittedIterate(PreTest, Some(c), None, b2, Fetch(x, arr, i, Enter([], false, st)), fuel)))
    case DoWhile(b2, c) =>
      LeaveRun(Absorb(EmittedIterate(PostTest, Some(c), None, b2, Fetch(x, arr, i, Enter([], false, st)), fuel)))
    case For(ds, init, c, n, b2) =>
      LeaveRun(Absorb(EmittedIterate(PreTest, c, n, b2, Step(init, Fetch(x, arr, i, Enter(ds, false, st))), fuel)))
    case ForOf(ds, y, e, b2) => LeaveRun(Absorb(EmittedForOf(y, e, b2, Bind(x, Undef, Enter(ds, false, st)), fuel)))
    case _ => LeaveRun(Emitted(b, Fetch(x, arr, i, Enter([], false, st)), fuel))
  }

  // ----- which programs are covered -----

  /** A program as it may be written: no compiler-made names, and at most one default in a switch. */
  predicate Written(s: Stmt)
    decreases s, 1
  {
    match s
    case Do(a) => UserAction(a)
    case Return(e) => UserExpr(e)
    case Block(_, body) => WrittenSeq(body)
    case If(c, t, e) => UserExpr(c) && Written(t) && Written(e)
    case While(c, b) => UserExpr(c) && Written(b)
    case DoWhile(b, c) => UserExpr(c) && Written(b)
    case For(_, i, c, n, b) => UserStep(i) && UserTest(c) && UserStep(n) && Written(b)
    case ForOf(_, _, arr, b) => UserExpr(arr) && Written(b)
    case Switch(e, cs) => UserExpr(e) && WrittenClauses(cs) && OneDefault(Tests(cs))
    case _ => true
  }

  predicate WrittenSeq(ss: seq<Stmt>)
    decreases ss, 0
  {
    ss == [] || (Written(ss[0]) && WrittenSeq(ss[1..]))
  }

  predicate WrittenClauses(cs: seq<Clause>)
    decreases cs, 0
  {
    cs == [] || (UserTest(cs[0].test) && WrittenSeq(cs[0].body) && WrittenClauses(cs[1..]))
  }

  /** The variables declared in the scope a for-of body is lowered to. */
  function BodyDecls(b: Stmt): seq<string> {
    match b
    case Block(ds, _) => ds
    case For(ds, _, _, _, _) => ds
    case ForOf(ds, _, _, _) => ds
    case _ => []
  }

  /**
   No iteration that goes on changes which array the iterated expression denotes
   or how long that array is. Elements may change.
   */
  ghost predicate Stable(x: string, arr: Expr, b: Stmt) {
    forall st: State, w: Value, fuel: nat ::
      var r := Exec(AsScope(b), Bind(x, w, st), fuel);
      r.Done? && (r.out == Normal || r.out == Continued) ==>
        && Eval(arr, r.st) == Eval(arr, st)
        && |Elements(Eval(arr, st), r.st.heap)| == |Elements(Eval(arr, st), st.heap)|
  }

  /** The element assignment means the same inside the body's scope as outside it. */
  predicate Unshadowed(x: string, arr: Expr, b: Stmt) {
    !b.ForOf? && forall d :: d in BodyDecls(b) ==> d != x && User(d) !in Vars(arr)
  }

  /** A switch has a default clause, behind all its cases, or no clause at all. */
  predicate DefaultLast(tests: seq<Option<Expr>>) {
    tests == [] || (tests[|tests| - 1].None? && forall i :: 0 <= i < |tests| - 1 ==> tests[i].Some?)
  }

  /** User-written names everywhere, every for-of loop stable and unshadowed, every default clause last. */
  ghost predicate Good(s: Stmt)
    decreases s, 1
  {
    match s
    case Empty => true
    case Do(a) => UserAction(a)
    case Return(e) => UserExpr(e)
    case Block(ds, body) => GoodSeq(body)
    case If(c, t, e) => UserExpr(c) && Good(t) && Good(e)
    case While(c, b) => UserExpr(c) && Good(b)
    case DoWhile(b, c) => UserExpr(c) && Good(b)
    case For(ds, i, c, n, b) => UserStep(i) && UserTest(c) && UserStep(n) && Good(b)
    case ForOf(ds, x, arr, b) =>
      UserExpr(arr) && Good(b) && Unshadowed(x, arr, b) && Stable(x, arr, b)
    case Switch(e, cs) => UserExpr(e) && GoodClauses(cs) && DefaultLast(Tests(cs))
    case Break => true
    case Continue => true
  }

  ghost predicate GoodSeq(ss: seq<Stmt>)
    decreases ss, 0
  {
    ss == [] || (Good(ss[0]) && GoodSeq(ss[1..]))
  }

  ghost predicate GoodClauses(cs: seq<Clause>)
    decreases cs, 0
  {
    cs == [] || (UserTest(cs[0].test) && GoodSeq(cs[0].body) && GoodClauses(cs[1..]))
  }

  lemma {:induction false} GoodIsWritten(s: Stmt)
    requires Good(s)
    ensures Written(s)
    decreases s, 1
  {
    match s
    case Block(_, body) => GoodSeqIsWritten(body);
    case If(_, t, e) => GoodIsWritten(t); GoodIsWritten(e);
    case While(_, b) => GoodIsWritten(b);
    case DoWhile(b, _) => GoodIsWritten(b);
    case For(_, _, _, _, b) => GoodIsWritten(b);
    case ForOf(_, _, _, b) => GoodIsWritten(b);
    case Switch(_, cs) => GoodClausesAreWritten(cs);
    case _ =>
  }

  lemma {:induction false} GoodSeqIsWritten(ss: seq<Stmt>)
    requires GoodSeq(ss)
    ensures WrittenSeq(ss)
    decreases ss, 0
  {
    if ss != [] {
      GoodIsWritten(ss[0]);
      GoodSeqIsWritten(ss[1..]);
    }
  }

  lemma {:induction false} GoodClausesAreWritten(cs: seq<Clause>)
    requires GoodClauses(cs)
    ensures WrittenClauses(cs)
    decreases cs, 0
  {
    if cs != [] {
      GoodSeqIsWritten(cs[0].body);
      GoodClausesAreWritten(cs[1..]);
    }
  }

  // ----- covered programs are emitted with the meaning of the source -----

  lemma {:induction false} EvalUnderFrame(e: Expr, f: Frame, s: State)
    requires forall x :: x in Vars(e) ==> !f.Declares(x)
    ensures Eval(e, s.(frames := [f] + s.frames)) == Eval(e, s)
  {
    var s1 := s.(frames := [f] + s.frames);
    assert s1.frames[1..] == s.frames;
    match e
    case Num(_) =>
    case Var(x) => assert x in Vars(e);
    case Add(l, r) => EvalUnderFrame(l, f, s); EvalUnderFrame(r, f, s);
    case Less(l, r) => EvalUnderFrame(l, f, s); EvalUnderFrame(r, f, s);
    case Len(a) => EvalUnderFrame(a, f, s);
    case Index(a, i) => EvalUnderFrame(a, f, s); EvalUnderFrame(i, f, s);
  }

  /** Fetching inside a scope that declares none of the names is fetching outside it. */
  lemma FetchOutside(x: string, arr: Expr, i: nat, ds: seq<string>, st: State)
    requires UserExpr(arr) && forall d :: d in ds ==> d != x && User(d) !in Vars(arr)
    ensures Fetch(x, arr, i, Enter(ds, false, st)) == Enter(ds, false, Fetch(x, arr, i, st))
  {
    var f := Fresh(ds, false);
    forall y | y in Vars(arr) ensures !f.Declares(y) {
      assert !Hidden(y);
    }
    EvalUnderFrame(arr, f, st);
    assert Enter(ds, false, st).frames[1..] == st.frames;
  }

  lemma {:induction false} RunsAsWritten(s: Stmt, st: State, fuel: nat)
    requires Good(s)
    ensures Emitted(s, st, fuel) == Exec(s, st, fuel)
    decreases fuel, s, 1
  {
    match s
    case Block(ds, body) => SeqAsWritten(body, Enter(ds, false, st), fuel);
    case If(c, t, e) =>
      RunsAsWritten(t, st, fuel);
      RunsAsWritten(e, st, fuel);
    case While(c, b) => IterationAsWritten(PreTest, Some(c), None, b, Enter([], false, st), fuel);
    case DoWhile(b, c) => IterationAsWritten(PostTest, Some(c), None, b, Enter([], false, st), fuel);
    case For(ds, i, c, n, b) => IterationAsWritten(PreTest, c, n, b, Step(i, Enter(ds, false, st)), fuel);
    case ForOf(ds, x, arr, b) => CountAsWritten(x, arr, Eval(arr, Enter(ds, false, st)), 0, b, Enter(ds, false, st), fuel);
    case Switch(e, cs) => SwitchAsWritten(e, cs, st, fuel);
    case _ =>
  }

  lemma {:induction false} SeqAsWritten(ss: seq<Stmt>, st: State, fuel: nat)
    requires GoodSeq(ss)
    ensures EmittedSeq(ss, st, fuel) == ExecSeq(ss, st, fuel)
    decreases fuel, ss, 0
  {
    if ss != [] {
      RunsAsWritten(ss[0], st, fuel);
      var r := Exec(ss[0], st, fuel);
      if r.Done? && r.out == Normal {
        SeqAsWritten(ss[1..], r.st, fuel);
      }
    }
  }

  lemma {:induction false} IterationAsWritten(k: LoopKind, test: Option<Expr>, incr: Option<Action>, b: Stmt, st: State, fuel: nat)
    requires Good(b)
    ensures EmittedIterate(k, test, incr, b, st, fuel) == Iterate(k, test, incr, b, st, fuel)
    decreases fuel, b, 2
  {
    if fuel > 0 && (k != PreTest || Holds(test, st)) {
      var r := Exec(b, st, fuel - 1);
      RunsAsWritten(b, st, fuel - 1);
      if GoesOn(r) && (k != PostTest || Holds(test, Step(incr, r.st))) {
        IterationAsWritten(k, test, incr, b, Step(incr, r.st), fuel - 1);
      }
      SameRound(k, test, incr, b, st, fuel);
    }
  }

  /** Equal first rounds and equal rests make equal loops. */
  lemma SameRound(k: LoopKind, test: Option<Expr>, incr: Option<Action>, b: Stmt, st: State, fuel: nat)
    requires fuel > 0 && Emitted(b, st, fuel - 1) == Exec(b, st, fuel - 1)
    requires var r := Exec(b, st, fuel - 1);
             GoesOn(r) && (k != PostTest || Holds(test, Step(incr, r.st))) ==>
               EmittedIterate(k, test, incr, b, Step(incr, r.st), fuel - 1) == Iterate(k, test, incr, b, Step(incr, r.st), fuel - 1)
    ensures EmittedIterate(k, test, incr, b, st, fuel) == Iterate(k, test, incr, b, st, fuel)
  {
  }

  lemma GoodAt(cs: seq<Clause>, i: nat)
    requires GoodClauses(cs) && i < |cs|
    ensures UserTest(cs[i].test) && GoodSeq(cs[i].body)
  {
    if i > 0 {
      GoodAt(cs[1..], i - 1);
    }
  }

  lemma DefaultIsFound(tests: seq<Option<Expr>>, i: nat)
    requires i < |tests| && tests[i].None?
    ensures FirstDefault(tests) <= i && tests[FirstDefault(tests)].None?
  {
    if tests[0].Some? {
      DefaultIsFound(tests[1..], i - 1);
    }
  }

  /** A default that is last stays where it is. */
  lemma LastStays(tests: seq<Option<Expr>>)
    requires DefaultLast(tests)
    ensures tests != [] ==> FirstDefault(tests) == |tests| - 1
    ensures forall p :: 0 <= p < |tests| ==> ClauseAt(|tests|, FirstDefault(tests), p) == p
  {
    if tests != [] {
      DefaultIsFound(tests, |tests| - 1);
    }
  }

  lemma {:induction false} SwitchAsWritten(e: Expr, cs: seq<Clause>, st: State, fuel: nat)
    requires GoodClauses(cs) && DefaultLast(Tests(cs))
    ensures Emitted(Switch(e, cs), st, fuel) == Exec(Switch(e, cs), st, fuel)
    decreases fuel, cs, 1
  {
    var tests := Tests(cs);
    LastStays(tests);
    assert StartAt(tests, Eval(e, st), st) == Select(tests, Eval(e, st), st);
    ClausesAsWritten(cs, Select(tests, Eval(e, st), st), st, fuel);
  }

  lemma {:induction false} ClausesAsWritten(cs: seq<Clause>, p: nat, st: State, fuel: nat)
    requires GoodClauses(cs) && forall q :: 0 <= q < |cs| ==> ClauseAt(|cs|, FirstDefault(Tests(cs)), q) == q
    ensures EmittedClauses(cs, p, st, fuel) == ExecClauses(cs, p, st, fuel)
    decreases fuel, cs, 0, |cs| - p
  {
    if p < |cs| {
      GoodAt(cs, p);
      SeqAsWritten(cs[p].body, st, fuel);
      var r := ExecSeq(cs[p].body, st, fuel);
      if r.Done? && r.out == Normal {
        ClausesAsWritten(cs, p + 1, r.st, fuel);
      }
    }
  }

  /** Counting over an array that stays is iterating over it. */
  lemma {:induction false} CountAsWritten(x: string, arr: Expr, v: Value, i: nat, b: Stmt, st: State, fuel: nat)
    requires UserExpr(arr) && Good(b) && Unshadowed(x, arr, b) && Stable(x, arr, b) && v == Eval(arr, st)
    ensures EmittedCount(x, arr, i, |Elements(v, st.heap)|, b, st, fuel) == IterateOf(x, v, i, b, st, fuel)
    decreases fuel, b, 3
  {
    if fuel > 0 && i < |Elements(v, st.heap)| {
      InsideAsWritten(x, arr, i, b, st, fuel - 1);
      var r := Exec(AsScope(b), Bind(x, Elements(v, st.heap)[i], st), fuel - 1);
      if GoesOn(r) {
        StaysInRound(x, arr, b, Elements(v, st.heap)[i], st, fuel - 1);
        CountAsWritten(x, arr, v, i + 1, b, r.st, fuel - 1);
      }
    }
  }

  lemma StaysInRound(x: string, arr: Expr, b: Stmt, w: Value, st: State, fuel: nat)
    requires Stable(x, arr, b) && GoesOn(Exec(AsScope(b), Bind(x, w, st), fuel))
    ensures var r := Exec(AsScope(b), Bind(x, w, st), fuel);
            Eval(arr, r.st) == Eval(arr, st) && |Elements(Eval(arr, st), r.st.heap)| == |Elements(Eval(arr, st), st.heap)|
  {
  }

  lemma {:induction false} InsideAsWritten(x: string, arr: Expr, i: nat, b: Stmt, st: State, fuel: nat)
    requires UserExpr(arr) && Good(b) && Unshadowed(x, arr, b) && i < |Elements(Eval(arr, st), st.heap)|
    ensures EmittedInside(x, arr, i, b, st, fuel)
            == Exec(AsScope(b), Bind(x, Elements(Eval(arr, st), st.heap)[i], st), fuel)
    decreases fuel, b, 2
  {
    var st1 := Fetch(x, arr, i, st);
    FetchOutside(x, arr, i, BodyDecls(b), st);
    match b
    case Block(ds, body) => SeqAsWritten(body, Enter(ds, false, st1), fuel);
    case While(c, b2) => IterationAsWritten(PreTest, Some(c), None, b2, Enter([], false, st1), fuel);
    case DoWhile(b2, c) => IterationAsWritten(PostTest, Some(c), None, b2, Enter([], false, st1), fuel);
    case For(ds, init, c, n, b2) => IterationAsWritten(PreTest, c, n, b2, Step(init, Enter(ds, false, st1)), fuel);
    case ForOf(_, _, _, _) =>
    case _ =>
      RunsAsWritten(b, Enter([], false, st1), fuel);
      SingletonExec(b, Enter([], false, st1), fuel);
  }

  lemma SingletonExec(s: Stmt, st: State, fuel: nat)
    ensures ExecSeq([s], st, fuel) == Exec(s, st, fuel)
  {
    assert [s][1..] == [];
  }
}
