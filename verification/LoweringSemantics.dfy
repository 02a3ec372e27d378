/**
 Step-indexed big-step semantics of source and lowered statements. Fuel is
 spent only on loop iterations; a run that exhausts it times out, so agreement
 for every fuel is agreement on results and on termination.
 */
module LoweringSemantics {
  import opened Prelude
  import opened LoweringSyntax

  datatype Value = Undef | Number(n: int) | Arr(ref: nat)

  datatype Counters = Counters(index: Value, last: Value)

  /** One scope: the variables of the program, and the counters of the for-of loop it belongs to. */
  datatype Frame = Frame(user: map<string, Value>, counters: Option<Counters>) {
    predicate Declares(x: Name) {
      match x
      case User(id) => id in user
      case LoopIndex => counters.Some?
      case LastIndex => counters.Some?
    }

    function Get(x: Name): Value
      requires Declares(x)
    {
      match x
      case User(id) => user[id]
      case LoopIndex => counters.value.index
      case LastIndex => counters.value.last
    }

    function Set(x: Name, v: Value): Frame
      requires Declares(x)
    {
      match x
      case User(id) => Frame(user[id := v], counters)
      case LoopIndex => Frame(user, Some(Counters(v, counters.value.last)))
      case LastIndex => Frame(user, Some(Counters(counters.value.index, v)))
    }
  }

  /** Scopes innermost first, and the heap of arrays. */
  datatype State = State(frames: seq<Frame>, heap: seq<seq<Value>>)

  function Lookup(fs: seq<Frame>, x: Name): Value {
    if fs == [] then Undef
    else if fs[0].Declares(x) then fs[0].Get(x)
    else Lookup(fs[1..], x)
  }

  /** Assigns to the innermost scope that declares `x`. */
  function Update(fs: seq<Frame>, x: Name, v: Value): seq<Frame> {
    if fs == [] then []
    else if fs[0].Declares(x) then [fs[0].Set(x, v)] + fs[1..]
    else [fs[0]] + Update(fs[1..], x, v)
  }

  function Elements(v: Value, heap: seq<seq<Value>>): seq<Value> {
    if v.Arr? && v.ref < |heap| then heap[v.ref] else []
  }

  function Eval(e: Expr, s: State): Value {
    match e
    case Num(n) => Number(n)
    case Var(x) => Lookup(s.frames, x)
    case Add(l, r) =>
      var a, b := Eval(l, s), Eval(r, s);
      if a.Number? && b.Number? then Number(a.n + b.n) else Undef
    case Less(l, r) =>
      var a, b := Eval(l, s), Eval(r, s);
      Number(if a.Number? && b.Number? && a.n < b.n then 1 else 0)
    case Len(a) => Number(|Elements(Eval(a, s), s.heap)|)
    case Index(a, i) =>
      var els, k := Elements(Eval(a, s), s.heap), Eval(i, s);
      if k.Number? && 0 <= k.n < |els| then els[k.n] else Undef
  }

  predicate Truthy(v: Value) {
    v != Undef && v != Number(0)
  }

  predicate Holds(test: Option<Expr>, s: State) {
    test.Some? ==> Truthy(Eval(test.value, s))
  }

  /** An element write; one at or past the end lengthens the array (section 10.4.2.1 of ECMA-262 2023). */
  function Put(els: seq<Value>, k: nat, v: Value): (r: seq<Value>)
    ensures |r| == if k < |els| then |els| else k + 1
    decreases k - |els|
  {
    if k < |els| then els[k := v]
    else if k == |els| then els + [v]
    else Put(els + [Undef], k, v)
  }

  function Perform(a: Action, s: State): State {
    match a
    case Assign(x, e) => s.(frames := Update(s.frames, x, Eval(e, s)))
    case SetElem(r, i, e) =>
      var v, k := Eval(r, s), Eval(i, s);
      if v.Arr? && v.ref < |s.heap| && k.Number? && 0 <= k.n
      then s.(heap := s.heap[v.ref := Put(s.heap[v.ref], k.n, Eval(e, s))])
      else s
    case Push(r, e) =>
      var v := Eval(r, s);
      if v.Arr? && v.ref < |s.heap|
      then s.(heap := s.heap[v.ref := s.heap[v.ref] + [Eval(e, s)]])
      else s
  }

  function Step(o: Option<Action>, s: State): State {
    match o
    case None => s
    case Some(a) => Perform(a, s)
  }

  /** A fresh scope in which every declared variable is still undefined. */
  function Fresh(ds: seq<string>, counters: bool): Frame {
    Frame(map id | id in ds :: Undef, if counters then Some(Counters(Undef, Undef)) else None)
  }

  function Enter(ds: seq<string>, counters: bool, s: State): State {
    s.(frames := [Fresh(ds, counters)] + s.frames)
  }

  function Leave(s: State): State {
    if s.frames == [] then s else s.(frames := s.frames[1..])
  }

  /** The clause a switch starts at: the first equal test, else the first default, else none. */
  function Select(tests: seq<Option<Expr>>, v: Value, s: State): (i: nat)
    ensures i <= |tests|
  {
    var i := FirstEqual(tests, v, s);
    if i < |tests| then i else FirstDefault(tests)
  }

  function FirstEqual(tests: seq<Option<Expr>>, v: Value, s: State): (i: nat)
    ensures i <= |tests|
  {
    if tests == [] then 0
    else if tests[0].Some? && Eval(tests[0].value, s) == v then 0
    else 1 + FirstEqual(tests[1..], v, s)
  }

  function FirstDefault(tests: seq<Option<Expr>>): (i: nat)
    ensures i <= |tests|
  {
    if tests == [] then 0
    else if tests[0].None? then 0
    else 1 + FirstDefault(tests[1..])
  }

  // ----- source statements -----

  datatype Outcome = Normal | Broke | Continued | Returned(v: Value)

  datatype Run = Timeout | Done(out: Outcome, st: State)

  function LeaveRun(r: Run): Run {
    if r.Done? then Done(r.out, Leave(r.st)) else Timeout
  }

  /** A loop or switch absorbs the `break` that left it. */
  function Absorb(r: Run): Run {
    if r.Done? && r.out == Broke then Done(Normal, r.st) else r
  }

  /** An unbraced body that opens no scope of its own runs in an empty one. */
  function AsScope(s: Stmt): Stmt {
    if s.Block? || s.While? || s.DoWhile? || s.For? || s.ForOf? then s else Block([], [s])
  }

  function Tests(cs: seq<Clause>): (ts: seq<Option<Expr>>)
    ensures |ts| == |cs|
  {
    seq(|cs|, i requires 0 <= i < |cs| => cs[i].test)
  }

  function Exec(s: Stmt, st: State, fuel: nat): Run
    decreases fuel, s, 1
  {
    match s
    case Empty => Done(Normal, st)
    case Do(a) => Done(Normal, Perform(a, st))
    case Return(e) => Done(Returned(Eval(e, st)), st)
    case Block(ds, body) => LeaveRun(ExecSeq(body, Enter(ds, false, st), fuel))
    case If(c, t, e) => if Truthy(Eval(c, st)) then Exec(t, st, fuel) else Exec(e, st, fuel)
    case While(c, b) => LeaveRun(Absorb(Iterate(PreTest, Some(c), None, b, Enter([], false, st), fuel)))
    case DoWhile(b, c) => LeaveRun(Absorb(Iterate(PostTest, Some(c), None, b, Enter([], false, st), fuel)))
    case For(ds, i, c, n, b) => LeaveRun(Absorb(Iterate(PreTest, c, n, b, Step(i, Enter(ds, false, st)), fuel)))
    case ForOf(ds, x, e, b) =>
      var st1 := Enter(ds, false, st);
      LeaveRun(Absorb(IterateOf(x, Eval(e, st1), 0, b, st1, fuel)))
    case Switch(e, cs) => Absorb(ExecClauses(cs, Select(Tests(cs), Eval(e, st), st), st, fuel))
    case Break => Done(Broke, st)
    case Continue => Done(Continued, st)
  }

  function ExecSeq(ss: seq<Stmt>, st: State, fuel: nat): Run
    decreases fuel, ss, 0
  {
    if ss == [] then Done(Normal, st)
    else
      var r := Exec(ss[0], st, fuel);
      if r.Done? && r.out == Normal then ExecSeq(ss[1..], r.st, fuel) else r
  }

  /** Clause bodies from clause `i` on, falling through. */
  function ExecClauses(cs: seq<Clause>, i: nat, st: State, fuel: nat): Run
    decreases fuel, cs, |cs| - i
  {
    if i >= |cs| then Done(Normal, st)
    else
      var r := ExecSeq(cs[i].body, st, fuel);
      if r.Done? && r.out == Normal then ExecClauses(cs, i + 1, r.st, fuel) else r
  }

  /** Sections 14.7.2 to 14.7.4 of ECMA-262: one iteration costs one unit of fuel. */
  function Iterate(k: LoopKind, test: Option<Expr>, incr: Option<Action>, b: Stmt, st: State, fuel: nat): Run
    decreases fuel, b, 2
  {
    if fuel == 0 then Timeout
    else if k == PreTest && !Holds(test, st) then Done(Normal, st)
    else
      var r := Exec(b, st, fuel - 1);
      if r.Done? && (r.out == Normal || r.out == Continued) then
        var st1 := Step(incr, r.st);
        if k == PostTest && !Holds(test, st1) then Done(Normal, st1)
        else Iterate(k, test, incr, b, st1, fuel - 1)
      else r
  }

  /** Section 14.7.5 of ECMA-262 with the array iterator: the array is found once, its length is read every time. */
  function IterateOf(x: string, v: Value, i: nat, b: Stmt, st: State, fuel: nat): Run
    decreases fuel, b, 2
  {
    if fuel == 0 then Timeout
    else if i >= |Elements(v, st.heap)| then Done(Normal, st)
    else
      var r := Exec(AsScope(b), Bind(x, Elements(v, st.heap)[i], st), fuel - 1);
      if r.Done? && (r.out == Normal || r.out == Continued)
      then IterateOf(x, v, i + 1, b, r.st, fuel - 1)
      else r
  }

  function Bind(x: string, v: Value, st: State): State {
    st.(frames := Update(st.frames, User(x), v))
  }

  // ----- lowered statements -----

  datatype TOutcome = TNormal | Br(target: string) | TReturned(v: Value)

  datatype TRun = TTimeout | TDone(out: TOutcome, st: State)

  function TLeaveRun(r: TRun): TRun {
    if r.TDone? then TDone(r.out, Leave(r.st)) else TTimeout
  }

  /** A branch stops at the construct that bears the label it names. */
  function Catch(name: string, r: TRun): TRun {
    if r.TDone? && r.out == Br(name) then TDone(TNormal, r.st) else r
  }

  function CatchOpt(name: Option<string>, r: TRun): TRun {
    match name
    case None => r
    case Some(l) => Catch(l, r)
  }

  function TTests(cs: seq<TClause>): (ts: seq<Option<Expr>>)
    ensures |ts| == |cs|
  {
    seq(|cs|, i requires 0 <= i < |cs| => cs[i].test)
  }

  /**
   Where the emitted switch starts. Its branches stand in the innermost block, with the first clause behind it:
   the first equal test is branched to, then the default, and without a default control falls into the first clause.
   */
  function Entry(tests: seq<Option<Expr>>, v: Value, s: State): (i: nat)
    ensures i <= |tests|
  {
    var i := Select(tests, v, s);
    if i < |tests| then i else 0
  }

  function TExec(t: TStmt, st: State, fuel: nat): TRun
    decreases fuel, t, 1
  {
    match t
    case TEmpty => TDone(TNormal, st)
    case TDo(a) => TDone(TNormal, Perform(a, st))
    case TReturn(e) => TDone(TReturned(Eval(e, st)), st)
    case TBlock(ds, counters, body) => TLeaveRun(TExecSeq(body, Enter(ds, counters, st), fuel))
    case TIf(c, t, e) => if Truthy(Eval(c, st)) then TExec(t, st, fuel) else TExec(e, st, fuel)
    case TLoop(k, l, block, cont, i, c, n, b) =>
      Catch(block, TIterate(k, l, cont, c, n, b, Step(i, st), fuel))
    case TSwitch(e, _, brk, cs) =>
      Catch(brk, TExecClauses(cs, Entry(TTests(cs), Eval(e, st), st), st, fuel))
    case TBreak(l) => TDone(Br(l), st)
    case TContinue(l) => TDone(Br(l), st)
  }

  function TExecSeq(ts: seq<TStmt>, st: State, fuel: nat): TRun
    decreases fuel, ts, 0
  {
    if ts == [] then TDone(TNormal, st)
    else
      var r := TExec(ts[0], st, fuel);
      if r.TDone? && r.out == TNormal then TExecSeq(ts[1..], r.st, fuel) else r
  }

  function TExecClauses(cs: seq<TClause>, i: nat, st: State, fuel: nat): TRun
    decreases fuel, cs, |cs| - i
  {
    if i >= |cs| then TDone(TNormal, st)
    else
      var r := TExecSeq(cs[i].body, st, fuel);
      if r.TDone? && r.out == TNormal then TExecClauses(cs, i + 1, r.st, fuel) else r
  }

  /**
   The block/loop nest the backend builds: the body sits in a block named by the
   continue label when there is one, and a branch to the loop label starts over.
   */
  function TIterate(k: LoopKind, l: string, cont: Option<string>, test: Option<Expr>, incr: Option<Action>,
                    b: TStmt, st: State, fuel: nat): TRun
    decreases fuel, b, 2
  {
    if fuel == 0 then TTimeout
    else if k == PreTest && !Holds(test, st) then TDone(TNormal, st)
    else
      var r := CatchOpt(cont, TExec(b, st, fuel - 1));
      if r.TDone? && r.out == Br(l) then TIterate(k, l, cont, test, incr, b, r.st, fuel - 1)
      else if r.TDone? && r.out == TNormal then
        var st1 := Step(incr, r.st);
        if k == PostTest && !Holds(test, st1) then TDone(TNormal, st1)
        else TIterate(k, l, cont, test, incr, b, st1, fuel - 1)
      else r
  }
}
