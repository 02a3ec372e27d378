/**
 Which switches are emitted correctly. The default clause is moved behind all
 cases, and without one control falls from the branches into the first case; so
 exactly the switches whose clauses end in their default keep their meaning.
 */
module LoweringSwitch {
  import opened Prelude
  import opened LoweringSyntax
  import opened LoweringSemantics
  import opened Lowering
  import opened LoweringEmitted
  import opened LoweringCorrectness
  import opened LoweringLabels

  const EMPTY_STATE := State([], [])

  predicate UserTests(tests: seq<Option<Expr>>) {
    forall i :: 0 <= i < |tests| ==> UserTest(tests[i])
  }

  predicate NoneEqual(tests: seq<Option<Expr>>, v: Value, st: State) {
    forall i :: 0 <= i < |tests| && tests[i].Some? ==> Eval(tests[i].value, st) != v
  }

  predicate AllSome(tests: seq<Option<Expr>>) {
    forall i :: 0 <= i < |tests| ==> tests[i].Some?
  }

  // ----- what an emitted switch runs -----

  /** A covered switch, but with its default wherever it may stand. */
  ghost predicate AnySwitch(s: Stmt, c: Context) {
    s.Switch? && ScopedIn(s, c) && UserExpr(s.subject) && GoodClauses(s.clauses) && OneDefault(Tests(s.clauses))
  }

  lemma AnySwitchMeaning(s: Stmt, c: Context, flags: set<string>, st: State, fuel: nat)
    requires AnySwitch(s, c)
    ensures Agree(Emitted(s, View(st), fuel), TExec(Lower(s, c, flags).t, st, fuel),
                  c, Lower(s, c, flags).flags, MaskedAll(st.frames))
  {
    GoodClausesAreWritten(s.clauses);
    LoweringMeaning(s, c, flags, st, fuel);
  }

  /** The clauses with the one at `d` moved behind all others. */
  function Moved<T>(cs: seq<T>, d: nat): (r: seq<T>)
    requires d < |cs|
    ensures |r| == |cs|
  {
    cs[..d] + cs[d + 1..] + [cs[d]]
  }

  lemma MovedAt<T>(cs: seq<T>, d: nat, p: nat)
    requires d < |cs| && p < |cs|
    ensures Moved(cs, d)[p] == cs[ClauseAt(|cs|, d, p)]
  {
  }

  /** From each position on, the emitted clauses run like those with the default moved. */
  lemma {:induction false} ClausesAsMoved(cs: seq<Clause>, d: nat, p: nat, st: State, fuel: nat)
    requires GoodClauses(cs) && d < |cs| && FirstDefault(Tests(cs)) == d
    ensures EmittedClauses(cs, p, st, fuel) == ExecClauses(Moved(cs, d), p, st, fuel)
    decreases |cs| - p
  {
    if p < |cs| {
      var i := ClauseAt(|cs|, d, p);
      MovedAt(cs, d, p);
      GoodAt(cs, i);
      SeqAsWritten(cs[i].body, st, fuel);
      var r := ExecSeq(cs[i].body, st, fuel);
      if r.Done? && r.out == Normal {
        ClausesAsMoved(cs, d, p + 1, r.st, fuel);
      }
    }
  }

  lemma OnlyDefault(tests: seq<Option<Expr>>, d: nat)
    requires OneDefault(tests) && d < |tests| && tests[d].None?
    ensures FirstDefault(tests) == d
  {
    DefaultAt(tests, d);
  }

  /**
   With a default, wherever it stands: the emitted switch has the runs of the source switch whose
   default is moved behind all cases, which keep their order.
   */
  lemma DefaultRunsLast(s: Stmt, d: nat, c: Context, flags: set<string>, st: State, fuel: nat)
    requires AnySwitch(s, c) && d < |s.clauses| && s.clauses[d].test.None?
    ensures Agree(Exec(Switch(s.subject, Moved(s.clauses, d)), View(st), fuel), TExec(Lower(s, c, flags).t, st, fuel),
                  c, Lower(s, c, flags).flags, MaskedAll(st.frames))
  {
    AnySwitchMeaning(s, c, flags, st, fuel);
    EmittedAsMoved(s, d, View(st), fuel);
  }

  lemma EmittedAsMoved(s: Stmt, d: nat, st: State, fuel: nat)
    requires s.Switch? && GoodClauses(s.clauses) && OneDefault(Tests(s.clauses))
    requires d < |s.clauses| && s.clauses[d].test.None?
    ensures Emitted(s, st, fuel) == Exec(Switch(s.subject, Moved(s.clauses, d)), st, fuel)
  {
    var cs, v := s.clauses, Eval(s.subject, st);
    var tests, node := Tests(cs), Tests(Moved(cs, d));
    OnlyDefault(tests, d);
    forall p | 0 <= p < |cs| ensures node[p] == tests[ClauseAt(|cs|, d, p)] {
      MovedAt(cs, d, p);
    }
    NodeStarts(tests, node, v, st);
    MovedAt(cs, d, |cs| - 1);
    DefaultIsFound(node, |cs| - 1);
    ClausesAsMoved(cs, d, StartAt(tests, v, st), st, fuel);
  }

  /** Without a default, and with a subject that equals some test, the emitted switch has the runs of the source. */
  lemma MatchRunsAsWritten(s: Stmt, c: Context, flags: set<string>, st: State, fuel: nat)
    requires AnySwitch(s, c) && AllSome(Tests(s.clauses))
    requires !NoneEqual(Tests(s.clauses), Eval(s.subject, View(st)), View(st))
    ensures Agree(Exec(s, View(st), fuel), TExec(Lower(s, c, flags).t, st, fuel),
                  c, Lower(s, c, flags).flags, MaskedAll(st.frames))
  {
    var tests, v := Tests(s.clauses), Eval(s.subject, View(st));
    AnySwitchMeaning(s, c, flags, st, fuel);
    DefaultAt(tests, |tests|);
    FirstEqualFinds(tests, v, View(st));
    ClausesAsWritten(s.clauses, StartAt(tests, v, View(st)), View(st), fuel);
  }

  /** Without a default, and with a subject that equals no test, it runs all bodies from the first on. */
  lemma NoMatchRunsAll(s: Stmt, c: Context, flags: set<string>, st: State, fuel: nat)
    requires AnySwitch(s, c) && AllSome(Tests(s.clauses))
    requires NoneEqual(Tests(s.clauses), Eval(s.subject, View(st)), View(st))
    ensures Agree(Absorb(ExecClauses(s.clauses, 0, View(st), fuel)), TExec(Lower(s, c, flags).t, st, fuel),
                  c, Lower(s, c, flags).flags, MaskedAll(st.frames))
  {
    var tests, v := Tests(s.clauses), Eval(s.subject, View(st));
    AnySwitchMeaning(s, c, flags, st, fuel);
    DefaultAt(tests, |tests|);
    FirstEqualIs(tests, v, View(st), |tests|);
    ClausesAsWritten(s.clauses, 0, View(st), fuel);
  }

  // ----- the failing programs -----

  /** Cases return, the default does nothing. */
  function ProbeBody(test: Option<Expr>): seq<Stmt> {
    if test.Some? then [Return(Num(0))] else []
  }

  function Probe(tests: seq<Option<Expr>>): (cs: seq<Clause>)
    ensures |cs| == |tests|
  {
    seq(|tests|, i requires 0 <= i < |tests| => Clause(tests[i], ProbeBody(tests[i])))
  }

  function ProbeSwitch(tests: seq<Option<Expr>>, n: int): Stmt { Switch(Num(n), Probe(tests)) }

  lemma {:induction false} ProbeIsGood(tests: seq<Option<Expr>>)
    requires UserTests(tests)
    ensures GoodClauses(Probe(tests)) && ScopedClauses(Probe(tests), false) && Tests(Probe(tests)) == tests
  {
    if tests != [] {
      ProbeIsGood(tests[1..]);
      assert Probe(tests)[1..] == Probe(tests[1..]);
      assert ProbeBody(tests[0]) != [] ==> ProbeBody(tests[0])[1..] == [];
    }
    assert Tests(Probe(tests)) == tests;
  }

  lemma ProbeReturns(st: State)
    ensures ExecSeq([Return(Num(0))], st, 0) == Done(Returned(Number(0)), st)
  {
    assert [Return(Num(0))][1..] == [];
  }

  lemma ProbeMeaning(tests: seq<Option<Expr>>, n: int)
    requires UserTests(tests) && OneDefault(tests)
    ensures AnySwitch(ProbeSwitch(tests, n), NO_LABELS) && Scoped(ProbeSwitch(tests, n), false, false)
    ensures TExec(Lower(ProbeSwitch(tests, n), NO_LABELS, {}).t, EMPTY_STATE, 0)
            == AsTarget(Emitted(ProbeSwitch(tests, n), EMPTY_STATE, 0))
  {
    ProbeIsGood(tests);
    GoodClausesAreWritten(Probe(tests));
    ProgramMeaning(ProbeSwitch(tests, n), EMPTY_STATE, 0);
  }

  /** Without a default a subject that equals no test skips the switch, but is emitted as a run of the first case. */
  lemma MissingDefault(tests: seq<Option<Expr>>, n: int)
    requires UserTests(tests) && tests != [] && AllSome(tests) && NoneEqual(tests, Number(n), EMPTY_STATE)
    ensures Scoped(ProbeSwitch(tests, n), false, false)
    ensures Exec(ProbeSwitch(tests, n), EMPTY_STATE, 0) == Done(Normal, EMPTY_STATE)
    ensures TExec(Lower(ProbeSwitch(tests, n), NO_LABELS, {}).t, EMPTY_STATE, 0) == TDone(TReturned(Number(0)), EMPTY_STATE)
  {
    ProbeMeaning(tests, n);
    ProbeIsGood(tests);
    DefaultAt(tests, |tests|);
    FirstEqualIs(tests, Number(n), EMPTY_STATE, |tests|);
    ClausesAsWritten(Probe(tests), 0, EMPTY_STATE, 0);
    ProbeReturns(EMPTY_STATE);
  }

  /** A default before a case falls through to it, but is emitted as the last clause. */
  lemma EarlyDefault(tests: seq<Option<Expr>>, d: nat, n: int)
    requires UserTests(tests) && OneDefault(tests) && d < |tests| - 1 && tests[d].None?
    requires NoneEqual(tests, Number(n), EMPTY_STATE)
    ensures Scoped(ProbeSwitch(tests, n), false, false)
    ensures Exec(ProbeSwitch(tests, n), EMPTY_STATE, 0) == Done(Returned(Number(0)), EMPTY_STATE)
    ensures TExec(Lower(ProbeSwitch(tests, n), NO_LABELS, {}).t, EMPTY_STATE, 0) == TDone(TNormal, EMPTY_STATE)
  {
    ProbeMeaning(tests, n);
    ProbeIsGood(tests);
    OnlyDefault(tests, d);
    FirstEqualIs(tests, Number(n), EMPTY_STATE, |tests|);
    EarlySource(tests, d);
    EarlyTarget(tests, d);
  }

  lemma EarlySource(tests: seq<Option<Expr>>, d: nat)
    requires OneDefault(tests) && d < |tests| - 1 && tests[d].None?
    ensures ExecClauses(Probe(tests), d, EMPTY_STATE, 0) == Done(Returned(Number(0)), EMPTY_STATE)
  {
    var cs := Probe(tests);
    assert tests[d + 1].Some?;
    ProbeReturns(EMPTY_STATE);
    assert ExecClauses(cs, d + 1, EMPTY_STATE, 0) == Done(Returned(Number(0)), EMPTY_STATE);
    assert ExecSeq(cs[d].body, EMPTY_STATE, 0) == Done(Normal, EMPTY_STATE);
  }

  lemma EarlyTarget(tests: seq<Option<Expr>>, d: nat)
    requires d < |tests| - 1 && tests[d].None? && FirstDefault(tests) == d
    ensures EmittedClauses(Probe(tests), |tests| - 1, EMPTY_STATE, 0) == Done(Normal, EMPTY_STATE)
  {
    var cs, last := Probe(tests), |tests| - 1;
    assert Tests(cs) == tests && ClauseAt(|cs|, d, last) == d;
    assert EmittedSeq(cs[d].body, EMPTY_STATE, 0) == Done(Normal, EMPTY_STATE);
    assert EmittedClauses(cs, last + 1, EMPTY_STATE, 0) == Done(Normal, EMPTY_STATE);
  }

  /** `switch (2) { default: ; case 0: return 0; }` returns, but not when emitted. */
  lemma DefaultFirstChangesMeaning()
    ensures var s := ProbeSwitch([None, Some(Num(0))], 2);
            && Scoped(s, false, false)
            && Exec(s, EMPTY_STATE, 0) == Done(Returned(Number(0)), EMPTY_STATE)
            && TExec(Lower(s, NO_LABELS, {}).t, EMPTY_STATE, 0) == TDone(TNormal, EMPTY_STATE)
  {
    EarlyDefault([None, Some(Num(0))], 0, 2);
  }

  /** `switch (2) { case 0: return 0; }` does nothing, but returns when emitted. */
  lemma MissingDefaultChangesMeaning()
    ensures var s := ProbeSwitch([Some(Num(0))], 2);
            && Scoped(s, false, false)
            && Exec(s, EMPTY_STATE, 0) == Done(Normal, EMPTY_STATE)
            && TExec(Lower(s, NO_LABELS, {}).t, EMPTY_STATE, 0) == TDone(TReturned(Number(0)), EMPTY_STATE)
  {
    MissingDefault([Some(Num(0))], 2);
  }

  // ----- the exact condition -----

  /** A switch of a program, with these tests and bodies that are themselves covered. */
  ghost predicate Covered(s: Stmt, tests: seq<Option<Expr>>) {
    s.Switch? && Tests(s.clauses) == tests && Scoped(s, false, false) && UserExpr(s.subject) && GoodClauses(s.clauses)
  }

  /** Whatever the subject and the bodies, the emitted switch has the runs of the source. */
  ghost predicate Preserves(tests: seq<Option<Expr>>) {
    forall s: Stmt, st: State, fuel: nat :: Covered(s, tests) && Plain(st) ==>
      TExec(Lower(s, NO_LABELS, {}).t, st, fuel) == AsTarget(Exec(s, st, fuel))
  }

  /** Some number no test evaluates to. */
  lemma {:induction false} UnusedNumber(tests: seq<Option<Expr>>, st: State) returns (n: int)
    ensures forall m :: m >= n ==> NoneEqual(tests, Number(m), st)
  {
    if tests == [] {
      n := 0;
    } else {
      n := UnusedNumber(tests[1..], st);
      if tests[0].Some? {
        var v := Eval(tests[0].value, st);
        n := if v.Number? && v.n >= n then v.n + 1 else n;
      }
      forall m | m >= n ensures NoneEqual(tests, Number(m), st) {
        assert NoneEqual(tests[1..], Number(m), st);
        forall i | 0 <= i < |tests| && tests[i].Some? ensures Eval(tests[i].value, st) != Number(m) {
          if i > 0 {
            assert tests[1..][i - 1] == tests[i];
          }
        }
      }
    }
  }

  /** Clause lists without a default, and those with a clause behind it, have switches that are emitted wrongly. */
  lemma MisplacedDefault(tests: seq<Option<Expr>>)
    requires OneDefault(tests) && UserTests(tests) && !DefaultLast(tests)
    ensures !Preserves(tests)
  {
    var n := UnusedNumber(tests, EMPTY_STATE);
    var s := ProbeSwitch(tests, n);
    ProbeIsGood(tests);
    ProbeMeaning(tests, n);
    assert Covered(s, tests) && Plain(EMPTY_STATE);
    if d :| 0 <= d < |tests| && tests[d].None? {
      EarlyDefault(tests, d, n);
    } else {
      MissingDefault(tests, n);
    }
    assert TExec(Lower(s, NO_LABELS, {}).t, EMPTY_STATE, 0) != AsTarget(Exec(s, EMPTY_STATE, 0));
  }

  /** For every list of clause tests: all its switches are emitted correctly exactly when its default is last. */
  lemma SwitchPreservedIff(tests: seq<Option<Expr>>)
    requires OneDefault(tests) && UserTests(tests)
    ensures Preserves(tests) <==> DefaultLast(tests)
  {
    if DefaultLast(tests) {
      forall s: Stmt, st: State, fuel: nat | Covered(s, tests) && Plain(st)
        ensures TExec(Lower(s, NO_LABELS, {}).t, st, fuel) == AsTarget(Exec(s, st, fuel))
      {
        ProgramPreserved(s, st, fuel);
      }
    } else {
      MisplacedDefault(tests);
    }
  }
}
