/**
 Label discipline of lowered statements: every jump names the innermost construct
 it may target, and no label is used twice along a nesting path.
 */
module LoweringLabels {
  import opened Prelude
  import opened LoweringSyntax
  import opened LoweringSemantics
  import opened Lowering
  import opened LoweringEmitted
  import opened LoweringCorrectness

  // ----- jumps name the innermost target -----

  /** Every jump in `t` names `brk` or `cont`, or the innermost loop or switch of `t` around it. */
  predicate Resolved(t: TStmt, brk: Option<string>, cont: Option<string>)
    decreases t, 1
  {
    match t
    case TBlock(_, _, body) => ResolvedSeq(body, brk, cont)
    case TIf(_, a, b) => Resolved(a, brk, cont) && Resolved(b, brk, cont)
    case TLoop(_, _, block, c, _, _, _, b) => Resolved(b, Some(block), c)
    case TSwitch(_, _, breakLabel, cs) => ResolvedClauses(cs, Some(breakLabel), cont)
    case TBreak(l) => brk == Some(l)
    case TContinue(l) => cont == Some(l)
    case _ => true
  }

  predicate ResolvedSeq(ts: seq<TStmt>, brk: Option<string>, cont: Option<string>)
    decreases ts, 0
  {
    ts == [] || (Resolved(ts[0], brk, cont) && ResolvedSeq(ts[1..], brk, cont))
  }

  predicate ResolvedClauses(cs: seq<TClause>, brk: Option<string>, cont: Option<string>)
    decreases cs, 0
  {
    cs == [] || (ResolvedSeq(cs[0].body, brk, cont) && ResolvedClauses(cs[1..], brk, cont))
  }

  function BreakTarget(c: Context): Option<string> {
    if c.breaks == [] then None else Some(Top(c.breaks))
  }

  /** `cont` is right for context `c` if it is present whenever lowering flagged a continue of the top loop. */
  predicate ContinueTarget(cont: Option<string>, c: Context, flags: set<string>) {
    c.loops != [] && ContinueLabel(Top(c.loops)) in flags ==> cont == Some(ContinueLabel(Top(c.loops)))
  }

  /** Every break and continue of a lowered statement resolves to the innermost construct it may target. */
  lemma {:induction false} JumpsResolve(s: Stmt, c: Context, flags: set<string>, cont: Option<string>)
    requires ScopedIn(s, c) && ContinueTarget(cont, c, Lower(s, c, flags).flags)
    ensures Resolved(Lower(s, c, flags).t, BreakTarget(c), cont)
    decreases s, 1
  {
    match s
    case Block(_, body) => JumpsResolveSeq(body, c, flags, cont);
    case If(_, t, e) =>
      FlagsGrow(e, c, Lower(t, c, flags).flags);
      JumpsResolve(t, c, flags, cont);
      JumpsResolve(e, c, Lower(t, c, flags).flags, cont);
    case While(_, b) => LoopResolves(s, b, c, flags);
    case DoWhile(b, _) => LoopResolves(s, b, c, flags);
    case For(_, _, _, _, b) => LoopResolves(s, b, c, flags);
    case ForOf(ds, x, arr, b) =>
      LoopResolves(s, b, c, flags);
      var loop := LoopLabel(s, |c.loops|);
      ForOfResolves(ds, x, arr, loop, Lower(b, InLoop(loop, c), flags), BreakTarget(c), cont);
    case Switch(_, cs) =>
      JumpsResolveClauses(cs, InSwitch(c), flags, cont);
      NodeOrderResolves(LowerClauses(cs, InSwitch(c), flags).cs, BreakTarget(InSwitch(c)), cont);
    case _ =>
  }

  lemma {:induction false} NodeOrderResolves(cs: seq<TClause>, brk: Option<string>, cont: Option<string>)
    requires ResolvedClauses(cs, brk, cont)
    ensures ResolvedClauses(NodeOrder(cs), brk, cont)
  {
    CasesResolve(cs, DefaultOf(cs), brk, cont);
  }

  lemma {:induction false} CasesResolve(cs: seq<TClause>, d: seq<TClause>, brk: Option<string>, cont: Option<string>)
    requires ResolvedClauses(cs, brk, cont) && (d == DefaultOf(cs) || ResolvedClauses(d, brk, cont))
    ensures ResolvedClauses(Cases(cs) + d, brk, cont)
  {
    DefaultResolves(cs, brk, cont);
    if cs == [] {
      assert Cases(cs) + d == d;
    } else {
      CasesResolve(cs[1..], d, brk, cont);
      if cs[0].test.Some? {
        assert Cases(cs) + d == [cs[0]] + (Cases(cs[1..]) + d);
      }
    }
  }

  lemma {:induction false} DefaultResolves(cs: seq<TClause>, brk: Option<string>, cont: Option<string>)
    requires ResolvedClauses(cs, brk, cont)
    ensures ResolvedClauses(DefaultOf(cs), brk, cont)
  {
    if cs != [] {
      DefaultResolves(cs[1..], brk, cont);
      if cs[0].test.None? {
        assert [cs[0]][1..] == [];
      }
    }
  }

  lemma SingletonResolved(t: TStmt, brk: Option<string>, cont: Option<string>)
    ensures ResolvedSeq([t], brk, cont) == Resolved(t, brk, cont)
  {
    assert [t][1..] == [];
  }

  lemma ForOfResolves(ds: seq<string>, x: string, arr: Expr, loop: string, r: Lowered, brk: Option<string>, cont: Option<string>)
    requires Resolved(r.t, Some(BlockLabel(loop)), ContinueFlag(loop, r.flags))
    ensures Resolved(ForOfLoop(ds, arr, IndexLoop(loop, r.flags, Prepend(ElementAssign(x, arr), r.t))), brk, cont)
  {
    var a, b := TDo(ElementAssign(x, arr)), Prepend(ElementAssign(x, arr), r.t);
    var k := ContinueFlag(loop, r.flags);
    if r.t.TBlock? {
      assert ([a] + r.t.body)[1..] == r.t.body;
    } else {
      assert [a, r.t][1..] == [r.t];
      SingletonResolved(r.t, Some(BlockLabel(loop)), k);
    }
    assert Resolved(b, Some(BlockLabel(loop)), k);
    var l := IndexLoop(loop, r.flags, b);
    assert Resolved(l, brk, cont);
    SingletonResolved(l, brk, cont);
    assert [TDo(Assign(LastIndex, Len(arr))), l][1..] == [l];
  }

  lemma {:induction false} LoopResolves(s: Stmt, b: Stmt, c: Context, flags: set<string>)
    requires Scoped(b, true, true)
    ensures var loop := LoopLabel(s, |c.loops|);
            var r := Lower(b, InLoop(loop, c), flags);
            && Resolved(r.t, Some(BlockLabel(loop)), ContinueFlag(loop, r.flags))
            && forall k, i, e, n, ds, brk, cont :: Resolved(PlainLoop(k, loop, i, e, n, ds, r), brk, cont)
    decreases b, 2
  {
    var loop := LoopLabel(s, |c.loops|);
    var r := Lower(b, InLoop(loop, c), flags);
    JumpsResolve(b, InLoop(loop, c), flags, ContinueFlag(loop, r.flags));
    forall k, i, e, n, ds, brk, cont ensures Resolved(PlainLoop(k, loop, i, e, n, ds, r), brk, cont) {
      SingletonResolved(PlainLoop(k, loop, i, e, n, ds, r).body[0], brk, cont);
    }
  }

  lemma {:induction false} JumpsResolveSeq(ss: seq<Stmt>, c: Context, flags: set<string>, cont: Option<string>)
    requires ScopedSeq(ss, c.loops != [], c.breaks != []) && ContinueTarget(cont, c, LowerSeq(ss, c, flags).flags)
    ensures ResolvedSeq(LowerSeq(ss, c, flags).ts, BreakTarget(c), cont)
    decreases ss, 0
  {
    if ss != [] {
      var r := Lower(ss[0], c, flags);
      var q := LowerSeq(ss[1..], c, r.flags);
      FlagsGrowSeq(ss[1..], c, r.flags);
      JumpsResolve(ss[0], c, flags, cont);
      JumpsResolveSeq(ss[1..], c, r.flags, cont);
      assert ([r.t] + q.ts)[1..] == q.ts;
    }
  }

  lemma {:induction false} JumpsResolveClauses(cs: seq<Clause>, c: Context, flags: set<string>, cont: Option<string>)
    requires c.breaks != [] && ScopedClauses(cs, c.loops != [])
    requires ContinueTarget(cont, c, LowerClauses(cs, c, flags).flags)
    ensures ResolvedClauses(LowerClauses(cs, c, flags).cs, BreakTarget(c), cont)
    decreases cs, 0
  {
    if cs != [] {
      var r := LowerSeq(cs[0].body, c, flags);
      var q := LowerClauses(cs[1..], c, r.flags);
      FlagsGrowClauses(cs[1..], c, r.flags);
      JumpsResolveSeq(cs[0].body, c, flags, cont);
      JumpsResolveClauses(cs[1..], c, r.flags, cont);
      assert ([TClause(cs[0].test, r.ts)] + q.cs)[1..] == q.cs;
    }
  }

  // ----- labels encode the nesting depth -----

  function CaseLabel(i: nat, switchLabel: string): string { "case" + Decimal(i) + switchLabel }

  /** The names a loop gives to the blocks it is made of, and those of a switch. */
  function LoopNames(l: TStmt): set<string>
    requires l.TLoop?
  {
    {l.loopLabel, l.block} + if l.cont.Some? then {l.cont.value} else {}
  }

  function SwitchNames(t: TStmt): set<string>
    requires t.TSwitch?
  {
    {t.breakLabel} + set i | 0 <= i <= |t.clauses| :: CaseLabel(i, t.switchLabel)
  }

  /** No construct reuses a name of a construct around it. */
  predicate DistinctLabels(t: TStmt, above: set<string>)
    decreases t, 1
  {
    match t
    case TBlock(_, _, body) => DistinctLabelsSeq(body, above)
    case TIf(_, a, b) => DistinctLabels(a, above) && DistinctLabels(b, above)
    case TLoop(_, loop, block, cont, _, _, _, b) =>
      && loop != block && cont != Some(loop) && cont != Some(block)
      && LoopNames(t) !! above && DistinctLabels(b, above + LoopNames(t))
    case TSwitch(_, _, _, cs) => SwitchNames(t) !! above && DistinctLabelsClauses(cs, above + SwitchNames(t))
    case _ => true
  }

  predicate DistinctLabelsSeq(ts: seq<TStmt>, above: set<string>)
    decreases ts, 0
  {
    ts == [] || (DistinctLabels(ts[0], above) && DistinctLabelsSeq(ts[1..], above))
  }

  predicate DistinctLabelsClauses(cs: seq<TClause>, above: set<string>)
    decreases cs, 0
  {
    cs == [] || (DistinctLabelsSeq(cs[0].body, above) && DistinctLabelsClauses(cs[1..], above))
  }

  const LOOP_PREFIXES := ["for_loop_", "while_loop_", "do_loop_"]

  const LOOP_SUFFIXES := ["", "block", "_continue"]

  /** A label of a loop at nesting depth `n`, by kind of loop and kind of label. */
  function LoopSpell(k: nat, n: nat, j: nat): string
    requires k < 3 && j < 3
  {
    LOOP_PREFIXES[k] + (Decimal(n) + LOOP_SUFFIXES[j])
  }

  ghost predicate LoopSpelling(l: string, n: nat) {
    exists k: nat, j: nat :: k < 3 && j < 3 && l == LoopSpell(k, n, j)
  }

  ghost predicate SwitchSpelling(l: string, n: nat) {
    l == BreakSwitchLabel(n + 1) || exists i: nat :: l == CaseLabel(i, SwitchLabel(n))
  }

  lemma DigitsNotShorter(m: nat, n: nat, q: string, r: string)
    requires Decimal(m) + q == Decimal(n) + r
    requires q == "" || !IsDigit(q[0])
    ensures |Decimal(n)| <= |Decimal(m)|
  {
    var s, t := Decimal(m), Decimal(n);
    if |s| < |t| {
      assert (s + q)[|s|] == q[0] && (t + r)[|s|] == t[|s|];
      DecimalHasOnlyDigits(n, |s|);
    }
  }

  /** Digits end where a suffix that does not start with a digit begins. */
  lemma DigitsThenSuffix(m: nat, n: nat, q: string, r: string)
    requires Decimal(m) + q == Decimal(n) + r
    requires q == "" || !IsDigit(q[0])
    requires r == "" || !IsDigit(r[0])
    ensures m == n && q == r
  {
    var s, t := Decimal(m), Decimal(n);
    DigitsNotShorter(m, n, q, r);
    DigitsNotShorter(n, m, r, q);
    assert s == (s + q)[..|s|] == (t + r)[..|t|] == t;
    assert q == (s + q)[|s|..] == (t + r)[|t|..] == r;
    DecimalInjective(m, n);
  }

  lemma StripPrefix(p: string, a: string, b: string)
    requires p + a == p + b
    ensures a == b
  {
    assert a == (p + a)[|p|..] == (p + b)[|p|..] == b;
  }

  lemma LoopFirst(k: nat, n: nat, j: nat)
    requires k < 3 && j < 3
    ensures var l := LoopSpell(k, n, j); |l| > 0 && l[0] == ['f', 'w', 'd'][k]
  {
    assert LoopSpell(k, n, j)[0] == LOOP_PREFIXES[k][0];
  }

  lemma SpellInjective(k: nat, m: nat, j: nat, k': nat, n: nat, j': nat)
    requires k < 3 && j < 3 && k' < 3 && j' < 3 && LoopSpell(k, m, j) == LoopSpell(k', n, j')
    ensures m == n
  {
    LoopFirst(k, m, j);
    LoopFirst(k', n, j');
    assert k == k';
    StripPrefix(LOOP_PREFIXES[k], Decimal(m) + LOOP_SUFFIXES[j], Decimal(n) + LOOP_SUFFIXES[j']);
    DigitsThenSuffix(m, n, LOOP_SUFFIXES[j], LOOP_SUFFIXES[j']);
  }

  lemma LoopDepthUnique(l: string, m: nat, n: nat)
    requires LoopSpelling(l, m) && LoopSpelling(l, n)
    ensures m == n
  {
    var k: nat, j: nat :| k < 3 && j < 3 && l == LoopSpell(k, m, j);
    var k': nat, j': nat :| k' < 3 && j' < 3 && l == LoopSpell(k', n, j');
    SpellInjective(k, m, j, k', n, j');
  }

  lemma CaseDepthUnique(i: nat, j: nat, m: nat, n: nat)
    requires CaseLabel(i, SwitchLabel(m)) == CaseLabel(j, SwitchLabel(n))
    ensures m == n
  {
    assert "case" + (Decimal(i) + SwitchLabel(m)) == CaseLabel(i, SwitchLabel(m));
    assert "case" + (Decimal(j) + SwitchLabel(n)) == CaseLabel(j, SwitchLabel(n));
    StripPrefix("case", Decimal(i) + SwitchLabel(m), Decimal(j) + SwitchLabel(n));
    DigitsThenSuffix(i, j, SwitchLabel(m), SwitchLabel(n));
    StripPrefix("_", Decimal(m), Decimal(n));
    DecimalInjective(m, n);
  }

  lemma SwitchDepthUnique(l: string, m: nat, n: nat)
    requires SwitchSpelling(l, m) && SwitchSpelling(l, n)
    ensures m == n
  {
    if l == BreakSwitchLabel(m + 1) {
      assert l[0] == 'b';
      assert l == BreakSwitchLabel(n + 1);
      StripPrefix("break-switch-", Decimal(m + 1), Decimal(n + 1));
      DecimalInjective(m + 1, n + 1);
    } else {
      var i: nat :| l == CaseLabel(i, SwitchLabel(m));
      assert l[0] == 'c';
      var j: nat :| l == CaseLabel(j, SwitchLabel(n));
      CaseDepthUnique(i, j, m, n);
    }
  }

  lemma SwitchFirst(l: string, n: nat)
    requires SwitchSpelling(l, n)
    ensures |l| > 0 && (l[0] == 'b' || l[0] == 'c')
  {
    if l != BreakSwitchLabel(n + 1) {
      var i: nat :| l == CaseLabel(i, SwitchLabel(n));
      assert l[0] == "case"[0];
    } else {
      assert l[0] == "break-switch-"[0];
    }
  }

  lemma LoopIsNotSwitch(l: string, m: nat, n: nat)
    requires LoopSpelling(l, m)
    ensures !SwitchSpelling(l, n)
  {
    var k: nat, j: nat :| k < 3 && j < 3 && l == LoopSpell(k, m, j);
    LoopFirst(k, m, j);
    if SwitchSpelling(l, n) {
      SwitchFirst(l, n);
    }
  }

  /** A name spelled for an enclosing construct: a loop of depth below `n` or a switch of depth below `k`. */
  ghost predicate Outer(l: string, n: nat, k: nat) {
    (exists m: nat :: m < n && LoopSpelling(l, m)) || (exists m: nat :: m < k && SwitchSpelling(l, m))
  }

  ghost predicate AllOuter(above: set<string>, n: nat, k: nat) {
    forall l :: l in above ==> Outer(l, n, k)
  }

  lemma SpelledForDepth(s: Stmt, n: nat)
    ensures var loop := LoopLabel(s, n);
            LoopSpelling(loop, n) && LoopSpelling(BlockLabel(loop), n) && LoopSpelling(ContinueLabel(loop), n)
  {
    var loop := LoopLabel(s, n);
    var k := if s.While? then 1 else if s.DoWhile? then 2 else 0;
    assert LoopSpell(k, n, 0) == loop;
    assert LoopSpell(k, n, 1) == BlockLabel(loop);
    assert LoopSpell(k, n, 2) == ContinueLabel(loop);
  }

  /** The names of a loop at depth `n` are new there and outer for everything inside it. */
  lemma LoopNamesFresh(s: Stmt, l: TStmt, flags: set<string>, above: set<string>, n: nat, k: nat)
    requires l.TLoop? && l.loopLabel == LoopLabel(s, n) && l.block == BlockLabel(l.loopLabel)
    requires l.cont == ContinueFlag(l.loopLabel, flags) && AllOuter(above, n, k)
    ensures l.loopLabel != l.block && l.cont != Some(l.loopLabel) && l.cont != Some(l.block)
    ensures LoopNames(l) !! above && AllOuter(above + LoopNames(l), n + 1, k)
  {
    SpelledForDepth(s, n);
    LoopLabelsDiffer(l.loopLabel);
    assert ContinueLabel(l.loopLabel) != l.loopLabel;
    forall x | x in LoopNames(l) ensures x !in above && Outer(x, n + 1, k) {
      assert LoopSpelling(x, n);
      if x in above {
        assert Outer(x, n, k);
        if m: nat :| m < n && LoopSpelling(x, m) {
          LoopDepthUnique(x, m, n);
        } else {
          var m: nat :| m < k && SwitchSpelling(x, m);
          LoopIsNotSwitch(x, n, m);
        }
      }
    }
    OuterGrows(above, n, k, n + 1, k);
  }

  lemma OuterGrows(above: set<string>, n: nat, k: nat, n': nat, k': nat)
    requires AllOuter(above, n, k) && n <= n' && k <= k'
    ensures AllOuter(above, n', k')
  {
    forall l | l in above ensures Outer(l, n', k') {
      assert Outer(l, n, k);
    }
  }

  lemma SwitchNamesFresh(t: TStmt, above: set<string>, n: nat, k: nat)
    requires t.TSwitch? && t.switchLabel == SwitchLabel(k) && t.breakLabel == BreakSwitchLabel(k + 1)
    requires AllOuter(above, n, k)
    ensures SwitchNames(t) !! above && AllOuter(above + SwitchNames(t), n, k + 1)
  {
    forall x | x in SwitchNames(t) ensures x !in above && Outer(x, n, k + 1) {
      assert SwitchSpelling(x, k);
      if x in above {
        assert Outer(x, n, k);
        if m: nat :| m < k && SwitchSpelling(x, m) {
          SwitchDepthUnique(x, m, k);
        } else {
          var m: nat :| m < n && LoopSpelling(x, m);
          LoopIsNotSwitch(x, m, k);
        }
      }
    }
    OuterGrows(above, n, k, n, k + 1);
  }

  /** Labels are pairwise distinct along every nesting path of a lowered statement. */
  lemma {:induction false} LabelsFresh(s: Stmt, c: Context, flags: set<string>, above: set<string>)
    requires ScopedIn(s, c) && AllOuter(above, |c.loops|, |c.switches|)
    ensures DistinctLabels(Lower(s, c, flags).t, above)
    decreases s, 1
  {
    match s
    case Block(_, body) => LabelsFreshSeq(body, c, flags, above);
    case If(_, t, e) => LabelsFresh(t, c, flags, above); LabelsFresh(e, c, Lower(t, c, flags).flags, above);
    case While(_, b) => LoopFresh(s, Lower(s, c, flags).t.body[0], b, c, flags, above);
    case DoWhile(b, _) => LoopFresh(s, Lower(s, c, flags).t.body[0], b, c, flags, above);
    case For(_, _, _, _, b) => LoopFresh(s, Lower(s, c, flags).t.body[0], b, c, flags, above);
    case ForOf(_, x, arr, b) =>
      var t := Lower(s, c, flags).t;
      assert t.body[1..] == [t.body[1]];
      LoopFresh(s, t.body[1], b, c, flags, above);
    case Switch(_, cs) =>
      var t := Lower(s, c, flags).t;
      SwitchNamesFresh(t, above, |c.loops|, |c.switches|);
      LabelsFreshClauses(cs, InSwitch(c), flags, above + SwitchNames(t));
      CasesFresh(LowerClauses(cs, InSwitch(c), flags).cs, DefaultOf(LowerClauses(cs, InSwitch(c), flags).cs),
                 above + SwitchNames(t));
    case _ =>
  }

  lemma {:induction false} CasesFresh(cs: seq<TClause>, d: seq<TClause>, above: set<string>)
    requires DistinctLabelsClauses(cs, above) && (d == DefaultOf(cs) || DistinctLabelsClauses(d, above))
    ensures DistinctLabelsClauses(Cases(cs) + d, above)
  {
    DefaultFresh(cs, above);
    if cs == [] {
      assert Cases(cs) + d == d;
    } else {
      CasesFresh(cs[1..], d, above);
      if cs[0].test.Some? {
        assert Cases(cs) + d == [cs[0]] + (Cases(cs[1..]) + d);
      }
    }
  }

  lemma {:induction false} DefaultFresh(cs: seq<TClause>, above: set<string>)
    requires DistinctLabelsClauses(cs, above)
    ensures DistinctLabelsClauses(DefaultOf(cs), above)
  {
    if cs != [] {
      DefaultFresh(cs[1..], above);
      if cs[0].test.None? {
        assert [cs[0]][1..] == [];
      }
    }
  }

  lemma {:induction false} LoopFresh(s: Stmt, l: TStmt, b: Stmt, c: Context, flags: set<string>, above: set<string>)
    requires Scoped(b, true, true) && AllOuter(above, |c.loops|, |c.switches|)
    requires l.TLoop? && l.loopLabel == LoopLabel(s, |c.loops|) && l.block == BlockLabel(l.loopLabel)
    requires var r := Lower(b, InLoop(l.loopLabel, c), flags);
             && l.cont == ContinueFlag(l.loopLabel, r.flags)
             && (l.loopBody == r.t || exists a :: l.loopBody == Prepend(a, r.t))
    ensures DistinctLabels(l, above) && DistinctLabelsSeq([l], above)
    decreases b, 2
  {
    var r := Lower(b, InLoop(l.loopLabel, c), flags);
    LoopNamesFresh(s, l, r.flags, above, |c.loops|, |c.switches|);
    LabelsFresh(b, InLoop(l.loopLabel, c), flags, above + LoopNames(l));
    if l.loopBody != r.t {
      var a :| l.loopBody == Prepend(a, r.t);
      PrependFresh(a, r.t, above + LoopNames(l));
    }
    SingletonFresh(l, above);
  }

  lemma SingletonFresh(t: TStmt, above: set<string>)
    ensures DistinctLabelsSeq([t], above) == DistinctLabels(t, above)
  {
    assert [t][1..] == [];
  }

  lemma PrependFresh(a: Action, t: TStmt, above: set<string>)
    requires DistinctLabels(t, above)
    ensures DistinctLabels(Prepend(a, t), above)
  {
    if t.TBlock? {
      assert ([TDo(a)] + t.body)[1..] == t.body;
    } else {
      assert [TDo(a), t][1..] == [t];
      SingletonFresh(t, above);
    }
  }

  lemma {:induction false} LabelsFreshSeq(ss: seq<Stmt>, c: Context, flags: set<string>, above: set<string>)
    requires ScopedSeq(ss, c.loops != [], c.breaks != []) && AllOuter(above, |c.loops|, |c.switches|)
    ensures DistinctLabelsSeq(LowerSeq(ss, c, flags).ts, above)
    decreases ss, 0
  {
    if ss != [] {
      var r := Lower(ss[0], c, flags);
      var q := LowerSeq(ss[1..], c, r.flags);
      LabelsFresh(ss[0], c, flags, above);
      LabelsFreshSeq(ss[1..], c, r.flags, above);
      assert ([r.t] + q.ts)[1..] == q.ts;
    }
  }

  lemma {:induction false} LabelsFreshClauses(cs: seq<Clause>, c: Context, flags: set<string>, above: set<string>)
    requires c.breaks != [] && ScopedClauses(cs, c.loops != []) && AllOuter(above, |c.loops|, |c.switches|)
    ensures DistinctLabelsClauses(LowerClauses(cs, c, flags).cs, above)
    decreases cs, 0
  {
    if cs != [] {
      var r := LowerSeq(cs[0].body, c, flags);
      var q := LowerClauses(cs[1..], c, r.flags);
      LabelsFreshSeq(cs[0].body, c, flags, above);
      LabelsFreshClauses(cs[1..], c, r.flags, above);
      assert ([TClause(cs[0].test, r.ts)] + q.cs)[1..] == q.cs;
    }
  }

  // ----- which loops have a continue label -----

  /** A continue in the statement that belongs to a loop around it. */
  predicate OwnContinue(s: Stmt)
    decreases s, 1
  {
    match s
    case Continue => true
    case Block(_, body) => OwnContinueSeq(body)
    case If(_, t, e) => OwnContinue(t) || OwnContinue(e)
    case Switch(_, cs) => OwnContinueClauses(cs)
    case _ => false
  }

  predicate OwnContinueSeq(ss: seq<Stmt>)
    decreases ss, 0
  {
    ss != [] && (OwnContinue(ss[0]) || OwnContinueSeq(ss[1..]))
  }

  predicate OwnContinueClauses(cs: seq<Clause>)
    decreases cs, 0
  {
    cs != [] && (OwnContinueSeq(cs[0].body) || OwnContinueClauses(cs[1..]))
  }

  /** The innermost loop is numbered by the loops around it. */
  ghost predicate Numbered(c: Context) {
    c.loops != [] ==> LoopSpelling(Top(c.loops), |c.loops| - 1)
  }

  /** Whether a continue of the innermost loop is named `l`. */
  predicate IsTop(l: string, c: Context) {
    c.loops != [] && Top(c.loops) == l
  }

  lemma ContinueLabelInjective(a: string, b: string)
    requires ContinueLabel(a) == ContinueLabel(b)
    ensures a == b
  {
    var n := |"_continue"|;
    assert a == ContinueLabel(a)[..|ContinueLabel(a)| - n] == ContinueLabel(b)[..|ContinueLabel(b)| - n] == b;
  }

  /** Entering a loop makes a label of another depth the innermost one. */
  lemma InLoopIsDeeper(s: Stmt, c: Context, l: string, k: nat)
    requires LoopSpelling(l, k) && k < |c.loops|
    ensures var loop := LoopLabel(s, |c.loops|);
            Numbered(InLoop(loop, c)) && !IsTop(l, InLoop(loop, c)) && Top(InLoop(loop, c).loops) == loop
  {
    var loop := LoopLabel(s, |c.loops|);
    SpelledForDepth(s, |c.loops|);
    if loop == l {
      LoopDepthUnique(l, k, |c.loops|);
    }
  }

  /** A loop's continue label is collected exactly when the loop has a continue of its own. */
  lemma {:induction false} ContinueCollectedIff(s: Stmt, c: Context, flags: set<string>, l: string, k: nat)
    requires ScopedIn(s, c) && Numbered(c) && LoopSpelling(l, k) && k < |c.loops|
    ensures ContinueLabel(l) in Lower(s, c, flags).flags <==> ContinueLabel(l) in flags || (IsTop(l, c) && OwnContinue(s))
    decreases s, 1
  {
    match s
    case Block(_, body) => ContinueCollectedSeq(body, c, flags, l, k);
    case If(_, t, e) =>
      ContinueCollectedIff(t, c, flags, l, k);
      ContinueCollectedIff(e, c, Lower(t, c, flags).flags, l, k);
    case While(_, b) => ContinueInLoop(s, b, c, flags, l, k);
    case DoWhile(b, _) => ContinueInLoop(s, b, c, flags, l, k);
    case For(_, _, _, _, b) => ContinueInLoop(s, b, c, flags, l, k);
    case ForOf(_, _, _, b) => ContinueInLoop(s, b, c, flags, l, k);
    case Switch(_, cs) => ContinueCollectedClauses(cs, InSwitch(c), flags, l, k);
    case Continue =>
      if ContinueLabel(l) == ContinueLabel(Top(c.loops)) {
        ContinueLabelInjective(l, Top(c.loops));
      }
    case _ =>
  }

  lemma {:induction false} ContinueInLoop(s: Stmt, b: Stmt, c: Context, flags: set<string>, l: string, k: nat)
    requires (s.While? || s.DoWhile? || s.For? || s.ForOf?) && s.loopBody == b && ScopedIn(s, c) && Scoped(b, true, true)
    requires Numbered(c) && LoopSpelling(l, k) && k < |c.loops|
    ensures ContinueLabel(l) in Lower(b, InLoop(LoopLabel(s, |c.loops|), c), flags).flags <==> ContinueLabel(l) in flags
    decreases b, 2
  {
    InLoopIsDeeper(s, c, l, k);
    ContinueCollectedIff(b, InLoop(LoopLabel(s, |c.loops|), c), flags, l, k);
  }

  lemma {:induction false} ContinueCollectedSeq(ss: seq<Stmt>, c: Context, flags: set<string>, l: string, k: nat)
    requires ScopedSeq(ss, c.loops != [], c.breaks != []) && Numbered(c) && LoopSpelling(l, k) && k < |c.loops|
    ensures ContinueLabel(l) in LowerSeq(ss, c, flags).flags <==> ContinueLabel(l) in flags || (IsTop(l, c) && OwnContinueSeq(ss))
    decreases ss, 0
  {
    if ss != [] {
      ContinueCollectedIff(ss[0], c, flags, l, k);
      ContinueCollectedSeq(ss[1..], c, Lower(ss[0], c, flags).flags, l, k);
    }
  }

  lemma {:induction false} ContinueCollectedClauses(cs: seq<Clause>, c: Context, flags: set<string>, l: string, k: nat)
    requires c.breaks != [] && ScopedClauses(cs, c.loops != []) && Numbered(c) && LoopSpelling(l, k) && k < |c.loops|
    ensures ContinueLabel(l) in LowerClauses(cs, c, flags).flags <==>
            ContinueLabel(l) in flags || (IsTop(l, c) && OwnContinueClauses(cs))
    decreases cs, 0
  {
    if cs != [] {
      ContinueCollectedSeq(cs[0].body, c, flags, l, k);
      ContinueCollectedClauses(cs[1..], c, LowerSeq(cs[0].body, c, flags).flags, l, k);
    }
  }

  /** The loop a source loop is lowered to: the last statement of its block. */
  function LoopInside(t: TStmt): TStmt {
    if t.TBlock? && t.body != [] then t.body[|t.body| - 1] else t
  }

  /** A lowered loop has a continue label exactly when its body has a continue of its own, or an earlier loop left the name. */
  lemma LoopHasContinueIff(s: Stmt, c: Context, flags: set<string>)
    requires (s.While? || s.DoWhile? || s.For? || s.ForOf?) && ScopedIn(s, c)
    ensures var loop, t := LoopLabel(s, |c.loops|), LoopInside(Lower(s, c, flags).t);
            t.TLoop? && t.loopLabel == loop && (t.cont.Some? <==> OwnContinue(s.loopBody) || ContinueLabel(loop) in flags)
  {
    var loop := LoopLabel(s, |c.loops|);
    SpelledForDepth(s, |c.loops|);
    assert Top(InLoop(loop, c).loops) == loop;
    ContinueCollectedIff(s.loopBody, InLoop(loop, c), flags, loop, |c.loops|);
  }

  // ----- whole programs -----

  /** Program states: no scope has for-of counters. */
  predicate Plain(st: State) {
    forall i :: 0 <= i < |st.frames| ==> st.frames[i].counters == None
  }

  lemma PlainView(fs: seq<Frame>)
    requires forall i :: 0 <= i < |fs| ==> fs[i].counters == None
    ensures ShownAll(fs) == fs
  {
    if fs != [] {
      PlainView(fs[1..]);
      assert fs == [fs[0]] + fs[1..];
    }
  }

  lemma MaskedAt(fs: seq<Frame>, i: nat)
    requires i < |fs|
    ensures |MaskedAll(fs)| == |fs| && MaskedAll(fs)[i] == fs[i].counters
  {
    if |fs| > 1 {
      MaskedAt(fs[1..], if i > 0 then i - 1 else 0);
    }
  }

  lemma MaskedLength(fs: seq<Frame>)
    ensures |MaskedAll(fs)| == |fs|
  {
  }

  /** How the run of a whole program ends. */
  function AsTarget(r: Run): TRun {
    match r
    case Timeout => TTimeout
    case Done(Returned(v), st) => TDone(TReturned(v), st)
    case Done(_, st) => TDone(TNormal, st)
  }

  /** The lowered form of any program does what is told of it on the source: same outcome, same final state, same divergence. */
  lemma ProgramMeaning(s: Stmt, st: State, fuel: nat)
    requires Scoped(s, false, false) && Written(s) && Plain(st)
    ensures TExec(Lower(s, Context([], [], []), {}).t, st, fuel) == AsTarget(Emitted(s, st, fuel))
  {
    PlainView(st.frames);
    LoweringMeaning(s, Context([], [], []), {}, st, fuel);
    var t := TExec(Lower(s, Context([], [], []), {}).t, st, fuel);
    if t.TDone? {
      MaskedLength(t.st.frames);
      MaskedLength(st.frames);
      forall i | 0 <= i < |t.st.frames| ensures t.st.frames[i].counters == None {
        MaskedAt(t.st.frames, i);
        MaskedAt(st.frames, i);
      }
      PlainView(t.st.frames);
    }
  }

  /** A covered program and its lowered form have the same runs. */
  lemma ProgramPreserved(s: Stmt, st: State, fuel: nat)
    requires Scoped(s, false, false) && Good(s) && Plain(st)
    ensures TExec(Lower(s, Context([], [], []), {}).t, st, fuel) == AsTarget(Exec(s, st, fuel))
  {
    GoodIsWritten(s);
    ProgramMeaning(s, st, fuel);
    RunsAsWritten(s, st, fuel);
  }
}
