/**
 The statement trees on both sides of the statement processor: the TypeScript
 statements it visits and the labelled statements it produces.
 */
module LoweringSyntax {
  import opened Prelude

  /**
   A variable is either one the program declares or one of the two names every
   for-of loop declares in its own scope, `@loop_index` and `@last_index`. No
   TypeScript identifier starts with `@`.
   */
  datatype Name = User(id: string) | LoopIndex | LastIndex

  /** Expressions are free of side effects; `Len` and `Index` are `e.length` and `e[i]`. */
  datatype Expr =
    | Num(n: int)
    | Var(x: Name)
    | Add(left: Expr, right: Expr)
    | Less(left: Expr, right: Expr)
    | Len(arr: Expr)
    | Index(arr: Expr, idx: Expr)

  /** Expression statements with an effect. Arrays are references into a shared heap. */
  datatype Action =
    | Assign(x: Name, e: Expr)
    | SetElem(arr: Expr, idx: Expr, e: Expr)
    | Push(arr: Expr, e: Expr)

  datatype Clause = Clause(test: Option<Expr>, body: seq<Stmt>)

  /** Source statements. `decls` lists the variables that live in the scope a statement opens. */
  datatype Stmt =
    | Empty
    | Do(a: Action)
    | Return(e: Expr)
    | Block(decls: seq<string>, body: seq<Stmt>)
    | If(cond: Expr, thn: Stmt, els: Stmt)
    | While(cond: Expr, loopBody: Stmt)
    | DoWhile(loopBody: Stmt, cond: Expr)
    | For(decls: seq<string>, init: Option<Action>, test: Option<Expr>, incr: Option<Action>, loopBody: Stmt)
    | ForOf(decls: seq<string>, x: string, arr: Expr, loopBody: Stmt)
    | Switch(subject: Expr, clauses: seq<Clause>)
    | Break
    | Continue

  datatype LoopKind = PreTest | PostTest

  datatype TClause = TClause(test: Option<Expr>, body: seq<TStmt>)

  /**
   Lowered statements: loops and switches carry label strings, jumps name the
   label they leave. A scope with `counters` also declares `@loop_index` and
   `@last_index`. A switch holds its case clauses first and its default last.
   */
  datatype TStmt =
    | TEmpty
    | TDo(a: Action)
    | TReturn(e: Expr)
    | TBlock(decls: seq<string>, counters: bool, body: seq<TStmt>)
    | TIf(cond: Expr, thn: TStmt, els: TStmt)
    | TLoop(kind: LoopKind, loopLabel: string, block: string, cont: Option<string>,
            init: Option<Action>, test: Option<Expr>, incr: Option<Action>, loopBody: TStmt)
    | TSwitch(subject: Expr, switchLabel: string, breakLabel: string, clauses: seq<TClause>)
    | TBreak(target: string)
    | TContinue(target: string)

  /** Compiler-made names. */
  predicate Hidden(x: Name) {
    !x.User?
  }

  function Vars(e: Expr): set<Name> {
    match e
    case Num(_) => {}
    case Var(x) => {x}
    case Add(l, r) => Vars(l) + Vars(r)
    case Less(l, r) => Vars(l) + Vars(r)
    case Len(a) => Vars(a)
    case Index(a, i) => Vars(a) + Vars(i)
  }

  predicate UserExpr(e: Expr) {
    forall x :: x in Vars(e) ==> !Hidden(x)
  }

  predicate UserTest(o: Option<Expr>) {
    o.Some? ==> UserExpr(o.value)
  }

  predicate UserAction(a: Action) {
    match a
    case Assign(x, e) => !Hidden(x) && UserExpr(e)
    case SetElem(r, i, e) => UserExpr(r) && UserExpr(i) && UserExpr(e)
    case Push(r, e) => UserExpr(r) && UserExpr(e)
  }

  predicate UserStep(o: Option<Action>) {
    o.Some? ==> UserAction(o.value)
  }
}
