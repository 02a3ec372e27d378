/**
 The texts type ids are based on: the shape string of a class, what it reads of
 other classes, and the references between classes that are collected for it.
 */
module TypeIds {
  import opened Prelude

  type ClassId = nat

  datatype Type =
    | Primitive(name: string)
    | Union(members: seq<Type>)
    | Array(elem: Type)
    | Class(id: ClassId)
    | Wasm(name: string, kind: string)
    | Function(params: seq<Type>, optional: seq<bool>, rest: bool, ret: Type)
    | Tuple(elems: seq<Type>)
    | TypeParameter(name: string, wide: Type, default: Option<Type>)
    | Opaque(text: string)

  datatype Field = Field(name: string, optional: bool, kind: Type)

  datatype FunctionKind = Default | Constructor | Ordinary | Getter | Setter | Static

  /** A static accessor has the static modifier and the kind of an accessor. */
  datatype Method = Method(name: string, optional: bool, isStatic: bool, funcKind: FunctionKind, kind: Type)

  /** An object type literal is declared without a name. */
  datatype ClassType = ClassType(name: string, literal: bool, fields: seq<Field>, methods: seq<Method>)

  datatype Status = NotVisited | Visited | Processed

  const NO_ID := -1

  /** What texts read of the classes: the ids and names they have at the moment, and which are literals. */
  datatype Env = Env(ids: seq<int>, names: seq<string>, literals: seq<bool>)

  // ----- texts -----

  /** The numeral of a type id; an id not yet assigned prints as `-1`. */
  function IdText(env: Env, c: ClassId): string {
    if c < |env.ids| && env.ids[c] >= 0 then Decimal(env.ids[c]) else "-1"
  }

  function NameText(env: Env, c: ClassId): string {
    if c < |env.names| then env.names[c] else ""
  }

  /** A class prints by its name; its mangled name is still empty when ids are allocated. */
  function ClassText(env: Env, c: ClassId): string {
    "Class(" + NameText(env, c) + (if c < |env.literals| && env.literals[c] then "( Literal))" else "( ))")
  }

  /** `toString` of a type, by which members of a union are printed. */
  function PrintText(t: Type, env: Env): string
    decreases t, 1
  {
    match t
    case Primitive(name) => name
    case Union(ms) => "Union(" + Join(PrintTexts(ms, env), " | ") + ")"
    case Array(e) => "Array<" + PrintText(e, env) + ">"
    case Class(c) => ClassText(env, c)
    case Wasm(_, kind) => "TYPE(" + kind + ")"
    case Function(ps, _, _, ret) => "Function(" + Join(PrintTexts(ps, env), ",") + ")" + PrintText(ret, env)
    case Tuple(es) => "Tuple[" + Join(PrintTexts(es, env), " , ") + "]"
    case TypeParameter(name, wide, default) =>
      "TypeParameter(" + name + " wide:" + PrintText(wide, env) + " default: "
      + (if default.Some? then PrintText(default.value, env) else "undefined") + ")"
    case Opaque(text) => text
  }

  function PrintTexts(ts: seq<Type>, env: Env): (r: seq<string>)
    ensures |r| == |ts|
    decreases ts, 0
  {
    if ts == [] then [] else [PrintText(ts[0], env)] + PrintTexts(ts[1..], env)
  }

  /** The text of a type inside a shape. */
  function TypeText(t: Type, env: Env): string
    decreases t, 1
  {
    match t
    case Primitive(name) => name
    case Union(ms) => Join(PrintTexts(ms, env), "|")
    case Array(e) => TypeText(e, env) + "[]"
    case Class(c) => IdText(env, c)
    case Wasm(name, _) => name
    case Function(ps, opt, rest, ret) => "(" + Join(ParamTexts(ps, opt, rest, env), ",") + ")=>" + TypeText(ret, env)
    case _ => "unknown"
  }

  /** One text per parameter; the last one is left empty unless it is a rest parameter. */
  function ParamTexts(ps: seq<Type>, opt: seq<bool>, rest: bool, env: Env): (r: seq<string>)
    ensures |r| == |ps|
    decreases ps, 0
  {
    if ps == [] then []
    else if |ps| == 1 then [if rest then "..." + TypeText(ps[0], env) else ""]
    else
      [(if opt != [] && opt[0] then "?" else "") + TypeText(ps[0], env)]
      + ParamTexts(ps[1..], if opt == [] then [] else opt[1..], rest, env)
  }

  function FieldsText(fs: seq<Field>, env: Env): string {
    if fs == [] then ""
    else fs[0].name + (if fs[0].optional then "?: " else ": ") + TypeText(fs[0].kind, env) + "," + FieldsText(fs[1..], env)
  }

  /** Methods of the static kind are left out; static accessors are not. */
  function MethodsText(ms: seq<Method>, env: Env): string {
    if ms == [] then ""
    else
      (if ms[0].funcKind.Static? then ""
       else ms[0].name + (if ms[0].optional then "?: " else ": ") + TypeText(ms[0].kind, env) + "(m)" + ",")
      + MethodsText(ms[1..], env)
  }

  function ShapeDesc(c: ClassType, env: Env): string {
    FieldsText(c.fields, env) + MethodsText(c.methods, env)
  }

  // ----- collected references -----

  function Insert(c: ClassId, refs: seq<ClassId>): seq<ClassId> {
    if c in refs then refs else refs + [c]
  }

  /** Adds the classes a type mentions directly, looking through arrays and functions only. */
  function TypeRefs(t: Type, refs: seq<ClassId>): seq<ClassId>
    decreases t, 1
  {
    match t
    case Class(c) => Insert(c, refs)
    case Array(e) => TypeRefs(e, refs)
    case Function(ps, _, _, ret) => ParamRefs(ps, TypeRefs(ret, refs))
    case _ => refs
  }

  function ParamRefs(ps: seq<Type>, refs: seq<ClassId>): seq<ClassId>
    decreases ps, 0
  {
    if ps == [] then refs else ParamRefs(ps[1..], TypeRefs(ps[0], refs))
  }

  function FieldRefs(fs: seq<Field>, refs: seq<ClassId>): seq<ClassId> {
    if fs == [] then refs else FieldRefs(fs[1..], TypeRefs(fs[0].kind, refs))
  }

  /** Methods with the static modifier are left out, static accessors among them. */
  function MethodRefs(ms: seq<Method>, refs: seq<ClassId>): seq<ClassId> {
    if ms == [] then refs
    else MethodRefs(ms[1..], if ms[0].isStatic then refs else TypeRefs(ms[0].kind, refs))
  }

  /** The references of a class added to ones collected before. */
  function MoreRefs(c: ClassType, refs: seq<ClassId>): seq<ClassId> {
    MethodRefs(c.methods, FieldRefs(c.fields, refs))
  }

  function ClassRefs(c: ClassType): seq<ClassId> { MoreRefs(c, []) }

  // ----- what a text reads -----

  datatype Read = OfId(c: ClassId) | OfName(c: ClassId)

  function ReadText(env: Env, r: Read): string {
    if r.OfId? then IdText(env, r.c) else NameText(env, r.c)
  }

  function PrintReads(t: Type): set<Read>
    decreases t, 1
  {
    match t
    case Union(ms) => AllPrintReads(ms)
    case Array(e) => PrintReads(e)
    case Class(c) => {OfName(c)}
    case Function(ps, _, _, ret) => AllPrintReads(ps) + PrintReads(ret)
    case Tuple(es) => AllPrintReads(es)
    case TypeParameter(_, wide, default) => PrintReads(wide) + if default.Some? then PrintReads(default.value) else {}
    case _ => {}
  }

  function AllPrintReads(ts: seq<Type>): set<Read>
    decreases ts, 0
  {
    if ts == [] then {} else PrintReads(ts[0]) + AllPrintReads(ts[1..])
  }

  function TypeReads(t: Type): set<Read>
    decreases t, 1
  {
    match t
    case Union(ms) => AllPrintReads(ms)
    case Array(e) => TypeReads(e)
    case Class(c) => {OfId(c)}
    case Function(ps, _, rest, ret) => ParamReads(ps, rest) + TypeReads(ret)
    case _ => {}
  }

  function ParamReads(ps: seq<Type>, rest: bool): set<Read>
    decreases ps, 0
  {
    if ps == [] || (|ps| == 1 && !rest) then {} else TypeReads(ps[0]) + ParamReads(ps[1..], rest)
  }

  function FieldReads(fs: seq<Field>): set<Read> {
    if fs == [] then {} else TypeReads(fs[0].kind) + FieldReads(fs[1..])
  }

  function MethodReads(ms: seq<Method>): set<Read> {
    if ms == [] then {} else (if ms[0].funcKind.Static? then {} else TypeReads(ms[0].kind)) + MethodReads(ms[1..])
  }

  /** The ids and names the shape of a class reads. */
  function ShapeReads(c: ClassType): set<Read> { FieldReads(c.fields) + MethodReads(c.methods) }

  // ----- a text depends on what it reads -----

  predicate SameReads(env: Env, env': Env, rs: set<Read>) {
    env.literals == env'.literals && forall r :: r in rs ==> ReadText(env, r) == ReadText(env', r)
  }

  lemma {:induction false} PrintDepends(t: Type, env: Env, env': Env)
    requires SameReads(env, env', PrintReads(t))
    ensures PrintText(t, env) == PrintText(t, env')
    decreases t, 1
  {
    match t
    case Union(ms) => PrintsDepend(ms, env, env');
    case Array(e) => PrintDepends(e, env, env');
    case Class(c) => assert ReadText(env, OfName(c)) == ReadText(env', OfName(c));
    case Function(ps, _, _, ret) => PrintsDepend(ps, env, env'); PrintDepends(ret, env, env');
    case Tuple(es) => PrintsDepend(es, env, env');
    case TypeParameter(_, wide, default) =>
      PrintDepends(wide, env, env');
      if default.Some? {
        PrintDepends(default.value, env, env');
      }
    case _ =>
  }

  lemma {:induction false} PrintsDepend(ts: seq<Type>, env: Env, env': Env)
    requires SameReads(env, env', AllPrintReads(ts))
    ensures PrintTexts(ts, env) == PrintTexts(ts, env')
    decreases ts, 0
  {
    if ts != [] {
      PrintDepends(ts[0], env, env');
      PrintsDepend(ts[1..], env, env');
    }
  }

  lemma {:induction false} TypeDepends(t: Type, env: Env, env': Env)
    requires SameReads(env, env', TypeReads(t))
    ensures TypeText(t, env) == TypeText(t, env')
    decreases t, 1
  {
    match t
    case Union(ms) => PrintsDepend(ms, env, env');
    case Array(e) => TypeDepends(e, env, env');
    case Class(c) => assert ReadText(env, OfId(c)) == ReadText(env', OfId(c));
    case Function(ps, opt, rest, ret) => ParamsDepend(ps, opt, rest, env, env'); TypeDepends(ret, env, env');
    case _ =>
  }

  lemma {:induction false} ParamsDepend(ps: seq<Type>, opt: seq<bool>, rest: bool, env: Env, env': Env)
    requires SameReads(env, env', ParamReads(ps, rest))
    ensures ParamTexts(ps, opt, rest, env) == ParamTexts(ps, opt, rest, env')
    decreases ps, 0
  {
    if ps != [] && (|ps| > 1 || rest) {
      TypeDepends(ps[0], env, env');
      if |ps| > 1 {
        ParamsDepend(ps[1..], if opt == [] then [] else opt[1..], rest, env, env');
      }
    }
  }

  lemma {:induction false} FieldsDepend(fs: seq<Field>, env: Env, env': Env)
    requires SameReads(env, env', FieldReads(fs))
    ensures FieldsText(fs, env) == FieldsText(fs, env')
  {
    if fs != [] {
      TypeDepends(fs[0].kind, env, env');
      FieldsDepend(fs[1..], env, env');
    }
  }

  lemma {:induction false} MethodsDepend(ms: seq<Method>, env: Env, env': Env)
    requires SameReads(env, env', MethodReads(ms))
    ensures MethodsText(ms, env) == MethodsText(ms, env')
  {
    if ms != [] {
      if !ms[0].funcKind.Static? {
        TypeDepends(ms[0].kind, env, env');
      }
      MethodsDepend(ms[1..], env, env');
    }
  }

  /** Equal readings make equal shapes. */
  lemma ShapeDependsOnReads(c: ClassType, env: Env, env': Env)
    requires SameReads(env, env', ShapeReads(c))
    ensures ShapeDesc(c, env) == ShapeDesc(c, env')
  {
    FieldsDepend(c.fields, env, env');
    MethodsDepend(c.methods, env, env');
  }

  // ----- and changes with it -----

  /** Nothing of `rs` reads shorter. */
  predicate LongerReads(env: Env, env': Env, rs: set<Read>) {
    env.literals == env'.literals && forall r :: r in rs ==> |ReadText(env, r)| <= |ReadText(env', r)|
  }

  predicate LongerAt(env: Env, env': Env, rs: set<Read>) {
    exists r :: r in rs && |ReadText(env, r)| < |ReadText(env', r)|
  }

  /** At least as long, and longer when something read is. */
  predicate Stretched(s: string, s': string, env: Env, env': Env, rs: set<Read>) {
    |s| <= |s'| && (LongerAt(env, env', rs) ==> |s| < |s'|)
  }

  predicate AllStretched(ss: seq<string>, ss': seq<string>, env: Env, env': Env, rs: set<Read>) {
    TotalLength(ss) <= TotalLength(ss') && |ss| == |ss'| && (LongerAt(env, env', rs) ==> TotalLength(ss) < TotalLength(ss'))
  }

  function TotalLength(ss: seq<string>): nat {
    if ss == [] then 0 else |ss[0]| + TotalLength(ss[1..])
  }

  lemma {:induction false} JoinLength(ss: seq<string>, separator: string)
    ensures |Join(ss, separator)| == TotalLength(ss) + if ss == [] then 0 else (|ss| - 1) * |separator|
  {
    if |ss| > 1 {
      JoinLength(ss[1..], separator);
      var n := |ss| - 1;
      assert n * |separator| == (n - 1) * |separator| + |separator|;
    } else if |ss| == 1 {
      assert ss[1..] == [];
    }
  }

  lemma JoinStretches(ss: seq<string>, ss': seq<string>, separator: string, env: Env, env': Env, rs: set<Read>)
    requires AllStretched(ss, ss', env, env', rs)
    ensures Stretched(Join(ss, separator), Join(ss', separator), env, env', rs)
  {
    JoinLength(ss, separator);
    JoinLength(ss', separator);
  }

  lemma LongerInUnion(env: Env, env': Env, rs: set<Read>, qs: set<Read>)
    ensures LongerAt(env, env', rs + qs) <==> LongerAt(env, env', rs) || LongerAt(env, env', qs)
  {
    if LongerAt(env, env', rs + qs) {
      var r :| r in rs + qs && |ReadText(env, r)| < |ReadText(env', r)|;
      assert r in rs || r in qs;
    }
    if LongerAt(env, env', rs) {
      var r :| r in rs && |ReadText(env, r)| < |ReadText(env', r)|;
      assert r in rs + qs;
    }
    if LongerAt(env, env', qs) {
      var r :| r in qs && |ReadText(env, r)| < |ReadText(env', r)|;
      assert r in rs + qs;
    }
  }

  lemma {:induction false} PrintStretches(t: Type, env: Env, env': Env)
    requires LongerReads(env, env', PrintReads(t))
    ensures Stretched(PrintText(t, env), PrintText(t, env'), env, env', PrintReads(t))
    decreases t, 1
  {
    match t
    case Union(ms) =>
      PrintsStretch(ms, env, env');
      JoinStretches(PrintTexts(ms, env), PrintTexts(ms, env'), " | ", env, env', AllPrintReads(ms));
    case Array(e) => PrintStretches(e, env, env');
    case Class(c) => assert |ReadText(env, OfName(c))| <= |ReadText(env', OfName(c))|;
    case Function(ps, _, _, ret) =>
      PrintsStretch(ps, env, env');
      JoinStretches(PrintTexts(ps, env), PrintTexts(ps, env'), ",", env, env', AllPrintReads(ps));
      PrintStretches(ret, env, env');
      LongerInUnion(env, env', AllPrintReads(ps), PrintReads(ret));
    case Tuple(es) =>
      PrintsStretch(es, env, env');
      JoinStretches(PrintTexts(es, env), PrintTexts(es, env'), " , ", env, env', AllPrintReads(es));
    case TypeParameter(_, wide, default) =>
      PrintStretches(wide, env, env');
      if default.Some? {
        PrintStretches(default.value, env, env');
        LongerInUnion(env, env', PrintReads(wide), PrintReads(default.value));
      } else {
        assert PrintReads(t) == PrintReads(wide);
      }
    case _ =>
  }

  lemma {:induction false} PrintsStretch(ts: seq<Type>, env: Env, env': Env)
    requires LongerReads(env, env', AllPrintReads(ts))
    ensures AllStretched(PrintTexts(ts, env), PrintTexts(ts, env'), env, env', AllPrintReads(ts))
    decreases ts, 0
  {
    if ts != [] {
      PrintStretches(ts[0], env, env');
      PrintsStretch(ts[1..], env, env');
      LongerInUnion(env, env', PrintReads(ts[0]), AllPrintReads(ts[1..]));
      TotalStep(PrintText(ts[0], env), PrintTexts(ts[1..], env));
      TotalStep(PrintText(ts[0], env'), PrintTexts(ts[1..], env'));
    }
  }

  lemma TotalStep(s: string, ss: seq<string>)
    ensures TotalLength([s] + ss) == |s| + TotalLength(ss)
  {
    assert ([s] + ss)[1..] == ss;
  }

  lemma {:induction false} TypeStretches(t: Type, env: Env, env': Env)
    requires LongerReads(env, env', TypeReads(t))
    ensures Stretched(TypeText(t, env), TypeText(t, env'), env, env', TypeReads(t))
    decreases t, 1
  {
    match t
    case Union(ms) =>
      PrintsStretch(ms, env, env');
      JoinStretches(PrintTexts(ms, env), PrintTexts(ms, env'), "|", env, env', AllPrintReads(ms));
    case Array(e) => TypeStretches(e, env, env');
    case Class(c) => assert |ReadText(env, OfId(c))| <= |ReadText(env', OfId(c))|;
    case Function(ps, opt, rest, ret) =>
      ParamsStretch(ps, opt, rest, env, env');
      JoinStretches(ParamTexts(ps, opt, rest, env), ParamTexts(ps, opt, rest, env'), ",", env, env', ParamReads(ps, rest));
      TypeStretches(ret, env, env');
      LongerInUnion(env, env', ParamReads(ps, rest), TypeReads(ret));
    case _ =>
  }

  lemma {:induction false} ParamsStretch(ps: seq<Type>, opt: seq<bool>, rest: bool, env: Env, env': Env)
    requires LongerReads(env, env', ParamReads(ps, rest))
    ensures AllStretched(ParamTexts(ps, opt, rest, env), ParamTexts(ps, opt, rest, env'), env, env', ParamReads(ps, rest))
    decreases ps, 0
  {
    if ps != [] && (|ps| > 1 || rest) {
      var opt1 := if opt == [] then [] else opt[1..];
      TypeStretches(ps[0], env, env');
      ParamsStretch(ps[1..], opt1, rest, env, env');
      LongerInUnion(env, env', TypeReads(ps[0]), ParamReads(ps[1..], rest));
      TotalStep(ParamTexts(ps, opt, rest, env)[0], ParamTexts(ps[1..], opt1, rest, env));
      TotalStep(ParamTexts(ps, opt, rest, env')[0], ParamTexts(ps[1..], opt1, rest, env'));
      assert ParamTexts(ps, opt, rest, env) == [ParamTexts(ps, opt, rest, env)[0]] + ParamTexts(ps[1..], opt1, rest, env);
      assert ParamTexts(ps, opt, rest, env') == [ParamTexts(ps, opt, rest, env')[0]] + ParamTexts(ps[1..], opt1, rest, env');
    }
  }

  lemma {:induction false} FieldsStretch(fs: seq<Field>, env: Env, env': Env)
    requires LongerReads(env, env', FieldReads(fs))
    ensures Stretched(FieldsText(fs, env), FieldsText(fs, env'), env, env', FieldReads(fs))
  {
    if fs != [] {
      TypeStretches(fs[0].kind, env, env');
      FieldsStretch(fs[1..], env, env');
      LongerInUnion(env, env', TypeReads(fs[0].kind), FieldReads(fs[1..]));
    }
  }

  lemma {:induction false} MethodsStretch(ms: seq<Method>, env: Env, env': Env)
    requires LongerReads(env, env', MethodReads(ms))
    ensures Stretched(MethodsText(ms, env), MethodsText(ms, env'), env, env', MethodReads(ms))
  {
    if ms != [] {
      MethodsStretch(ms[1..], env, env');
      if ms[0].funcKind.Static? {
        assert MethodReads(ms) == MethodReads(ms[1..]);
      } else {
        TypeStretches(ms[0].kind, env, env');
        LongerInUnion(env, env', TypeReads(ms[0].kind), MethodReads(ms[1..]));
      }
    }
  }

  /** When ids and names only grow longer, a shape that reads one that did grows too. */
  lemma ShapeStretches(c: ClassType, env: Env, env': Env)
    requires LongerReads(env, env', ShapeReads(c))
    ensures Stretched(ShapeDesc(c, env), ShapeDesc(c, env'), env, env', ShapeReads(c))
  {
    FieldsStretch(c.fields, env, env');
    MethodsStretch(c.methods, env, env');
    LongerInUnion(env, env', FieldReads(c.fields), MethodReads(c.methods));
  }

  // ----- which shapes rest on the collected references -----

  predicate HasName(classes: seq<ClassType>, c: ClassId) {
    c < |classes| && classes[c].name != ""
  }

  /** A reading that cannot change once the collected references are done: of one of them, or of a declared name. */
  predicate Settled(r: Read, refs: seq<ClassId>, classes: seq<ClassType>) {
    r.c in refs || (r.OfName? && HasName(classes, r.c))
  }

  predicate Guarded(c: ClassType, classes: seq<ClassType>) {
    forall r :: r in ShapeReads(c) ==> Settled(r, ClassRefs(c), classes)
  }

  /** Ids and names of the references are the same, and so are declared names. */
  ghost predicate SameOn(env: Env, env': Env, refs: seq<ClassId>, classes: seq<ClassType>) {
    && env.literals == env'.literals
    && (forall c :: c in refs ==> IdText(env, c) == IdText(env', c) && NameText(env, c) == NameText(env', c))
    && (forall c: ClassId :: HasName(classes, c) ==> NameText(env, c) == NameText(env', c))
  }

  /** The shape of the class depends on nothing but its collected references and the declared names. */
  ghost predicate RestsOnRefs(c: ClassType, classes: seq<ClassType>) {
    forall env: Env, env': Env :: SameOn(env, env', ClassRefs(c), classes) ==> ShapeDesc(c, env) == ShapeDesc(c, env')
  }

  lemma GuardedShape(c: ClassType, classes: seq<ClassType>, env: Env, env': Env)
    requires Guarded(c, classes) && SameOn(env, env', ClassRefs(c), classes)
    ensures ShapeDesc(c, env) == ShapeDesc(c, env')
  {
    forall r | r in ShapeReads(c) ensures ReadText(env, r) == ReadText(env', r) {
      assert Settled(r, ClassRefs(c), classes);
    }
    ShapeDependsOnReads(c, env, env');
  }

  lemma HundredIsLong()
    ensures |Decimal(100)| == 3
  {
    assert Decimal(100) == Decimal(10) + [Digit(0)] && Decimal(10) == Decimal(1) + [Digit(0)];
  }

  /** Two environments that differ in one reading only. */
  lemma OneDiffers(r: Read, classes: seq<ClassType>) returns (env: Env, env': Env)
    ensures env.literals == env'.literals && |ReadText(env, r)| < |ReadText(env', r)|
    ensures forall q: Read :: q != r ==> ReadText(env, q) == ReadText(env', q)
  {
    HundredIsLong();
    var none := seq(r.c + 1, _ => NO_ID);
    var blank := seq(r.c + 1, _ => "");
    env := Env(none, blank, []);
    env' := if r.OfId? then Env(none[r.c := 100], blank, []) else Env(none, blank[r.c := "a"], []);
  }

  /**
   A shape rests on the collected references exactly when everything it reads is
   settled: an id or a name of a collected class, or a declared name.
   */
  lemma RestsOnRefsIff(c: ClassType, classes: seq<ClassType>)
    ensures RestsOnRefs(c, classes) <==> Guarded(c, classes)
  {
    if Guarded(c, classes) {
      forall env: Env, env': Env | SameOn(env, env', ClassRefs(c), classes)
        ensures ShapeDesc(c, env) == ShapeDesc(c, env')
      {
        GuardedShape(c, classes, env, env');
      }
    } else {
      var r :| r in ShapeReads(c) && !Settled(r, ClassRefs(c), classes);
      var env, env' := OneDiffers(r, classes);
      forall d: ClassId ensures r != OfId(d) ==> IdText(env, d) == IdText(env', d) {
        assert OfId(d) != r ==> ReadText(env, OfId(d)) == ReadText(env', OfId(d));
      }
      forall d: ClassId ensures r != OfName(d) ==> NameText(env, d) == NameText(env', d) {
        assert OfName(d) != r ==> ReadText(env, OfName(d)) == ReadText(env', OfName(d));
      }
      assert SameOn(env, env', ClassRefs(c), classes);
      ShapeStretches(c, env, env');
      assert LongerAt(env, env', ShapeReads(c));
    }
  }

  // ----- what the guard asks of the program text -----

  lemma {:induction false} TypeRefsGrow(t: Type, refs: seq<ClassId>, c: ClassId)
    requires c in refs
    ensures c in TypeRefs(t, refs)
    decreases t, 1
  {
    match t
    case Array(e) => TypeRefsGrow(e, refs, c);
    case Function(ps, _, _, ret) => TypeRefsGrow(ret, refs, c); ParamRefsGrow(ps, TypeRefs(ret, refs), c);
    case _ =>
  }

  lemma {:induction false} ParamRefsGrow(ps: seq<Type>, refs: seq<ClassId>, c: ClassId)
    requires c in refs
    ensures c in ParamRefs(ps, refs)
    decreases ps, 0
  {
    if ps != [] {
      TypeRefsGrow(ps[0], refs, c);
      ParamRefsGrow(ps[1..], TypeRefs(ps[0], refs), c);
    }
  }

  lemma {:induction false} PrintsReadNames(t: Type, r: Read)
    requires r in PrintReads(t)
    ensures r.OfName?
    decreases t, 1
  {
    match t
    case Union(ms) => AllPrintsReadNames(ms, r);
    case Array(e) => PrintsReadNames(e, r);
    case Function(ps, _, _, ret) =>
      if r in AllPrintReads(ps) {
        AllPrintsReadNames(ps, r);
      } else {
        PrintsReadNames(ret, r);
      }
    case Tuple(es) => AllPrintsReadNames(es, r);
    case TypeParameter(_, wide, default) =>
      if r in PrintReads(wide) {
        PrintsReadNames(wide, r);
      } else {
        PrintsReadNames(default.value, r);
      }
    case _ =>
  }

  lemma {:induction false} AllPrintsReadNames(ts: seq<Type>, r: Read)
    requires r in AllPrintReads(ts)
    ensures r.OfName?
    decreases ts, 0
  {
    if r in PrintReads(ts[0]) {
      PrintsReadNames(ts[0], r);
    } else {
      AllPrintsReadNames(ts[1..], r);
    }
  }

  /** The ids a type's text reads are those of collected classes. */
  lemma {:induction false} IdsCollected(t: Type, refs: seq<ClassId>, c: ClassId)
    requires OfId(c) in TypeReads(t)
    ensures c in TypeRefs(t, refs)
    decreases t, 1
  {
    match t
    case Union(ms) => AllPrintsReadNames(ms, OfId(c));
    case Array(e) => IdsCollected(e, refs, c);
    case Function(ps, _, rest, ret) =>
      if OfId(c) in TypeReads(ret) {
        IdsCollected(ret, refs, c);
        ParamRefsGrow(ps, TypeRefs(ret, refs), c);
      } else {
        ParamIdsCollected(ps, rest, TypeRefs(ret, refs), c);
      }
    case _ =>
  }

  lemma {:induction false} ParamIdsCollected(ps: seq<Type>, rest: bool, refs: seq<ClassId>, c: ClassId)
    requires OfId(c) in ParamReads(ps, rest)
    ensures c in ParamRefs(ps, refs)
    decreases ps, 0
  {
    if OfId(c) in TypeReads(ps[0]) {
      IdsCollected(ps[0], refs, c);
      ParamRefsGrow(ps[1..], TypeRefs(ps[0], refs), c);
    } else {
      ParamIdsCollected(ps[1..], rest, TypeRefs(ps[0], refs), c);
    }
  }

  lemma {:induction false} FieldRefsGrow(fs: seq<Field>, refs: seq<ClassId>, c: ClassId)
    requires c in refs
    ensures c in FieldRefs(fs, refs)
  {
    if fs != [] {
      TypeRefsGrow(fs[0].kind, refs, c);
      FieldRefsGrow(fs[1..], TypeRefs(fs[0].kind, refs), c);
    }
  }

  lemma {:induction false} MethodRefsGrow(ms: seq<Method>, refs: seq<ClassId>, c: ClassId)
    requires c in refs
    ensures c in MethodRefs(ms, refs)
  {
    if ms != [] {
      TypeRefsGrow(ms[0].kind, refs, c);
      MethodRefsGrow(ms[1..], if ms[0].isStatic then refs else TypeRefs(ms[0].kind, refs), c);
    }
  }

  lemma {:induction false} FieldIdsCollected(fs: seq<Field>, refs: seq<ClassId>, c: ClassId)
    requires OfId(c) in FieldReads(fs)
    ensures c in FieldRefs(fs, refs)
  {
    if OfId(c) in TypeReads(fs[0].kind) {
      IdsCollected(fs[0].kind, refs, c);
      FieldRefsGrow(fs[1..], TypeRefs(fs[0].kind, refs), c);
    } else {
      FieldIdsCollected(fs[1..], TypeRefs(fs[0].kind, refs), c);
    }
  }

  /** A method that is in the shape and not among those references are collected from. */
  predicate StaticAccessor(m: Method) {
    m.isStatic && !m.funcKind.Static?
  }

  lemma {:induction false} MethodIdsCollected(ms: seq<Method>, refs: seq<ClassId>, c: ClassId)
    requires OfId(c) in MethodReads(ms)
    requires forall i :: 0 <= i < |ms| && StaticAccessor(ms[i]) ==> OfId(c) !in TypeReads(ms[i].kind)
    ensures c in MethodRefs(ms, refs)
  {
    var next := if ms[0].isStatic then refs else TypeRefs(ms[0].kind, refs);
    if !ms[0].funcKind.Static? && OfId(c) in TypeReads(ms[0].kind) {
      assert !ms[0].isStatic;
      IdsCollected(ms[0].kind, refs, c);
      MethodRefsGrow(ms[1..], next, c);
    } else {
      MethodIdsCollected(ms[1..], next, c);
    }
  }

  /** No union prints a class that has no name yet and is not collected elsewhere. */
  predicate UnionsPrintNames(c: ClassType, classes: seq<ClassType>) {
    forall r :: r in ShapeReads(c) && r.OfName? ==> HasName(classes, r.c) || r.c in ClassRefs(c)
  }

  /** No static accessor mentions a class that is not collected elsewhere. */
  predicate AccessorsMentionRefs(c: ClassType) {
    forall i :: 0 <= i < |c.methods| && StaticAccessor(c.methods[i]) ==>
      forall r :: r in TypeReads(c.methods[i].kind) && r.OfId? ==> r.c in ClassRefs(c)
  }

  lemma {:induction false} MethodReadsHold(ms: seq<Method>, i: nat, r: Read)
    requires i < |ms| && !ms[i].funcKind.Static? && r in TypeReads(ms[i].kind)
    ensures r in MethodReads(ms)
  {
    if i > 0 {
      MethodReadsHold(ms[1..], i - 1, r);
    }
  }

  /** So the guard concerns unions with anonymous classes and static accessors only. */
  lemma GuardedIff(c: ClassType, classes: seq<ClassType>)
    ensures Guarded(c, classes) <==> UnionsPrintNames(c, classes) && AccessorsMentionRefs(c)
  {
    if Guarded(c, classes) {
      forall i, r | 0 <= i < |c.methods| && StaticAccessor(c.methods[i]) && r in TypeReads(c.methods[i].kind) && r.OfId?
        ensures r.c in ClassRefs(c)
      {
        MethodReadsHold(c.methods, i, r);
        assert Settled(r, ClassRefs(c), classes);
      }
      forall r | r in ShapeReads(c) && r.OfName? ensures HasName(classes, r.c) || r.c in ClassRefs(c) {
        assert Settled(r, ClassRefs(c), classes);
      }
    }
    if UnionsPrintNames(c, classes) && AccessorsMentionRefs(c) {
      forall r | r in ShapeReads(c) ensures Settled(r, ClassRefs(c), classes) {
        if r.OfId? && r in FieldReads(c.fields) {
          FieldIdsCollected(c.fields, [], r.c);
          MethodRefsGrow(c.methods, FieldRefs(c.fields, []), r.c);
        } else if r.OfId? && r.c !in ClassRefs(c) {
          MethodIdsCollected(c.methods, FieldRefs(c.fields, []), r.c);
        }
      }
    }
  }
}
