/**
 What a shared type id means. Shape strings leave out the last parameter of a
 function unless it is a rest parameter, and do not tell an array of functions
 from a function that returns an array. Up to that they determine the members.
 */
module TypeShapes {
  import opened Prelude
  import opened TypeIds
  import opened TypeIdAllocation
  import opened TypeIdWalk

  // ----- members of unions, as they are printed -----

  datatype Form = UnionForm | ArrayForm | TupleForm | FunctionForm

  datatype Printed =
    | Word(text: string)
    | WasmKind(text: string)
    | ClassNamed(name: string, literal: bool)
    | Node(form: Form, parts: seq<Printed>, tail: Option<Printed>)

  function HeadOf(f: Form): string {
    match f
    case UnionForm => "Union"
    case ArrayForm => "Array"
    case TupleForm => "Tuple"
    case FunctionForm => "Function"
  }

  function OpenOf(f: Form): string { if f.ArrayForm? then "<" else if f.TupleForm? then "[" else "(" }

  function CloseOf(f: Form): string { if f.ArrayForm? then ">" else if f.TupleForm? then "]" else ")" }

  /** An array has one part, so its separator does not matter. */
  function SeparatorOf(f: Form): string { if f.UnionForm? then " | " else if f.TupleForm? then " , " else "," }

  function PText(p: Printed): string
    decreases p, 1
  {
    HeadWord(p) + Body(p)
  }

  function HeadWord(p: Printed): string {
    match p
    case Word(text) => text
    case WasmKind(_) => "TYPE"
    case ClassNamed(_, _) => "Class"
    case Node(f, _, _) => HeadOf(f)
  }

  function Body(p: Printed): string
    decreases p, 0
  {
    match p
    case Word(_) => ""
    case WasmKind(text) => "(" + (text + ")")
    case ClassNamed(name, literal) => "(" + (name + if literal then "( Literal))" else "( ))")
    case Node(f, ps, tail) =>
      OpenOf(f) + (Join(PTexts(ps), SeparatorOf(f)) + (CloseOf(f) + if tail.Some? then PText(tail.value) else ""))
  }

  function PTexts(ps: seq<Printed>): (r: seq<string>)
    ensures |r| == |ps|
    decreases ps, 0
  {
    if ps == [] then [] else [PText(ps[0])] + PTexts(ps[1..])
  }

  function PrintOf(t: Type, env: Env): Printed
    decreases t, 1
  {
    match t
    case Primitive(name) => Word(name)
    case Union(ms) => Node(UnionForm, PrintsOf(ms, env), None)
    case Array(e) => Node(ArrayForm, [PrintOf(e, env)], None)
    case Class(c) => ClassNamed(NameText(env, c), c < |env.literals| && env.literals[c])
    case Wasm(_, kind) => WasmKind(kind)
    case Function(ps, _, _, ret) => Node(FunctionForm, PrintsOf(ps, env), Some(PrintOf(ret, env)))
    case Tuple(es) => Node(TupleForm, PrintsOf(es, env), None)
    case _ => Word(PrintText(t, env))
  }

  function PrintsOf(ts: seq<Type>, env: Env): (r: seq<Printed>)
    ensures |r| == |ts|
    decreases ts, 0
  {
    if ts == [] then [] else [PrintOf(ts[0], env)] + PrintsOf(ts[1..], env)
  }

  lemma Pieces(head: string, open: string, prefix: string, mid: string, close: string, tail: string)
    requires prefix == head + open
    ensures head + (open + (mid + (close + tail))) == prefix + mid + close + tail
  {
    Regroup(head, open, mid, close, tail);
  }

  lemma NodeText(f: Form, ps: seq<Printed>, tail: Option<Printed>, prefix: string)
    requires prefix == HeadOf(f) + OpenOf(f)
    ensures PText(Node(f, ps, tail)) == prefix + Join(PTexts(ps), SeparatorOf(f)) + CloseOf(f) + TailText(tail)
  {
    Pieces(HeadOf(f), OpenOf(f), prefix, Join(PTexts(ps), SeparatorOf(f)), CloseOf(f), TailText(tail));
  }

  lemma PartText(p: Printed)
    ensures PTexts([p]) == [PText(p)]
  {
    assert [p][1..] == [];
  }

  lemma {:induction false} PrintIsText(t: Type, env: Env)
    ensures PText(PrintOf(t, env)) == PrintText(t, env)
    decreases t, 1
  {
    match t
    case Union(ms) =>
      PrintsAreTexts(ms, env);
      NodeText(UnionForm, PrintsOf(ms, env), None, "Union(");
    case Array(e) =>
      PrintIsText(e, env);
      PartText(PrintOf(e, env));
      NodeText(ArrayForm, [PrintOf(e, env)], None, "Array<");
    case Class(c) => ClassIsText(c, env);
    case Wasm(_, kind) =>
      Reassociate("TYPE", "(", kind + ")");
      Reassociate("TYPE(", kind, ")");
    case Function(ps, _, _, ret) =>
      PrintsAreTexts(ps, env);
      PrintIsText(ret, env);
      NodeText(FunctionForm, PrintsOf(ps, env), Some(PrintOf(ret, env)), "Function(");
    case Tuple(es) =>
      PrintsAreTexts(es, env);
      NodeText(TupleForm, PrintsOf(es, env), None, "Tuple[");
    case _ => assert PrintText(t, env) + "" == PrintText(t, env);
  }

  lemma ClassIsText(c: ClassId, env: Env)
    ensures PText(PrintOf(Class(c), env)) == ClassText(env, c)
  {
    var rest := if c < |env.literals| && env.literals[c] then "( Literal))" else "( ))";
    Reassociate("Class", "(", NameText(env, c) + rest);
    Reassociate("Class(", NameText(env, c), rest);
  }

  lemma {:induction false} PrintsAreTexts(ts: seq<Type>, env: Env)
    ensures PTexts(PrintsOf(ts, env)) == PrintTexts(ts, env)
    decreases ts, 0
  {
    if ts != [] {
      PrintIsText(ts[0], env);
      PrintsAreTexts(ts[1..], env);
      assert PrintsOf(ts, env)[1..] == PrintsOf(ts[1..], env);
    }
  }

  // ----- what is left of a type in its text -----

  /** A class by its id, or the printed members of a union; other types are taken for a union of one. */
  datatype Atom = Id(n: int) | Members(ps: seq<Printed>)

  /** Dimensions of an array of functions are counted at the result of the functions. */
  datatype Erased =
    | Leaf(atom: Atom, dims: nat)
    | Fn(params: seq<Param>, rest: Option<Erased>, ret: Erased)

  datatype Param = Param(optional: bool, kind: Erased)

  function IdOf(env: Env, c: ClassId): int {
    if c < |env.ids| && env.ids[c] >= 0 then env.ids[c] else NO_ID
  }

  function AddDim(e: Erased): Erased {
    match e
    case Leaf(a, k) => Leaf(a, k + 1)
    case Fn(ps, rest, ret) => Fn(ps, rest, AddDim(ret))
  }

  function Erase(t: Type, env: Env): Erased
    decreases t, 1
  {
    match t
    case Primitive(name) => Plainly(name)
    case Union(ms) => Leaf(Members(PrintsOf(ms, env)), 0)
    case Array(e) => AddDim(Erase(e, env))
    case Class(c) => Leaf(Id(IdOf(env, c)), 0)
    case Wasm(name, _) => Plainly(name)
    case Function(ps, opt, rest, ret) =>
      Fn(EraseParams(ps, opt, env), if rest && ps != [] then Some(Erase(ps[|ps| - 1], env)) else None, Erase(ret, env))
    case _ => Plainly("unknown")
  }

  function Plainly(name: string): Erased { Leaf(Members([Word(name)]), 0) }

  /** All parameters but the last. */
  function EraseParams(ps: seq<Type>, opt: seq<bool>, env: Env): seq<Param>
    decreases ps, 0
  {
    if |ps| <= 1 then []
    else [Param(opt != [] && opt[0], Erase(ps[0], env))] + EraseParams(ps[1..], if opt == [] then [] else opt[1..], env)
  }

  datatype Entry = Entry(name: string, optional: bool, kind: Erased, isMethod: bool)

  function FieldEntries(fs: seq<Field>, env: Env): seq<Entry> {
    if fs == [] then []
    else [Entry(fs[0].name, fs[0].optional, Erase(fs[0].kind, env), false)] + FieldEntries(fs[1..], env)
  }

  function MethodEntries(ms: seq<Method>, env: Env): seq<Entry> {
    if ms == [] then []
    else (if ms[0].funcKind.Static? then [] else [Entry(ms[0].name, ms[0].optional, Erase(ms[0].kind, env), true)])
         + MethodEntries(ms[1..], env)
  }

  /** The members a shape tells apart: fields, then methods that are not of the static kind. */
  function MembersOf(c: ClassType, env: Env): seq<Entry> {
    FieldEntries(c.fields, env) + MethodEntries(c.methods, env)
  }

  // ----- the texts of erased types -----

  function AtomText(a: Atom): string {
    match a
    case Id(n) => if n >= 0 then Decimal(n) else "-1"
    case Members(ps) => Join(PTexts(ps), "|")
  }

  function Brackets(k: nat): string {
    if k == 0 then "" else "[]" + Brackets(k - 1)
  }

  function Text(e: Erased): string
    decreases e, 1
  {
    match e
    case Leaf(a, k) => AtomText(a) + Brackets(k)
    case Fn(ps, rest, ret) =>
      "(" + ParamsText(ps, if rest.Some? then "..." + Text(rest.value) else "") + ")=>" + Text(ret)
  }

  function ParamsText(ps: seq<Param>, rest: string): string
    decreases ps, 0
  {
    if ps == [] then rest
    else ParamText(ps[0]) + "," + ParamsText(ps[1..], rest)
  }

  function ParamText(p: Param): string
    decreases p, 0
  {
    (if p.optional then "?" else "") + Text(p.kind)
  }

  function EntryText(x: Entry): string {
    x.name + (if x.optional then "?: " else ": ") + Text(x.kind) + (if x.isMethod then "(m)" else "") + ","
  }

  function EntriesText(xs: seq<Entry>): string {
    if xs == [] then "" else EntryText(xs[0]) + EntriesText(xs[1..])
  }

  lemma {:induction false} BracketsSnoc(k: nat)
    ensures Brackets(k) + "[]" == Brackets(k + 1)
  {
    if k > 0 {
      BracketsSnoc(k - 1);
      assert "[]" + Brackets(k - 1) + "[]" == "[]" + (Brackets(k - 1) + "[]");
    }
  }

  lemma {:induction false} AddDimText(e: Erased)
    ensures Text(AddDim(e)) == Text(e) + "[]"
  {
    match e
    case Leaf(a, k) =>
      BracketsSnoc(k);
      assert AtomText(a) + Brackets(k) + "[]" == AtomText(a) + (Brackets(k) + "[]");
    case Fn(ps, rest, ret) => AddDimText(ret);
  }

  lemma {:induction false} TextIsErased(t: Type, env: Env)
    ensures TypeText(t, env) == Text(Erase(t, env))
    decreases t, 1
  {
    match t
    case Primitive(name) => WordText(name);
    case Wasm(name, _) => WordText(name);
    case Union(ms) => PrintsAreTexts(ms, env);
    case Array(e) =>
      TextIsErased(e, env);
      AddDimText(Erase(e, env));
    case Function(ps, opt, rest, ret) =>
      TextIsErased(ret, env);
      ParamsErased(ps, opt, rest, env);
    case Class(c) =>
    case _ => WordText("unknown");
  }

  lemma WordText(name: string)
    ensures Text(Plainly(name)) == name
  {
    PartText(Word(name));
    assert PText(Word(name)) == name + "" == name;
    assert AtomText(Members([Word(name)])) == name && name + Brackets(0) == name;
  }

  lemma JoinStep(first: string, tail: seq<string>, separator: string)
    requires tail != []
    ensures Join([first] + tail, separator) == first + separator + Join(tail, separator)
  {
    assert ([first] + tail)[1..] == tail;
  }

  lemma {:induction false} ParamsErased(ps: seq<Type>, opt: seq<bool>, rest: bool, env: Env)
    ensures Join(ParamTexts(ps, opt, rest, env), ",")
            == ParamsText(EraseParams(ps, opt, env), if rest && ps != [] then "..." + Text(Erase(ps[|ps| - 1], env)) else "")
    decreases ps, 0
  {
    if ps != [] {
      TextIsErased(ps[0], env);
      if |ps| > 1 {
        var opt1 := if opt == [] then [] else opt[1..];
        ParamsErased(ps[1..], opt1, rest, env);
        var first, params := EraseParams(ps, opt, env)[0], EraseParams(ps[1..], opt1, env);
        JoinStep(ParamText(first), ParamTexts(ps[1..], opt1, rest, env), ",");
        assert EraseParams(ps, opt, env)[1..] == params;
      }
    }
  }

  lemma {:induction false} FieldsErased(fs: seq<Field>, env: Env)
    ensures FieldsText(fs, env) == EntriesText(FieldEntries(fs, env))
  {
    if fs != [] {
      TextIsErased(fs[0].kind, env);
      FieldsErased(fs[1..], env);
      var x, rest := FieldEntries(fs, env)[0], FieldEntries(fs[1..], env);
      assert FieldEntries(fs, env)[1..] == rest;
      assert EntryText(x) == x.name + (if x.optional then "?: " else ": ") + Text(x.kind) + ",";
    }
  }

  lemma {:induction false} MethodsErased(ms: seq<Method>, env: Env)
    ensures MethodsText(ms, env) == EntriesText(MethodEntries(ms, env))
  {
    if ms != [] {
      MethodsErased(ms[1..], env);
      if !ms[0].funcKind.Static? {
        TextIsErased(ms[0].kind, env);
        assert MethodEntries(ms, env)[1..] == MethodEntries(ms[1..], env);
      } else {
        assert MethodEntries(ms, env) == MethodEntries(ms[1..], env);
        assert "" + MethodsText(ms[1..], env) == MethodsText(ms[1..], env);
      }
    }
  }

  lemma {:induction false} EntriesAppend(xs: seq<Entry>, ys: seq<Entry>)
    ensures EntriesText(xs + ys) == EntriesText(xs) + EntriesText(ys)
  {
    if xs == [] {
      assert xs + ys == ys;
    } else {
      assert (xs + ys)[1..] == xs[1..] + ys;
      EntriesAppend(xs[1..], ys);
    }
  }

  lemma ShapeIsErased(c: ClassType, env: Env)
    ensures ShapeDesc(c, env) == EntriesText(MembersOf(c, env))
  {
    FieldsErased(c.fields, env);
    MethodsErased(c.methods, env);
    EntriesAppend(FieldEntries(c.fields, env), MethodEntries(c.methods, env));
  }

  // ----- names without delimiters -----

  predicate IsStop(c: char) {
    || c == '[' || c == ']' || c == '(' || c == ')' || c == '<' || c == '>'
    || c == ',' || c == '?' || c == '.' || c == '|' || c == ' '
  }

  predicate NoStops(s: string) {
    forall i :: 0 <= i < |s| ==> !IsStop(s[i])
  }

  predicate Reserved(s: string) {
    s == "Union" || s == "Array" || s == "Tuple" || s == "Function" || s == "Class" || s == "TYPE"
  }

  /** A type name that is no numeral, has no delimiter and is not the head of a composite. */
  predicate PlainName(s: string) {
    s != "" && !IsDigit(s[0]) && s[0] != '-' && NoStops(s) && !Reserved(s)
  }

  predicate PlainPrinted(p: Printed)
    decreases p, 1
  {
    match p
    case Word(text) => PlainName(text)
    case WasmKind(text) => NoStops(text)
    case ClassNamed(name, _) => NoStops(name)
    case Node(f, ps, tail) =>
      && PlainParts(ps) && (tail.Some? ==> PlainPrinted(tail.value))
      && (f.FunctionForm? <==> tail.Some?) && (f.ArrayForm? ==> |ps| == 1)
  }

  predicate PlainParts(ps: seq<Printed>)
    decreases ps, 0
  {
    ps == [] || (PlainPrinted(ps[0]) && PlainParts(ps[1..]))
  }

  predicate PlainAtom(a: Atom) {
    match a
    case Id(n) => n >= NO_ID
    case Members(ps) => ps != [] && PlainParts(ps)
  }

  predicate PlainErased(e: Erased)
    decreases e, 1
  {
    match e
    case Leaf(a, _) => PlainAtom(a)
    case Fn(ps, rest, ret) => PlainParams(ps) && (rest.Some? ==> PlainErased(rest.value)) && PlainErased(ret)
  }

  predicate PlainParams(ps: seq<Param>)
    decreases ps, 0
  {
    ps == [] || (PlainParam(ps[0]) && PlainParams(ps[1..]))
  }

  predicate PlainParam(p: Param)
    decreases p, 0
  {
    PlainErased(p.kind)
  }

  /** A type that is printed with plain names; type parameters and enumerations inside unions are not. */
  predicate PlainPrint(t: Type)
    decreases t, 1
  {
    match t
    case Primitive(name) => PlainName(name)
    case Union(ms) => PlainPrints(ms)
    case Array(e) => PlainPrint(e)
    case Class(_) => true
    case Wasm(_, kind) => NoStops(kind)
    case Function(ps, _, _, ret) => PlainPrints(ps) && PlainPrint(ret)
    case Tuple(es) => PlainPrints(es)
    case TypeParameter(_, _, _) => false
    case Opaque(text) => PlainName(text)
  }

  predicate PlainPrints(ts: seq<Type>)
    decreases ts, 0
  {
    ts == [] || (PlainPrint(ts[0]) && PlainPrints(ts[1..]))
  }

  predicate PlainType(t: Type)
    decreases t, 1
  {
    match t
    case Primitive(name) => PlainName(name)
    case Union(ms) => ms != [] && PlainPrints(ms)
    case Array(e) => PlainType(e)
    case Wasm(name, _) => PlainName(name)
    case Function(ps, _, _, ret) => PlainTypes(ps) && PlainType(ret)
    case _ => true
  }

  predicate PlainTypes(ps: seq<Type>)
    decreases ps, 0
  {
    ps == [] || (PlainType(ps[0]) && PlainTypes(ps[1..]))
  }

  predicate PlainMember(name: string, kind: Type) {
    ':' !in name && '?' !in name && PlainType(kind)
  }

  predicate PlainClass(c: ClassType) {
    && (forall i :: 0 <= i < |c.fields| ==> PlainMember(c.fields[i].name, c.fields[i].kind))
    && (forall i :: 0 <= i < |c.methods| ==> PlainMember(c.methods[i].name, c.methods[i].kind))
  }

  /** No class name of the moment has a delimiter. */
  predicate PlainNames(env: Env) {
    forall c :: 0 <= c < |env.names| ==> NoStops(env.names[c])
  }

  predicate PlainEntry(x: Entry) {
    ':' !in x.name && '?' !in x.name && PlainErased(x.kind)
  }

  predicate PlainEntries(xs: seq<Entry>) {
    forall i :: 0 <= i < |xs| ==> PlainEntry(xs[i])
  }

  lemma {:induction false} AddDimPlain(e: Erased)
    requires PlainErased(e)
    ensures PlainErased(AddDim(e))
  {
    if e.Fn? {
      AddDimPlain(e.ret);
    }
  }

  lemma {:induction false} PrintPlain(t: Type, env: Env)
    requires PlainPrint(t) && PlainNames(env)
    ensures PlainPrinted(PrintOf(t, env))
    decreases t, 1
  {
    match t
    case Union(ms) => PrintsPlain(ms, env);
    case Array(e) => PrintPlain(e, env); assert [PrintOf(e, env)][1..] == [];
    case Function(ps, _, _, ret) => PrintsPlain(ps, env); PrintPlain(ret, env);
    case Tuple(es) => PrintsPlain(es, env);
    case _ =>
  }

  lemma {:induction false} PrintsPlain(ts: seq<Type>, env: Env)
    requires PlainPrints(ts) && PlainNames(env)
    ensures PlainParts(PrintsOf(ts, env))
    decreases ts, 0
  {
    if ts != [] {
      PrintPlain(ts[0], env);
      PrintsPlain(ts[1..], env);
      assert PrintsOf(ts, env)[1..] == PrintsOf(ts[1..], env);
    }
  }

  lemma WordPlain(name: string)
    requires PlainName(name)
    ensures PlainErased(Plainly(name))
  {
    var ps := [Word(name)];
    assert PlainPrinted(ps[0]) && PlainParts(ps[1..]);
    assert PlainParts(ps);
  }

  lemma {:induction false} ErasePlain(t: Type, env: Env)
    requires PlainType(t) && PlainNames(env)
    ensures PlainErased(Erase(t, env))
    decreases t, 1
  {
    match t
    case Primitive(name) => WordPlain(name);
    case Wasm(name, _) => WordPlain(name);
    case Union(ms) => PrintsPlain(ms, env); assert PrintsOf(ms, env) != [];
    case Array(e) => ErasePlain(e, env); AddDimPlain(Erase(e, env));
    case Function(ps, opt, rest, ret) =>
      EraseParamsPlain(ps, opt, env);
      ErasePlain(ret, env);
      if ps != [] {
        PlainLast(ps);
        ErasePlain(ps[|ps| - 1], env);
      }
      assert PlainErased(Erase(t, env));
    case Class(c) => assert PlainAtom(Id(IdOf(env, c)));
    case _ => WordPlain("unknown");
  }

  lemma PlainLast(ps: seq<Type>)
    requires ps != [] && PlainTypes(ps)
    ensures PlainType(ps[|ps| - 1])
  {
    if |ps| > 1 {
      PlainLast(ps[1..]);
    }
  }

  lemma {:induction false} EraseParamsPlain(ps: seq<Type>, opt: seq<bool>, env: Env)
    requires PlainTypes(ps) && PlainNames(env)
    ensures PlainParams(EraseParams(ps, opt, env))
    decreases ps, 0
  {
    if |ps| > 1 {
      var opt1 := if opt == [] then [] else opt[1..];
      ErasePlain(ps[0], env);
      EraseParamsPlain(ps[1..], opt1, env);
      assert EraseParams(ps, opt, env)[1..] == EraseParams(ps[1..], opt1, env);
    }
  }

  lemma {:induction false} FieldEntriesPlain(fs: seq<Field>, env: Env)
    requires PlainNames(env) && forall i :: 0 <= i < |fs| ==> PlainMember(fs[i].name, fs[i].kind)
    ensures PlainEntries(FieldEntries(fs, env))
  {
    if fs != [] {
      ErasePlain(fs[0].kind, env);
      FieldEntriesPlain(fs[1..], env);
    }
  }

  lemma {:induction false} MethodEntriesPlain(ms: seq<Method>, env: Env)
    requires PlainNames(env) && forall i :: 0 <= i < |ms| ==> PlainMember(ms[i].name, ms[i].kind)
    ensures PlainEntries(MethodEntries(ms, env))
  {
    if ms != [] {
      ErasePlain(ms[0].kind, env);
      MethodEntriesPlain(ms[1..], env);
    }
  }

  // ----- texts can be read back -----

  /** What follows a type inside a shape. */
  predicate Follows(s: string) {
    s == "" || s[0] == ',' || s[0] == '(' || s[0] == ')'
  }

  /** Two stop-free words before stops end at the same place. */
  lemma WordsEnd(a: string, b: string, r: string, q: string)
    requires NoStops(a) && NoStops(b) && a + r == b + q
    requires (r == "" || IsStop(r[0])) && (q == "" || IsStop(q[0]))
    ensures a == b && r == q
  {
    var s := a + r;
    assert |s| == |a| + |r| == |b| + |q|;
    assert (|r| > 0 ==> s[|a|] == r[0]) && (|q| > 0 ==> s[|b|] == q[0]);
    assert forall k :: 0 <= k < |a| ==> s[k] == a[k];
    assert forall k :: 0 <= k < |b| ==> s[k] == b[k];
    assert |a| == |b|;
    assert a == (a + r)[..|a|] && b == (b + q)[..|b|];
    assert r == (a + r)[|a|..] && q == (b + q)[|b|..];
  }

  /** A common front can be dropped. */
  lemma DropFront(p: string, a: string, b: string)
    requires p + a == p + b
    ensures a == b
  {
    assert a == (p + a)[|p|..] && b == (p + b)[|p|..];
  }

  lemma BracketsStart(k: nat, r: string)
    ensures if k == 0 then Brackets(k) + r == r else (Brackets(k) + r)[0] == '['
  {
  }

  lemma {:induction false} BracketsEnd(k: nat, m: nat, r: string, q: string)
    requires Brackets(k) + r == Brackets(m) + q && Follows(r) && Follows(q)
    ensures k == m && r == q
  {
    if k > 0 && m > 0 {
      assert Brackets(k) + r == "[]" + (Brackets(k - 1) + r) && Brackets(m) + q == "[]" + (Brackets(m - 1) + q);
      DropFront("[]", Brackets(k - 1) + r, Brackets(m - 1) + q);
      BracketsEnd(k - 1, m - 1, r, q);
    } else {
      BracketsStart(k, r);
      BracketsStart(m, q);
    }
  }

  /** What may follow a printed type: nothing or a stop. */
  predicate Stops(s: string) {
    s == "" || IsStop(s[0])
  }

  lemma HeadIsWord(p: Printed)
    requires PlainPrinted(p)
    ensures HeadWord(p) != "" && NoStops(HeadWord(p)) && !IsDigit(HeadWord(p)[0]) && HeadWord(p)[0] != '-'
    ensures Stops(Body(p)) && (p.Word? <==> !Reserved(HeadWord(p))) && (p.Word? ==> Body(p) == "")
  {
  }

  /** The heads of two printed types followed by stops agree, and so does what comes behind them. */
  lemma HeadsAgree(p: Printed, q: Printed, r: string, s: string)
    requires PlainPrinted(p) && PlainPrinted(q) && Stops(r) && Stops(s) && PText(p) + r == PText(q) + s
    ensures HeadWord(p) == HeadWord(q) && Body(p) + r == Body(q) + s && (p.Word? <==> q.Word?)
  {
    HeadIsWord(p);
    HeadIsWord(q);
    Reassociate(HeadWord(p), Body(p), r);
    Reassociate(HeadWord(q), Body(q), s);
    WordsEnd(HeadWord(p), HeadWord(q), Body(p) + r, Body(q) + s);
  }

  lemma HeadDecides(p: Printed, q: Printed)
    requires PlainPrinted(p) && PlainPrinted(q) && HeadWord(p) == HeadWord(q) && (p.Word? <==> q.Word?)
    ensures p.WasmKind? <==> q.WasmKind?
    ensures p.ClassNamed? <==> q.ClassNamed?
    ensures p.Node? <==> q.Node?
    ensures p.Node? ==> p.form == q.form
  {
    HeadsDiffer();
  }

  lemma HeadsDiffer()
    ensures forall f, g :: HeadOf(f) == HeadOf(g) ==> f == g
    ensures forall f :: HeadOf(f) != "TYPE" && HeadOf(f) != "Class"
  {
    assert "Union"[0] == 'U' && "Array"[0] == 'A' && "Tuple"[0] == 'T' && "Tuple"[1] == 'u' && "Function"[0] == 'F';
    assert "TYPE"[0] == 'T' && "TYPE"[1] == 'Y' && "Class"[0] == 'C';
  }

  lemma KindsReadBack(p: Printed, q: Printed, r: string, s: string)
    requires p.WasmKind? && q.WasmKind? && NoStops(p.text) && NoStops(q.text) && Body(p) + r == Body(q) + s
    ensures p == q && r == s
  {
    Regroup("", "(", p.text, ")", r);
    Regroup("", "(", q.text, ")", s);
    assert Body(p) + r == "(" + (p.text + (")" + r)) && Body(q) + s == "(" + (q.text + (")" + s));
    DropFront("(", p.text + (")" + r), q.text + (")" + s));
    WordsEnd(p.text, q.text, ")" + r, ")" + s);
    DropFront(")", r, s);
  }

  lemma ClassesReadBack(p: Printed, q: Printed, r: string, s: string)
    requires p.ClassNamed? && q.ClassNamed? && NoStops(p.name) && NoStops(q.name) && Body(p) + r == Body(q) + s
    ensures p == q && r == s
  {
    var f, g := if p.literal then "( Literal))" else "( ))", if q.literal then "( Literal))" else "( ))";
    assert Body(p) + r == "(" + (p.name + (f + r)) && Body(q) + s == "(" + (q.name + (g + s));
    DropFront("(", p.name + (f + r), q.name + (g + s));
    WordsEnd(p.name, q.name, f + r, g + s);
    assert (f + r)[2] == f[2] && (g + s)[2] == g[2];
    assert "( Literal))"[2] == 'L' && "( ))"[2] == ')';
    DropFront(f, r, s);
  }

  function TailText(tail: Option<Printed>): string {
    if tail.Some? then PText(tail.value) else ""
  }

  lemma NodeParts(p: Printed, r: string)
    requires p.Node?
    ensures Body(p) + r
            == OpenOf(p.form) + (Join(PTexts(p.parts), SeparatorOf(p.form)) + (CloseOf(p.form) + (TailText(p.tail) + r)))
  {
    var j, c, t := Join(PTexts(p.parts), SeparatorOf(p.form)), CloseOf(p.form), TailText(p.tail);
    Reassociate(OpenOf(p.form), j + (c + t), r);
    Reassociate(j, c + t, r);
    Reassociate(c, t, r);
  }

  /** A printed type can be read back: its text determines it and where it ends. */
  lemma {:induction false} PrintedReadsBack(p: Printed, q: Printed, r: string, s: string)
    requires PlainPrinted(p) && PlainPrinted(q) && Stops(r) && Stops(s) && PText(p) + r == PText(q) + s
    ensures p == q && r == s
    decreases |PText(p)|, 0
  {
    HeadsAgree(p, q, r, s);
    HeadDecides(p, q);
    match p
    case Word(_) => HeadIsWord(p); HeadIsWord(q); assert "" + r == r && "" + s == s;
    case WasmKind(_) => KindsReadBack(p, q, r, s);
    case ClassNamed(_, _) => ClassesReadBack(p, q, r, s);
    case Node(_, _, _) => NodesReadBack(p, q, r, s);
  }

  lemma {:induction false} NodesReadBack(p: Printed, q: Printed, r: string, s: string)
    requires p.Node? && q.Node? && p.form == q.form && PlainPrinted(p) && PlainPrinted(q) && Stops(r) && Stops(s)
    requires Body(p) + r == Body(q) + s
    ensures p == q && r == s
    decreases |Body(p)|, 2
  {
    var separator, close := SeparatorOf(p.form), CloseOf(p.form);
    var u, v := close + (TailText(p.tail) + r), close + (TailText(q.tail) + s);
    var j, k := Join(PTexts(p.parts), separator), Join(PTexts(q.parts), separator);
    NodeParts(p, r);
    NodeParts(q, s);
    DropFront(OpenOf(p.form), j + u, k + v);
    PartsStart(p.parts, separator, u);
    PartsStart(q.parts, separator, v);
    if p.parts != [] && q.parts != [] {
      PartsReadBack(p.parts, q.parts, separator, u, v);
    }
    DropFront(close, TailText(p.tail) + r, TailText(q.tail) + s);
    if p.tail.Some? {
      PrintedReadsBack(p.tail.value, q.tail.value, r, s);
    } else {
      assert "" + r == r && "" + s == s;
    }
  }

  lemma PartsStart(ps: seq<Printed>, separator: string, u: string)
    requires PlainParts(ps) && u != "" && IsStop(u[0])
    ensures var t := Join(PTexts(ps), separator) + u;
            t != "" && (ps == [] ==> t == u) && (ps != [] ==> !IsStop(t[0]))
  {
    if ps != [] {
      HeadIsWord(ps[0]);
      PartsStep(ps, separator, u);
    }
  }

  /** What follows the first of some parts. */
  function Behind(ps: seq<Printed>, separator: string, u: string): string
    requires ps != []
  {
    if |ps| == 1 then u else separator + (Join(PTexts(ps[1..]), separator) + u)
  }

  lemma PartsStep(ps: seq<Printed>, separator: string, u: string)
    requires ps != []
    ensures Join(PTexts(ps), separator) + u == PText(ps[0]) + Behind(ps, separator, u)
    ensures |PText(ps[0])| <= |Join(PTexts(ps), separator)|
    ensures |ps| > 1 ==> |Join(PTexts(ps[1..]), separator)| + |separator| <= |Join(PTexts(ps), separator)|
  {
    var texts := PTexts(ps);
    assert texts[1..] == PTexts(ps[1..]);
    if |ps| > 1 {
      var rest := Join(PTexts(ps[1..]), separator);
      Reassociate(PText(ps[0]) + separator, rest, u);
      Reassociate(PText(ps[0]), separator, rest + u);
    }
  }

  /** Parts with a separator between them can be read back in front of a stop that does not begin a separator. */
  lemma {:induction false} PartsReadBack(ps: seq<Printed>, qs: seq<Printed>, separator: string, u: string, v: string)
    requires ps != [] && qs != [] && PlainParts(ps) && PlainParts(qs) && separator != "" && IsStop(separator[0])
    requires Stops(u) && (u == "" || u[0] != separator[0]) && Stops(v) && (v == "" || v[0] != separator[0])
    requires Join(PTexts(ps), separator) + u == Join(PTexts(qs), separator) + v
    ensures ps == qs && u == v
    decreases |Join(PTexts(ps), separator)|, 1
  {
    PartsStep(ps, separator, u);
    PartsStep(qs, separator, v);
    var r, s := Behind(ps, separator, u), Behind(qs, separator, v);
    assert Stops(r) && Stops(s);
    PrintedReadsBack(ps[0], qs[0], r, s);
    BehindDecides(ps, qs, separator, u, v);
    if |ps| > 1 {
      DropFront(separator, Join(PTexts(ps[1..]), separator) + u, Join(PTexts(qs[1..]), separator) + v);
      PartsReadBack(ps[1..], qs[1..], separator, u, v);
    }
    assert ps == [ps[0]] + ps[1..] && qs == [qs[0]] + qs[1..];
  }

  lemma BehindDecides(ps: seq<Printed>, qs: seq<Printed>, separator: string, u: string, v: string)
    requires ps != [] && qs != [] && separator != ""
    requires (u == "" || u[0] != separator[0]) && (v == "" || v[0] != separator[0])
    requires Behind(ps, separator, u) == Behind(qs, separator, v)
    ensures |ps| > 1 <==> |qs| > 1
  {
    assert |ps| > 1 ==> Behind(ps, separator, u) != "" && Behind(ps, separator, u)[0] == separator[0];
    assert |qs| > 1 ==> Behind(qs, separator, v) != "" && Behind(qs, separator, v)[0] == separator[0];
  }

  // ----- atoms and types -----

  lemma IdIsWord(n: int)
    requires n >= NO_ID
    ensures var w := AtomText(Id(n)); w != "" && NoStops(w) && (IsDigit(w[0]) || w[0] == '-')
  {
    if n >= 0 {
      forall i | 0 <= i < |Decimal(n)| ensures !IsStop(Decimal(n)[i]) {
        DecimalHasOnlyDigits(n, i);
      }
      DecimalHasOnlyDigits(n, 0);
    }
  }

  lemma IdsReadBack(m: int, n: int, r: string, s: string)
    requires m >= NO_ID && n >= NO_ID && Stops(r) && Stops(s) && AtomText(Id(m)) + r == AtomText(Id(n)) + s
    ensures m == n && r == s
  {
    IdIsWord(m);
    IdIsWord(n);
    WordsEnd(AtomText(Id(m)), AtomText(Id(n)), r, s);
    if m >= 0 && n >= 0 {
      DecimalInjective(m, n);
    } else if m >= 0 {
      DecimalHasOnlyDigits(m, 0);
    } else if n >= 0 {
      DecimalHasOnlyDigits(n, 0);
    }
  }

  /** What the text of an atom starts with. */
  lemma AtomStarts(a: Atom, r: string)
    requires PlainAtom(a)
    ensures var t := AtomText(a) + r;
            t != "" && !IsStop(t[0]) && (a.Id? <==> IsDigit(t[0]) || t[0] == '-')
  {
    match a
    case Id(n) => IdIsWord(n);
    case Members(ps) => HeadIsWord(ps[0]); PartsStep(ps, "|", r);
  }

  lemma AtomsReadBack(a: Atom, b: Atom, r: string, s: string)
    requires PlainAtom(a) && PlainAtom(b) && Stops(r) && Stops(s)
    requires (r == "" || r[0] != '|') && (s == "" || s[0] != '|') && AtomText(a) + r == AtomText(b) + s
    ensures a == b && r == s
  {
    AtomStarts(a, r);
    AtomStarts(b, s);
    if a.Id? {
      IdsReadBack(a.n, b.n, r, s);
    } else {
      PartsReadBack(a.ps, b.ps, "|", r, s);
    }
  }

  lemma TextStarts(e: Erased)
    requires PlainErased(e)
    ensures Text(e) != "" && (e.Fn? ==> Text(e)[0] == '(') && (e.Leaf? ==> !IsStop(Text(e)[0]))
  {
    if e.Leaf? {
      AtomStarts(e.atom, Brackets(e.dims));
    }
  }

  lemma LeavesReadBack(e: Erased, f: Erased, r: string, q: string)
    requires e.Leaf? && f.Leaf? && PlainErased(e) && PlainErased(f)
    requires Follows(r) && Follows(q) && Text(e) + r == Text(f) + q
    ensures e == f && r == q
  {
    var s, t := Brackets(e.dims) + r, Brackets(f.dims) + q;
    Reassociate(AtomText(e.atom), Brackets(e.dims), r);
    Reassociate(AtomText(f.atom), Brackets(f.dims), q);
    BracketsStart(e.dims, r);
    BracketsStart(f.dims, q);
    AtomsReadBack(e.atom, f.atom, s, t);
    BracketsEnd(e.dims, f.dims, r, q);
  }

  function RestText(rest: Option<Erased>): string {
    if rest.Some? then "..." + Text(rest.value) else ""
  }

  /** A type's text determines the type and where it ends. */
  lemma {:induction false} TextReadsBack(e: Erased, f: Erased, r: string, q: string)
    requires PlainErased(e) && PlainErased(f) && Follows(r) && Follows(q) && Text(e) + r == Text(f) + q
    ensures e == f && r == q
    decreases |Text(e)|, 0
  {
    TextStarts(e);
    TextStarts(f);
    assert (Text(e) + r)[0] == Text(e)[0] && (Text(f) + q)[0] == Text(f)[0];
    if e.Leaf? && f.Leaf? {
      LeavesReadBack(e, f, r, q);
    } else if e.Fn? && f.Fn? {
      var p1, p2 := ParamsText(e.params, RestText(e.rest)), ParamsText(f.params, RestText(f.rest));
      var u1, u2 := ")=>" + (Text(e.ret) + r), ")=>" + (Text(f.ret) + q);
      Regroup("(", p1, ")=>", Text(e.ret), r);
      Regroup("(", p2, ")=>", Text(f.ret), q);
      DropFront("(", p1 + u1, p2 + u2);
      ParamsReadBack(e.params, e.rest, f.params, f.rest, u1, u2);
      DropFront(")=>", Text(e.ret) + r, Text(f.ret) + q);
      TextReadsBack(e.ret, f.ret, r, q);
    }
  }

  /** What the text of a parameter list starts with. */
  lemma ParamsStart(ps: seq<Param>, rest: Option<Erased>, u: string)
    requires PlainParams(ps) && (rest.Some? ==> PlainErased(rest.value)) && u != "" && u[0] == ')'
    ensures var s := ParamsText(ps, RestText(rest)) + u;
            && s != ""
            && (ps == [] && rest.None? ==> s[0] == ')')
            && (ps == [] && rest.Some? ==> s[0] == '.')
            && (ps != [] ==> s[0] != ')' && s[0] != '.' && (ps[0].optional <==> s[0] == '?'))
  {
    if ps != [] {
      TextStarts(ps[0].kind);
    }
  }

  lemma {:induction false} ParamsReadBack(ps: seq<Param>, rest: Option<Erased>, qs: seq<Param>, rest': Option<Erased>,
                                          u: string, v: string)
    requires PlainParams(ps) && PlainParams(qs)
    requires (rest.Some? ==> PlainErased(rest.value)) && (rest'.Some? ==> PlainErased(rest'.value))
    requires u != "" && u[0] == ')' && v != "" && v[0] == ')'
    requires ParamsText(ps, RestText(rest)) + u == ParamsText(qs, RestText(rest')) + v
    ensures ps == qs && rest == rest' && u == v
    decreases |ParamsText(ps, RestText(rest))|, 1
  {
    ParamsStart(ps, rest, u);
    ParamsStart(qs, rest', v);
    if ps == [] && qs == [] {
      RestsReadBack(rest, rest', u, v);
    } else if ps != [] && qs != [] {
      FirstParamReadsBack(ps, RestText(rest), qs, RestText(rest'), u, v);
      var r, q := ParamsText(ps[1..], RestText(rest)) + u, ParamsText(qs[1..], RestText(rest')) + v;
      TextReadsBack(ps[0].kind, qs[0].kind, "," + r, "," + q);
      DropFront(",", r, q);
      ParamsReadBack(ps[1..], rest, qs[1..], rest', u, v);
      SameParams(ps, qs);
    }
  }

  lemma SameParams(ps: seq<Param>, qs: seq<Param>)
    requires ps != [] && qs != [] && ps[0].optional == qs[0].optional && ps[0].kind == qs[0].kind && ps[1..] == qs[1..]
    ensures ps == qs
  {
    assert ps == [ps[0]] + ps[1..] && qs == [qs[0]] + qs[1..];
  }

  lemma {:induction false} RestsReadBack(rest: Option<Erased>, rest': Option<Erased>, u: string, v: string)
    requires (rest.Some? ==> PlainErased(rest.value)) && (rest'.Some? ==> PlainErased(rest'.value))
    requires u != "" && u[0] == ')' && v != "" && v[0] == ')' && (rest.Some? <==> rest'.Some?)
    requires RestText(rest) + u == RestText(rest') + v
    ensures rest == rest' && u == v
    decreases |RestText(rest)|, 0
  {
    if rest.Some? {
      var a, b := Text(rest.value), Text(rest'.value);
      Reassociate("...", a, u);
      Reassociate("...", b, v);
      DropFront("...", a + u, b + v);
      TextReadsBack(rest.value, rest'.value, u, v);
    } else {
      assert "" + u == u && "" + v == v;
    }
  }

  lemma Regroup(o: string, t: string, c: string, r: string, u: string)
    ensures ((o + t) + c + r) + u == o + (t + (c + (r + u)))
  {
    Reassociate(o + t, c, r + u);
    Reassociate(o + t + c, r, u);
    Reassociate(o, t, c + (r + u));
  }

  lemma Reassociate(a: string, b: string, c: string)
    ensures (a + b) + c == a + (b + c)
  {
  }

  lemma FirstParamReadsBack(ps: seq<Param>, rest: string, qs: seq<Param>, rest': string, u: string, v: string)
    requires ps != [] && qs != [] && ps[0].optional == qs[0].optional
    requires ParamsText(ps, rest) + u == ParamsText(qs, rest') + v
    ensures Text(ps[0].kind) + ("," + (ParamsText(ps[1..], rest) + u))
            == Text(qs[0].kind) + ("," + (ParamsText(qs[1..], rest') + v))
  {
    var o := if ps[0].optional then "?" else "";
    var a, b := Text(ps[0].kind), Text(qs[0].kind);
    var r, q := ParamsText(ps[1..], rest), ParamsText(qs[1..], rest');
    Regroup(o, a, ",", r, u);
    Regroup(o, b, ",", q, v);
    DropFront(o, a + ("," + (r + u)), b + ("," + (q + v)));
  }

  // ----- members can be read back -----

  predicate NameEnds(s: string) {
    s != "" && (s[0] == ':' || s[0] == '?')
  }

  lemma NamesEnd(a: string, b: string, r: string, q: string)
    requires ':' !in a && '?' !in a && ':' !in b && '?' !in b && NameEnds(r) && NameEnds(q) && a + r == b + q
    ensures a == b && r == q
  {
    var s := a + r;
    assert s[|a|] == r[0] && s[|b|] == q[0];
    assert forall k :: 0 <= k < |a| ==> s[k] == a[k] && a[k] in a;
    assert forall k :: 0 <= k < |b| ==> s[k] == b[k] && b[k] in b;
    assert |a| == |b|;
    assert a == (a + r)[..|a|] && b == (b + q)[..|b|];
    assert r == (a + r)[|a|..] && q == (b + q)[|b|..];
  }

  /** What follows the type of a member. */
  function Ending(x: Entry, r: string): string {
    (if x.isMethod then "(m)" else "") + "," + r
  }

  lemma EntryParts(x: Entry, r: string)
    ensures EntryText(x) + r == x.name + ((if x.optional then "?: " else ": ") + (Text(x.kind) + Ending(x, r)))
  {
  }

  lemma EntryReadsBack(x: Entry, y: Entry, r: string, q: string)
    requires PlainEntry(x) && PlainEntry(y) && EntryText(x) + r == EntryText(y) + q
    ensures x == y && r == q
  {
    var colonX, colonY := if x.optional then "?: " else ": ", if y.optional then "?: " else ": ";
    var a, b := Text(x.kind) + Ending(x, r), Text(y.kind) + Ending(y, q);
    EntryParts(x, r);
    EntryParts(y, q);
    NamesEnd(x.name, y.name, colonX + a, colonY + b);
    assert (colonX + a)[0] == colonX[0] && (colonY + b)[0] == colonY[0];
    DropFront(colonX, a, b);
    TextReadsBack(x.kind, y.kind, Ending(x, r), Ending(y, q));
    EndingReadsBack(x, y, r, q);
  }

  lemma EndingReadsBack(x: Entry, y: Entry, r: string, q: string)
    requires Ending(x, r) == Ending(y, q)
    ensures x.isMethod == y.isMethod && r == q
  {
    assert Ending(x, r)[0] == if x.isMethod then '(' else ',';
    assert Ending(y, q)[0] == if y.isMethod then '(' else ',';
    DropFront((if x.isMethod then "(m)" else "") + ",", r, q);
  }

  lemma {:induction false} EntriesReadBack(xs: seq<Entry>, ys: seq<Entry>)
    requires PlainEntries(xs) && PlainEntries(ys) && EntriesText(xs) == EntriesText(ys)
    ensures xs == ys
  {
    if xs != [] && ys != [] {
      EntryReadsBack(xs[0], ys[0], EntriesText(xs[1..]), EntriesText(ys[1..]));
      EntriesReadBack(xs[1..], ys[1..]);
      assert xs == [xs[0]] + xs[1..] && ys == [ys[0]] + ys[1..];
    }
  }

  // ----- what a shape and a shared id mean -----

  /** Classes with names free of delimiters have equal shapes exactly when they have the same members up to erasure. */
  lemma SameShapeIffSameMembers(c: ClassType, d: ClassType, env: Env)
    requires PlainClass(c) && PlainClass(d) && PlainNames(env)
    ensures ShapeDesc(c, env) == ShapeDesc(d, env) <==> MembersOf(c, env) == MembersOf(d, env)
  {
    ShapeIsErased(c, env);
    ShapeIsErased(d, env);
    if ShapeDesc(c, env) == ShapeDesc(d, env) {
      FieldEntriesPlain(c.fields, env);
      MethodEntriesPlain(c.methods, env);
      FieldEntriesPlain(d.fields, env);
      MethodEntriesPlain(d.methods, env);
      EntriesReadBack(MembersOf(c, env), MembersOf(d, env));
    }
  }

  lemma ObjectNamePlain(id: int)
    ensures NoStops(ObjectName(id))
  {
    if id >= 0 {
      forall i | 0 <= i < |Decimal(id)| ensures !IsStop(Decimal(id)[i]) {
        DecimalHasOnlyDigits(id, i);
      }
    }
    assert NoStops("@object_type");
  }

  /** With plain declared names all names are plain, those of object types included. */
  lemma NamesStayPlain(classes: seq<ClassType>, ids: seq<int>, names: seq<string>)
    requires NamesOk(classes, ids, names) && forall i :: 0 <= i < |classes| ==> NoStops(classes[i].name)
    ensures PlainNames(EnvOf(classes, ids, names))
  {
    forall c | 0 <= c < |names| ensures NoStops(names[c]) {
      ObjectNamePlain(ids[c]);
      assert names[c] == NameWith(classes[c].name, ids[c]);
    }
  }

  /**
   Two processed classes whose shapes rest on their references share an id exactly
   when both took the shape branch with the same members up to erasure.
   */
  lemma SharedIdIffSameMembers(classes: seq<ClassType>, start: int, a: Alloc, c: ClassId, d: ClassId)
    requires Inv(classes, start, a) && Complete(classes, a.refs) && c < |classes| && d < |classes| && c != d
    requires Guarded(classes[c], classes) && Guarded(classes[d], classes)
    requires forall i :: 0 <= i < |classes| ==> NoStops(classes[i].name)
    requires a.status[c] == Processed && a.status[d] == Processed && PlainClass(classes[c]) && PlainClass(classes[d])
    ensures var env := EnvOf(classes, a.ids, a.names);
            a.ids[c] == a.ids[d] <==>
            c in a.shapes && d in a.shapes && MembersOf(classes[c], env) == MembersOf(classes[d], env)
  {
    var env := EnvOf(classes, a.ids, a.names);
    SharedIdIffSameShape(classes, start, a, c, d);
    NamesStayPlain(classes, a.ids, a.names);
    SameShapeIffSameMembers(classes[c], classes[d], env);
  }

  /** After the pass: two such classes on no cycle of references share an id exactly when they have the same members up to erasure. */
  lemma PassSharesMembers(classes: seq<ClassType>, start: int, c: ClassId, d: ClassId)
    requires start >= 0 && Closed(classes) && c < |classes| && d < |classes| && c != d
    requires Guarded(classes[c], classes) && Guarded(classes[d], classes) && PlainClass(classes[c]) && PlainClass(classes[d])
    requires forall i :: 0 <= i < |classes| ==> NoStops(classes[i].name)
    requires !OnCycle(AllRefs(classes), c) && !OnCycle(AllRefs(classes), d)
    ensures var b := Outcome(classes, start);
            var env := EnvOf(classes, b.ids, b.names);
            b.ids[c] == b.ids[d] <==> MembersOf(classes[c], env) == MembersOf(classes[d], env)
  {
    PassOutcome(classes, start);
    SharedIdIffSameMembers(classes, start, Outcome(classes, start), c, d);
  }

  // ----- what erasure loses -----

  /** The last parameter of a function does not show in its text, unless it is a rest parameter. */
  lemma {:induction false} LastParameterIsLost(ps: seq<Type>, p: Type, q: Type, opt: seq<bool>, env: Env)
    ensures ParamTexts(ps + [p], opt, false, env) == ParamTexts(ps + [q], opt, false, env)
  {
    if ps == [] {
      assert ps + [p] == [p] && ps + [q] == [q];
    } else {
      assert (ps + [p])[1..] == ps[1..] + [p] && (ps + [q])[1..] == ps[1..] + [q];
      LastParameterIsLost(ps[1..], p, q, if opt == [] then [] else opt[1..], env);
    }
  }

  function OneMethod(p: string): ClassType {
    ClassType("C", false, [], [Method("f", false, false, Ordinary, Function([Primitive(p)], [false], false, Primitive("void")))])
  }

  /** `{ f(x: number): void }` and `{ f(x: string): void }` have one shape, so the second to be visited gets the id of the first. */
  lemma ParameterTypesShareShape(env: Env)
    ensures OneMethod("number") != OneMethod("string")
    ensures ShapeDesc(OneMethod("number"), env) == ShapeDesc(OneMethod("string"), env)
  {
    var c, d := OneMethod("number"), OneMethod("string");
    var t, u := c.methods[0].kind, d.methods[0].kind;
    assert t.params[0].name != u.params[0].name;
    LastParameterIsLost([], t.params[0], u.params[0], [false], env);
    assert t.params == [] + [t.params[0]] && u.params == [] + [u.params[0]];
    assert TypeText(t, env) == TypeText(u, env);
    assert c.methods[1..] == [] && d.methods[1..] == [];
  }

  /** An array of functions and a function that returns an array have one text. */
  lemma ArrayOfFunctionsIsLost(ps: seq<Type>, opt: seq<bool>, rest: bool, ret: Type, env: Env)
    ensures TypeText(Array(Function(ps, opt, rest, ret)), env) == TypeText(Function(ps, opt, rest, Array(ret)), env)
  {
    TextIsErased(Array(Function(ps, opt, rest, ret)), env);
    TextIsErased(Function(ps, opt, rest, Array(ret)), env);
  }
}
