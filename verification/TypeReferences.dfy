/** Which classes are collected as references, and what a shape looks like. */
module TypeReferences {
  import opened Prelude
  import opened TypeIds

  /** The type is the class, an array of such a type, or a function with such a parameter or result. */
  predicate Mentions(t: Type, c: ClassId)
    decreases t, 1
  {
    match t
    case Class(d) => c == d
    case Array(e) => Mentions(e, c)
    case Function(ps, _, _, ret) => Mentions(ret, c) || SomeMentions(ps, c)
    case _ => false
  }

  predicate SomeMentions(ts: seq<Type>, c: ClassId)
    decreases ts, 0
  {
    exists i :: 0 <= i < |ts| && Mentions(ts[i], c)
  }

  lemma {:induction false} TypeRefsIff(t: Type, refs: seq<ClassId>, c: ClassId)
    ensures c in TypeRefs(t, refs) <==> c in refs || Mentions(t, c)
    decreases t, 1
  {
    match t
    case Array(e) => TypeRefsIff(e, refs, c);
    case Function(ps, _, _, ret) => TypeRefsIff(ret, refs, c); ParamRefsIff(ps, TypeRefs(ret, refs), c);
    case _ =>
  }

  lemma {:induction false} ParamRefsIff(ps: seq<Type>, refs: seq<ClassId>, c: ClassId)
    ensures c in ParamRefs(ps, refs) <==> c in refs || SomeMentions(ps, c)
    decreases ps, 0
  {
    if ps != [] {
      TypeRefsIff(ps[0], refs, c);
      ParamRefsIff(ps[1..], TypeRefs(ps[0], refs), c);
      if i :| 0 <= i < |ps| && Mentions(ps[i], c) {
        assert i > 0 ==> Mentions(ps[1..][i - 1], c);
      }
      if i :| 0 <= i < |ps[1..]| && Mentions(ps[1..][i], c) {
        assert Mentions(ps[i + 1], c);
      }
    }
  }

  predicate FieldMentions(fs: seq<Field>, c: ClassId) {
    exists i :: 0 <= i < |fs| && Mentions(fs[i].kind, c)
  }

  /** A method without the static modifier mentions the class. */
  predicate MethodMentions(ms: seq<Method>, c: ClassId) {
    exists i :: 0 <= i < |ms| && !ms[i].isStatic && Mentions(ms[i].kind, c)
  }

  lemma {:induction false} FieldRefsIff(fs: seq<Field>, refs: seq<ClassId>, c: ClassId)
    ensures c in FieldRefs(fs, refs) <==> c in refs || FieldMentions(fs, c)
    decreases |fs|
  {
    if fs != [] {
      TypeRefsIff(fs[0].kind, refs, c);
      FieldRefsIff(fs[1..], TypeRefs(fs[0].kind, refs), c);
      if i :| 0 <= i < |fs| && Mentions(fs[i].kind, c) {
        assert i > 0 ==> Mentions(fs[1..][i - 1].kind, c);
      }
      if i :| 0 <= i < |fs[1..]| && Mentions(fs[1..][i].kind, c) {
        assert Mentions(fs[i + 1].kind, c);
      }
    }
  }

  lemma {:induction false} MethodRefsIff(ms: seq<Method>, refs: seq<ClassId>, c: ClassId)
    ensures c in MethodRefs(ms, refs) <==> c in refs || MethodMentions(ms, c)
    decreases |ms|
  {
    if ms != [] {
      var next := if ms[0].isStatic then refs else TypeRefs(ms[0].kind, refs);
      TypeRefsIff(ms[0].kind, refs, c);
      MethodRefsIff(ms[1..], next, c);
      if i :| 0 <= i < |ms| && !ms[i].isStatic && Mentions(ms[i].kind, c) {
        assert i > 0 ==> !ms[1..][i - 1].isStatic && Mentions(ms[1..][i - 1].kind, c);
      }
      if i :| 0 <= i < |ms[1..]| && !ms[1..][i].isStatic && Mentions(ms[1..][i].kind, c) {
        assert !ms[i + 1].isStatic && Mentions(ms[i + 1].kind, c);
      }
    }
  }

  /** The references of a class are the classes its fields and methods mention, each collected once. */
  lemma ClassRefsIff(k: ClassType, c: ClassId)
    ensures c in ClassRefs(k) <==> FieldMentions(k.fields, c) || MethodMentions(k.methods, c)
    ensures NoDuplicates(ClassRefs(k))
  {
    FieldRefsIff(k.fields, [], c);
    MethodRefsIff(k.methods, FieldRefs(k.fields, []), c);
    FieldRefsOnce(k.fields, []);
    MethodRefsOnce(k.methods, FieldRefs(k.fields, []));
  }

  lemma {:induction false} TypeRefsOnce(t: Type, refs: seq<ClassId>)
    requires NoDuplicates(refs)
    ensures NoDuplicates(TypeRefs(t, refs)) && refs <= TypeRefs(t, refs)
    decreases t, 1
  {
    match t
    case Array(e) => TypeRefsOnce(e, refs);
    case Function(ps, _, _, ret) => TypeRefsOnce(ret, refs); ParamRefsOnce(ps, TypeRefs(ret, refs));
    case _ =>
  }

  lemma {:induction false} ParamRefsOnce(ps: seq<Type>, refs: seq<ClassId>)
    requires NoDuplicates(refs)
    ensures NoDuplicates(ParamRefs(ps, refs)) && refs <= ParamRefs(ps, refs)
    decreases ps, 0
  {
    if ps != [] {
      TypeRefsOnce(ps[0], refs);
      ParamRefsOnce(ps[1..], TypeRefs(ps[0], refs));
    }
  }

  lemma {:induction false} FieldRefsOnce(fs: seq<Field>, refs: seq<ClassId>)
    requires NoDuplicates(refs)
    ensures NoDuplicates(FieldRefs(fs, refs)) && refs <= FieldRefs(fs, refs)
    decreases |fs|
  {
    if fs != [] {
      TypeRefsOnce(fs[0].kind, refs);
      FieldRefsOnce(fs[1..], TypeRefs(fs[0].kind, refs));
    }
  }

  lemma {:induction false} MethodRefsOnce(ms: seq<Method>, refs: seq<ClassId>)
    requires NoDuplicates(refs)
    ensures NoDuplicates(MethodRefs(ms, refs)) && refs <= MethodRefs(ms, refs)
    decreases |ms|
  {
    if ms != [] {
      if !ms[0].isStatic {
        TypeRefsOnce(ms[0].kind, refs);
      }
      MethodRefsOnce(ms[1..], if ms[0].isStatic then refs else TypeRefs(ms[0].kind, refs));
    }
  }

  // ----- a shape written out -----

  /** `class C { f?: A[]; m(s?: string, n: number): void; static s(): void }` for a class `A` of an id. */
  function Example(a: ClassId): ClassType {
    ClassType("C", false, [Field("f", true, Array(Class(a)))],
              [Method("m", false, false, Ordinary,
                      Function([Primitive("string"), Primitive("number")], [true, false], false, Primitive("void"))),
               Method("s", false, true, Static, Function([], [], false, Primitive("void")))])
  }

  lemma ShapeSpelled(a: ClassId, env: Env)
    ensures ShapeDesc(Example(a), env)
            == ("f" + "?: " + (IdText(env, a) + "[]") + "," + "") + ("m" + ": " + SpelledType() + "(m)" + "," + "")
  {
    var fs, ms := Example(a).fields, Example(a).methods;
    assert fs[1..] == [] && TypeText(fs[0].kind, env) == IdText(env, a) + "[]";
    assert FieldsText(fs, env) == "f" + "?: " + (IdText(env, a) + "[]") + "," + "";
    assert ms[1..][1..] == [] && MethodsText(ms[1..], env) == "";
    TypeSpelled(env);
    assert MethodsText(ms, env) == "m" + ": " + SpelledType() + "(m)" + "," + "";
  }

  /** `(?string,)=>void`: the last parameter does not show. */
  function SpelledType(): string { "(" + ("?" + "string" + "," + "") + ")=>" + "void" }

  lemma TypeSpelled(env: Env)
    ensures TypeText(Function([Primitive("string"), Primitive("number")], [true, false], false, Primitive("void")), env)
            == SpelledType()
  {
    var ps: seq<Type> := [Primitive("string"), Primitive("number")];
    assert ps[1..] == [Primitive("number")] && [true, false][1..] == [false];
    assert ParamTexts(ps[1..], [false], false, env) == [""];
    var ts := ParamTexts(ps, [true, false], false, env);
    assert ts == ["?" + "string"] + [""];
    assert ts[1..] == [""] && Join(ts[1..], ",") == "";
    assert Join(ts, ",") == ts[0] + "," + "";
    assert Join(ts, ",") == "?" + "string" + "," + "";
    assert TypeText(Primitive("void"), env) == "void";
  }
}
