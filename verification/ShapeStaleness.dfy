/**
 Recorded shapes that go stale. A shape is taken before everything it reads has
 its id and name when a union prints a class that is declared without a name, or
 when a static accessor mentions a class: neither makes the class a reference.
 */
module ShapeStaleness {
  import opened Prelude
  import opened TypeIds
  import opened TypeIdAllocation
  import opened TypeIdWalk

  // ----- when a recorded shape stays current -----

  /** Ids of custom classes start above a thousand, so every numeral is longer than `-1`. */
  const FIRST_CUSTOM_ID := 1000

  lemma {:induction false} LongNumeral(n: nat)
    requires n >= 100
    ensures |Decimal(n)| >= 3
  {
    assert |Decimal(n)| == |Decimal(n / 10)| + 1 && |Decimal(n / 10)| == |Decimal(n / 10 / 10)| + 1;
  }

  /** Classes without id or name may have got one. */
  ghost predicate Later(env: Env, env': Env) {
    && env.literals == env'.literals
    && (forall c: ClassId :: IdText(env, c) == IdText(env', c) || (IdText(env, c) == "-1" && |IdText(env', c)| > 2))
    && (forall c: ClassId :: NameText(env, c) == NameText(env', c) || (NameText(env, c) == "" && NameText(env', c) != ""))
  }

  lemma LaterIsLonger(env: Env, env': Env, r: Read)
    requires Later(env, env')
    ensures ReadText(env, r) == ReadText(env', r) || |ReadText(env, r)| < |ReadText(env', r)|
  {
    if r.OfId? {
      assert IdText(env, r.c) == IdText(env', r.c) || |IdText(env', r.c)| > 2;
    } else {
      assert NameText(env, r.c) == NameText(env', r.c) || NameText(env, r.c) == "";
    }
  }

  /** The shape of a class stays the same exactly as long as nothing it reads gets its id or name. */
  lemma ShapeStaysIff(c: ClassType, env: Env, env': Env)
    requires Later(env, env')
    ensures ShapeDesc(c, env) == ShapeDesc(c, env') <==> SameReads(env, env', ShapeReads(c))
  {
    forall r: Read ensures ReadText(env, r) == ReadText(env', r) || |ReadText(env, r)| < |ReadText(env', r)| {
      LaterIsLonger(env, env', r);
    }
    if SameReads(env, env', ShapeReads(c)) {
      ShapeDependsOnReads(c, env, env');
    } else {
      var r :| r in ShapeReads(c) && ReadText(env, r) != ReadText(env', r);
      LaterIsLonger(env, env', r);
      assert LongerAt(env, env', ShapeReads(c));
      ShapeStretches(c, env, env');
    }
  }

  /** A shape with a single reading changes with it. */
  lemma SingleReadChanges(c: ClassType, r: Read, env: Env, env': Env)
    requires ShapeReads(c) == {r} && env.literals == env'.literals && |ReadText(env, r)| < |ReadText(env', r)|
    ensures ShapeDesc(c, env) != ShapeDesc(c, env')
  {
    assert LongerAt(env, env', ShapeReads(c));
    ShapeStretches(c, env, env');
  }

  // ----- runs over classes without references -----

  /** Nothing is visited, and the references of all classes are known to be none. */
  ghost predicate Fresh(classes: seq<ClassType>, start: int, a: Alloc) {
    && Inv(classes, start, a) && OnStack(a, {})
    && (forall c :: 0 <= c < |classes| ==> a.status[c] == NotVisited && Refs(a.refs, c) == [])
  }

  lemma StartIsFresh(classes: seq<ClassType>, start: int)
    requires start >= 0 && forall c :: 0 <= c < |classes| ==> ClassRefs(classes[c]) == []
    ensures Fresh(classes, start, Started(classes, start, AllRefs(classes)))
  {
  }

  /** The visit of a class without references leaves everything else alone and records the shape of the moment. */
  lemma VisitAlone(classes: seq<ClassType>, start: int, a: Alloc, c: ClassId) returns (b: Alloc)
    requires Inv(classes, start, a) && OnStack(a, {}) && c < |classes| && a.status[c] == NotVisited && Refs(a.refs, c) == []
    ensures Sized(classes, a) && b == Allocated(classes, a, c)
    ensures Inv(classes, start, b) && OnStack(b, {}) && b.refs == a.refs
    ensures b.status == a.status[c := Processed] && b.shapes == a.shapes[c := ShapeNow(classes, a, c)]
  {
    b := Concluded(classes, Begun(a, c), c);
    AllocatedKeeps(classes, start, a, c, {});
    AloneRecords(classes, a, c);
  }

  lemma AloneRecords(classes: seq<ClassType>, a: Alloc, c: ClassId)
    requires c < |a.status| == |a.ids| == |a.names| == |classes| && (a.loopEntry.Some? ==> a.groups != [])
    ensures var b := Concluded(classes, Begun(a, c), c);
            && b.refs == a.refs && b.status == a.status[c := Processed]
            && b.shapes == a.shapes[c := ShapeNow(classes, a, c)]
  {
    assert a.status[c := Visited][c := Processed] == a.status[c := Processed];
    assert ShapeNow(classes, Begun(a, c), c) == ShapeNow(classes, a, c);
  }

  /** The first two classes in turn. */
  lemma VisitTwo(classes: seq<ClassType>, start: int, a: Alloc) returns (a1: Alloc, b: Alloc)
    requires Fresh(classes, start, a) && |classes| > 1
    ensures Sized(classes, a) && Sized(classes, b) && AllAllocated(classes, a, 0) == AllAllocated(classes, b, 2)
    ensures Inv(classes, start, b) && OnStack(b, {}) && b.refs == a.refs
    ensures b.status == a.status[0 := Processed][1 := Processed]
    ensures 0 in b.shapes && b.shapes[0] == ShapeNow(classes, a, 0) && 1 in b.shapes && b.shapes[1] == ShapeNow(classes, a1, 1)
    ensures a1.status == a.status[0 := Processed] && Inv(classes, start, a1)
  {
    a1 := VisitAlone(classes, start, a, 0);
    b := VisitAlone(classes, start, a1, 1);
    assert AllAllocated(classes, a, 0) == AllAllocated(classes, a1, 1);
  }

  /** All of three classes. */
  lemma VisitThree(classes: seq<ClassType>, start: int, a: Alloc) returns (a2: Alloc, b: Alloc)
    requires Fresh(classes, start, a) && |classes| == 3
    ensures Sized(classes, a) && b == AllAllocated(classes, a, 0) && Inv(classes, start, b) && Inv(classes, start, a2)
    ensures a.status[1] != Processed && a2.status[1] == b.status[1] == b.status[0] == b.status[2] == Processed
    ensures 0 in b.shapes && b.shapes[0] == ShapeNow(classes, a, 0) && 2 in b.shapes && b.shapes[2] == ShapeNow(classes, a2, 2)
  {
    var a1;
    a1, a2 := VisitTwo(classes, start, a);
    b := VisitAlone(classes, start, a2, 2);
    assert AllAllocated(classes, b, 3) == b;
  }

  lemma SameRecord(classes: seq<ClassType>, start: int, b: Alloc, c: ClassId, d: ClassId)
    requires Inv(classes, start, b) && c < |classes| && d < |classes| && c != d
    requires b.status[c] == Processed && b.status[d] == Processed && c in b.shapes && d in b.shapes
    ensures b.ids[c] == b.ids[d] <==> b.shapes[c] == b.shapes[d]
  {
    SharedIdIffSameRecord(b.status, b.ids, b.shapes, b.cycles, b.table, start, b.next, c, d);
  }

  /** An id that was not assigned and a name that was not given have become longer texts. */
  lemma AssignedTexts(classes: seq<ClassType>, start: int, a: Alloc, c: ClassId)
    requires Inv(classes, start, a) && c < |classes| && start >= FIRST_CUSTOM_ID
    ensures a.status[c] == Processed ==> |IdText(EnvOf(classes, a.ids, a.names), c)| > 2
    ensures a.status[c] == Processed ==> NameText(EnvOf(classes, a.ids, a.names), c) != ""
    ensures a.status[c] != Processed ==> IdText(EnvOf(classes, a.ids, a.names), c) == "-1"
    ensures a.status[c] != Processed ==> NameText(EnvOf(classes, a.ids, a.names), c) == classes[c].name
  {
    assert a.names[c] == NameWith(classes[c].name, a.ids[c]);
    if a.status[c] == Processed {
      assert c in a.shapes || c in a.cycles;
      assert a.ids[c] >= start;
      LongNumeral(a.ids[c]);
    }
  }

  // ----- a union with an anonymous class -----

  function StringOr(c: ClassId): ClassType {
    ClassType("C", false, [Field("f", false, Union([Class(c), Primitive("string")]))], [])
  }

  function ObjectType(): ClassType {
    ClassType("", true, [Field("x", false, Primitive("number"))], [])
  }

  /** `class A { f: P | string }`, `type P = { x: number }`, `class B { f: P | string }`. */
  function UnionClasses(): seq<ClassType> { [StringOr(1), ObjectType(), StringOr(1)] }

  lemma StringOrReads(c: ClassId)
    ensures ShapeReads(StringOr(c)) == {OfName(c)} && ClassRefs(StringOr(c)) == []
  {
    var t := StringOr(c).fields[0].kind;
    assert AllPrintReads(t.members[1..]) == {} by {
      assert t.members[1..] == [Primitive("string")] && [Primitive("string")][1..] == [];
    }
    assert AllPrintReads(t.members) == {OfName(c)};
    assert StringOr(c).fields[1..] == [];
    assert FieldReads(StringOr(c).fields) == {OfName(c)};
    assert FieldRefs(StringOr(c).fields, []) == [];
  }

  lemma UnionNotGuarded()
    ensures !Guarded(StringOr(1), UnionClasses())
  {
    StringOrReads(1);
    assert OfName(1) in ShapeReads(StringOr(1));
    assert !Settled(OfName(1), ClassRefs(StringOr(1)), UnionClasses());
  }

  /** In the order of declaration the first class keeps a stale shape, and the last one, with the same members, gets another id. */
  lemma UnionGoesStale(start: int)
    requires start >= FIRST_CUSTOM_ID
    ensures var classes := UnionClasses();
            && Closed(classes) && classes[0] == classes[2]
            && var b := Outcome(classes, start);
               0 in b.shapes && b.shapes[0] != ShapeNow(classes, b, 0) && b.ids[0] != b.ids[2]
  {
    var classes, a := UnionClasses(), Started(UnionClasses(), start, AllRefs(UnionClasses()));
    NoRefs(classes, start);
    var a2, b := VisitThree(classes, start, a);
    ObjectNamed(classes, start, a, a2);
    ObjectNamed(classes, start, a, b);
    SameRecord(classes, start, b, 0, 2);
  }

  /** None of the example classes refers to another one. */
  lemma NoRefs(classes: seq<ClassType>, start: int)
    requires classes in {UnionClasses(), AccessorAndClass(), TwoAccessors()} && start >= 0
    ensures Closed(classes) && Fresh(classes, start, Started(classes, start, AllRefs(classes)))
  {
    StringOrReads(1);
    AccessorReads(1);
    AccessorReads(2);
    AccessorReads(3);
    assert ObjectType().fields[1..] == [] && ClassRefs(ObjectType()) == [] && ClassRefs(Empty()) == [];
    StartIsFresh(classes, start);
  }

  lemma ObjectNamed(classes: seq<ClassType>, start: int, a: Alloc, b: Alloc)
    requires classes == UnionClasses() && Inv(classes, start, a) && Inv(classes, start, b) && start >= FIRST_CUSTOM_ID
    requires a.status[1] != Processed && b.status[1] == Processed
    ensures ShapeNow(classes, a, 0) != ShapeNow(classes, b, 0) && ShapeNow(classes, b, 0) == ShapeNow(classes, b, 2)
  {
    AssignedTexts(classes, start, a, 1);
    AssignedTexts(classes, start, b, 1);
    StringOrReads(1);
    SingleReadChanges(StringOr(1), OfName(1), EnvOf(classes, a.ids, a.names), EnvOf(classes, b.ids, b.names));
  }

  /** Classes whose unions hold two different object types without a name have one shape. */
  lemma AnonymousLookAlike(c: ClassId, d: ClassId, env: Env)
    requires NameText(env, c) == "" == NameText(env, d)
    requires c < |env.literals| && d < |env.literals| && env.literals[c] == env.literals[d]
    ensures ShapeDesc(StringOr(c), env) == ShapeDesc(StringOr(d), env)
  {
    var s, t := [Class(c), Primitive("string")], [Class(d), Primitive("string")];
    assert ClassText(env, c) == ClassText(env, d);
    assert s[1..] == t[1..];
    assert PrintTexts(s, env) == PrintTexts(t, env);
    assert TypeText(Union(s), env) == TypeText(Union(t), env);
    assert StringOr(c).fields[1..] == [] == StringOr(d).fields[1..];
  }

  // ----- a static accessor -----

  /** `class S { static get x(): C }`. */
  function Accessor(c: ClassId): ClassType {
    ClassType("S", false, [], [Method("x", false, true, Getter, Function([], [], false, Class(c)))])
  }

  function Empty(): ClassType { ClassType("E", false, [], []) }

  function AccessorAndClass(): seq<ClassType> { [Accessor(1), Empty()] }

  function TwoAccessors(): seq<ClassType> { [Accessor(2), Accessor(3), Empty(), ObjectType()] }

  lemma AccessorReads(c: ClassId)
    ensures ShapeReads(Accessor(c)) == {OfId(c)} && ClassRefs(Accessor(c)) == []
  {
    var m := Accessor(c).methods;
    assert ParamReads([], false) == {} && TypeReads(Class(c)) == {OfId(c)};
    assert TypeReads(m[0].kind) == {OfId(c)};
    assert m[1..] == [] && MethodReads([]) == {} && MethodRefs([], []) == [];
    assert MethodReads(m) == {OfId(c)} && MethodRefs(m, []) == [];
    assert FieldReads([]) == {} && FieldRefs([], []) == [];
  }

  lemma AccessorNotGuarded(c: ClassId, classes: seq<ClassType>)
    ensures !Guarded(Accessor(c), classes)
  {
    AccessorReads(c);
    assert OfId(c) in ShapeReads(Accessor(c)) && !Settled(OfId(c), ClassRefs(Accessor(c)), classes);
  }

  /** Its shape is taken with the id `-1` when the class is visited first, and stale as soon as the other one has its id. */
  lemma AccessorGoesStale(start: int)
    requires start >= FIRST_CUSTOM_ID
    ensures var classes := AccessorAndClass();
            Closed(classes) && var b := Outcome(classes, start); 0 in b.shapes && b.shapes[0] != ShapeNow(classes, b, 0)
  {
    var classes, a := AccessorAndClass(), Started(AccessorAndClass(), start, AllRefs(AccessorAndClass()));
    NoRefs(classes, start);
    var a1, b := VisitTwo(classes, start, a);
    assert AllAllocated(classes, b, 2) == b;
    AssignedTexts(classes, start, a, 1);
    AssignedTexts(classes, start, b, 1);
    AccessorReads(1);
    SingleReadChanges(Accessor(1), OfId(1), EnvOf(classes, a.ids, a.names), EnvOf(classes, b.ids, b.names));
  }

  lemma AccessorsDiffer(c: ClassId, d: ClassId)
    requires c != d
    ensures Accessor(c) != Accessor(d)
  {
    assert Accessor(c).methods[0].kind.ret.id != Accessor(d).methods[0].kind.ret.id;
  }

  /** Static accessors of two different classes without ids give one shape, and their classes one id. */
  lemma AccessorsShareId(start: int)
    requires start >= 0
    ensures var classes := TwoAccessors();
            Closed(classes) && classes[0] != classes[1] && Outcome(classes, start).ids[0] == Outcome(classes, start).ids[1]
  {
    var classes, a := TwoAccessors(), Started(TwoAccessors(), start, AllRefs(TwoAccessors()));
    NoRefs(classes, start);
    var a1, b := VisitTwo(classes, start, a);
    AccessorsDiffer(2, 3);
    AccessorShape(classes, start, a, 0, 2);
    AccessorShape(classes, start, a1, 1, 3);
    SameRecord(classes, start, b, 0, 1);
    AllAllocatedGrow(classes, b, 2);
  }

  /** The shape of an accessor's class while the class it returns has no id. */
  lemma AccessorShape(classes: seq<ClassType>, start: int, a: Alloc, c: ClassId, d: ClassId)
    requires Inv(classes, start, a) && c < |classes| && d < |classes| && a.status[d] != Processed && classes[c] == Accessor(d)
    ensures ShapeNow(classes, a, c) == "x: ()=>" + "-1" + "(m),"
  {
    AccessorText(d, EnvOf(classes, a.ids, a.names));
  }

  lemma AccessorText(c: ClassId, env: Env)
    ensures ShapeDesc(Accessor(c), env) == "x: ()=>" + IdText(env, c) + "(m),"
  {
    var m := Accessor(c).methods;
    assert ParamTexts([], [], false, env) == [];
    assert TypeText(m[0].kind, env) == "(" + "" + ")=>" + IdText(env, c);
    assert m[1..] == [] && MethodsText([], env) == "";
    assert MethodsText(m, env) == "x" + ": " + TypeText(m[0].kind, env) + "(m)" + "," + "";
  }
}
