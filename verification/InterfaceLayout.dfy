/**
 Member order of a class that implements an interface: the interface's members
 are moved to the front, so that the interface layout is a prefix of the class's.
 */
module InterfaceLayout {
  import opened Prelude

  datatype FunctionKind = PlainMethod | Constructor | Getter | Setter | StaticMethod

  datatype Field = Field(name: string, optional: bool, content: nat)

  datatype Method = Method(name: string, kind: FunctionKind, optional: bool, content: nat)

  /** Members are found by key: a field by its name, a method by name and kind. */
  datatype Key = FieldKey(name: string) | MethodKey(name: string, kind: FunctionKind)

  datatype Member = OfField(f: Field) | OfMethod(m: Method) {
    function Key(): Key {
      match this
      case OfField(f) => FieldKey(f.name)
      case OfMethod(m) => MethodKey(m.name, m.kind)
    }
  }

  /** `findIndex`: the first member with a key, or the length. */
  function IndexOf(ms: seq<Member>, k: Key): (i: nat)
    ensures i <= |ms|
    ensures i < |ms| ==> ms[i].Key() == k
    ensures forall j :: 0 <= j < i ==> ms[j].Key() != k
  {
    if ms == [] then 0
    else if ms[0].Key() == k then 0
    else 1 + IndexOf(ms[1..], k)
  }

  predicate Has(ms: seq<Member>, k: Key) {
    IndexOf(ms, k) < |ms|
  }

  /** The members whose keys are not in `ks`, in order. */
  function Others(ms: seq<Member>, ks: seq<Key>): seq<Member> {
    if ms == [] then []
    else if ms[0].Key() in ks then Others(ms[1..], ks)
    else [ms[0]] + Others(ms[1..], ks)
  }

  /** The members with keys in `ks`, in the order of `ks`. */
  function Chosen(ms: seq<Member>, ks: seq<Key>): seq<Member> {
    if ks == [] then []
    else if Has(ms, ks[0]) then [ms[IndexOf(ms, ks[0])]] + Chosen(ms, ks[1..])
    else Chosen(ms, ks[1..])
  }

  /** The layout the loops are meant to produce. */
  function Layout(ms: seq<Member>, ks: seq<Key>): seq<Member> {
    Chosen(ms, ks) + Others(ms, ks)
  }

  predicate DistinctKeys(ms: seq<Member>) {
    forall i, j :: 0 <= i < j < |ms| ==> ms[i].Key() != ms[j].Key()
  }

  predicate Distinct(ks: seq<Key>) {
    forall i, j :: 0 <= i < j < |ks| ==> ks[i] != ks[j]
  }

  // ----- what the layout keeps -----

  function Keys(ms: seq<Member>): seq<Key> {
    if ms == [] then [] else [ms[0].Key()] + Keys(ms[1..])
  }

  /** The keys of `ks` that the class has, in the order of `ks`. */
  function Present(ms: seq<Member>, ks: seq<Key>): seq<Key> {
    if ks == [] then []
    else if Has(ms, ks[0]) then [ks[0]] + Present(ms, ks[1..])
    else Present(ms, ks[1..])
  }

  lemma KeysAppend(a: seq<Member>, b: seq<Member>)
    ensures Keys(a + b) == Keys(a) + Keys(b)
  {
    if a == [] {
      assert a + b == b;
    } else {
      assert (a + b)[1..] == a[1..] + b;
    }
  }

  /** The front of the layout is exactly the interface's members that the class has, in interface order. */
  lemma {:induction false} ChosenKeys(ms: seq<Member>, ks: seq<Key>)
    ensures Keys(Chosen(ms, ks)) == Present(ms, ks)
  {
    if ks != [] {
      ChosenKeys(ms, ks[1..]);
      if Has(ms, ks[0]) {
        var m := ms[IndexOf(ms, ks[0])];
        assert Chosen(ms, ks) == [m] + Chosen(ms, ks[1..]);
      }
    }
  }

  lemma {:induction false} PresentAll(ms: seq<Member>, ks: seq<Key>)
    requires forall i :: 0 <= i < |ks| ==> Has(ms, ks[i])
    ensures Present(ms, ks) == ks
  {
    if ks != [] {
      assert Has(ms, ks[0]);
      assert forall i :: 0 <= i < |ks[1..]| ==> ks[1..][i] == ks[i + 1];
      PresentAll(ms, ks[1..]);
      assert ks == [ks[0]] + ks[1..];
    }
  }

  function Remove(ms: seq<Member>, i: nat): seq<Member>
    requires i < |ms|
  {
    ms[..i] + ms[i + 1..]
  }

  /** `splice(index, 1)` and `unshift`: brings the member with a key to the front. */
  function ToFront(ms: seq<Member>, k: Key): seq<Member> {
    if Has(ms, k) then [ms[IndexOf(ms, k)]] + Remove(ms, IndexOf(ms, k)) else ms
  }

  /** The back-to-front loop. */
  function Reordered(ms: seq<Member>, ks: seq<Key>): seq<Member> {
    if ks == [] then ms else ToFront(Reordered(ms, ks[1..]), ks[0])
  }

  lemma {:induction false} RemoveOthers(ms: seq<Member>, i: nat, ks: seq<Key>, k: Key)
    requires i < |ms| && ms[i].Key() == k && DistinctKeys(ms)
    ensures Others(Remove(ms, i), ks) == Others(ms, [k] + ks)
  {
    if i == 0 {
      assert Remove(ms, 0) == ms[1..];
      OthersWithout(ms[1..], k, ks);
    } else {
      assert Remove(ms, i) == [ms[0]] + Remove(ms[1..], i - 1);
      assert ms[0].Key() != k;
      RemoveOthers(ms[1..], i - 1, ks, k);
    }
  }

  lemma {:induction false} OthersWithout(ms: seq<Member>, k: Key, ks: seq<Key>)
    requires forall i :: 0 <= i < |ms| ==> ms[i].Key() != k
    ensures Others(ms, ks) == Others(ms, [k] + ks)
  {
    if ms != [] {
      OthersWithout(ms[1..], k, ks);
    }
  }

  /** Finding a key behind members that do not have it. */
  lemma {:induction false} IndexBehind(a: seq<Member>, b: seq<Member>, k: Key)
    requires forall i :: 0 <= i < |a| ==> a[i].Key() != k
    ensures IndexOf(a + b, k) == |a| + IndexOf(b, k)
  {
    if a == [] {
      assert a + b == b;
    } else {
      assert (a + b)[1..] == a[1..] + b;
      IndexBehind(a[1..], b, k);
    }
  }

  lemma {:induction false} ChosenHasKeyIn(ms: seq<Member>, ks: seq<Key>, i: nat)
    requires i < |Chosen(ms, ks)|
    ensures Chosen(ms, ks)[i].Key() in ks
  {
    if Has(ms, ks[0]) {
      if i > 0 {
        ChosenHasKeyIn(ms, ks[1..], i - 1);
      }
    } else {
      ChosenHasKeyIn(ms, ks[1..], i);
    }
  }

  lemma {:induction false} OthersHaves(ms: seq<Member>, ks: seq<Key>, k: Key)
    requires k !in ks
    ensures Has(Others(ms, ks), k) == Has(ms, k)
    ensures Has(ms, k) ==> Others(ms, ks)[IndexOf(Others(ms, ks), k)] == ms[IndexOf(ms, k)]
  {
    if ms != [] {
      OthersHaves(ms[1..], ks, k);
      if ms[0].Key() in ks {
        assert IndexOf(ms, k) == 1 + IndexOf(ms[1..], k);
      } else {
        var rest := Others(ms[1..], ks);
        assert Others(ms, ks) == [ms[0]] + rest && ([ms[0]] + rest)[1..] == rest;
        assert IndexOf([ms[0]] + rest, k) == if ms[0].Key() == k then 0 else 1 + IndexOf(rest, k);
      }
    }
  }

  /** Every remaining member is one of the given members. */
  lemma {:induction false} OthersAreMembers(ms: seq<Member>, ks: seq<Key>, i: nat) returns (j: nat)
    requires i < |Others(ms, ks)|
    ensures j < |ms| && Others(ms, ks)[i] == ms[j]
  {
    if ms[0].Key() in ks {
      j := OthersAreMembers(ms[1..], ks, i);
      j := j + 1;
    } else if i == 0 {
      j := 0;
    } else {
      j := OthersAreMembers(ms[1..], ks, i - 1);
      j := j + 1;
    }
  }

  lemma {:induction false} OthersDistinct(ms: seq<Member>, ks: seq<Key>)
    requires DistinctKeys(ms)
    ensures DistinctKeys(Others(ms, ks))
  {
    if ms != [] {
      OthersDistinct(ms[1..], ks);
      var r := Others(ms[1..], ks);
      forall i | 0 <= i < |r| ensures r[i].Key() != ms[0].Key() {
        var j := OthersAreMembers(ms[1..], ks, i);
      }
    }
  }

  /** Removing a remaining member is what remaining behind one more key means. */
  lemma RemovedFromOthers(ms: seq<Member>, k: Key, ks: seq<Key>)
    requires DistinctKeys(ms) && Has(Others(ms, ks), k)
    ensures var o := Others(ms, ks); Remove(o, IndexOf(o, k)) == Others(ms, [k] + ks)
  {
    var o := Others(ms, ks);
    var i := IndexOf(o, k);
    OthersDistinct(ms, ks);
    RemoveOthers(o, i, [], k);
    OthersTwice(ms, ks, k);
    OthersNone(Remove(o, i));
  }

  lemma ToFrontAt(ms: seq<Member>, k: Key, i: nat)
    requires i < |ms| && IndexOf(ms, k) == i
    ensures ToFront(ms, k) == [ms[i]] + Remove(ms, i)
  {
  }

  lemma MovedPast(c: seq<Member>, o: seq<Member>, i: nat)
    requires i < |o|
    ensures [(c + o)[|c| + i]] + Remove(c + o, |c| + i) == [o[i]] + c + Remove(o, i)
  {
    assert Remove(c + o, |c| + i) == c + Remove(o, i);
  }

  /** Bringing a member to the front past members that do not have its key. */
  lemma ToFrontPast(c: seq<Member>, o: seq<Member>, k: Key, i: nat)
    requires i < |o| && IndexOf(o, k) == i && IndexOf(c + o, k) == |c| + i
    ensures ToFront(c + o, k) == [o[i]] + c + Remove(o, i)
  {
    ToFrontAt(c + o, k, |c| + i);
    MovedPast(c, o, i);
  }

  /** One step of the loop extends the layout by one key at the front. */
  lemma StepExtends(ms: seq<Member>, k: Key, ks: seq<Key>)
    requires DistinctKeys(ms) && k !in ks
    ensures ToFront(Layout(ms, ks), k) == Layout(ms, [k] + ks)
  {
    var c, o := Chosen(ms, ks), Others(ms, ks);
    forall i | 0 <= i < |c| ensures c[i].Key() != k {
      ChosenHasKeyIn(ms, ks, i);
    }
    IndexBehind(c, o, k);
    OthersHaves(ms, ks, k);
    assert ([k] + ks)[1..] == ks;
    if Has(ms, k) {
      ToFrontPast(c, o, k, IndexOf(o, k));
      RemovedFromOthers(ms, k, ks);
    } else {
      OthersWithout(ms, k, ks);
    }
  }

  lemma {:induction false} OthersNone(ms: seq<Member>)
    ensures Others(ms, []) == ms
  {
    if ms != [] {
      OthersNone(ms[1..]);
      assert ms == [ms[0]] + ms[1..];
    }
  }

  lemma {:induction false} OthersTwice(ms: seq<Member>, ks: seq<Key>, k: Key)
    ensures Others(Others(ms, ks), [k] + []) == Others(ms, [k] + ks)
  {
    if ms != [] {
      OthersTwice(ms[1..], ks, k);
      if ms[0].Key() !in ks {
        assert Others(ms, ks) == [ms[0]] + Others(ms[1..], ks);
        assert ([ms[0]] + Others(ms[1..], ks))[1..] == Others(ms[1..], ks);
      }
    }
  }

  /** The loops produce the layout: interface members first, the rest in their old order. */
  lemma {:induction false} ReorderedIsLayout(ms: seq<Member>, ks: seq<Key>)
    requires DistinctKeys(ms) && Distinct(ks)
    ensures Reordered(ms, ks) == Layout(ms, ks)
  {
    if ks == [] {
      OthersNone(ms);
      assert [] + ms == ms;
    } else {
      assert ks[0] !in ks[1..];
      ReorderedIsLayout(ms, ks[1..]);
      StepExtends(ms, ks[0], ks[1..]);
      assert [ks[0]] + ks[1..] == ks;
    }
  }

  /** No member is lost or duplicated, whatever the keys. */
  lemma {:induction false} ReorderConserves(ms: seq<Member>, ks: seq<Key>)
    ensures multiset(Reordered(ms, ks)) == multiset(ms)
  {
    if ks != [] {
      ReorderConserves(ms, ks[1..]);
      ToFrontConserves(Reordered(ms, ks[1..]), ks[0]);
    }
  }

  lemma ToFrontConserves(ms: seq<Member>, k: Key)
    ensures multiset(ToFront(ms, k)) == multiset(ms)
  {
    if Has(ms, k) {
      var i := IndexOf(ms, k);
      assert ms == ms[..i] + ([ms[i]] + ms[i + 1..]);
    }
  }

  /** The interface layout is a prefix of the class layout, provided the class has all its members. */
  lemma InterfaceIsPrefix(ms: seq<Member>, ks: seq<Key>)
    requires DistinctKeys(ms) && Distinct(ks)
    ensures Present(ms, ks) <= Keys(Reordered(ms, ks))
    ensures (forall i :: 0 <= i < |ks| ==> Has(ms, ks[i])) ==> ks <= Keys(Reordered(ms, ks))
  {
    ReorderedIsLayout(ms, ks);
    KeysAppend(Chosen(ms, ks), Others(ms, ks));
    ChosenKeys(ms, ks);
    if forall i :: 0 <= i < |ks| ==> Has(ms, ks[i]) {
      PresentAll(ms, ks);
    }
  }

  // ----- the class type -----

  predicate Optional(m: Member) {
    match m
    case OfField(f) => f.optional
    case OfMethod(m) => m.optional
  }

  /**
   Whether a class keeps its interface: an optional interface field must be an
   optional field of the class, an optional method a mandatory one.
   */
  predicate Keeps(fields: seq<Member>, methods: seq<Member>, infcFields: seq<Member>, infcMethods: seq<Member>) {
    && (forall i :: 0 <= i < |infcFields| && Optional(infcFields[i]) ==>
          Has(fields, infcFields[i].Key()) && Optional(fields[IndexOf(fields, infcFields[i].Key())]))
    && (forall i :: 0 <= i < |infcMethods| && Optional(infcMethods[i]) ==>
          Has(methods, infcMethods[i].Key()) && !Optional(methods[IndexOf(methods, infcMethods[i].Key())]))
  }

  lemma {:induction false} KeyAt(ms: seq<Member>, i: nat)
    requires i < |ms|
    ensures |Keys(ms)| == |ms| && Keys(ms)[i] == ms[i].Key()
  {
    if |ms| > 1 {
      KeyAt(ms[1..], if i > 0 then i - 1 else 0);
    }
  }

  /** What the checker guarantees of `implements`: mandatory members are present. */
  predicate Implements(ms: seq<Member>, infc: seq<Member>) {
    forall i :: 0 <= i < |infc| && !Optional(infc[i]) ==> Has(ms, infc[i].Key())
  }

  /** What an interface that the class keeps lays out comes first in the class. */
  lemma MembersArePrefix(ms: seq<Member>, infc: seq<Member>)
    requires DistinctKeys(ms) && Distinct(Keys(infc)) && Implements(ms, infc)
    requires forall i :: 0 <= i < |infc| && Optional(infc[i]) ==> Has(ms, infc[i].Key())
    ensures Keys(infc) <= Keys(Reordered(ms, Keys(infc)))
  {
    var ks := Keys(infc);
    if infc != [] {
      KeyAt(infc, 0);
    }
    forall i | 0 <= i < |ks| ensures Has(ms, ks[i]) {
      KeyAt(infc, i);
    }
    InterfaceIsPrefix(ms, ks);
  }

  /** When the class keeps its interface, the interface's fields and methods are a prefix of the class's. */
  lemma KeptInterfaceIsPrefix(fields: seq<Member>, methods: seq<Member>, infcFields: seq<Member>, infcMethods: seq<Member>)
    requires DistinctKeys(fields) && Distinct(Keys(infcFields)) && Implements(fields, infcFields)
    requires DistinctKeys(methods) && Distinct(Keys(infcMethods)) && Implements(methods, infcMethods)
    requires Keeps(fields, methods, infcFields, infcMethods)
    ensures Keys(infcFields) <= Keys(Reordered(fields, Keys(infcFields)))
    ensures Keys(infcMethods) <= Keys(Reordered(methods, Keys(infcMethods)))
  {
    MembersArePrefix(fields, infcFields);
    MembersArePrefix(methods, infcMethods);
  }

  predicate AllFields(ms: seq<Member>) { forall i :: 0 <= i < |ms| ==> ms[i].OfField? }

  predicate AllMethods(ms: seq<Member>) { forall i :: 0 <= i < |ms| ==> ms[i].OfMethod? }

  /** The class has an optional field of the name. */
  predicate HasOptionalField(fields: seq<Member>, name: string)
    requires AllFields(fields)
  {
    exists j :: 0 <= j < |fields| && fields[j].f.name == name && fields[j].f.optional
  }

  /** The class has a mandatory method of the name and kind. */
  predicate HasMandatoryMethod(methods: seq<Member>, name: string, kind: FunctionKind)
    requires AllMethods(methods)
  {
    exists j :: 0 <= j < |methods| && methods[j].m.name == name && methods[j].m.kind == kind && !methods[j].m.optional
  }

  lemma HasAt(ms: seq<Member>, k: Key, j: nat)
    requires DistinctKeys(ms) && j < |ms| && ms[j].Key() == k
    ensures IndexOf(ms, k) == j
  {
    assert forall i :: 0 <= i < j ==> ms[i].Key() != ms[j].Key();
  }

  /** When a class keeps its interface, by the names, kinds and optionality of the members. */
  lemma KeepsIff(fields: seq<Member>, methods: seq<Member>, infcFields: seq<Member>, infcMethods: seq<Member>)
    requires AllFields(fields) && AllFields(infcFields) && AllMethods(methods) && AllMethods(infcMethods)
    requires DistinctKeys(fields) && DistinctKeys(methods)
    ensures Keeps(fields, methods, infcFields, infcMethods) <==>
            && (forall i :: 0 <= i < |infcFields| && infcFields[i].f.optional ==> HasOptionalField(fields, infcFields[i].f.name))
            && (forall i :: 0 <= i < |infcMethods| && infcMethods[i].m.optional ==>
                  HasMandatoryMethod(methods, infcMethods[i].m.name, infcMethods[i].m.kind))
  {
    forall i | 0 <= i < |infcFields|
      ensures HasOptionalField(fields, infcFields[i].f.name) <==>
              Has(fields, infcFields[i].Key()) && Optional(fields[IndexOf(fields, infcFields[i].Key())])
    {
      if j :| 0 <= j < |fields| && fields[j].f.name == infcFields[i].f.name && fields[j].f.optional {
        HasAt(fields, infcFields[i].Key(), j);
      }
    }
    forall i | 0 <= i < |infcMethods|
      ensures HasMandatoryMethod(methods, infcMethods[i].m.name, infcMethods[i].m.kind) <==>
              Has(methods, infcMethods[i].Key()) && !Optional(methods[IndexOf(methods, infcMethods[i].Key())])
    {
      var m := infcMethods[i].m;
      if j :| 0 <= j < |methods| && methods[j].m.name == m.name && methods[j].m.kind == m.kind && !methods[j].m.optional {
        HasAt(methods, infcMethods[i].Key(), j);
      }
    }
  }

  /** A kept interface finds its `i`-th method, of the same name and kind, at the same place in the class. */
  lemma SameMethodAtSamePlace(fields: seq<Member>, methods: seq<Member>, infcFields: seq<Member>, infcMethods: seq<Member>, i: nat)
    requires DistinctKeys(fields) && Distinct(Keys(infcFields)) && Implements(fields, infcFields)
    requires DistinctKeys(methods) && Distinct(Keys(infcMethods)) && Implements(methods, infcMethods)
    requires Keeps(fields, methods, infcFields, infcMethods) && i < |infcMethods| && infcMethods[i].OfMethod?
    ensures var r := Reordered(methods, Keys(infcMethods));
            && i < |r| && r[i] in methods && r[i].OfMethod? && r[i].m.name == infcMethods[i].m.name && r[i].m.kind == infcMethods[i].m.kind
  {
    var r, ks := Reordered(methods, Keys(infcMethods)), Keys(infcMethods);
    KeptInterfaceIsPrefix(fields, methods, infcFields, infcMethods);
    KeyAt(infcMethods, i);
    if r != [] {
      KeyAt(r, 0);
    }
    KeyAt(r, i);
    assert Keys(r)[i] == ks[i];
    ReorderConserves(methods, ks);
    assert r[i] in multiset(r);
  }

  class ClassType {
    var fields: seq<Member>
    var memberFuncs: seq<Member>
    var implInfc: bool

    constructor (fields: seq<Member>, memberFuncs: seq<Member>)
      ensures this.fields == fields && this.memberFuncs == memberFuncs && implInfc
    {
      this.fields, this.memberFuncs, implInfc := fields, memberFuncs, true;
    }

    /** Drops the interface or moves its members to the front. */
    method ReorderMembers(infcFields: seq<Member>, infcMethods: seq<Member>)
      modifies this
      ensures implInfc == Keeps(old(fields), old(memberFuncs), infcFields, infcMethods)
      ensures fields == if implInfc then Reordered(old(fields), Keys(infcFields)) else old(fields)
      ensures memberFuncs == if implInfc then Reordered(old(memberFuncs), Keys(infcMethods)) else old(memberFuncs)
    {
      var keepsFields := CheckOptional(fields, infcFields, true);
      var keepsMethods := CheckOptional(memberFuncs, infcMethods, false);
      implInfc := keepsFields && keepsMethods;
      if implInfc {
        fields := MoveToFront(fields, Keys(infcFields));
        memberFuncs := MoveToFront(memberFuncs, Keys(infcMethods));
      }
    }
  }

  /** Looks for an optional interface member that the class lacks or has with the wrong optionality. */
  method CheckOptional(ms: seq<Member>, infc: seq<Member>, want: bool) returns (ok: bool)
    ensures ok <==> forall i :: 0 <= i < |infc| && Optional(infc[i]) ==>
                      Has(ms, infc[i].Key()) && Optional(ms[IndexOf(ms, infc[i].Key())]) == want
  {
    var i := 0;
    while i < |infc|
      invariant 0 <= i <= |infc|
      invariant forall k :: 0 <= k < i && Optional(infc[k]) ==>
                  Has(ms, infc[k].Key()) && Optional(ms[IndexOf(ms, infc[k].Key())]) == want
    {
      if Optional(infc[i]) {
        var found := IndexOf(ms, infc[i].Key());
        if found == |ms| || Optional(ms[found]) != want {
          return false;
        }
      }
      i := i + 1;
    }
    ok := true;
  }

  method MoveToFront(members: seq<Member>, ks: seq<Key>) returns (ms: seq<Member>)
    ensures ms == Reordered(members, ks)
  {
    ms := members;
    var i := |ks| - 1;
    while i >= 0
      invariant -1 <= i < |ks|
      invariant ms == Reordered(members, ks[i + 1..])
    {
      assert ks[i..][0] == ks[i] && ks[i..][1..] == ks[i + 1..];
      var index := IndexOf(ms, ks[i]);
      if index < |ms| {
        var target := ms[index];
        ms := ms[..index] + ms[index + 1..];
        ms := [target] + ms;
      }
      i := i - 1;
    }
    assert ks[0..] == ks;
  }
}
