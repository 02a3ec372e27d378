/**
 What ends up in rec groups. A loop that is closed while another one is open takes
 its place, so the class that opened the first one can be left out.
 */
module RecGroups {
  import opened Prelude
  import opened TypeIds
  import opened TypeIdAllocation
  import opened TypeIdWalk

  function Fields(cs: seq<ClassId>): seq<Field> {
    seq(|cs|, i requires 0 <= i < |cs| => Field("f", false, Class(cs[i])))
  }

  /** A class with a field for each of the given classes. */
  function Holder(cs: seq<ClassId>): ClassType { ClassType("C", false, Fields(cs), []) }

  lemma {:induction false} FieldsRefer(cs: seq<ClassId>, refs: seq<ClassId>)
    requires NoDuplicates(refs + cs)
    ensures FieldRefs(Fields(cs), refs) == refs + cs
    decreases |cs|
  {
    if cs == [] {
      assert refs + cs == refs;
    } else {
      assert (refs + cs)[|refs|] == cs[0];
      forall i | 0 <= i < |refs| ensures refs[i] != cs[0] {
        assert (refs + cs)[i] == refs[i];
      }
      assert refs + cs == (refs + [cs[0]]) + cs[1..] && Fields(cs)[1..] == Fields(cs[1..]);
      FieldsRefer(cs[1..], refs + [cs[0]]);
    }
  }

  lemma HolderRefers(cs: seq<ClassId>)
    requires NoDuplicates(cs)
    ensures ClassRefs(Holder(cs)) == cs
  {
    assert [] + cs == cs;
    FieldsRefer(cs, []);
  }

  // ----- the walk as far as groups are concerned -----

  datatype Look = Look(status: seq<Status>, entry: Option<ClassId>, groups: seq<seq<ClassId>>, cycles: set<ClassId>)

  function LookOf(a: Alloc): Look { Look(a.status, a.loopEntry, a.groups, a.cycles) }

  lemma Closes(classes: seq<ClassType>, a: Alloc, c: ClassId) returns (b: Alloc)
    requires Sized(classes, a) && c < |classes| && a.status[c] == Visited
    ensures b == Allocated(classes, a, c) && Sized(classes, b) && b.refs == a.refs
    ensures LookOf(b) == Look(a.status[c := Processed], Some(c), a.groups + [[]], a.cycles + {c})
  {
    b := CycleClosed(a, c);
  }

  lemma Ends(classes: seq<ClassType>, a: Alloc, c: ClassId) returns (b: Alloc)
    requires Sized(classes, a) && c < |classes| && a.status[c] != NotVisited
    ensures b == Concluded(classes, a, c) && Sized(classes, b) && b.refs == a.refs
    ensures LookOf(b) == Look(a.status[c := Processed], if a.loopEntry == Some(c) then None else a.loopEntry,
                              if a.loopEntry.Some? then a.groups[|a.groups| - 1 := a.groups[|a.groups| - 1] + [c]] else a.groups,
                              a.cycles)
  {
    b := Concluded(classes, a, c);
    ConcludedShrinks(classes, a, c);
  }

  lemma Begins(classes: seq<ClassType>, a: Alloc, c: ClassId) returns (b: Alloc)
    requires Sized(classes, a) && c < |classes| && a.status[c] == NotVisited
    ensures b == Begun(a, c) && Sized(classes, b) && b.refs == a.refs
    ensures LookOf(b) == Look(a.status[c := Visited], a.loopEntry, a.groups, a.cycles)
  {
    b := Begun(a, c);
  }

  /** A visit from its begun state over its references to its end. */
  lemma Visits(classes: seq<ClassType>, a: Alloc, c: ClassId, begun: Alloc, done: Alloc, b: Alloc)
    requires Sized(classes, a) && c < |classes| && a.status[c] == NotVisited && begun == Begun(a, c) && Sized(classes, begun)
    requires done == RefsAllocated(classes, begun, Refs(a.refs, c)) && b == Concluded(classes, done, c)
    ensures b == Allocated(classes, a, c)
  {
  }

  lemma OneRef(classes: seq<ClassType>, a: Alloc, c: ClassId)
    requires Sized(classes, a) && c < |classes|
    ensures RefsAllocated(classes, a, [c]) == Allocated(classes, a, c)
  {
    assert [c][1..] == [];
  }

  lemma TwoRefs(classes: seq<ClassType>, a: Alloc, c: ClassId, d: ClassId)
    requires Sized(classes, a) && c < |classes| && d < |classes|
    ensures RefsAllocated(classes, a, [c, d]) == Allocated(classes, Allocated(classes, a, c), d)
  {
    assert [c, d][1..] == [d];
    OneRef(classes, Allocated(classes, a, c), d);
  }

  /** Classes that are processed already are passed over. */
  lemma {:induction false} AllDone(classes: seq<ClassType>, a: Alloc, i: nat)
    requires Sized(classes, a) && i <= |classes| && forall c :: i <= c < |classes| ==> a.status[c] == Processed
    ensures AllAllocated(classes, a, i) == a
    decreases |classes| - i
  {
    if i < |classes| {
      AllDone(classes, a, i + 1);
    }
  }

  // ----- two classes that refer to each other -----

  function Pair(): seq<ClassType> { [Holder([1]), Holder([0])] }

  /** They make one group. */
  lemma PairIsGrouped(start: int)
    ensures Closed(Pair()) && Outcome(Pair(), start).groups == [[1, 0]]
  {
    PairRefs();
    StartLook(Pair(), start);
    var b := PairRuns(Pair(), Started(Pair(), start, AllRefs(Pair())));
    AllDone(Pair(), b, 1);
  }

  lemma PairRefs()
    ensures Closed(Pair()) && AllRefs(Pair()) == map[0 := [1], 1 := [0]]
  {
    HolderRefers([0]);
    HolderRefers([1]);
  }

  lemma PairRuns(classes: seq<ClassType>, a: Alloc) returns (b: Alloc)
    requires |classes| == 2 && Sized(classes, a) && LookOf(a) == Look([NotVisited, NotVisited], None, [], {})
    requires Refs(a.refs, 0) == [1] && Refs(a.refs, 1) == [0]
    ensures b == Allocated(classes, a, 0) && Sized(classes, b)
    ensures LookOf(b) == Look([Processed, Processed], None, [[1, 0]], {0})
  {
    var s1 := Begins(classes, a, 0);
    var s2 := Begins(classes, s1, 1);
    var s3 := Closes(classes, s2, 0);
    var s4 := Ends(classes, s3, 1);
    OneRef(classes, s2, 0);
    Visits(classes, s1, 1, s2, s3, s4);
    b := Ends(classes, s4, 0);
    OneRef(classes, s1, 1);
    Visits(classes, a, 0, s1, s4, b);
    assert s3.groups == [[]] && s4.groups[0] == [1] && b.groups[0] == [1, 0];
    assert b.groups == [[1, 0]];
    assert b.status == [Processed, Processed] && b.cycles == {0};
  }

  // ----- a loop inside a loop -----

  /** The first class refers to the second, that one to the third, and the third to both. */
  function Nest(): seq<ClassType> { [Holder([1]), Holder([2]), Holder([0, 1])] }

  /**
   The first class closes a loop, the second one another, and when that ends none is open:
   the first class lies on a cycle and joins no group.
   */
  lemma OuterLoopIsLost(start: int)
    ensures Closed(Nest())
    ensures var b := Outcome(Nest(), start);
            b.groups == [[], [2, 1]] && b.cycles == {0, 1} && 0 !in Flatten(b.groups) && OnCycle(b.refs, 0)
  {
    NestRefs();
    StartLook(Nest(), start);
    var b := NestRuns(Nest(), Started(Nest(), start, AllRefs(Nest())));
    AllDone(Nest(), b, 1);
    NestGroups();
    NestIsCyclic(b.refs);
  }

  lemma NestRefs()
    ensures Closed(Nest()) && AllRefs(Nest()) == map[0 := [1], 1 := [2], 2 := [0, 1]]
  {
    HolderRefers([1]);
    HolderRefers([2]);
    HolderRefers([0, 1]);
  }

  lemma StartLook(classes: seq<ClassType>, start: int)
    requires Closed(classes)
    ensures var a := Started(classes, start, AllRefs(classes));
            && Sized(classes, a) && a.refs == AllRefs(classes)
            && LookOf(a) == Look(seq(|classes|, _ => NotVisited), None, [], {})
  {
  }

  lemma NestGroups()
    ensures Flatten([[], [2, 1]]) == [2, 1]
  {
    var groups: seq<seq<ClassId>> := [[], [2, 1]];
    var first: seq<seq<ClassId>> := [[]];
    assert groups[..1] == first && first[..0] == [];
    assert Flatten(first) == [];
  }

  lemma NestIsCyclic(refs: map<ClassId, seq<ClassId>>)
    requires refs.Keys == {0, 1, 2} && refs[0] == [1] && refs[1] == [2] && refs[2] == [0, 1]
    ensures OnCycle(refs, 0)
  {
    assert IsCycle(refs, [0, 1, 2, 0], 0);
  }

  lemma NestRuns(classes: seq<ClassType>, a: Alloc) returns (b: Alloc)
    requires |classes| == 3 && Sized(classes, a) && LookOf(a) == Look([NotVisited, NotVisited, NotVisited], None, [], {})
    requires Refs(a.refs, 0) == [1] && Refs(a.refs, 1) == [2] && Refs(a.refs, 2) == [0, 1]
    ensures b == Allocated(classes, a, 0) && Sized(classes, b) && b.refs == a.refs
    ensures LookOf(b) == Look([Processed, Processed, Processed], None, [[], [2, 1]], {0, 1})
  {
    var s1 := Begins(classes, a, 0);
    var s2 := Begins(classes, s1, 1);
    assert s2.status == [Visited, Visited, NotVisited];
    var s6 := InnerRuns(classes, s2);
    OneRef(classes, s2, 2);
    var s7 := Ends(classes, s6, 1);
    Visits(classes, s1, 1, s2, s6, s7);
    OneRef(classes, s1, 1);
    b := Ends(classes, s7, 0);
    Visits(classes, a, 0, s1, s7, b);
    assert s7.groups[1] == [2, 1] && s7.groups[0] == [];
    assert s7.groups == [[], [2, 1]] && b.status == [Processed, Processed, Processed];
  }

  lemma InnerRuns(classes: seq<ClassType>, a: Alloc) returns (b: Alloc)
    requires |classes| == 3 && Sized(classes, a) && LookOf(a) == Look([Visited, Visited, NotVisited], None, [], {})
    requires Refs(a.refs, 2) == [0, 1]
    ensures b == Allocated(classes, a, 2) && Sized(classes, b) && b.refs == a.refs
    ensures LookOf(b) == Look([Processed, Processed, Processed], Some(1), [[], [2]], {0, 1})
  {
    var s3 := Begins(classes, a, 2);
    var s4 := Closes(classes, s3, 0);
    var s5 := Closes(classes, s4, 1);
    TwoRefs(classes, s3, 0, 1);
    b := Ends(classes, s5, 2);
    Visits(classes, a, 2, s3, s5, b);
    assert s4.groups == [[]] && s5.groups == [[], []] && b.groups[1] == [2] && b.groups[0] == [];
    assert b.groups == [[], [2]];
    assert b.status == [Processed, Processed, Processed] && b.cycles == {0, 1};
  }
}
