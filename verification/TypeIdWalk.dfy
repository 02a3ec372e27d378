/**
 The recursive walk that hands out type ids: which classes take the cycle branch,
 in what order ids are given, and which classes end up in rec groups.
 */
module TypeIdWalk {
  import opened Prelude
  import opened TypeIds
  import opened TypeIdAllocation

  // ----- the walk as a function on allocator states -----

  /** What the walk needs to be defined. */
  ghost predicate Sized(classes: seq<ClassType>, a: Alloc) {
    && |a.status| == |a.ids| == |a.names| == |classes| && RefsInRange(a.refs, |classes|)
    && (a.loopEntry.Some? ==> a.groups != [])
  }

  function Unvisited(status: seq<Status>): set<ClassId> {
    set c | 0 <= c < |status| && status[c] == NotVisited
  }

  ghost function Allocated(classes: seq<ClassType>, a: Alloc, c: ClassId): (b: Alloc)
    requires Sized(classes, a) && c < |classes|
    ensures Sized(classes, b) && b.refs == a.refs && Unvisited(b.status) <= Unvisited(a.status)
    decreases Unvisited(a.status), 0, 0
  {
    if a.status[c] == Processed then a
    else if a.status[c] == Visited then CycleClosed(a, c)
    else
      BegunShrinks(a, c);
      ConcludedShrinks(classes, RefsAllocated(classes, Begun(a, c), Refs(a.refs, c)), c);
      Concluded(classes, RefsAllocated(classes, Begun(a, c), Refs(a.refs, c)), c)
  }

  /** The references of a class in turn. */
  ghost function RefsAllocated(classes: seq<ClassType>, a: Alloc, refs: seq<ClassId>): (b: Alloc)
    requires Sized(classes, a) && forall i :: 0 <= i < |refs| ==> refs[i] < |classes|
    ensures Sized(classes, b) && b.refs == a.refs && Unvisited(b.status) <= Unvisited(a.status)
    decreases Unvisited(a.status), 1, |refs|
  {
    if refs == [] then a else RefsAllocated(classes, Allocated(classes, a, refs[0]), refs[1..])
  }

  lemma BegunShrinks(a: Alloc, c: ClassId)
    requires c < |a.status| && a.status[c] == NotVisited
    ensures Unvisited(Begun(a, c).status) < Unvisited(a.status)
  {
    assert c in Unvisited(a.status) && c !in Unvisited(Begun(a, c).status);
  }

  lemma ConcludedShrinks(classes: seq<ClassType>, a: Alloc, c: ClassId)
    requires Sized(classes, a) && c < |classes|
    ensures Sized(classes, Concluded(classes, a, c)) && Concluded(classes, a, c).refs == a.refs
    ensures Unvisited(Concluded(classes, a, c).status) <= Unvisited(a.status)
  {
  }

  /** Every class in turn, from class `i` on. */
  ghost function AllAllocated(classes: seq<ClassType>, a: Alloc, i: nat): (b: Alloc)
    requires Sized(classes, a) && i <= |classes|
    ensures Sized(classes, b) && b.refs == a.refs
    decreases |classes| - i
  {
    if i == |classes| then a else AllAllocated(classes, Allocated(classes, a, i), i + 1)
  }

  // ----- progress -----

  lemma {:induction false} AllocatedGrows(classes: seq<ClassType>, a: Alloc, c: ClassId)
    requires Sized(classes, a) && c < |classes|
    ensures var b := Allocated(classes, a, c); Grown(a.status, a.ids, b.status, b.ids) && b.status[c] == Processed
    decreases Unvisited(a.status), 0, 0
  {
    if a.status[c] == NotVisited {
      var begun := Begun(a, c);
      BegunShrinks(a, c);
      var b := RefsAllocated(classes, begun, Refs(a.refs, c));
      RefsAllocatedGrow(classes, begun, Refs(a.refs, c));
      var d := Concluded(classes, b, c);
      ConcludedGrows(classes, b, c);
      GrownTransitive(begun.status, begun.ids, b.status, b.ids, d.status, d.ids);
      GrownVisit(a.status, a.ids, c, d.status, d.ids);
    }
  }

  lemma ConcludedGrows(classes: seq<ClassType>, a: Alloc, c: ClassId)
    requires Sized(classes, a) && c < |classes| && a.status[c] != NotVisited
    ensures var b := Concluded(classes, a, c); Grown(a.status, a.ids, b.status, b.ids) && b.status[c] == Processed
  {
  }

  lemma {:induction false} RefsAllocatedGrow(classes: seq<ClassType>, a: Alloc, refs: seq<ClassId>)
    requires Sized(classes, a) && forall i :: 0 <= i < |refs| ==> refs[i] < |classes|
    ensures var b := RefsAllocated(classes, a, refs); Grown(a.status, a.ids, b.status, b.ids) && AllProcessed(refs, b.status)
    decreases Unvisited(a.status), 1, |refs|
  {
    if refs != [] {
      var b := Allocated(classes, a, refs[0]);
      var d := RefsAllocated(classes, b, refs[1..]);
      AllocatedGrows(classes, a, refs[0]);
      RefsAllocatedGrow(classes, b, refs[1..]);
      GrownTransitive(a.status, a.ids, b.status, b.ids, d.status, d.ids);
      forall i | 0 <= i < |refs| ensures d.status[refs[i]] == Processed {
        assert i > 0 ==> refs[i] == refs[1..][i - 1];
      }
    }
  }

  /** Progress since a class was coloured, up to its end, is progress since before it was. */
  lemma GrownVisit(s0: seq<Status>, ids0: seq<int>, c: ClassId, s1: seq<Status>, ids1: seq<int>)
    requires c < |s0| && s0[c] == NotVisited && Grown(s0[c := Visited], ids0, s1, ids1) && s1[c] == Processed
    ensures Grown(s0, ids0, s1, ids1)
  {
  }

  lemma GrownTransitive(s0: seq<Status>, ids0: seq<int>, s1: seq<Status>, ids1: seq<int>, s2: seq<Status>, ids2: seq<int>)
    requires Grown(s0, ids0, s1, ids1) && Grown(s1, ids1, s2, ids2)
    ensures Grown(s0, ids0, s2, ids2)
  {
  }

  // ----- ids, shapes, finished classes -----

  lemma {:induction false} AllocatedKeeps(classes: seq<ClassType>, start: int, a: Alloc, c: ClassId, stack: set<ClassId>)
    requires Sized(classes, a) && c < |classes| && Inv(classes, start, a) && OnStack(a, stack)
    ensures var b := Allocated(classes, a, c);
            Inv(classes, start, b) && OnStack(b, stack) && a.finished <= b.finished && (c !in stack ==> c in b.finished)
    decreases Unvisited(a.status), 0, 0
  {
    if a.status[c] == Visited {
      CycleKeeps(classes, start, a, stack, c);
    } else if a.status[c] == NotVisited {
      var begun, refs := Begun(a, c), Refs(a.refs, c);
      BegunShrinks(a, c);
      BeginKeeps(classes, start, a, stack, c);
      RefsAllocatedKeep(classes, start, begun, refs, stack + {c});
      RefsAllocatedGrow(classes, begun, refs);
      var b := RefsAllocated(classes, begun, refs);
      assert Concludes(classes, start, b, Concluded(classes, b, c), stack, c) by {
        ConcludeKeeps(classes, start, b, stack, c);
      }
    }
  }

  lemma {:induction false} RefsAllocatedKeep(classes: seq<ClassType>, start: int, a: Alloc, refs: seq<ClassId>, stack: set<ClassId>)
    requires Sized(classes, a) && (forall i :: 0 <= i < |refs| ==> refs[i] < |classes|)
    requires Inv(classes, start, a) && OnStack(a, stack)
    ensures var b := RefsAllocated(classes, a, refs); Inv(classes, start, b) && OnStack(b, stack) && a.finished <= b.finished
    decreases Unvisited(a.status), 1, |refs|
  {
    if refs != [] {
      AllocatedKeeps(classes, start, a, refs[0], stack);
      RefsAllocatedKeep(classes, start, Allocated(classes, a, refs[0]), refs[1..], stack);
    }
  }

  // ----- the branches taken -----

  /** A path of references leads from the class back to it. */
  ghost predicate OnCycle(refs: map<ClassId, seq<ClassId>>, c: ClassId) {
    exists p :: IsCycle(refs, p, c)
  }

  predicate IsCycle(refs: map<ClassId, seq<ClassId>>, p: seq<ClassId>, c: ClassId) {
    |p| >= 2 && p[0] == c && p[|p| - 1] == c && Path(refs, p)
  }

  ghost predicate CyclesAreCyclic(refs: map<ClassId, seq<ClassId>>, cycles: set<ClassId>) {
    forall c :: c in cycles ==> OnCycle(refs, c)
  }

  predicate AllIn(refs: seq<ClassId>, done: seq<ClassId>) {
    forall k :: 0 <= k < |refs| ==> refs[k] in done
  }

  /** Classes of the shape branch got their ids after their references. */
  ghost predicate OrderOk(order: seq<ClassId>, refs: map<ClassId, seq<ClassId>>, status: seq<Status>, shapes: map<ClassId, string>) {
    && NoDuplicates(order)
    && (forall c :: c in order <==> 0 <= c < |status| && status[c] == Processed)
    && (forall i {:trigger order[i]} :: 0 <= i < |order| && order[i] in shapes ==> AllIn(Refs(refs, order[i]), order[..i]))
  }

  /**
   There is a rec group for every class of the cycle branch. An open loop belongs to such a class, and when none
   is open the last group ends with one.
   */
  predicate LoopsOk(loopEntry: Option<ClassId>, groups: seq<seq<ClassId>>, cycles: set<ClassId>) {
    && |groups| == |cycles|
    && (loopEntry.Some? ==> loopEntry.value in cycles)
    && (loopEntry.None? && groups != [] ==> EndsIn(groups[|groups| - 1], cycles))
  }

  predicate EndsIn(group: seq<ClassId>, cycles: set<ClassId>) {
    group != [] && group[|group| - 1] in cycles
  }

  /** Which branch a class takes, in what order, and that ids are handed out without gaps. */
  ghost predicate HistoryInv(start: int, a: Alloc) {
    && CyclesAreCyclic(a.refs, a.cycles)
    && OrderOk(a.order, a.refs, a.status, a.shapes)
    && (forall c :: c in a.cycles || c in a.shapes ==> c in a.order)
    && LoopsOk(a.loopEntry, a.groups, a.cycles)
    && a.next == start + 2 * (|a.table| + |a.cycles|)
  }

  lemma OrderBegins(order: seq<ClassId>, refs: map<ClassId, seq<ClassId>>, status: seq<Status>, shapes: map<ClassId, string>, c: ClassId)
    requires OrderOk(order, refs, status, shapes) && c < |status| && status[c] == NotVisited
    ensures OrderOk(order, refs, status[c := Visited], shapes)
  {
  }

  lemma OrderGrows(order: seq<ClassId>, refs: map<ClassId, seq<ClassId>>, status: seq<Status>, shapes: map<ClassId, string>,
                   shapes': map<ClassId, string>, c: ClassId)
    requires OrderOk(order, refs, status, shapes) && c < |status| && status[c] != Processed
    requires c in shapes' ==> AllProcessed(Refs(refs, c), status)
    requires forall d :: d in order ==> (d in shapes' <==> d in shapes)
    ensures OrderOk(order + [c], refs, status[c := Processed], shapes')
  {
    var next := order + [c];
    forall i {:trigger next[i]} | 0 <= i < |next| && next[i] in shapes' ensures AllIn(Refs(refs, next[i]), next[..i]) {
      if i < |order| {
        assert next[..i] == order[..i] && order[i] in order;
      } else {
        assert next[..i] == order;
      }
    }
  }

  lemma CycleKeepsHistory(start: int, a: Alloc, c: ClassId)
    requires HistoryInv(start, a) && c < |a.status| == |a.ids| == |a.names| && a.status[c] == Visited && OnCycle(a.refs, c)
    ensures HistoryInv(start, CycleClosed(a, c))
  {
    assert c !in a.order;
    OrderGrows(a.order, a.refs, a.status, a.shapes, a.shapes, c);
  }

  lemma ConcludeKeepsHistory(classes: seq<ClassType>, start: int, a: Alloc, c: ClassId)
    requires HistoryInv(start, a) && Sized(classes, a) && c < |classes| && AllProcessed(Refs(a.refs, c), a.status)
    ensures HistoryInv(start, Concluded(classes, a, c))
  {
    if a.status[c] == Visited {
      ShapeKeepsHistory(start, a, c, ShapeNow(classes, a, c));
      EndKeepsHistory(start, ShapeAssigned(a, c, ShapeNow(classes, a, c)), c);
    } else {
      EndKeepsHistory(start, a, c);
    }
  }

  lemma ShapeKeepsHistory(start: int, a: Alloc, c: ClassId, shape: string)
    requires HistoryInv(start, a) && c < |a.status| == |a.ids| == |a.names| && a.status[c] == Visited
    requires AllProcessed(Refs(a.refs, c), a.status)
    ensures HistoryInv(start, ShapeAssigned(a, c, shape))
  {
    assert c !in a.order;
    OrderGrows(a.order, a.refs, a.status, a.shapes, a.shapes[c := shape], c);
  }

  lemma EndKeepsHistory(start: int, a: Alloc, c: ClassId)
    requires HistoryInv(start, a) && (a.loopEntry.Some? ==> a.groups != [])
    ensures HistoryInv(start, Ended(a, c))
  {
  }

  /** The classes being visited lie on the path. */
  ghost predicate OnPath(status: seq<Status>, path: seq<ClassId>) {
    forall c :: 0 <= c < |status| && status[c] == Visited ==> c in path
  }

  lemma AllInTail(refs: seq<ClassId>, done: seq<ClassId>)
    requires refs != [] && AllIn(refs, done)
    ensures refs[0] in done && AllIn(refs[1..], done)
  {
  }

  lemma OnPathStays(s0: seq<Status>, ids0: seq<int>, s1: seq<Status>, ids1: seq<int>, path: seq<ClassId>)
    requires OnPath(s0, path) && Grown(s0, ids0, s1, ids1)
    ensures OnPath(s1, path)
  {
  }

  /** A class met again while it is on the path lies on a cycle. */
  lemma PathCloses(refs: map<ClassId, seq<ClassId>>, path: seq<ClassId>, c: ClassId)
    requires Path(refs, path + [c]) && c in path
    ensures OnCycle(refs, c)
  {
    var i :| 0 <= i < |path| && path[i] == c;
    var p := (path + [c])[i..];
    forall k | 0 <= k < |p| - 1 ensures p[k] in refs && p[k + 1] in refs[p[k]] {
      assert (path + [c])[i + k] == p[k] && (path + [c])[i + k + 1] == p[k + 1];
    }
    assert IsCycle(refs, p, c);
  }

  /** `path` leads from a root to `c` through the classes that are being visited. */
  lemma {:induction false} AllocatedHistory(classes: seq<ClassType>, start: int, a: Alloc, c: ClassId, path: seq<ClassId>)
    requires Sized(classes, a) && c < |classes| && HistoryInv(start, a)
    requires OnPath(a.status, path) && Path(a.refs, path + [c])
    ensures HistoryInv(start, Allocated(classes, a, c))
    decreases Unvisited(a.status), 0, 0
  {
    if a.status[c] == Visited {
      PathCloses(a.refs, path, c);
      CycleKeepsHistory(start, a, c);
    } else if a.status[c] == NotVisited {
      var begun, refs := Begun(a, c), Refs(a.refs, c);
      BegunShrinks(a, c);
      OrderBegins(a.order, a.refs, a.status, a.shapes, c);
      RefsAllocatedHistory(classes, start, begun, refs, path + [c]);
      RefsAllocatedGrow(classes, begun, refs);
      ConcludeKeepsHistory(classes, start, RefsAllocated(classes, begun, refs), c);
    }
  }

  /** One reference of the last class of the path. */
  lemma {:induction false} OneRefHistory(classes: seq<ClassType>, start: int, a: Alloc, c: ClassId, path: seq<ClassId>)
    requires Sized(classes, a) && c < |classes| && HistoryInv(start, a)
    requires OnPath(a.status, path) && path != [] && Path(a.refs, path) && c in Refs(a.refs, path[|path| - 1])
    ensures HistoryInv(start, Allocated(classes, a, c)) && OnPath(Allocated(classes, a, c).status, path)
    decreases Unvisited(a.status), 0, 1
  {
    var b := Allocated(classes, a, c);
    AllocatedHistory(classes, start, a, c, path);
    AllocatedGrows(classes, a, c);
    OnPathStays(a.status, a.ids, b.status, b.ids, path);
  }

  lemma {:induction false} RefsAllocatedHistory(classes: seq<ClassType>, start: int, a: Alloc, refs: seq<ClassId>, path: seq<ClassId>)
    requires Sized(classes, a) && (forall i :: 0 <= i < |refs| ==> refs[i] < |classes|) && HistoryInv(start, a)
    requires OnPath(a.status, path) && path != [] && Path(a.refs, path)
    requires AllIn(refs, Refs(a.refs, path[|path| - 1]))
    ensures HistoryInv(start, RefsAllocated(classes, a, refs))
    decreases Unvisited(a.status), 1, |refs|
  {
    if refs != [] {
      var b := Allocated(classes, a, refs[0]);
      AllInTail(refs, Refs(a.refs, path[|path| - 1]));
      OneRefHistory(classes, start, a, refs[0], path);
      assert RefsAllocated(classes, a, refs) == RefsAllocated(classes, b, refs[1..]);
      assert HistoryInv(start, RefsAllocated(classes, b, refs[1..])) by {
        RefsAllocatedHistory(classes, start, b, refs[1..], path);
      }
    }
  }

  /** Every cycle of references between processed classes holds a class of the cycle branch. */
  lemma {:induction false} CycleIsEntered(start: int, a: Alloc, c: ClassId, p: seq<ClassId>)
    requires HistoryInv(start, a) && IsCycle(a.refs, p, c)
    requires forall i :: 0 <= i < |p| ==> p[i] in a.order && (p[i] in a.shapes || p[i] in a.cycles)
    ensures exists i :: 0 <= i < |p| && p[i] in a.cycles
  {
    if forall i :: 0 <= i < |p| ==> p[i] !in a.cycles {
      var i :| 0 <= i < |a.order| && a.order[i] == c;
      var j := EarlierOnPath(start, a, p, i);
    }
  }

  /** Along a path of the shape branch ids were given later and later. */
  lemma {:induction false} EarlierOnPath(start: int, a: Alloc, p: seq<ClassId>, i: nat) returns (j: nat)
    requires HistoryInv(start, a) && |p| >= 2 && Path(a.refs, p) && i < |a.order| && a.order[i] == p[0]
    requires forall k :: 0 <= k < |p| ==> p[k] in a.shapes
    ensures j < i && a.order[j] == p[|p| - 1]
  {
    assert a.order[i] in a.shapes && AllIn(Refs(a.refs, p[0]), a.order[..i]);
    assert p[1] in a.refs[p[0]];
    j :| 0 <= j < i && a.order[..i][j] == p[1];
    if |p| > 2 {
      assert Path(a.refs, p[1..]) by {
        forall k | 0 <= k < |p[1..]| - 1 ensures p[1..][k] in a.refs && p[1..][k + 1] in a.refs[p[1..][k]] {
          assert p[k + 1] in a.refs && p[k + 2] in a.refs[p[k + 1]];
        }
      }
      j := EarlierOnPath(start, a, p[1..], j);
    }
  }

  /** Once all classes are processed: there is a class of the cycle branch exactly when there is a cycle. */
  lemma SomeCycleIff(classes: seq<ClassType>, start: int, a: Alloc)
    requires HistoryInv(start, a) && Inv(classes, start, a) && forall c :: 0 <= c < |classes| ==> a.status[c] == Processed
    requires forall c :: c in a.refs ==> c < |classes|
    ensures a.cycles != {} <==> exists c :: OnCycle(a.refs, c)
  {
    if a.cycles != {} {
      var c :| c in a.cycles;
      assert OnCycle(a.refs, c);
    }
    if c :| OnCycle(a.refs, c) {
      var p :| IsCycle(a.refs, p, c);
      forall i | 0 <= i < |p| ensures p[i] in a.order && (p[i] in a.shapes || p[i] in a.cycles) {
        assert i < |p| - 1 ==> p[i] in a.refs;
        assert p[0] in a.refs;
      }
      CycleIsEntered(start, a, c, p);
    }
  }

  /** Classes on no cycle, whose shapes rest on their references, share an id exactly when they have one shape. */
  lemma SharedIdIffAcyclic(classes: seq<ClassType>, start: int, a: Alloc, c: ClassId, d: ClassId)
    requires Inv(classes, start, a) && HistoryInv(start, a) && Complete(classes, a.refs)
    requires c < |classes| && d < |classes| && c != d && a.status[c] == Processed && a.status[d] == Processed
    requires Guarded(classes[c], classes) && Guarded(classes[d], classes) && !OnCycle(a.refs, c) && !OnCycle(a.refs, d)
    ensures a.ids[c] == a.ids[d] <==> ShapeNow(classes, a, c) == ShapeNow(classes, a, d)
  {
    SharedIdIffSameShape(classes, start, a, c, d);
  }

  // ----- rec groups -----

  /** A class joins a rec group exactly when a loop is open at the end of its visit. */
  lemma JoinsIffOpen(a: Alloc, c: ClassId)
    requires (a.loopEntry.Some? ==> a.groups != []) && GroupsOk(a.groups, a.finished) && c !in a.finished
    ensures Flatten(a.groups) <= Flatten(Ended(a, c).groups)
    ensures c in Flatten(Ended(a, c).groups) <==> a.loopEntry.Some?
  {
    if a.loopEntry.Some? {
      FlattenPush(a.groups, c);
    }
  }

  lemma {:induction false} AllocatedJoins(classes: seq<ClassType>, a: Alloc, c: ClassId)
    requires Sized(classes, a) && c < |classes|
    ensures var b := Allocated(classes, a, c);
            && Flatten(a.groups) <= Flatten(b.groups)
            && (a.status[c] == NotVisited && b.loopEntry.Some? ==> c in Flatten(b.groups))
    decreases Unvisited(a.status), 0, 0
  {
    if a.status[c] == Visited {
      FlattenNewGroup(a.groups);
    } else if a.status[c] == NotVisited {
      var begun, refs := Begun(a, c), Refs(a.refs, c);
      BegunShrinks(a, c);
      RefsAllocatedJoin(classes, begun, refs);
      ConcludedJoins(classes, RefsAllocated(classes, begun, refs), c);
    }
  }

  lemma ConcludedJoins(classes: seq<ClassType>, a: Alloc, c: ClassId)
    requires Sized(classes, a) && c < |classes|
    ensures var b := Concluded(classes, a, c);
            Flatten(a.groups) <= Flatten(b.groups) && (b.loopEntry.Some? ==> c in Flatten(b.groups))
  {
    var b := Concluded(classes, a, c);
    if a.loopEntry.Some? {
      FlattenPush(a.groups, c);
      var last := |a.groups| - 1;
      assert b.groups == a.groups[last := a.groups[last] + [c]];
    } else {
      assert b.groups == a.groups && b.loopEntry == None;
    }
  }

  lemma {:induction false} RefsAllocatedJoin(classes: seq<ClassType>, a: Alloc, refs: seq<ClassId>)
    requires Sized(classes, a) && forall i :: 0 <= i < |refs| ==> refs[i] < |classes|
    ensures Flatten(a.groups) <= Flatten(RefsAllocated(classes, a, refs).groups)
    decreases Unvisited(a.status), 1, |refs|
  {
    if refs != [] {
      AllocatedJoins(classes, a, refs[0]);
      RefsAllocatedJoin(classes, Allocated(classes, a, refs[0]), refs[1..]);
    }
  }

  // ----- the whole pass -----

  /** The allocator before any class is visited. */
  function Started(classes: seq<ClassType>, start: int, refs: map<ClassId, seq<ClassId>>): Alloc {
    Alloc(refs, seq(|classes|, _ => NotVisited), seq(|classes|, _ => NO_ID), map[],
          seq(|classes|, i requires 0 <= i < |classes| => classes[i].name), start, None, [], map[], {}, {}, [])
  }

  function AllRefs(classes: seq<ClassType>): map<ClassId, seq<ClassId>> {
    map c: ClassId | c < |classes| :: ClassRefs(classes[c])
  }

  /** Members mention only classes that were collected. */
  predicate Closed(classes: seq<ClassType>) {
    forall c, i :: 0 <= c < |classes| && 0 <= i < |ClassRefs(classes[c])| ==> ClassRefs(classes[c])[i] < |classes|
  }

  lemma StartedKeeps(classes: seq<ClassType>, start: int, refs: map<ClassId, seq<ClassId>>)
    requires start >= 0 && RefsInRange(refs, |classes|)
    ensures var a := Started(classes, start, refs); Sized(classes, a) && Inv(classes, start, a) && OnStack(a, {}) && HistoryInv(start, a)
  {
  }

  lemma {:induction false} AllAllocatedKeep(classes: seq<ClassType>, start: int, a: Alloc, i: nat)
    requires Sized(classes, a) && i <= |classes| && UpTo(classes, start, a, i)
    ensures UpTo(classes, start, AllAllocated(classes, a, i), |classes|)
    decreases |classes| - i
  {
    if i < |classes| {
      var b, r := Allocated(classes, a, i), AllAllocated(classes, a, i);
      assert UpTo(classes, start, b, i + 1) by {
        OneMore(classes, start, a, i);
      }
      assert r == AllAllocated(classes, b, i + 1);
      assert UpTo(classes, start, r, |classes|) by {
        AllAllocatedKeep(classes, start, b, i + 1);
      }
    }
  }

  /** The first `n` classes are processed, and nothing is left half done. */
  ghost predicate UpTo(classes: seq<ClassType>, start: int, a: Alloc, n: nat) {
    && Inv(classes, start, a) && OnStack(a, {}) && HistoryInv(start, a)
    && n <= |a.status| && forall c :: 0 <= c < n ==> a.status[c] == Processed
  }

  lemma OneMore(classes: seq<ClassType>, start: int, a: Alloc, i: nat)
    requires Sized(classes, a) && i < |classes| && UpTo(classes, start, a, i)
    ensures UpTo(classes, start, Allocated(classes, a, i), i + 1)
  {
    assert OnPath(a.status, []);
    AllocatedKeeps(classes, start, a, i, {});
    AllocatedHistory(classes, start, a, i, []);
    AllocatedGrows(classes, a, i);
  }

  lemma {:induction false} AllAllocatedGrow(classes: seq<ClassType>, a: Alloc, i: nat)
    requires Sized(classes, a) && i <= |classes|
    ensures var b := AllAllocated(classes, a, i); Grown(a.status, a.ids, b.status, b.ids)
    decreases |classes| - i
  {
    if i < |classes| {
      var b := Allocated(classes, a, i);
      var d := AllAllocated(classes, b, i + 1);
      AllocatedGrows(classes, a, i);
      AllAllocatedGrow(classes, b, i + 1);
      GrownTransitive(a.status, a.ids, b.status, b.ids, d.status, d.ids);
    }
  }

  ghost function Outcome(classes: seq<ClassType>, start: int): (b: Alloc)
    requires Closed(classes)
    ensures Sized(classes, b) && b.refs == AllRefs(classes)
  {
    AllAllocated(classes, Started(classes, start, AllRefs(classes)), 0)
  }

  /**
   The outcome of the pass. Classes of the cycle branch lie on cycles, so every class on no cycle took the shape branch;
   and there is a cycle only if some class took the cycle branch.
   */
  lemma PassOutcome(classes: seq<ClassType>, start: int)
    requires start >= 0 && Closed(classes)
    ensures var b := Outcome(classes, start);
            && Inv(classes, start, b) && OnStack(b, {}) && HistoryInv(start, b) && Complete(classes, b.refs) && b.loopEntry == None
            && (forall c :: 0 <= c < |classes| ==> b.status[c] == Processed && b.ids[c] != NO_ID)
            && (forall c :: 0 <= c < |classes| && !OnCycle(b.refs, c) ==> c in b.shapes)
            && (b.cycles == {} <==> forall c :: !OnCycle(b.refs, c))
  {
    var a, b := Started(classes, start, AllRefs(classes)), Outcome(classes, start);
    StartedKeeps(classes, start, AllRefs(classes));
    AllAllocatedKeep(classes, start, a, 0);
    SomeCycleIff(classes, start, b);
  }

  /** After the pass, classes on no cycle whose shapes rest on their references share an id exactly when their shapes are equal. */
  lemma PassSharesIds(classes: seq<ClassType>, start: int, c: ClassId, d: ClassId)
    requires start >= 0 && Closed(classes) && c < |classes| && d < |classes| && c != d
    requires Guarded(classes[c], classes) && Guarded(classes[d], classes)
    requires !OnCycle(AllRefs(classes), c) && !OnCycle(AllRefs(classes), d)
    ensures var b := Outcome(classes, start); b.ids[c] == b.ids[d] <==> ShapeNow(classes, b, c) == ShapeNow(classes, b, d)
  {
    PassOutcome(classes, start);
    SharedIdIffAcyclic(classes, start, Outcome(classes, start), c, d);
  }

  // ----- the allocator -----

  class TypeIdAllocator {
    const classes: seq<ClassType>
    const start: int
    /** The reference map; a class without an entry counts as having no references. */
    var typeRefsMap: map<ClassId, seq<ClassId>>
    var traverseStatus: seq<Status>
    var typeIds: seq<int>
    var classNames: seq<string>
    var typeIdMap: map<string, int>
    var typeId: int
    var loopEntry: Option<ClassId>
    var recGroupTypes: seq<seq<ClassId>>
    ghost var shapes: map<ClassId, string>
    ghost var cycles: set<ClassId>
    ghost var finished: set<ClassId>
    ghost var order: seq<ClassId>

    constructor (classes: seq<ClassType>, start: int)
      ensures this.classes == classes && this.start == start && Now() == Started(classes, start, map[])
    {
      this.classes, this.start := classes, start;
      typeRefsMap := map[];
      traverseStatus := seq(|classes|, _ => NotVisited);
      typeIds := seq(|classes|, _ => NO_ID);
      classNames := seq(|classes|, i requires 0 <= i < |classes| => classes[i].name);
      typeIdMap, typeId, loopEntry, recGroupTypes := map[], start, None, [];
      shapes, cycles, finished, order := map[], {}, {}, [];
    }

    ghost function Now(): Alloc
      reads this
    {
      Alloc(typeRefsMap, traverseStatus, typeIds, typeIdMap, classNames, typeId, loopEntry, recGroupTypes,
            shapes, cycles, finished, order)
    }

    method GenerateTypeId(shape: string) returns (id: int)
      modifies this`typeIdMap, this`typeId
      ensures Now() == Interned(old(Now()), shape) && id == typeIdMap[shape]
    {
      if shape in typeIdMap {
        return typeIdMap[shape];
      }
      id := typeId;
      typeId := typeId + 2;
      typeIdMap := typeIdMap[shape := id];
    }

    /** A class met again while it is being visited gets an id of its own at once. */
    method CloseCycle(c: ClassId)
      requires c < |traverseStatus| == |typeIds| == |classNames|
      modifies this
      ensures Now() == CycleClosed(old(Now()), c)
    {
      ghost var was := Now();
      traverseStatus := traverseStatus[c := Processed];
      typeIds := typeIds[c := typeId];
      if classNames[c] == "" {
        classNames := classNames[c := ObjectName(typeId)];
      }
      assert Now() == was.(status := traverseStatus, ids := typeIds, names := Renamed(was.names, c, was.next));
      OpenLoop(c);
    }

    /** The rest of the cycle branch: the next id, and a new rec group with the class as its entry. */
    method OpenLoop(c: ClassId)
      modifies this
      ensures Now() == old(Now()).(next := old(typeId) + 2, loopEntry := Some(c), groups := old(recGroupTypes) + [[]],
                                   cycles := old(cycles) + {c}, order := old(order) + [c])
    {
      typeId := typeId + 2;
      loopEntry := Some(c);
      recGroupTypes := recGroupTypes + [[]];
      cycles, order := cycles + {c}, order + [c];
    }

    /** A class whose references are all processed gets the interned id of its shape. */
    method AssignByShape(c: ClassId)
      requires c < |traverseStatus| == |typeIds| == |classNames| == |classes|
      modifies this
      ensures Now() == ShapeAssigned(old(Now()), c, ShapeNow(classes, old(Now()), c))
    {
      var shape := ShapeDesc(classes[c], EnvOf(classes, typeIds, classNames));
      var id := GenerateTypeId(shape);
      typeIds := typeIds[c := id];
      if classNames[c] == "" {
        classNames := classNames[c := ObjectName(id)];
      }
      traverseStatus := traverseStatus[c := Processed];
      shapes, order := shapes[c := shape], order + [c];
    }

    /** Closes a visit: the class joins the current rec group, and a group ends at its entry. */
    method Finish(c: ClassId)
      requires loopEntry.Some? ==> recGroupTypes != []
      modifies this
      ensures Now() == Ended(old(Now()), c)
    {
      if loopEntry.Some? {
        var last := |recGroupTypes| - 1;
        recGroupTypes := recGroupTypes[last := recGroupTypes[last] + [c]];
        if loopEntry.value == c {
          loopEntry := None;
        }
      }
      finished := finished + {c};
    }

    /** The walk from one class. */
    method Allocate(c: ClassId)
      requires Sized(classes, Now()) && c < |classes|
      modifies this
      ensures Now() == Allocated(classes, old(Now()), c)
      decreases Unvisited(traverseStatus), 0
    {
      if traverseStatus[c] == Processed {
        return;
      }
      if traverseStatus[c] == Visited {
        CloseCycle(c);
        return;
      }
      BegunShrinks(Now(), c);
      traverseStatus := traverseStatus[c := Visited];
      VisitRefs(c);
      Conclude(c);
    }

    /** Ends the visit of a class whose references are processed. */
    method Conclude(c: ClassId)
      requires c < |traverseStatus| == |typeIds| == |classNames| == |classes| && (loopEntry.Some? ==> recGroupTypes != [])
      modifies this
      ensures Now() == Concluded(classes, old(Now()), c)
    {
      if traverseStatus[c] == Visited {
        AssignByShape(c);
      }
      Finish(c);
    }

    /** Visits the references of a class in turn. */
    method VisitRefs(c: ClassId)
      requires Sized(classes, Now())
      modifies this
      ensures Now() == RefsAllocated(classes, old(Now()), Refs(old(typeRefsMap), c))
      decreases Unvisited(traverseStatus), 1
    {
      var refs := Refs(typeRefsMap, c);
      var i := 0;
      while i < |refs|
        invariant 0 <= i <= |refs| && Sized(classes, Now())
        invariant Unvisited(traverseStatus) <= Unvisited(old(traverseStatus))
        invariant RefsAllocated(classes, old(Now()), refs) == RefsAllocated(classes, Now(), refs[i..])
      {
        assert refs[i..][0] == refs[i] && refs[i..][1..] == refs[i + 1..];
        Allocate(refs[i]);
        i := i + 1;
      }
    }

    /** Collects the classes the members of one class refer to, on top of those it is known to refer to. */
    method ParseTypeRefRelationship(c: ClassId)
      requires c < |classes|
      modifies this`typeRefsMap
      ensures typeRefsMap ==
              old(typeRefsMap)[c := MoreRefs(classes[c], if c in old(typeRefsMap) then old(typeRefsMap)[c] else [])]
    {
      var refs := if c in typeRefsMap then typeRefsMap[c] else [];
      ghost var known := refs;
      var fields, methods := classes[c].fields, classes[c].methods;
      var i := 0;
      while i < |fields|
        invariant 0 <= i <= |fields|
        invariant FieldRefs(fields, known) == FieldRefs(fields[i..], refs)
      {
        assert fields[i..][1..] == fields[i + 1..];
        refs := TypeRefs(fields[i].kind, refs);
        i := i + 1;
      }
      i := 0;
      while i < |methods|
        invariant 0 <= i <= |methods|
        invariant MoreRefs(classes[c], known) == MethodRefs(methods[i..], refs)
      {
        assert methods[i..][1..] == methods[i + 1..];
        if !methods[i].isStatic {
          refs := TypeRefs(methods[i].kind, refs);
        }
        i := i + 1;
      }
      typeRefsMap := typeRefsMap[c := refs];
    }

    /** A root call: everything reachable is processed with an id, nothing is left half done. */
    method AllocateRoot(c: ClassId)
      requires Sized(classes, Now()) && Inv(classes, start, Now()) && OnStack(Now(), {}) && c < |classes|
      modifies this
      ensures Now() == Allocated(classes, old(Now()), c)
      ensures Inv(classes, start, Now()) && OnStack(Now(), {}) && loopEntry == None
      ensures forall d :: 0 <= d < |classes| ==> traverseStatus[d] != Visited
      ensures forall p :: p != [] && p[0] == c && Path(typeRefsMap, p) ==>
                p[|p| - 1] < |classes| && traverseStatus[p[|p| - 1]] == Processed && typeIds[p[|p| - 1]] != NO_ID
    {
      AllocatedKeeps(classes, start, Now(), c, {});
      Allocate(c);
      forall p | p != [] && p[0] == c && Path(typeRefsMap, p) ensures p[|p| - 1] in finished {
        ReachableIsFinished(classes, start, Now(), p);
      }
    }

    /** The resolver's pass: all references first, then an id for every class. */
    method Visit()
      requires Now() == Started(classes, start, map[]) && Closed(classes)
      modifies this
      ensures Now() == Outcome(classes, start)
    {
      ParseAll();
      var i := 0;
      while i < |classes|
        invariant 0 <= i <= |classes| && Sized(classes, Now())
        invariant AllAllocated(classes, Now(), i) == Outcome(classes, start)
      {
        Allocate(i);
        i := i + 1;
      }
    }

    method ParseAll()
      requires typeRefsMap == map[]
      modifies this`typeRefsMap
      ensures typeRefsMap == AllRefs(classes)
    {
      var i := 0;
      while i < |classes|
        invariant 0 <= i <= |classes| && Collected(classes, typeRefsMap, i)
      {
        CollectedStep(classes, typeRefsMap, i);
        ParseTypeRefRelationship(i);
        i := i + 1;
      }
    }
  }
}
