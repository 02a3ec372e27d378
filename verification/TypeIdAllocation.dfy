/** The allocator itself: three-colour walk, intern table, cycle branch, rec groups. */
module TypeIdAllocation {
  import opened Prelude
  import opened TypeIds

  // ----- what the id tables keep true -----

  /** Ids are handed out in steps of two from `start`. */
  predicate InRange(id: int, start: int, next: int) {
    start <= id < next && (id - start) % 2 == 0
  }

  /** The intern table maps different shapes to different ids in range. */
  predicate TableOk(table: map<string, int>, start: int, next: int) {
    && 0 <= start <= next && (next - start) % 2 == 0
    && (forall s :: s in table ==> InRange(table[s], start, next))
    && (forall s, t :: s in table && t in table && table[s] == table[t] ==> s == t)
  }

  /** Classes that took the shape branch hold the interned id of their recorded shape. */
  predicate ShapesOk(ids: seq<int>, shapes: map<ClassId, string>, table: map<string, int>) {
    forall c :: c in shapes ==> c < |ids| && shapes[c] in table && ids[c] == table[shapes[c]]
  }

  /** Classes that took the cycle branch hold an id that nothing else holds. */
  predicate CyclesOk(ids: seq<int>, cycles: set<ClassId>, table: map<string, int>, start: int, next: int) {
    && (forall c :: c in cycles ==> c < |ids| && InRange(ids[c], start, next))
    && (forall c, d :: c in cycles && d in cycles && ids[c] == ids[d] ==> c == d)
    && (forall c, s :: c in cycles && s in table ==> table[s] != ids[c])
  }

  ghost predicate IdsOk(status: seq<Status>, ids: seq<int>, shapes: map<ClassId, string>, cycles: set<ClassId>,
                        table: map<string, int>, start: int, next: int)
  {
    && |status| == |ids| && shapes.Keys !! cycles
    && (forall c :: 0 <= c < |ids| ==> (status[c] == Processed <==> c in shapes || c in cycles))
    && (forall c :: 0 <= c < |ids| ==> (ids[c] == NO_ID <==> status[c] != Processed))
    && TableOk(table, start, next)
    && ShapesOk(ids, shapes, table)
    && CyclesOk(ids, cycles, table, start, next)
  }

  // ----- names -----

  function ObjectName(id: int): string {
    "@object_type" + if id >= 0 then Decimal(id) else ""
  }

  /** Object types with different ids get different names. */
  lemma ObjectNamesDiffer(m: nat, n: nat)
    requires ObjectName(m) == ObjectName(n)
    ensures m == n
  {
    var k := |"@object_type"|;
    assert Decimal(m) == ObjectName(m)[k..] == ObjectName(n)[k..] == Decimal(n);
    DecimalInjective(m, n);
  }

  /** A class without a name is given one together with its id. */
  function Renamed(names: seq<string>, c: ClassId, id: int): (r: seq<string>)
    requires c < |names|
    ensures |r| == |names|
  {
    if names[c] == "" then names[c := ObjectName(id)] else names
  }

  /** Declared names stay; the others follow the ids. */
  predicate NamesOk(classes: seq<ClassType>, ids: seq<int>, names: seq<string>) {
    && |ids| == |names| == |classes|
    && forall c {:trigger names[c]} :: 0 <= c < |classes| ==> names[c] == NameWith(classes[c].name, ids[c])
  }

  function NameWith(declared: string, id: int): string {
    if declared != "" then declared else if id == NO_ID then "" else ObjectName(id)
  }

  lemma RenameKeeps(classes: seq<ClassType>, ids: seq<int>, names: seq<string>, c: ClassId, id: int)
    requires NamesOk(classes, ids, names) && c < |ids| && ids[c] == NO_ID && id != NO_ID
    ensures NamesOk(classes, ids[c := id], Renamed(names, c, id))
  {
  }

  function Literals(classes: seq<ClassType>): seq<bool> {
    seq(|classes|, i requires 0 <= i < |classes| => classes[i].literal)
  }

  /** What the texts of the moment read. */
  function EnvOf(classes: seq<ClassType>, ids: seq<int>, names: seq<string>): Env {
    Env(ids, names, Literals(classes))
  }

  // ----- recorded shapes -----

  predicate AllAssigned(refs: seq<ClassId>, ids: seq<int>) {
    forall i :: 0 <= i < |refs| ==> refs[i] < |ids| && ids[refs[i]] != NO_ID
  }

  /** A recorded shape rests on assigned ids, and that of a guarded class is the shape of the moment. */
  ghost predicate ShapeCurrent(classes: seq<ClassType>, env: Env, c: ClassId, shape: string) {
    && c < |classes| && AllAssigned(ClassRefs(classes[c]), env.ids)
    && (Guarded(classes[c], classes) ==> shape == ShapeDesc(classes[c], env))
  }

  ghost predicate ShapesCurrent(classes: seq<ClassType>, env: Env, shapes: map<ClassId, string>) {
    forall c :: c in shapes ==> ShapeCurrent(classes, env, c, shapes[c])
  }

  /** Assigning one more class changes nothing for classes whose references all have ids. */
  lemma AssignKeepsShape(classes: seq<ClassType>, ids: seq<int>, names: seq<string>, d: ClassId, shape: string,
                         c: ClassId, id: int)
    requires NamesOk(classes, ids, names) && c < |ids| && ids[c] == NO_ID
    requires ShapeCurrent(classes, EnvOf(classes, ids, names), d, shape)
    ensures ShapeCurrent(classes, EnvOf(classes, ids[c := id], Renamed(names, c, id)), d, shape)
  {
    var refs := ClassRefs(classes[d]);
    var env, env' := EnvOf(classes, ids, names), EnvOf(classes, ids[c := id], Renamed(names, c, id));
    assert forall i :: 0 <= i < |refs| ==> refs[i] != c;
    if Guarded(classes[d], classes) {
      assert SameOn(env, env', refs, classes);
      GuardedShape(classes[d], classes, env, env');
    }
  }

  lemma AssignKeepsShapes(classes: seq<ClassType>, ids: seq<int>, names: seq<string>, shapes: map<ClassId, string>,
                          c: ClassId, id: int)
    requires NamesOk(classes, ids, names) && c < |ids| && ids[c] == NO_ID
    requires ShapesCurrent(classes, EnvOf(classes, ids, names), shapes)
    ensures ShapesCurrent(classes, EnvOf(classes, ids[c := id], Renamed(names, c, id)), shapes)
  {
    forall d | d in shapes
      ensures ShapeCurrent(classes, EnvOf(classes, ids[c := id], Renamed(names, c, id)), d, shapes[d])
    {
      AssignKeepsShape(classes, ids, names, d, shapes[d], c, id);
    }
  }

  // ----- the id tables step by step -----

  /** The cycle branch: a fresh id nobody shares. */
  lemma CycleStep(status: seq<Status>, ids: seq<int>, shapes: map<ClassId, string>, cycles: set<ClassId>,
                  table: map<string, int>, start: int, next: int, c: ClassId)
    requires IdsOk(status, ids, shapes, cycles, table, start, next) && c < |ids| && status[c] != Processed
    ensures IdsOk(status[c := Processed], ids[c := next], shapes, cycles + {c}, table, start, next + 2)
  {
    var ids' := ids[c := next];
    assert TableOk(table, start, next + 2);
    assert ShapesOk(ids', shapes, table);
    assert CyclesOk(ids', cycles + {c}, table, start, next + 2);
  }

  /** The shape branch with a known shape. */
  lemma KnownShapeStep(status: seq<Status>, ids: seq<int>, shapes: map<ClassId, string>, cycles: set<ClassId>,
                       table: map<string, int>, start: int, next: int, c: ClassId, shape: string)
    requires IdsOk(status, ids, shapes, cycles, table, start, next) && c < |ids| && status[c] != Processed
    requires shape in table
    ensures IdsOk(status[c := Processed], ids[c := table[shape]], shapes[c := shape], cycles, table, start, next)
  {
    var ids' := ids[c := table[shape]];
    assert ShapesOk(ids', shapes[c := shape], table);
    assert CyclesOk(ids', cycles, table, start, next);
  }

  /** The shape branch with a new shape, up to the point where the table holds it. */
  lemma NewShapeStep(status: seq<Status>, ids: seq<int>, shapes: map<ClassId, string>, cycles: set<ClassId>,
                     table: map<string, int>, start: int, next: int, shape: string)
    requires IdsOk(status, ids, shapes, cycles, table, start, next) && shape !in table
    ensures IdsOk(status, ids, shapes, cycles, table[shape := next], start, next + 2)
  {
    var table' := table[shape := next];
    assert TableOk(table', start, next + 2);
    assert ShapesOk(ids, shapes, table');
    assert CyclesOk(ids, cycles, table', start, next + 2);
  }

  /** Two processed classes share an id exactly when both took the shape branch and got it for one recorded shape. */
  lemma SharedIdIffSameRecord(status: seq<Status>, ids: seq<int>, shapes: map<ClassId, string>, cycles: set<ClassId>,
                              table: map<string, int>, start: int, next: int, c: ClassId, d: ClassId)
    requires IdsOk(status, ids, shapes, cycles, table, start, next)
    requires c < |ids| && d < |ids| && c != d && status[c] == Processed && status[d] == Processed
    ensures ids[c] == ids[d] <==> c in shapes && d in shapes && shapes[c] == shapes[d]
    ensures InRange(ids[c], start, next)
  {
    assert c in shapes || c in cycles;
    assert d in shapes || d in cycles;
    if c in shapes && d in shapes {
      assert ids[c] == table[shapes[c]] && ids[d] == table[shapes[d]];
    }
  }

  // ----- rec groups -----

  function Flatten(groups: seq<seq<ClassId>>): seq<ClassId> {
    if groups == [] then [] else Flatten(groups[..|groups| - 1]) + groups[|groups| - 1]
  }

  /** Pushing to the last group appends to the flattened list. */
  lemma FlattenPush(groups: seq<seq<ClassId>>, c: ClassId)
    requires groups != []
    ensures var last := |groups| - 1; Flatten(groups[last := groups[last] + [c]]) == Flatten(groups) + [c]
  {
    var last := |groups| - 1;
    var g := groups[last := groups[last] + [c]];
    assert g[..last] == groups[..last];
    assert Flatten(g) == Flatten(groups[..last]) + (groups[last] + [c]);
  }

  lemma FlattenNewGroup(groups: seq<seq<ClassId>>)
    ensures Flatten(groups + [[]]) == Flatten(groups)
  {
    assert (groups + [[]])[..|groups|] == groups;
  }

  /** Each class is pushed at most once over all groups, and only when its visit ends. */
  predicate GroupsOk(groups: seq<seq<ClassId>>, finished: set<ClassId>) {
    NoDuplicates(Flatten(groups)) && forall i :: 0 <= i < |Flatten(groups)| ==> Flatten(groups)[i] in finished
  }

  lemma GroupsPush(groups: seq<seq<ClassId>>, finished: set<ClassId>, c: ClassId)
    requires GroupsOk(groups, finished) && groups != [] && c !in finished
    ensures var last := |groups| - 1; GroupsOk(groups[last := groups[last] + [c]], finished + {c})
  {
    FlattenPush(groups, c);
  }

  // ----- progress -----

  function Refs(m: map<ClassId, seq<ClassId>>, c: ClassId): seq<ClassId> {
    if c in m then m[c] else []
  }

  predicate AllProcessed(refs: seq<ClassId>, status: seq<Status>) {
    forall i :: 0 <= i < |refs| ==> refs[i] < |status| && status[refs[i]] == Processed
  }

  /** Finished classes are processed and so are all their references. */
  predicate FinishedOk(finished: set<ClassId>, m: map<ClassId, seq<ClassId>>, status: seq<Status>) {
    forall c :: c in finished ==> c < |status| && status[c] == Processed && AllProcessed(Refs(m, c), status)
  }

  /** Progress of a call: processed classes keep their ids, nothing new is left half done. */
  predicate Grown(s0: seq<Status>, ids0: seq<int>, s1: seq<Status>, ids1: seq<int>) {
    && |s0| == |s1| == |ids0| == |ids1|
    && (forall c :: 0 <= c < |s0| && s0[c] == Processed ==> s1[c] == Processed && ids1[c] == ids0[c])
    && (forall c :: 0 <= c < |s0| && s0[c] == Visited ==> s1[c] != NotVisited)
    && (forall c :: 0 <= c < |s0| && s0[c] == NotVisited ==> s1[c] != Visited)
  }

  lemma GrownKeepsProcessed(refs: seq<ClassId>, s0: seq<Status>, ids0: seq<int>, s1: seq<Status>, ids1: seq<int>)
    requires Grown(s0, ids0, s1, ids1) && AllProcessed(refs, s0)
    ensures AllProcessed(refs, s1)
  {
  }

  lemma ProcessMore(finished: set<ClassId>, m: map<ClassId, seq<ClassId>>, status: seq<Status>, c: ClassId)
    requires FinishedOk(finished, m, status) && c < |status|
    ensures FinishedOk(finished, m, status[c := Processed])
    ensures status[c] == NotVisited ==> FinishedOk(finished, m, status[c := Visited])
  {
    forall d | d in finished ensures AllProcessed(Refs(m, d), status[c := Processed]) {
      assert AllProcessed(Refs(m, d), status);
    }
    if status[c] == NotVisited {
      forall d | d in finished ensures AllProcessed(Refs(m, d), status[c := Visited]) {
        assert AllProcessed(Refs(m, d), status);
      }
    }
  }

  // ----- reachability -----

  /** A path in the reference graph. */
  predicate Path(refs: map<ClassId, seq<ClassId>>, p: seq<ClassId>) {
    forall i :: 0 <= i < |p| - 1 ==> p[i] in refs && p[i + 1] in refs[p[i]]
  }

  /** What is closed under references and holds the first class of a path holds the last one. */
  lemma {:induction false} ClosedHoldsPath(refs: map<ClassId, seq<ClassId>>, closed: set<ClassId>, p: seq<ClassId>)
    requires p != [] && Path(refs, p) && p[0] in closed
    requires forall c, i :: c in closed && c in refs && 0 <= i < |refs[c]| ==> refs[c][i] in closed
    ensures p[|p| - 1] in closed
  {
    if |p| > 1 {
      assert p[1] in refs[p[0]];
      assert Path(refs, p[1..]) by {
        forall i | 0 <= i < |p[1..]| - 1 ensures p[1..][i] in refs && p[1..][i + 1] in refs[p[1..][i]] {
          assert p[i + 1] in refs && p[i + 2] in refs[p[i + 1]];
        }
      }
      ClosedHoldsPath(refs, closed, p[1..]);
    }
  }

  // ----- allocator states and the four moves between them -----

  /**
   Everything the allocator keeps, with four records of its history: the shape
   each class of the shape branch got its id for, the classes of the cycle
   branch, the classes whose own visit has returned, and the order of ids given.
   */
  datatype Alloc = Alloc(refs: map<ClassId, seq<ClassId>>, status: seq<Status>, ids: seq<int>, table: map<string, int>,
                         names: seq<string>, next: int, loopEntry: Option<ClassId>, groups: seq<seq<ClassId>>,
                         shapes: map<ClassId, string>, cycles: set<ClassId>, finished: set<ClassId>, order: seq<ClassId>)

  /** The reference map holds the references of every class. */
  predicate Complete(classes: seq<ClassType>, refs: map<ClassId, seq<ClassId>>) {
    forall c :: 0 <= c < |classes| ==> c in refs && refs[c] == ClassRefs(classes[c])
  }

  /** The reference map holds the references of the first `n` classes. */
  predicate Collected(classes: seq<ClassType>, refs: map<ClassId, seq<ClassId>>, n: nat)
    requires n <= |classes|
  {
    (forall c :: c in refs ==> c < n) && forall c :: 0 <= c < n ==> c in refs && refs[c] == ClassRefs(classes[c])
  }

  lemma CollectedStep(classes: seq<ClassType>, refs: map<ClassId, seq<ClassId>>, n: nat)
    requires n < |classes| && Collected(classes, refs, n)
    ensures n !in refs && Collected(classes, refs[n := ClassRefs(classes[n])], n + 1)
  {
  }

  predicate RefsInRange(refs: map<ClassId, seq<ClassId>>, n: nat) {
    forall c, i :: c in refs && 0 <= i < |refs[c]| ==> refs[c][i] < n
  }

  /** Ids, names and recorded shapes. */
  ghost predicate IdsInv(classes: seq<ClassType>, start: int, a: Alloc) {
    && |a.status| == |classes|
    && IdsOk(a.status, a.ids, a.shapes, a.cycles, a.table, start, a.next)
    && NamesOk(classes, a.ids, a.names)
    && (Complete(classes, a.refs) ==> ShapesCurrent(classes, EnvOf(classes, a.ids, a.names), a.shapes))
  }

  /** References, finished classes and rec groups. */
  ghost predicate WalkInv(classes: seq<ClassType>, a: Alloc) {
    && RefsInRange(a.refs, |classes|)
    && FinishedOk(a.finished, a.refs, a.status)
    && (a.loopEntry.Some? ==> a.groups != [])
    && GroupsOk(a.groups, a.finished)
  }

  /** The invariant of the allocator. */
  ghost predicate Inv(classes: seq<ClassType>, start: int, a: Alloc) {
    IdsInv(classes, start, a) && WalkInv(classes, a)
  }

  /** The classes being visited are exactly those begun and not finished; the loop entry is one of them. */
  ghost predicate OnStack(a: Alloc, stack: set<ClassId>) {
    && stack !! a.finished
    && (forall c :: c in stack ==> c < |a.status| && a.status[c] != NotVisited)
    && (forall c :: 0 <= c < |a.status| && a.status[c] != NotVisited ==> c in stack || c in a.finished)
    && (a.loopEntry.Some? ==> a.loopEntry.value in stack)
  }

  function Begun(a: Alloc, c: ClassId): Alloc
    requires c < |a.status|
  {
    a.(status := a.status[c := Visited])
  }

  function CycleClosed(a: Alloc, c: ClassId): Alloc
    requires c < |a.status| == |a.ids| == |a.names|
  {
    a.(status := a.status[c := Processed], ids := a.ids[c := a.next], names := Renamed(a.names, c, a.next), next := a.next + 2,
       loopEntry := Some(c), groups := a.groups + [[]], cycles := a.cycles + {c}, order := a.order + [c])
  }

  /** The table and counter after looking a shape up. */
  function Interned(a: Alloc, shape: string): Alloc {
    if shape in a.table then a else a.(table := a.table[shape := a.next], next := a.next + 2)
  }

  function ShapeAssigned(a: Alloc, c: ClassId, shape: string): Alloc
    requires c < |a.status| == |a.ids| == |a.names|
  {
    var b := Interned(a, shape);
    var id := b.table[shape];
    b.(status := b.status[c := Processed], ids := b.ids[c := id], names := Renamed(b.names, c, id), shapes := b.shapes[c := shape],
       order := b.order + [c])
  }

  function Ended(a: Alloc, c: ClassId): Alloc
    requires a.loopEntry.Some? ==> a.groups != []
  {
    var last := |a.groups| - 1;
    a.(groups := if a.loopEntry.Some? then a.groups[last := a.groups[last] + [c]] else a.groups,
       loopEntry := if a.loopEntry == Some(c) then None else a.loopEntry,
       finished := a.finished + {c})
  }

  /** The shape a class has now. */
  function ShapeNow(classes: seq<ClassType>, a: Alloc, c: ClassId): string
    requires c < |classes|
  {
    ShapeDesc(classes[c], EnvOf(classes, a.ids, a.names))
  }

  /** Classes whose shapes rest on their references share an id exactly when they have one shape now. */
  lemma SharedIdIffSameShape(classes: seq<ClassType>, start: int, a: Alloc, c: ClassId, d: ClassId)
    requires Inv(classes, start, a) && Complete(classes, a.refs) && c < |classes| && d < |classes| && c != d
    requires a.status[c] == Processed && a.status[d] == Processed
    requires Guarded(classes[c], classes) && Guarded(classes[d], classes)
    ensures a.ids[c] == a.ids[d] <==>
            c in a.shapes && d in a.shapes && ShapeNow(classes, a, c) == ShapeNow(classes, a, d)
  {
    var env := EnvOf(classes, a.ids, a.names);
    SharedIdIffSameRecord(a.status, a.ids, a.shapes, a.cycles, a.table, start, a.next, c, d);
    assert c in a.shapes ==> ShapeCurrent(classes, env, c, a.shapes[c]);
    assert d in a.shapes ==> ShapeCurrent(classes, env, d, a.shapes[d]);
  }

  lemma BeginKeeps(classes: seq<ClassType>, start: int, a: Alloc, stack: set<ClassId>, c: ClassId)
    requires Inv(classes, start, a) && OnStack(a, stack) && c < |classes| && a.status[c] == NotVisited
    ensures Inv(classes, start, Begun(a, c)) && OnStack(Begun(a, c), stack + {c}) && c !in stack
  {
    ProcessMore(a.finished, a.refs, a.status, c);
  }

  // ----- the invariant step by step -----

  lemma CycleKeepsIds(classes: seq<ClassType>, start: int, a: Alloc, c: ClassId)
    requires IdsInv(classes, start, a) && c < |classes| && a.status[c] == Visited
    ensures IdsInv(classes, start, CycleClosed(a, c))
  {
    CycleStep(a.status, a.ids, a.shapes, a.cycles, a.table, start, a.next, c);
    RenameKeeps(classes, a.ids, a.names, c, a.next);
    if Complete(classes, a.refs) {
      AssignKeepsShapes(classes, a.ids, a.names, a.shapes, c, a.next);
    }
  }

  lemma CycleKeepsWalk(classes: seq<ClassType>, a: Alloc, c: ClassId)
    requires WalkInv(classes, a) && c < |classes| == |a.status| == |a.ids| == |a.names|
    ensures WalkInv(classes, CycleClosed(a, c))
  {
    FlattenNewGroup(a.groups);
    ProcessMore(a.finished, a.refs, a.status, c);
  }

  lemma CycleKeeps(classes: seq<ClassType>, start: int, a: Alloc, stack: set<ClassId>, c: ClassId)
    requires Inv(classes, start, a) && OnStack(a, stack) && c < |classes| && a.status[c] == Visited
    ensures Inv(classes, start, CycleClosed(a, c)) && OnStack(CycleClosed(a, c), stack)
    ensures Grown(a.status, a.ids, CycleClosed(a, c).status, CycleClosed(a, c).ids)
  {
    CycleKeepsIds(classes, start, a, c);
    CycleKeepsWalk(classes, a, c);
  }

  lemma InternKeeps(classes: seq<ClassType>, start: int, a: Alloc, shape: string)
    requires IdsOk(a.status, a.ids, a.shapes, a.cycles, a.table, start, a.next)
    ensures var b := Interned(a, shape);
            shape in b.table && IdsOk(b.status, b.ids, b.shapes, b.cycles, b.table, start, b.next)
  {
    if shape !in a.table {
      NewShapeStep(a.status, a.ids, a.shapes, a.cycles, a.table, start, a.next, shape);
    }
  }

  /** The tables after a class took the shape branch. */
  lemma ShapeTables(classes: seq<ClassType>, start: int, a: Alloc, c: ClassId, shape: string)
    requires IdsInv(classes, start, a) && c < |classes| && a.status[c] == Visited
    ensures var b := ShapeAssigned(a, c, shape);
            && IdsOk(b.status, b.ids, b.shapes, b.cycles, b.table, start, b.next)
            && NamesOk(classes, b.ids, b.names) && b.ids[c] != NO_ID
  {
    InternKeeps(classes, start, a, shape);
    var i := Interned(a, shape);
    KnownShapeStep(i.status, i.ids, i.shapes, i.cycles, i.table, start, i.next, c, shape);
    RenameKeeps(classes, a.ids, a.names, c, i.table[shape]);
  }

  /** Its recorded shape, and those recorded before, are current. */
  lemma ShapeIsRecorded(classes: seq<ClassType>, start: int, a: Alloc, c: ClassId)
    requires IdsInv(classes, start, a) && c < |classes| && a.status[c] == Visited && Complete(classes, a.refs)
    requires AllAssigned(ClassRefs(classes[c]), a.ids)
    ensures var b := ShapeAssigned(a, c, ShapeNow(classes, a, c));
            ShapesCurrent(classes, EnvOf(classes, b.ids, b.names), b.shapes)
  {
    var shape := ShapeNow(classes, a, c);
    var id := Interned(a, shape).table[shape];
    AssignKeepsShapes(classes, a.ids, a.names, a.shapes, c, id);
    assert ShapeCurrent(classes, EnvOf(classes, a.ids, a.names), c, shape);
    AssignKeepsShape(classes, a.ids, a.names, c, shape, c, id);
  }

  lemma ShapeKeepsIds(classes: seq<ClassType>, start: int, a: Alloc, c: ClassId)
    requires IdsInv(classes, start, a) && c < |classes| && a.status[c] == Visited
    requires AllProcessed(Refs(a.refs, c), a.status)
    ensures Complete(classes, a.refs) ==> AllAssigned(ClassRefs(classes[c]), a.ids)
    ensures IdsInv(classes, start, ShapeAssigned(a, c, ShapeNow(classes, a, c)))
  {
    ShapeTables(classes, start, a, c, ShapeNow(classes, a, c));
    if Complete(classes, a.refs) {
      ProcessedAreAssigned(Refs(a.refs, c), a, start);
      ShapeIsRecorded(classes, start, a, c);
    }
  }

  lemma ShapeKeepsWalk(classes: seq<ClassType>, a: Alloc, c: ClassId, shape: string)
    requires WalkInv(classes, a) && c < |classes| == |a.status| == |a.ids| == |a.names|
    ensures WalkInv(classes, ShapeAssigned(a, c, shape))
  {
    ProcessMore(a.finished, a.refs, a.status, c);
  }

  /** With a complete reference map, the shape of a class is taken when all its references have ids. */
  lemma ShapeKeeps(classes: seq<ClassType>, start: int, a: Alloc, stack: set<ClassId>, c: ClassId)
    requires Inv(classes, start, a) && OnStack(a, stack) && c < |classes| && a.status[c] == Visited
    requires AllProcessed(Refs(a.refs, c), a.status)
    ensures Complete(classes, a.refs) ==> AllAssigned(ClassRefs(classes[c]), a.ids)
    ensures var b := ShapeAssigned(a, c, ShapeNow(classes, a, c));
            Inv(classes, start, b) && OnStack(b, stack) && Grown(a.status, a.ids, b.status, b.ids)
  {
    ShapeKeepsIds(classes, start, a, c);
    ShapeKeepsWalk(classes, a, c, ShapeNow(classes, a, c));
  }

  lemma ProcessedAreAssigned(refs: seq<ClassId>, a: Alloc, start: int)
    requires IdsOk(a.status, a.ids, a.shapes, a.cycles, a.table, start, a.next) && AllProcessed(refs, a.status)
    ensures AllAssigned(refs, a.ids)
  {
  }

  lemma EndKeeps(classes: seq<ClassType>, start: int, a: Alloc, stack: set<ClassId>, c: ClassId)
    requires Inv(classes, start, a) && OnStack(a, stack + {c}) && c !in stack && a.status[c] == Processed
    requires AllProcessed(Refs(a.refs, c), a.status)
    ensures Inv(classes, start, Ended(a, c)) && OnStack(Ended(a, c), stack)
  {
    if a.loopEntry.Some? {
      GroupsPush(a.groups, a.finished, c);
    }
    assert IdsInv(classes, start, Ended(a, c));
  }

  function Concluded(classes: seq<ClassType>, a: Alloc, c: ClassId): Alloc
    requires c < |a.status| == |a.ids| == |a.names| == |classes| && (a.loopEntry.Some? ==> a.groups != [])
  {
    Ended(if a.status[c] == Visited then ShapeAssigned(a, c, ShapeNow(classes, a, c)) else a, c)
  }

  /** What the end of a visit keeps and adds. */
  ghost predicate Concludes(classes: seq<ClassType>, start: int, a: Alloc, b: Alloc, stack: set<ClassId>, c: ClassId) {
    && Inv(classes, start, b) && OnStack(b, stack) && Grown(a.status, a.ids, b.status, b.ids)
    && c < |b.status| && b.status[c] == Processed && b.finished == a.finished + {c} && b.refs == a.refs
  }

  lemma ConcludeKeeps(classes: seq<ClassType>, start: int, a: Alloc, stack: set<ClassId>, c: ClassId)
    requires Inv(classes, start, a) && OnStack(a, stack + {c}) && c !in stack && c < |classes|
    requires AllProcessed(Refs(a.refs, c), a.status)
    ensures Concludes(classes, start, a, Concluded(classes, a, c), stack, c)
  {
    if a.status[c] == Visited {
      ConcludeByShape(classes, start, a, stack, c);
    } else {
      EndKeeps(classes, start, a, stack, c);
    }
  }

  lemma ConcludeByShape(classes: seq<ClassType>, start: int, a: Alloc, stack: set<ClassId>, c: ClassId)
    requires Inv(classes, start, a) && OnStack(a, stack + {c}) && c !in stack && c < |classes|
    requires AllProcessed(Refs(a.refs, c), a.status) && a.status[c] == Visited
    ensures Concludes(classes, start, a, Ended(ShapeAssigned(a, c, ShapeNow(classes, a, c)), c), stack, c)
  {
    var b := ShapeAssigned(a, c, ShapeNow(classes, a, c));
    assert Inv(classes, start, b) && OnStack(b, stack + {c}) && Grown(a.status, a.ids, b.status, b.ids) by {
      ShapeKeeps(classes, start, a, stack + {c}, c);
    }
    GrownKeepsProcessed(Refs(a.refs, c), a.status, a.ids, b.status, b.ids);
    EndKeeps(classes, start, b, stack, c);
  }

  /** A finished set is closed under references, so it holds whatever its members reach. */
  lemma ReachableIsFinished(classes: seq<ClassType>, start: int, a: Alloc, p: seq<ClassId>)
    requires Inv(classes, start, a) && OnStack(a, {})
    requires p != [] && p[0] in a.finished && Path(a.refs, p)
    ensures p[|p| - 1] in a.finished
  {
    forall c, i | c in a.finished && c in a.refs && 0 <= i < |a.refs[c]| ensures a.refs[c][i] in a.finished {
      assert AllProcessed(Refs(a.refs, c), a.status);
    }
    ClosedHoldsPath(a.refs, a.finished, p);
  }
}
