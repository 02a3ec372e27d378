/**
 The growable array of the runtime: a struct of a backing store and a length,
 with spare room behind the length, specified against abstract sequences.
 */
module GrowableArray {
  import opened Prelude

  /** When an array grows it gets this many spare slots. */
  const ARRAY_GROW_REDUNDANCE: nat := 16

  /** A dynamic argument: an integer number, `undefined`, or anything else. */
  datatype Arg = Number(n: int) | Undefined | NotANumber

  // ----- sequence operations -----

  /** `d` with `n` elements at `di` replaced by those of `s` at `si`. */
  function Copied<T>(d: seq<T>, di: nat, s: seq<T>, si: nat, n: nat): seq<T>
    requires di + n <= |d| && si + n <= |s|
  {
    d[..di] + s[si..si + n] + d[di + n..]
  }

  function Min(a: int, b: int): int { if a < b then a else b }

  function Max(a: int, b: int): int { if a < b then b else a }

  /** The relative index conversion shared by the methods of section 23.1.3 of ECMA-262 2023. */
  function Relative(i: int, len: nat): (r: nat)
    ensures r <= len
  {
    if i < 0 then Max(len + i, 0) else Min(i, len)
  }

  /** An index inside the array stands for itself, and so does the one as far from the end; others are moved to the nearer end. */
  lemma RelativeLaws(i: int, j: int, len: nat)
    ensures 0 <= i <= len ==> Relative(i, len) == i
    ensures 0 <= i < len ==> Relative(i - len, len) == Relative(i, len)
    ensures i <= j && (i < 0 <==> j < 0) ==> Relative(i, len) <= Relative(j, len)
    ensures i >= len ==> Relative(i, len) == len
    ensures i + len < 0 ==> Relative(i, len) == 0
  {
  }

  /** The actual delete count of section 23.1.3.31 of ECMA-262 2023; a count of another type counts as 0. */
  function DeleteCount(count: Arg, s: nat, len: nat): (d: nat)
    requires s <= len
    ensures s + d <= len
  {
    match count
    case Number(n) => Min(Max(n, 0), len - s)
    case Undefined => len - s
    case NotANumber => 0
  }

  datatype Spliced<T> = Spliced(rest: seq<T>, removed: seq<T>)

  /** Section 23.1.3.31 of ECMA-262 2023. */
  function SpliceSeq<T>(a: seq<T>, start: int, count: Arg, items: seq<T>): Spliced<T> {
    var s := Relative(start, |a|);
    var d := DeleteCount(count, s, |a|);
    Spliced(a[..s] + items + a[s + d..], a[s..s + d])
  }

  /** Section 23.1.3.28 of ECMA-262 2023; a bound that is not a number counts as absent. */
  function SliceSeq<T>(a: seq<T>, start: Arg, end: Arg): seq<T> {
    var s := if start.Number? then Relative(start.n, |a|) else 0;
    var e := if end.Number? then Relative(end.n, |a|) else |a|;
    if s <= e then a[s..e] else []
  }

  /** What a splice keeps, removes and puts in between. */
  lemma SpliceParts<T>(a: seq<T>, start: int, count: Arg, items: seq<T>)
    ensures var r := SpliceSeq(a, start, count, items);
            exists left, right :: IsSplice(a, r, items, left, right) && |left| == Relative(start, |a|)
                                  && RemovesAll(count, |r.removed|, |right|)
  {
    var r, s := SpliceSeq(a, start, count, items), Relative(start, |a|);
    var d := DeleteCount(count, s, |a|);
    assert a == a[..s] + a[s..s + d] + a[s + d..];
    assert IsSplice(a, r, items, a[..s], a[s + d..]);
  }

  lemma SpliceIs<T>(a: seq<T>, start: int, count: Arg, items: seq<T>, s: nat, d: nat)
    requires s == Relative(start, |a|) && d == DeleteCount(count, s, |a|)
    ensures SpliceSeq(a, start, count, items) == Spliced(a[..s] + items + a[s + d..], a[s..s + d])
  {
  }

  predicate IsSplice<T(==)>(a: seq<T>, r: Spliced<T>, items: seq<T>, left: seq<T>, right: seq<T>) {
    a == left + r.removed + right && r.rest == left + items + right
  }

  /** As many elements as the count asks for, and all if it asks for more or is left out. */
  predicate RemovesAll(count: Arg, removed: nat, kept: nat) {
    match count
    case Number(n) => if n <= 0 then removed == 0 else removed <= n && (removed < n ==> kept == 0)
    case Undefined => kept == 0
    case NotANumber => removed == 0
  }

  /** A slice holds the elements from the first bound up to the second; a bound that is no number is left out. */
  lemma SliceAt<T>(a: seq<T>, start: Arg, end: Arg, k: nat)
    ensures var s := if start.Number? then Relative(start.n, |a|) else 0;
            var e := if end.Number? then Relative(end.n, |a|) else |a|;
            var r := SliceSeq(a, start, end);
            |r| == Max(e - s, 0) && (k < |r| ==> r[k] == a[s + k])
  {
  }

  function Reversed<T>(a: seq<T>): (r: seq<T>)
    ensures |r| == |a|
    ensures forall i :: 0 <= i < |a| ==> r[i] == a[|a| - 1 - i]
  {
    seq(|a|, i requires 0 <= i < |a| => a[|a| - 1 - i])
  }

  /** Splice is the inverse of itself: putting the removed elements back restores the array. */
  lemma SpliceUndone<T>(a: seq<T>, start: int, count: Arg, items: seq<T>)
    ensures var r := SpliceSeq(a, start, count, items);
            SpliceSeq(r.rest, Relative(start, |a|), Number(|items|), r.removed) == Spliced(a, items)
  {
    var s := Relative(start, |a|);
    var d := DeleteCount(count, s, |a|);
    var r := SpliceSeq(a, start, count, items);
    assert Relative(s, |r.rest|) == s;
    assert DeleteCount(Number(|items|), s, |r.rest|) == |items|;
    assert r.rest[..s] == a[..s] && r.rest[s..s + |items|] == items && r.rest[s + |items|..] == a[s + d..];
    assert a[..s] + a[s..s + d] + a[s + d..] == a;
  }

  lemma PartsConserve<T>(head: seq<T>, gone: seq<T>, items: seq<T>, tail: seq<T>)
    ensures multiset(head + items + tail) + multiset(gone) == multiset(head + gone + tail) + multiset(items)
  {
  }

  /** Splice conserves elements, and removes what a slice of the same range would have returned. */
  lemma SpliceConserves<T>(a: seq<T>, start: int, count: Arg, items: seq<T>)
    ensures var r := SpliceSeq(a, start, count, items);
            var s := Relative(start, |a|);
            && multiset(r.rest) + multiset(r.removed) == multiset(a) + multiset(items)
            && r.removed == SliceSeq(a, Number(s), Number(s + |r.removed|))
            && |r.rest| + |r.removed| == |a| + |items|
  {
    var s := Relative(start, |a|);
    var d := DeleteCount(count, s, |a|);
    PartsConserve(a[..s], a[s..s + d], items, a[s + d..]);
    assert a == a[..s] + a[s..s + d] + a[s + d..];
  }

  datatype Window = Window(to: nat, from: nat, count: nat)

  /** Steps 3 to 9 of section 23.1.3.4 of ECMA-262 2023. */
  function WindowOf(target: int, start: int, end: int, len: nat): (w: Option<Window>)
    ensures w.Some? ==> w.value.to + w.value.count <= len && w.value.from + w.value.count <= len
  {
    var to, from, final := Relative(target, len), Relative(start, len), Relative(end, len);
    var count := Min(final - from, len - to);
    if count <= 0 then None else Some(Window(to, from, count))
  }

  /** The source window is read before the target window is written. */
  function CopyWithinSeq<T>(a: seq<T>, target: int, start: int, end: int): (r: seq<T>)
    ensures |r| == |a|
  {
    match WindowOf(target, start, end, |a|)
    case None => a
    case Some(Window(to, from, count)) => Copied(a, to, a, from, count)
  }

  /** Every element behind the target comes from as far behind the start, up to the end bound or the end of the array; others stay. */
  lemma CopyWithinAt<T>(a: seq<T>, target: int, start: int, end: int, k: nat)
    requires k < |a|
    ensures var to, from, final := Relative(target, |a|), Relative(start, |a|), Relative(end, |a|);
            CopyWithinSeq(a, target, start, end)[k] == if to <= k && from + (k - to) < final then a[from + (k - to)] else a[k]
  {
  }

  /** The end bound the code works with: `undefined` is taken for 0, any other non-number for the length. */
  function EffectiveEnd(end: Arg, len: nat): int {
    match end
    case Number(n) => n
    case Undefined => 0
    case NotANumber => len
  }

  /** With an `undefined` end nothing is ever copied. */
  lemma UndefinedEndCopiesNothing<T>(a: seq<T>, target: int, start: int)
    ensures CopyWithinSeq(a, target, start, EffectiveEnd(Undefined, |a|)) == a
  {
    assert Relative(0, |a|) == 0;
  }

  /**
   The standard takes an `undefined` end for the length. On arrays of distinct elements the code
   agrees with it exactly when one of the two windows is empty or both start at the same place.
   */
  lemma UndefinedEndAgreesIff<T>(a: seq<T>, target: int, start: int)
    requires forall i, j :: 0 <= i < j < |a| ==> a[i] != a[j]
    ensures var to, from := Relative(target, |a|), Relative(start, |a|);
            CopyWithinSeq(a, target, start, EffectiveEnd(Undefined, |a|)) == CopyWithinSeq(a, target, start, |a|)
            <==> to == |a| || from == |a| || to == from
  {
    UndefinedEndCopiesNothing(a, target, start);
    var to, from := Relative(target, |a|), Relative(start, |a|);
    var r := CopyWithinSeq(a, target, start, |a|);
    assert Relative(|a|, |a|) == |a|;
    if to < |a| && from < |a| && to != from {
      CopyWithinAt(a, target, start, |a|, to);
      assert r[to] == a[from] != a[to];
    } else {
      forall k | 0 <= k < |a| ensures r[k] == a[k] {
        CopyWithinAt(a, target, start, |a|, k);
      }
      assert r == a;
    }
  }

  /** `[1, 2, 3].copyWithin(0, 1)` leaves the array as it is, and should make it `[2, 3, 3]`. */
  lemma UndefinedEndDiffers()
    ensures var a: seq<int> := [1, 2, 3];
            && CopyWithinSeq(a, 0, 1, EffectiveEnd(Undefined, |a|)) == a
            && CopyWithinSeq(a, 0, 1, |a|) == [2, 3, 3]
  {
    var a: seq<int> := [1, 2, 3];
    UndefinedEndCopiesNothing(a, 0, 1);
    assert WindowOf(0, 1, 3, 3) == Some(Window(0, 1, 2));
    var r := Copied(a, 0, a, 1, 2);
    assert r[0] == 2 && r[1] == 3 && r[2] == 3;
  }

  // ----- runs of operations -----

  datatype Op<T> =
    | Push(items: seq<T>)
    | Pop
    | Shift
    | Unshift(items: seq<T>)
    | Splice(start: int, count: Arg, items: seq<T>)
    | Reverse

  datatype Outcome<T> = Length(n: nat) | Element(e: T) | Failed | Removed(elements: seq<T>) | Done

  datatype After<T> = After(contents: seq<T>, outcome: Outcome<T>)

  /** The source raises an exception for a shift of an empty array; a run stops short of that. */
  predicate Applicable<T>(a: seq<T>, op: Op<T>) {
    op.Shift? ==> a != []
  }

  function Apply<T>(a: seq<T>, op: Op<T>): After<T>
    requires Applicable(a, op)
  {
    match op
    case Push(items) => After(a + items, Length(|a| + |items|))
    case Pop => if a == [] then After(a, Failed) else After(a[..|a| - 1], Element(a[|a| - 1]))
    case Shift => After(a[1..], Element(a[0]))
    case Unshift(items) => After(items + a, Length(|a| + |items|))
    case Splice(start, count, items) =>
      var r := SpliceSeq(a, start, count, items);
      After(r.rest, Removed(r.removed))
    case Reverse => After(Reversed(a), Done)
  }

  predicate AllApplicable<T>(a: seq<T>, ops: seq<Op<T>>)
    decreases |ops|
  {
    ops != [] ==> Applicable(a, ops[0]) && AllApplicable(Apply(a, ops[0]).contents, ops[1..])
  }

  datatype Run<T> = Run(contents: seq<T>, outcomes: seq<Outcome<T>>)

  function RunAll<T>(a: seq<T>, ops: seq<Op<T>>): (r: Run<T>)
    requires AllApplicable(a, ops)
    ensures |r.outcomes| == |ops|
    decreases |ops|
  {
    if ops == [] then Run(a, [])
    else
      var first := Apply(a, ops[0]);
      var rest := RunAll(first.contents, ops[1..]);
      Run(rest.contents, [first.outcome] + rest.outcomes)
  }

  /** One operation of a run, with the outcomes so far in front. */
  lemma RunStep<T>(a: seq<T>, ops: seq<Op<T>>, k: nat, outcomes: seq<Outcome<T>>)
    requires k < |ops| && AllApplicable(a, ops[k..])
    ensures Applicable(a, ops[k]) && AllApplicable(Apply(a, ops[k]).contents, ops[k + 1..])
    ensures var first := Apply(a, ops[k]);
            var rest, next := RunAll(a, ops[k..]), RunAll(first.contents, ops[k + 1..]);
            rest.contents == next.contents && outcomes + rest.outcomes == (outcomes + [first.outcome]) + next.outcomes
  {
    assert ops[k..][0] == ops[k] && ops[k..][1..] == ops[k + 1..];
  }

  function InsertedBy<T>(op: Op<T>): multiset<T> {
    if op.Push? || op.Unshift? || op.Splice? then multiset(op.items) else multiset{}
  }

  function Inserted<T>(ops: seq<Op<T>>): multiset<T> {
    if ops == [] then multiset{} else InsertedBy(ops[0]) + Inserted(ops[1..])
  }

  function HandedBackBy<T>(outcome: Outcome<T>): multiset<T> {
    match outcome
    case Element(e) => multiset{e}
    case Removed(elements) => multiset(elements)
    case _ => multiset{}
  }

  function HandedBack<T>(outcomes: seq<Outcome<T>>): multiset<T> {
    if outcomes == [] then multiset{} else HandedBackBy(outcomes[0]) + HandedBack(outcomes[1..])
  }

  lemma ReversedConserves<T>(a: seq<T>)
    ensures multiset(Reversed(a)) == multiset(a)
  {
    if a != [] {
      var n := |a| - 1;
      ReversedConserves(a[..n]);
      assert Reversed(a) == [a[n]] + Reversed(a[..n]);
      assert a == a[..n] + [a[n]];
    }
  }

  /** What an operation leaves and hands back is what was there and what it was given. */
  ghost predicate Balanced<T>(a: seq<T>, op: Op<T>, r: After<T>) {
    multiset(r.contents) + HandedBackBy(r.outcome) == multiset(a) + InsertedBy(op)
  }

  lemma PopBalances<T>(a: seq<T>, op: Op<T>)
    requires a != [] && op.Pop?
    ensures Balanced(a, op, Apply(a, op))
  {
    assert a == a[..|a| - 1] + [a[|a| - 1]];
  }

  lemma ShiftBalances<T>(a: seq<T>, op: Op<T>)
    requires a != [] && op.Shift?
    ensures Balanced(a, op, Apply(a, op))
  {
    assert a == [a[0]] + a[1..];
  }

  lemma AddingBalances<T>(a: seq<T>, op: Op<T>)
    requires op.Push? || op.Unshift?
    ensures Balanced(a, op, Apply(a, op))
  {
  }

  lemma SplicingBalances<T>(a: seq<T>, op: Op<T>)
    requires op.Splice?
    ensures Balanced(a, op, Apply(a, op))
  {
    SpliceConserves(a, op.start, op.count, op.items);
  }

  lemma ReversingBalances<T>(a: seq<T>, op: Op<T>)
    requires op.Reverse?
    ensures Balanced(a, op, Apply(a, op))
  {
    ReversedConserves(a);
  }

  lemma ApplyBalances<T>(a: seq<T>, op: Op<T>)
    requires Applicable(a, op)
    ensures Balanced(a, op, Apply(a, op))
  {
    if op.Push? || op.Unshift? {
      AddingBalances(a, op);
    } else if op.Splice? {
      SplicingBalances(a, op);
    } else if op.Reverse? {
      ReversingBalances(a, op);
    } else if a != [] {
      if op.Pop? {
        PopBalances(a, op);
      } else {
        ShiftBalances(a, op);
      }
    }
  }

  /** Two balances in a row make one balance. */
  lemma BalancesChain<T>(end: multiset<T>, out1: multiset<T>, out2: multiset<T>, middle: multiset<T>,
                         start: multiset<T>, in1: multiset<T>, in2: multiset<T>)
    requires middle + out1 == start + in1 && end + out2 == middle + in2
    ensures end + (out1 + out2) == start + (in1 + in2)
  {
    forall x: T ensures (end + (out1 + out2))[x] == (start + (in1 + in2))[x] {
      assert (middle + out1)[x] == (start + in1)[x];
      assert (end + out2)[x] == (middle + in2)[x];
    }
  }

  /** Over a whole run nothing is lost and nothing appears: what is left plus what was handed back is what went in. */
  lemma {:induction false} RunConserves<T>(a: seq<T>, ops: seq<Op<T>>)
    requires AllApplicable(a, ops)
    ensures var r := RunAll(a, ops);
            multiset(r.contents) + HandedBack(r.outcomes) == multiset(a) + Inserted(ops)
    decreases |ops|
  {
    if ops != [] {
      var first := Apply(a, ops[0]);
      var rest := RunAll(first.contents, ops[1..]);
      ApplyBalances(a, ops[0]);
      RunConserves(first.contents, ops[1..]);
      var outcomes := [first.outcome] + rest.outcomes;
      assert outcomes[1..] == rest.outcomes;
      assert HandedBack(outcomes) == HandedBackBy(first.outcome) + HandedBack(rest.outcomes);
      BalancesChain(multiset(rest.contents), HandedBackBy(first.outcome), HandedBack(rest.outcomes),
                    multiset(first.contents), multiset(a), InsertedBy(ops[0]), Inserted(ops[1..]));
    }
  }

  // ----- the struct -----

  /** The start index as `splice` clamps it. */
  method ClampStart(start: int, len: nat) returns (s: nat)
    ensures s == Relative(start, len)
  {
    var idx := start;
    if idx < 0 {
      if -idx > len {
        idx := 0;
      } else {
        idx := idx + len;
      }
    } else if idx >= len {
      idx := len;
    }
    s := idx;
  }

  /** The delete count as `splice` clamps it; without a count the code starts from the unclamped start. */
  method ClampCount(start: int, s: nat, count: Arg, len: nat) returns (d: nat)
    requires s == Relative(start, len)
    ensures d == DeleteCount(count, s, len)
  {
    var n := 0;
    if count.Number? {
      n := count.n;
    } else if count.Undefined? {
      n := len - start;
    }
    n := if n < 0 then 0 else n;
    n := if s + n > len then len - s else n;
    d := n;
  }

  /** The bounds `slice` works with; the start is not brought down to the length. */
  method SliceBounds(start: Arg, end: Arg, len: nat) returns (s: int, e: int)
    ensures s >= 0 && e == if end.Number? then Relative(end.n, len) else len
    ensures Min(s, len) == if start.Number? then Relative(start.n, len) else 0
  {
    var from, to := 0, len as int;
    if start.Number? {
      from := start.n;
      from := if from < 0 then from + len else from;
      from := if from < 0 then 0 else from;
    }
    if end.Number? {
      to := end.n;
      to := if to < 0 then to + len else to;
      to := if to < 0 then 0 else to;
      to := if to > len then len else to;
    }
    s, e := from, to;
  }

  /** An index brought into 0 to `len` - 1, or -1 when it lies at or past the end. */
  method ComputeIndex(idx: int, len: nat) returns (r: int)
    ensures if idx >= len then r == -1 else r == Relative(idx, len)
    ensures len > 0 ==> r < len
  {
    if -idx <= len && idx < 0 {
      r := idx + len;
    } else if -idx > len {
      r := 0;
    } else if idx >= len {
      r := -1;
    } else {
      r := idx;
    }
  }

  /** `wasm_array_obj_copy`: a move that reads everything before it writes. */
  method ObjCopy<T>(dst: array<T>, di: nat, src: array<T>, si: nat, n: nat)
    requires di + n <= dst.Length && si + n <= src.Length
    modifies dst
    ensures forall k {:trigger dst[k]} :: 0 <= k < dst.Length ==>
              dst[k] == if di <= k < di + n then old(src[k - di + si]) else old(dst[k])
  {
    forall k | 0 <= k < n {
      dst[di + k] := src[si + k];
    }
  }

  /** A splice, element by element. */
  lemma SplicedByElement<T>(now: seq<T>, was: seq<T>, s: nat, d: nat, items: seq<T>)
    requires s + d <= |was| && |now| == |was| - d + |items|
    requires forall k {:trigger now[k]} :: 0 <= k < s ==> now[k] == was[k]
    requires forall k {:trigger now[k]} :: s <= k < s + |items| ==> now[k] == items[k - s]
    requires forall k {:trigger now[k]} :: s + |items| <= k < |now| ==> now[k] == was[k - |items| + d]
    ensures now == was[..s] + items + was[s + d..]
  {
  }

  /** A copy, element by element. */
  lemma CopiedByElement<T>(now: seq<T>, was: seq<T>, t: nat, s: nat, n: nat)
    requires t + n <= |was| && s + n <= |was| && |now| == |was|
    requires forall k {:trigger now[k]} :: 0 <= k < t || t + n <= k < |was| ==> now[k] == was[k]
    requires forall k {:trigger now[k]} :: t <= k < t + n ==> now[k] == was[k - t + s]
    ensures now == Copied(was, t, was, s, n)
  {
    assert now[..t] == was[..t];
    assert now[t..t + n] == was[s..s + n];
    assert now[t + n..] == was[t + n..];
    assert now == now[..t] + now[t..t + n] + now[t + n..];
  }

  /** The windows of `copyWithin`; none when an index lies past the end or the count is not positive. */
  method CopyWindow(target: int, start: int, end: Arg, len: nat) returns (w: Option<Window>)
    ensures w == WindowOf(target, start, EffectiveEnd(end, len), len)
  {
    var t := ComputeIndex(target, len);
    if t == -1 {
      return None;
    }
    var s := ComputeIndex(start, len);
    if s == -1 {
      return None;
    }
    var e: int;
    if end.Number? {
      e := ComputeIndex(end.n, len);
    } else if end.Undefined? {
      e := ComputeIndex(0, len);
    } else {
      e := ComputeIndex(len, len);
    }
    if e == -1 {
      e := len;
    }
    var count := e - s;
    if count <= 0 {
      return None;
    }
    count := if s + count > len then len - s else count;
    count := if t + count > len then len - t else count;
    w := Some(Window(t, s, count));
  }

  /** The elements of an optional value array. */
  ghost function ItemsOf<T>(value: Option<ArrayStruct<T>>): seq<T>
    requires value.Some? ==> value.value.Valid()
    reads if value.Some? then {value.value, value.value.data} else {}
  {
    if value.Some? then value.value.Contents() else []
  }

  class ArrayStruct<T> {
    var data: array<T>
    var length: nat

    ghost predicate Valid()
      reads this
    {
      length <= data.Length
    }

    /** The abstract sequence. */
    ghost function Contents(): seq<T>
      requires Valid()
      reads this, data
    {
      data[..length]
    }

    constructor (items: seq<T>)
      ensures Valid() && Contents() == items && fresh(data)
    {
      data := new T[|items|](i requires 0 <= i < |items| => items[i]);
      length := |items|;
      new;
      assert data[..length] == items;
    }

    constructor Wrap(data: array<T>, length: nat)
      requires length <= data.Length
      ensures this.data == data && this.length == length
    {
      this.data, this.length := data, length;
    }

    method Push(value: ArrayStruct<T>, init: T) returns (r: nat)
      requires Valid() && value.Valid() && value != this && value.data != data
      modifies this, data
      ensures Valid() && Contents() == old(Contents()) + old(value.Contents()) && r == length
      ensures data == old(data) || fresh(data)
    {
      var len, valueLen, capacity := length, value.length, data.Length;
      if valueLen >= capacity - len {
        var newArr := new T[len + valueLen + ARRAY_GROW_REDUNDANCE](_ => init);
        ObjCopy(newArr, 0, data, 0, len);
        ObjCopy(newArr, len, value.data, 0, valueLen);
        data := newArr;
      } else {
        ObjCopy(data, len, value.data, 0, valueLen);
      }
      length := len + valueLen;
      r := len + valueLen;
    }

    method Pop() returns (r: Result<T>)
      requires Valid()
      modifies this`length
      ensures Valid() && data == old(data)
      ensures if old(Contents()) == [] then r.Err? && Contents() == []
              else Contents() + [old(Contents())[old(length) - 1]] == old(Contents())
                   && r == Ok(old(Contents())[old(length) - 1])
    {
      if length == 0 {
        return Err("array is empty");
      }
      r := Ok(data[length - 1]);
      length := length - 1;
    }

    method Shift(init: T) returns (r: T)
      requires Valid() && length > 0
      modifies this
      ensures Valid() && old(Contents()) == [r] + Contents() && fresh(data)
    {
      r := data[0];
      var newArr := new T[length - 1](_ => init);
      ObjCopy(newArr, 0, data, 1, length - 1);
      data := newArr;
      length := length - 1;
    }

    /** On an empty array the struct takes over the value's backing store. */
    method Unshift(value: ArrayStruct<T>, init: T) returns (r: nat)
      requires Valid() && value.Valid() && value != this && value.data != data
      modifies this, data
      ensures Valid() && Contents() == old(value.Contents()) + old(Contents()) && r == length
      ensures data == old(data) || data == value.data || fresh(data)
    {
      var len, valueLen, capacity := length, value.length, data.Length;
      if len == 0 && valueLen != 0 {
        data := value.data;
        length := valueLen;
      } else if len != 0 && valueLen == 0 {
        assert old(value.Contents()) == [];
      } else if valueLen >= capacity - len {
        var newArr := new T[len + valueLen + ARRAY_GROW_REDUNDANCE](_ => init);
        ObjCopy(newArr, 0, value.data, 0, valueLen);
        ObjCopy(newArr, valueLen, data, 0, len);
        data := newArr;
        length := len + valueLen;
      } else {
        ObjCopy(data, valueLen, data, 0, len);
        ObjCopy(data, 0, value.data, 0, valueLen);
        length := len + valueLen;
      }
      r := length;
    }

    method Reverse()
      requires Valid()
      modifies data
      ensures Contents() == Reversed(old(Contents())) && data[length..] == old(data[length..])
    {
      var i := 0;
      while i < length / 2
        invariant 0 <= i <= length / 2
        invariant forall k :: 0 <= k < i ==> data[k] == old(data[length - 1 - k]) && data[length - 1 - k] == old(data[k])
        invariant forall k :: i <= k < length - i ==> data[k] == old(data[k])
        invariant data[length..] == old(data[length..])
      {
        data[i], data[length - 1 - i] := data[length - 1 - i], data[i];
        i := i + 1;
      }
    }

    /** A larger store that holds the elements around a gap for `m` elements in place of `d` elements at `s`. */
    method NewStore(s: nat, d: nat, m: nat, init: T) returns (newArr: array<T>)
      requires Valid() && s + d <= length
      ensures fresh(newArr) && length - d + m <= newArr.Length
      ensures forall k {:trigger newArr[k]} :: 0 <= k < s ==> newArr[k] == data[k]
      ensures forall k {:trigger newArr[k]} :: s + m <= k < length - d + m ==> newArr[k] == data[k - m + d]
    {
      newArr := new T[length + m - d + ARRAY_GROW_REDUNDANCE](_ => init);
      ObjCopy(newArr, 0, data, 0, s);
      ObjCopy(newArr, s + m, data, s + d, length - d - s);
    }

    /** The store with that gap: the same one when it has room, a new one otherwise. */
    method OpenGap(s: nat, d: nat, m: nat, init: T) returns (store: array<T>)
      requires Valid() && s + d <= length
      modifies data
      ensures (store == data || fresh(store)) && length - d + m <= store.Length
      ensures forall k {:trigger store[k]} :: 0 <= k < s ==> store[k] == old(Contents())[k]
      ensures forall k {:trigger store[k]} :: s + m <= k < length - d + m ==> store[k] == old(Contents())[k - m + d]
    {
      if length - d + m > data.Length {
        store := NewStore(s, d, m, init);
      } else {
        store := data;
        ObjCopy(store, s + m, store, s + d, length - d - s);
      }
    }

    /** The second half of `splice`: `d` elements at `s` make way for the first `m` of another store. */
    method Replace(s: nat, d: nat, items: array<T>, m: nat, init: T)
      requires Valid() && s + d <= length && m <= items.Length && (m > 0 ==> items != data)
      modifies this, data
      ensures Valid() && (data == old(data) || fresh(data))
      ensures Contents() == old(Contents())[..s] + old(items[..m]) + old(Contents())[s + d..]
    {
      ghost var was, added := Contents(), items[..m];
      var store := OpenGap(s, d, m, init);
      if m > 0 {
        ObjCopy(store, s, items, 0, m);
      }
      data := store;
      length := length + m - d;
      SplicedByElement(Contents(), was, s, d, added);
    }

    method CopyOut(s: nat, d: nat, init: T) returns (deleted: array<T>)
      requires Valid() && s + d <= length
      ensures fresh(deleted) && deleted[..] == Contents()[s..s + d]
    {
      deleted := new T[d](_ => init);
      ObjCopy(deleted, 0, data, s, d);
    }

    /** Takes `d` elements at `s` out into an array of their own, and puts the first `m` items in their place. */
    method Exchange(s: nat, d: nat, items: array<T>, m: nat, init: T) returns (removed: ArrayStruct<T>)
      requires Valid() && s + d <= length && m <= items.Length && (m > 0 ==> items != data)
      modifies this, data
      ensures Valid() && (data == old(data) || fresh(data))
      ensures fresh(removed) && fresh(removed.data) && removed.data != data && removed.Valid()
      ensures Contents() == old(Contents())[..s] + old(items[..m]) + old(Contents())[s + d..]
      ensures removed.Contents() == old(Contents())[s..s + d]
    {
      ghost var was := Contents();
      var deleted := CopyOut(s, d, init);
      assert deleted[..] == was[s..s + d];
      Replace(s, d, items, m, init);
      removed := new ArrayStruct.Wrap(deleted, d);
      assert removed.Contents() == deleted[..];
    }

    method Splice(start: int, count: Arg, value: Option<ArrayStruct<T>>, init: T) returns (removed: ArrayStruct<T>)
      requires Valid()
      requires value.Some? ==> value.value.Valid() && value.value != this && value.value.data != data
      modifies this, data
      ensures Valid() && (data == old(data) || fresh(data))
      ensures fresh(removed) && fresh(removed.data) && removed.data != data && removed.Valid()
      ensures Spliced(Contents(), removed.Contents()) ==
              SpliceSeq(old(Contents()), start, count, old(ItemsOf(value)))
    {
      var items, m := data, 0;
      if value.Some? {
        items, m := value.value.data, value.value.length;
      }
      ghost var was, given := Contents(), ItemsOf(value);
      assert items[..m] == given;
      var s := ClampStart(start, length);
      var d := ClampCount(start, s, count, length);
      SpliceIs(was, start, count, given, s, d);
      removed := Exchange(s, d, items, m, init);
      assert Contents() == was[..s] + given + was[s + d..] && removed.Contents() == was[s..s + d];
    }

    method Slice(start: Arg, end: Arg, init: T) returns (r: ArrayStruct<T>)
      requires Valid()
      ensures fresh(r) && fresh(r.data) && r.Valid()
      ensures r.Contents() == SliceSeq(Contents(), start, end)
    {
      var s, e := SliceBounds(start, end, length);
      var newLen := e - s;
      newLen := if newLen < 0 then 0 else newLen;
      var newArr := new T[newLen](_ => init);
      var i := s;
      while i < e
        invariant s <= i && (i <= e || i == s)
        invariant forall k :: 0 <= k < i - s ==> newArr[k] == data[s + k]
      {
        newArr[i - s] := data[i];
        i := i + 1;
      }
      ghost var window := if s <= e then Contents()[s..e] else [];
      assert |window| == newArr.Length && forall k :: 0 <= k < |window| ==> window[k] == data[s + k];
      assert newArr[..] == window;
      r := new ArrayStruct.Wrap(newArr, newLen);
    }

    method CopyWithin(target: int, start: int, end: Arg)
      requires Valid()
      modifies data
      ensures Contents() == CopyWithinSeq(old(Contents()), target, start, EffectiveEnd(end, length))
      ensures data[length..] == old(data[length..])
    {
      var window := CopyWindow(target, start, end, length);
      if window.Some? {
        var Window(t, s, count) := window.value;
        ghost var was := Contents();
        ObjCopy(data, t, data, s, count);
        CopiedByElement(Contents(), was, t, s, count);
      }
    }

    /** One operation, with a freshly built value array where the operation takes one. */
    method Perform(op: Op<T>, init: T) returns (outcome: Outcome<T>)
      requires Valid() && Applicable(Contents(), op)
      modifies this, data
      ensures Valid() && (data == old(data) || fresh(data))
      ensures After(Contents(), outcome) == Apply(old(Contents()), op)
    {
      match op
      case Push(items) =>
        var value := new ArrayStruct(items);
        var n := Push(value, init);
        outcome := Length(n);
      case Pop =>
        ghost var was := Contents();
        var r := Pop();
        outcome := if r.Ok? then Element(r.value) else Failed;
        assert was != [] ==> Contents() == was[..|was| - 1];
      case Shift =>
        var e := Shift(init);
        outcome := Element(e);
      case Unshift(items) =>
        var value := new ArrayStruct(items);
        var n := Unshift(value, init);
        outcome := Length(n);
      case Splice(start, count, items) =>
        var value := new ArrayStruct(items);
        var removed := Splice(start, count, Some(value), init);
        outcome := Removed(removed.data[..removed.length]);
      case Reverse =>
        Reverse();
        outcome := Done;
    }

    /** Any run of operations on one array does to the struct what it does to the abstract sequence. */
    method Execute(ops: seq<Op<T>>, init: T) returns (outcomes: seq<Outcome<T>>)
      requires Valid() && AllApplicable(Contents(), ops)
      modifies this, data
      ensures Valid()
      ensures Run(Contents(), outcomes) == RunAll(old(Contents()), ops)
    {
      outcomes := [];
      var k := 0;
      ghost var start := Contents();
      while k < |ops|
        invariant k <= |ops| && Valid() && (data == old(data) || fresh(data))
        invariant AllApplicable(Contents(), ops[k..])
        invariant var rest := RunAll(Contents(), ops[k..]);
                  Run(rest.contents, outcomes + rest.outcomes) == RunAll(start, ops)
      {
        RunStep(Contents(), ops, k, outcomes);
        var outcome := Perform(ops[k], init);
        outcomes := outcomes + [outcome];
        k := k + 1;
      }
    }
  }
}
