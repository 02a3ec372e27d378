/**
 The in-place sort of the array runtime. The scans of a partition stop as soon as they meet, even on an
 element above the pivot, so the result need not be sorted; this module proves what a partition
 guarantees, that the sort permutes its range, and exactly when the result is sorted.
 */
module QuickSort {

  /** Every element is level with itself. */
  ghost predicate Reflexive<T(!new)>(cmp: (T, T) -> real) {
    forall x: T :: cmp(x, x) == 0.0
  }

  predicate AtMost<T>(cmp: (T, T) -> real, x: T, y: T) {
    cmp(x, y) <= 0.0
  }

  predicate Chained<T>(cmp: (T, T) -> real, x: T, y: T, z: T) {
    AtMost(cmp, x, y) && AtMost(cmp, y, z)
  }

  /** Turning the arguments around turns the verdict around, and `AtMost` is transitive. */
  ghost predicate TotalPreorder<T(!new)>(cmp: (T, T) -> real) {
    && (forall x: T, y: T {:trigger AtMost(cmp, x, y)} :: AtMost(cmp, x, y) <==> cmp(y, x) >= 0.0)
    && (forall x: T, y: T, z: T :: Chained(cmp, x, y, z) ==> AtMost(cmp, x, z))
  }

  // ----- scans -----

  /** Where the upward scan stops: the first index behind `i` at `j` or not below the pivot. */
  function Up<T>(cmp: (T, T) -> real, a: seq<T>, i: int, j: int, p: T): (u: int)
    requires -1 <= i < j <= |a|
    ensures i < u <= j
    ensures u < j ==> cmp(p, a[u]) <= 0.0
    decreases j - i
  {
    if i + 1 < j && cmp(p, a[i + 1]) > 0.0 then Up(cmp, a, i + 1, j, p) else i + 1
  }

  lemma {:induction false} UpPasses<T>(cmp: (T, T) -> real, a: seq<T>, i: int, j: int, p: T)
    requires -1 <= i < j <= |a|
    ensures forall k :: i < k < Up(cmp, a, i, j, p) ==> cmp(p, a[k]) > 0.0
    decreases j - i
  {
    if i + 1 < j && cmp(p, a[i + 1]) > 0.0 {
      UpPasses(cmp, a, i + 1, j, p);
    }
  }

  /** Where the downward scan stops: the first index below `j` at or below `i`, or not above the pivot. */
  function Down<T>(cmp: (T, T) -> real, a: seq<T>, i: int, j: int, p: T): (d: int)
    requires 0 <= i <= j <= |a| && 0 < j
    ensures i - 1 <= d < j && 0 <= d && (i < j ==> i <= d)
    ensures i < d ==> cmp(p, a[d]) >= 0.0
    decreases j
  {
    if i < j - 1 && cmp(p, a[j - 1]) < 0.0 then Down(cmp, a, i, j - 1, p) else j - 1
  }

  lemma {:induction false} DownPasses<T>(cmp: (T, T) -> real, a: seq<T>, i: int, j: int, p: T)
    requires 0 <= i <= j <= |a| && 0 < j
    ensures forall k :: Down(cmp, a, i, j, p) < k < j ==> i < k && cmp(p, a[k]) < 0.0
    decreases j
  {
    if i < j - 1 && cmp(p, a[j - 1]) < 0.0 {
      DownPasses(cmp, a, i, j - 1, p);
    }
  }

  // ----- one partition -----

  function Swapped<T>(a: seq<T>, i: int, j: int): (b: seq<T>)
    requires 0 <= i < |a| && 0 <= j < |a|
    ensures |b| == |a|
  {
    a[i := a[j]][j := a[i]]
  }

  datatype Cut<T> = Cut(a: seq<T>, at: int)

  /** Scans from both ends, swapping what the scans stop on; `at` is the last index of the lower part. */
  function Partition<T>(cmp: (T, T) -> real, a: seq<T>, i: int, j: int, p: T): (c: Cut<T>)
    requires -1 <= i < j <= |a| && 0 < j
    ensures |c.a| == |a|
    decreases j
  {
    var u := Up(cmp, a, i, j, p);
    var d := Down(cmp, a, u, j, p);
    if u < d then Partition(cmp, Swapped(a, u, d), u, d, p) else Cut(a, d)
  }

  /** What holds whenever the scans start over. */
  ghost predicate Scanning<T>(cmp: (T, T) -> real, a: seq<T>, l: int, r: int, i: int, j: int, p: T) {
    && 0 <= l < r < |a| && l - 1 <= i < j <= r + 1
    && (forall k :: l <= k <= i ==> cmp(p, a[k]) >= 0.0)
    && (forall k :: j <= k <= r ==> cmp(p, a[k]) <= 0.0)
    && (if i == l - 1 then j == r + 1 && cmp(p, a[(l + r) / 2]) == 0.0 else j <= r)
  }

  /** Elements before `at` are not above the pivot, elements behind it not below. */
  ghost predicate Sides<T>(cmp: (T, T) -> real, a: seq<T>, l: int, r: int, at: int, p: T) {
    && 0 <= l <= at < r < |a|
    && (forall k :: l <= k < at ==> cmp(p, a[k]) >= 0.0)
    && (forall k :: at < k <= r ==> cmp(p, a[k]) <= 0.0)
  }

  /** The upward scan stops inside the range, the first one before its last element. */
  lemma UpStaysInside<T>(cmp: (T, T) -> real, a: seq<T>, l: int, r: int, i: int, j: int, p: T)
    requires Scanning(cmp, a, l, r, i, j, p)
    ensures var u := Up(cmp, a, i, j, p); u <= r && (i == l - 1 ==> u < r)
  {
    UpPasses(cmp, a, i, j, p);
    assert i == l - 1 ==> cmp(p, a[(l + r) / 2]) == 0.0;
  }

  /** After the two scans both sides reach further, or the range is partitioned. */
  lemma ScansExtend<T>(cmp: (T, T) -> real, a: seq<T>, l: int, r: int, i: int, j: int, p: T)
    requires Scanning(cmp, a, l, r, i, j, p)
    ensures var u := Up(cmp, a, i, j, p);
            var d := Down(cmp, a, u, j, p);
            if u < d then Scanning(cmp, Swapped(a, u, d), l, r, u, d, p) else Sides(cmp, a, l, r, d, p)
  {
    UpStaysInside(cmp, a, l, r, i, j, p);
    UpPasses(cmp, a, i, j, p);
    var u := Up(cmp, a, i, j, p);
    DownPasses(cmp, a, u, j, p);
    var d := Down(cmp, a, u, j, p);
    if u < d {
      var b := Swapped(a, u, d);
      assert forall k :: 0 <= k < |a| && k != u && k != d ==> b[k] == a[k];
    }
  }

  /** `b` differs from `a` by a rearrangement of the elements at `l` to `r`. */
  ghost predicate Permutes<T>(a: seq<T>, b: seq<T>, l: int, r: int) {
    && |a| == |b|
    && multiset(a) == multiset(b)
    && forall k {:trigger b[k]} :: 0 <= k < |a| && !(l <= k <= r) ==> b[k] == a[k]
  }

  lemma SwapPermutes<T>(a: seq<T>, i: int, j: int)
    requires 0 <= i < j < |a|
    ensures multiset(Swapped(a, i, j)) == multiset(a)
  {
  }

  lemma PermutesChain<T>(a: seq<T>, b: seq<T>, c: seq<T>, l: int, r: int, m: int, n: int)
    requires Permutes(a, b, l, r) && Permutes(b, c, m, n) && l <= m && n <= r
    ensures Permutes(a, c, l, r)
  {
  }

  lemma {:induction false} PartitionPermutes<T>(cmp: (T, T) -> real, a: seq<T>, l: int, r: int, i: int, j: int, p: T)
    requires Scanning(cmp, a, l, r, i, j, p)
    ensures Permutes(a, Partition(cmp, a, i, j, p).a, l, r)
    decreases j
  {
    ScansExtend(cmp, a, l, r, i, j, p);
    var u := Up(cmp, a, i, j, p);
    var d := Down(cmp, a, u, j, p);
    if u < d {
      var b := Swapped(a, u, d);
      SwapPermutes(a, u, d);
      PartitionPermutes(cmp, b, l, r, u, d, p);
      PermutesChain(a, b, Partition(cmp, b, u, d, p).a, l, r, l, r);
    }
  }

  lemma {:induction false} PartitionSides<T>(cmp: (T, T) -> real, a: seq<T>, l: int, r: int, i: int, j: int, p: T)
    requires Scanning(cmp, a, l, r, i, j, p)
    ensures var c := Partition(cmp, a, i, j, p); Sides(cmp, c.a, l, r, c.at, p)
    decreases j
  {
    ScansExtend(cmp, a, l, r, i, j, p);
    var u := Up(cmp, a, i, j, p);
    var d := Down(cmp, a, u, j, p);
    if u < d {
      PartitionSides(cmp, Swapped(a, u, d), l, r, u, d, p);
    }
  }

  /** The partition the sort makes of a range. */
  function Split<T(!new)>(cmp: (T, T) -> real, a: seq<T>, l: int, r: int): (c: Cut<T>)
    requires Reflexive(cmp) && 0 <= l < r < |a|
    ensures |c.a| == |a| && l <= c.at < r
  {
    PartitionSides(cmp, a, l, r, l - 1, r + 1, a[(l + r) / 2]);
    Partition(cmp, a, l - 1, r + 1, a[(l + r) / 2])
  }

  /** Both parts are non-empty; up to its last element the lower one is not above the pivot, the upper one is not below it. */
  lemma SplitSides<T(!new)>(cmp: (T, T) -> real, a: seq<T>, l: int, r: int)
    requires Reflexive(cmp) && 0 <= l < r < |a|
    ensures var c := Split(cmp, a, l, r); Sides(cmp, c.a, l, r, c.at, a[(l + r) / 2])
  {
    PartitionSides(cmp, a, l, r, l - 1, r + 1, a[(l + r) / 2]);
  }

  lemma SplitPermutes<T(!new)>(cmp: (T, T) -> real, a: seq<T>, l: int, r: int)
    requires Reflexive(cmp) && 0 <= l < r < |a|
    ensures Permutes(a, Split(cmp, a, l, r).a, l, r)
  {
    PartitionPermutes(cmp, a, l, r, l - 1, r + 1, a[(l + r) / 2]);
  }

  // ----- a partition depends on its range only -----

  predicate SameRange<T(==)>(a: seq<T>, b: seq<T>, l: int, r: int)
    requires 0 <= l && r < |a| == |b|
  {
    forall k :: l <= k <= r ==> a[k] == b[k]
  }

  lemma {:induction false} UpLocal<T>(cmp: (T, T) -> real, a: seq<T>, b: seq<T>, l: int, r: int, i: int, j: int, p: T)
    requires 0 <= l && r < |a| == |b| && SameRange(a, b, l, r) && l - 1 <= i < j <= r + 1
    ensures Up(cmp, a, i, j, p) == Up(cmp, b, i, j, p)
    decreases j - i
  {
    if i + 1 < j {
      assert a[i + 1] == b[i + 1];
      UpLocal(cmp, a, b, l, r, i + 1, j, p);
    }
  }

  lemma {:induction false} DownLocal<T>(cmp: (T, T) -> real, a: seq<T>, b: seq<T>, l: int, r: int, i: int, j: int, p: T)
    requires 0 <= l && r < |a| == |b| && SameRange(a, b, l, r) && l <= i <= j <= r + 1 && 0 < j
    ensures Down(cmp, a, i, j, p) == Down(cmp, b, i, j, p)
    decreases j
  {
    if i < j - 1 {
      assert a[j - 1] == b[j - 1];
      DownLocal(cmp, a, b, l, r, i, j - 1, p);
    }
  }

  lemma {:induction false} PartitionLocal<T>(cmp: (T, T) -> real, a: seq<T>, b: seq<T>, l: int, r: int, i: int, j: int, p: T)
    requires 0 <= l && r < |a| == |b| && SameRange(a, b, l, r) && l - 1 <= i < j <= r + 1 && 0 < j
    ensures var c, d := Partition(cmp, a, i, j, p), Partition(cmp, b, i, j, p);
            c.at == d.at && SameRange(c.a, d.a, l, r)
    decreases j
  {
    UpLocal(cmp, a, b, l, r, i, j, p);
    var u := Up(cmp, a, i, j, p);
    DownLocal(cmp, a, b, l, r, u, j, p);
    var d := Down(cmp, a, u, j, p);
    if u < d {
      PartitionLocal(cmp, Swapped(a, u, d), Swapped(b, u, d), l, r, u, d, p);
    }
  }

  /** Elements outside the range do not influence where it is cut or how it is rearranged. */
  lemma SplitLocal<T(!new)>(cmp: (T, T) -> real, a: seq<T>, b: seq<T>, l: int, r: int)
    requires Reflexive(cmp) && 0 <= l < r < |a| == |b| && SameRange(a, b, l, r)
    ensures var c, d := Split(cmp, a, l, r), Split(cmp, b, l, r);
            c.at == d.at && SameRange(c.a, d.a, l, r)
  {
    PartitionLocal(cmp, a, b, l, r, l - 1, r + 1, a[(l + r) / 2]);
  }

  // ----- the whole sort -----

  type Splitting<!T> = (seq<T>, int, int) -> Cut<T>

  /** Cuts a range of at least two elements into two non-empty parts. */
  ghost predicate Splits<T(!new)>(split: Splitting<T>) {
    forall a: seq<T>, l: int, r: int :: 0 <= l < r < |a| ==>
      |split(a, l, r).a| == |a| && l <= split(a, l, r).at < r
  }

  ghost predicate Agrees<T(!new)>(cmp: (T, T) -> real, split: Splitting<T>, a: seq<T>, l: int, r: int)
    requires Reflexive(cmp)
  {
    0 <= l < r < |a| ==> split(a, l, r) == Split(cmp, a, l, r)
  }

  /** `split` is the partition for `cmp`. */
  ghost predicate Implements<T(!new)>(cmp: (T, T) -> real, split: Splitting<T>) {
    Splits(split) && Reflexive(cmp) && forall a: seq<T>, l: int, r: int :: Agrees(cmp, split, a, l, r)
  }

  function Splitter<T(!new)>(cmp: (T, T) -> real): (split: Splitting<T>)
    requires Reflexive(cmp)
    ensures Implements(cmp, split)
  {
    (a: seq<T>, l: int, r: int) => if 0 <= l < r < |a| then Split(cmp, a, l, r) else Cut(a, l)
  }

  lemma SplittingIsSplit<T(!new)>(cmp: (T, T) -> real, split: Splitting<T>, a: seq<T>, l: int, r: int)
    requires Implements(cmp, split) && 0 <= l < r < |a|
    ensures split(a, l, r) == Split(cmp, a, l, r)
  {
    assert Agrees(cmp, split, a, l, r);
  }

  lemma SplittingKeeps<T(!new)>(cmp: (T, T) -> real, split: Splitting<T>, a: seq<T>, c: Cut<T>, l: int, r: int)
    requires Implements(cmp, split) && 0 <= l < r < |a| && c == split(a, l, r)
    ensures Sides(cmp, c.a, l, r, c.at, a[(l + r) / 2]) && Permutes(a, c.a, l, r)
  {
    SplittingIsSplit(cmp, split, a, l, r);
    SplitSides(cmp, a, l, r);
    SplitPermutes(cmp, a, l, r);
  }

  lemma SplittingLocal<T(!new)>(cmp: (T, T) -> real, split: Splitting<T>, a: seq<T>, b: seq<T>, l: int, r: int)
    requires Implements(cmp, split) && 0 <= l < r < |a| == |b| && SameRange(a, b, l, r)
    ensures var c, d := split(a, l, r), split(b, l, r);
            c.at == d.at && |c.a| == |d.a| == |a| && SameRange(c.a, d.a, l, r)
  {
    SplittingIsSplit(cmp, split, a, l, r);
    SplittingIsSplit(cmp, split, b, l, r);
    SplitLocal(cmp, a, b, l, r);
  }

  function Sort<T(!new)>(split: Splitting<T>, a: seq<T>, l: int, r: int): (b: seq<T>)
    requires Splits(split) && 0 <= l <= r + 1 <= |a|
    ensures |b| == |a|
    decreases r - l
  {
    if l >= r then a
    else
      var c := split(a, l, r);
      Sort(split, Sort(split, c.a, l, c.at), c.at + 1, r)
  }

  lemma {:induction false} SortPermutes<T(!new)>(cmp: (T, T) -> real, split: Splitting<T>, a: seq<T>, l: int, r: int)
    requires Implements(cmp, split) && 0 <= l <= r + 1 <= |a|
    ensures Permutes(a, Sort(split, a, l, r), l, r)
    decreases r - l
  {
    if l < r {
      var c := split(a, l, r);
      SplittingKeeps(cmp, split, a, c, l, r);
      var lower := Sort(split, c.a, l, c.at);
      SortPermutes(cmp, split, c.a, l, c.at);
      SortPermutes(cmp, split, lower, c.at + 1, r);
      PermutesChain(a, c.a, lower, l, r, l, c.at);
      PermutesChain(a, lower, Sort(split, lower, c.at + 1, r), l, r, c.at + 1, r);
    }
  }

  // ----- when the result is sorted -----

  predicate Ordered<T>(cmp: (T, T) -> real, a: seq<T>, l: int, r: int)
    requires 0 <= l && r < |a|
  {
    forall i, j {:trigger AtMost(cmp, a[i], a[j])} :: l <= i < j <= r ==> AtMost(cmp, a[i], a[j])
  }

  /**
   At every partition, starting with the whole range and going on with the two parts
   it leaves, the element the scans end on is not above any element behind it.
   */
  ghost predicate Separating<T(!new)>(cmp: (T, T) -> real, split: Splitting<T>, a: seq<T>, l: int, r: int)
    requires Splits(split) && 0 <= l <= r + 1 <= |a|
    decreases r - l
  {
    l < r ==>
      var c := split(a, l, r);
      && EndsLow(cmp, c.a, c.at, r)
      && Separating(cmp, split, c.a, l, c.at)
      && Separating(cmp, split, c.a, c.at + 1, r)
  }

  lemma {:induction false} SeparatingLocal<T(!new)>(cmp: (T, T) -> real, split: Splitting<T>, a: seq<T>, b: seq<T>,
                                                    l: int, r: int)
    requires Implements(cmp, split) && 0 <= l <= r + 1 <= |a| == |b| && SameRange(a, b, l, r)
    ensures Separating(cmp, split, a, l, r) <==> Separating(cmp, split, b, l, r)
    decreases r - l
  {
    if l < r {
      var c, d := split(a, l, r), split(b, l, r);
      SplittingLocal(cmp, split, a, b, l, r);
      SeparatingLocal(cmp, split, c.a, d.a, l, c.at);
      SeparatingLocal(cmp, split, c.a, d.a, c.at + 1, r);
      assert EndsLow(cmp, c.a, c.at, r) == EndsLow(cmp, d.a, c.at, r) by {
        EndsLowLocal(cmp, c.a, d.a, c.at, r);
        EndsLowLocal(cmp, d.a, c.a, c.at, r);
      }
    }
  }

  lemma EndsLowLocal<T>(cmp: (T, T) -> real, a: seq<T>, b: seq<T>, at: int, r: int)
    requires 0 <= at <= r < |a| == |b| && SameRange(a, b, at, r)
    ensures EndsLow(cmp, a, at, r) ==> EndsLow(cmp, b, at, r)
  {
    if EndsLow(cmp, a, at, r) {
      forall k | at < k <= r ensures AtMost(cmp, b[at], b[k]) {
        assert AtMost(cmp, a[at], a[k]);
      }
    }
  }

  /** Sorting the lower part does not change whether the upper part separates. */
  lemma UpperPartWaits<T(!new)>(cmp: (T, T) -> real, split: Splitting<T>, a: seq<T>, l: int, at: int, r: int)
    requires Implements(cmp, split) && 0 <= l <= at <= r < |a|
    ensures Separating(cmp, split, Sort(split, a, l, at), at + 1, r) <==> Separating(cmp, split, a, at + 1, r)
  {
    SortPermutes(cmp, split, a, l, at);
    SeparatingLocal(cmp, split, Sort(split, a, l, at), a, at + 1, r);
  }

  lemma MultisetCancel<T>(x: multiset<T>, m: multiset<T>, n: multiset<T>, y: multiset<T>)
    requires x + m + y == x + n + y
    ensures m == n
  {
    forall e: T ensures m[e] == n[e] {
      assert (x + m + y)[e] == (x + n + y)[e];
    }
  }

  /** A rearrangement of a range takes every element of the range from the range. */
  lemma PermutesFinds<T>(a: seq<T>, b: seq<T>, l: int, r: int, k: int) returns (x: int)
    requires Permutes(a, b, l, r) && 0 <= l <= k <= r < |a|
    ensures l <= x <= r && a[x] == b[k]
  {
    assert a == a[..l] + a[l..r + 1] + a[r + 1..];
    assert b == b[..l] + b[l..r + 1] + b[r + 1..];
    assert a[..l] == b[..l] && a[r + 1..] == b[r + 1..];
    assert multiset(a) == multiset(a[..l] + a[l..r + 1] + a[r + 1..]);
    assert multiset(b) == multiset(b[..l] + b[l..r + 1] + b[r + 1..]);
    assert multiset(a) == multiset(a[..l]) + multiset(a[l..r + 1]) + multiset(a[r + 1..]);
    assert multiset(b) == multiset(a[..l]) + multiset(b[l..r + 1]) + multiset(a[r + 1..]);
    MultisetCancel(multiset(a[..l]), multiset(a[l..r + 1]), multiset(b[l..r + 1]), multiset(a[r + 1..]));
    assert b[k] == b[l..r + 1][k - l];
    assert b[k] in multiset(b[l..r + 1]);
    assert b[k] in a[l..r + 1];
    x :| l <= x <= r && a[x] == b[k];
  }

  lemma PermutesBack<T>(a: seq<T>, b: seq<T>, l: int, r: int)
    requires Permutes(a, b, l, r)
    ensures Permutes(b, a, l, r)
  {
  }

  /** The element the scans ended on is not above any element behind it. */
  predicate EndsLow<T>(cmp: (T, T) -> real, a: seq<T>, at: int, r: int)
    requires 0 <= at && r < |a|
  {
    forall k {:trigger AtMost(cmp, a[at], a[k])} :: at < k <= r ==> AtMost(cmp, a[at], a[k])
  }

  lemma Between<T(!new)>(cmp: (T, T) -> real, x: T, p: T, y: T)
    requires TotalPreorder(cmp) && cmp(p, x) >= 0.0 && cmp(p, y) <= 0.0
    ensures AtMost(cmp, x, y)
  {
    assert AtMost(cmp, x, p) <==> cmp(p, x) >= 0.0;
    assert Chained(cmp, x, p, y);
  }

  /** A partition that ends low separates the parts. */
  lemma PartsSeparated<T(!new)>(cmp: (T, T) -> real, a: seq<T>, l: int, at: int, r: int, p: T)
    requires TotalPreorder(cmp) && 0 <= l <= at < r < |a| && Sides(cmp, a, l, r, at, p) && EndsLow(cmp, a, at, r)
    ensures forall x, y :: l <= x <= at < y <= r ==> AtMost(cmp, a[x], a[y])
  {
    forall x, y | l <= x <= at < y <= r ensures AtMost(cmp, a[x], a[y]) {
      if x < at {
        Between(cmp, a[x], p, a[y]);
      }
    }
  }

  lemma GluedIsSorted<T>(cmp: (T, T) -> real, a: seq<T>, lower: seq<T>, b: seq<T>, l: int, at: int, r: int)
    requires 0 <= l <= at < r < |a| && Permutes(a, lower, l, at) && Permutes(lower, b, at + 1, r)
    requires forall x, y :: l <= x <= at < y <= r ==> AtMost(cmp, a[x], a[y])
    requires Ordered(cmp, lower, l, at) && Ordered(cmp, b, at + 1, r)
    ensures Ordered(cmp, b, l, r)
  {
    forall i, j | l <= i < j <= r ensures AtMost(cmp, b[i], b[j]) {
      if i <= at < j {
        var x := PermutesFinds(a, lower, l, at, i);
        var y := PermutesFinds(lower, b, at + 1, r, j);
        assert AtMost(cmp, a[x], a[y]);
      }
    }
  }

  lemma SortedIsSeparated<T>(cmp: (T, T) -> real, a: seq<T>, lower: seq<T>, b: seq<T>, l: int, at: int, r: int)
    requires 0 <= l <= at < r < |a| && Permutes(a, lower, l, at) && Permutes(lower, b, at + 1, r)
    requires Ordered(cmp, b, l, r)
    ensures EndsLow(cmp, a, at, r) && Ordered(cmp, lower, l, at) && Ordered(cmp, b, at + 1, r)
  {
    PermutesBack(a, lower, l, at);
    PermutesBack(lower, b, at + 1, r);
    var x := PermutesFinds(lower, a, l, at, at);
    forall k | at < k <= r ensures AtMost(cmp, a[at], a[k]) {
      var y := PermutesFinds(b, lower, at + 1, r, k);
      assert AtMost(cmp, b[x], b[y]);
    }
  }

  /** Two sorted parts make a sorted range exactly when the partition separated them. */
  lemma GluedIffSeparated<T(!new)>(cmp: (T, T) -> real, a: seq<T>, lower: seq<T>, b: seq<T>,
                                   l: int, at: int, r: int, p: T)
    requires TotalPreorder(cmp) && 0 <= l <= at < r < |a| && Sides(cmp, a, l, r, at, p)
    requires Permutes(a, lower, l, at) && Permutes(lower, b, at + 1, r)
    ensures Ordered(cmp, b, l, r) <==>
            EndsLow(cmp, a, at, r) && Ordered(cmp, lower, l, at) && Ordered(cmp, b, at + 1, r)
  {
    if Ordered(cmp, b, l, r) {
      SortedIsSeparated(cmp, a, lower, b, l, at, r);
    }
    if EndsLow(cmp, a, at, r) && Ordered(cmp, lower, l, at) && Ordered(cmp, b, at + 1, r) {
      PartsSeparated(cmp, a, l, at, r, p);
      GluedIsSorted(cmp, a, lower, b, l, at, r);
    }
  }

  /** One level of the sort. */
  lemma PartsSorted<T(!new)>(cmp: (T, T) -> real, split: Splitting<T>, a: seq<T>, c: Cut<T>, lower: seq<T>, b: seq<T>,
                             l: int, r: int)
    requires TotalPreorder(cmp) && Implements(cmp, split) && 0 <= l < r < |a| && c == split(a, l, r)
    requires lower == Sort(split, c.a, l, c.at) && b == Sort(split, lower, c.at + 1, r)
    ensures Ordered(cmp, b, l, r) <==>
            EndsLow(cmp, c.a, c.at, r) && Ordered(cmp, lower, l, c.at) && Ordered(cmp, b, c.at + 1, r)
  {
    SplittingKeeps(cmp, split, a, c, l, r);
    SortPermutes(cmp, split, c.a, l, c.at);
    SortPermutes(cmp, split, lower, c.at + 1, r);
    GluedIffSeparated(cmp, c.a, lower, b, l, c.at, r, a[(l + r) / 2]);
  }

  lemma {:induction false} SortedIfSeparating<T(!new)>(cmp: (T, T) -> real, split: Splitting<T>, a: seq<T>, l: int, r: int)
    requires TotalPreorder(cmp) && Implements(cmp, split) && 0 <= l <= r + 1 <= |a|
    requires Separating(cmp, split, a, l, r)
    ensures Ordered(cmp, Sort(split, a, l, r), l, r)
    decreases r - l
  {
    if l < r {
      var c := split(a, l, r);
      var lower := Sort(split, c.a, l, c.at);
      UpperPartWaits(cmp, split, c.a, l, c.at, r);
      SortedIfSeparating(cmp, split, c.a, l, c.at);
      SortedIfSeparating(cmp, split, lower, c.at + 1, r);
      PartsSorted(cmp, split, a, c, lower, Sort(split, lower, c.at + 1, r), l, r);
    }
  }

  lemma {:induction false} SeparatingIfSorted<T(!new)>(cmp: (T, T) -> real, split: Splitting<T>, a: seq<T>, l: int, r: int)
    requires TotalPreorder(cmp) && Implements(cmp, split) && 0 <= l <= r + 1 <= |a|
    requires Ordered(cmp, Sort(split, a, l, r), l, r)
    ensures Separating(cmp, split, a, l, r)
    decreases r - l
  {
    if l < r {
      var c := split(a, l, r);
      var lower := Sort(split, c.a, l, c.at);
      PartsSorted(cmp, split, a, c, lower, Sort(split, lower, c.at + 1, r), l, r);
      UpperPartWaits(cmp, split, c.a, l, c.at, r);
      SeparatingIfSorted(cmp, split, c.a, l, c.at);
      SeparatingIfSorted(cmp, split, lower, c.at + 1, r);
    }
  }

  /** For every total preorder the result is sorted exactly when every partition separated. */
  lemma SortedIffSeparating<T(!new)>(cmp: (T, T) -> real, a: seq<T>)
    requires Reflexive(cmp) && TotalPreorder(cmp)
    ensures var split := Splitter(cmp);
            Ordered(cmp, Sort(split, a, 0, |a| - 1), 0, |a| - 1) <==> Separating(cmp, split, a, 0, |a| - 1)
  {
    var split := Splitter(cmp);
    if Separating(cmp, split, a, 0, |a| - 1) {
      SortedIfSeparating(cmp, split, a, 0, |a| - 1);
    }
    if Ordered(cmp, Sort(split, a, 0, |a| - 1), 0, |a| - 1) {
      SeparatingIfSorted(cmp, split, a, 0, |a| - 1);
    }
  }

  function ByValue(x: int, y: int): real { (x - y) as real }

  /** The scans of the first partition meet on the 5, with the pivot 2 behind it. */
  lemma MeetsAbovePivot(a: seq<int>)
    requires a == [1, 2, 5, 0]
    ensures Split(ByValue, a, 0, 3) == Cut([1, 0, 5, 2], 2)
  {
    assert Up(ByValue, a, -1, 4, 2) == Up(ByValue, a, 0, 4, 2) == 1;
    assert Down(ByValue, a, 1, 4, 2) == 3;
    var b := Swapped(a, 1, 3);
    assert b == [1, 0, 5, 2];
    assert Up(ByValue, b, 1, 3, 2) == 2;
    assert Down(ByValue, b, 2, 3, 2) == 2;
    assert Partition(ByValue, b, 1, 3, 2) == Cut(b, 2);
  }

  lemma ByValueIsTotal()
    ensures Reflexive(ByValue) && TotalPreorder(ByValue)
  {
  }

  /** Not every input comes out sorted. */
  lemma UnsortedResult(split: Splitting<int>, a: seq<int>)
    requires Implements(ByValue, split) && a == [1, 2, 5, 0]
    ensures TotalPreorder(ByValue) && !Ordered(ByValue, Sort(split, a, 0, 3), 0, 3)
  {
    ByValueIsTotal();
    SplittingIsSplit(ByValue, split, a, 0, 3);
    MeetsAbovePivot(a);
    var c := split(a, 0, 3);
    assert !AtMost(ByValue, c.a[2], c.a[3]);
    assert !EndsLow(ByValue, c.a, c.at, 3);
    if Ordered(ByValue, Sort(split, a, 0, 3), 0, 3) {
      SeparatingIfSorted(ByValue, split, a, 0, 3);
    }
  }

  // ----- the in-place code -----

  /** The upward scan; every element it reads lies inside the array. */
  method ScanUp<T>(cmp: (T, T) -> real, a: array<T>, from: int, j: int, p: T) returns (i: int)
    requires -1 <= from < j <= a.Length && Up(cmp, a[..], from, j, p) < a.Length
    ensures i == Up(cmp, a[..], from, j, p)
  {
    i := from + 1;
    var c := cmp(p, a[i]);
    while i < j && c > 0.0
      invariant from < i <= j && i < a.Length && c == cmp(p, a[i])
      invariant Up(cmp, a[..], i - 1, j, p) == Up(cmp, a[..], from, j, p)
    {
      i := i + 1;
      c := cmp(p, a[i]);
    }
  }

  method ScanDown<T>(cmp: (T, T) -> real, a: array<T>, i: int, from: int, p: T) returns (j: int)
    requires 0 <= i <= from && 0 < from <= a.Length
    ensures j == Down(cmp, a[..], i, from, p)
  {
    j := from - 1;
    var c := cmp(p, a[j]);
    while i < j && c < 0.0
      invariant i - 1 <= j < from && 0 <= j && c == cmp(p, a[j])
      invariant j == from - 1 || i <= j
      invariant Down(cmp, a[..], i, j + 1, p) == Down(cmp, a[..], i, from, p)
    {
      j := j - 1;
      c := cmp(p, a[j]);
    }
  }

  /** Both scans and the swap. */
  method Round<T(!new)>(cmp: (T, T) -> real, a: array<T>, l: int, r: int, from: int, to: int, p: T)
    returns (i: int, j: int)
    requires Scanning(cmp, a[..], l, r, from, to, p)
    modifies a
    ensures j < to
    ensures if i < j then Scanning(cmp, a[..], l, r, i, j, p)
                          && Partition(cmp, a[..], i, j, p) == Partition(cmp, old(a[..]), from, to, p)
            else Cut(a[..], j) == Partition(cmp, old(a[..]), from, to, p)
  {
    ghost var s := a[..];
    UpStaysInside(cmp, s, l, r, from, to, p);
    ScansExtend(cmp, s, l, r, from, to, p);
    i := ScanUp(cmp, a, from, to, p);
    j := ScanDown(cmp, a, i, to, p);
    if i < j {
      a[i], a[j] := a[j], a[i];
      assert a[..] == Swapped(s, i, j);
    }
  }

  method PartitionInPlace<T(!new)>(cmp: (T, T) -> real, a: array<T>, l: int, r: int) returns (j: int)
    requires Reflexive(cmp) && 0 <= l < r < a.Length
    modifies a
    ensures Cut(a[..], j) == Split(cmp, old(a[..]), l, r)
  {
    var i := l - 1;
    j := r + 1;
    var p := a[(l + r) / 2];
    ghost var target := Split(cmp, a[..], l, r);
    while i < j
      invariant i < j ==> Scanning(cmp, a[..], l, r, i, j, p)
                          && Partition(cmp, a[..], i, j, p) == target
      invariant i >= j ==> Cut(a[..], j) == target
      decreases j
    {
      i, j := Round(cmp, a, l, r, i, j, p);
    }
  }

  method QuickSortInPlace<T(!new)>(cmp: (T, T) -> real, ghost split: Splitting<T>, a: array<T>, l: int, r: int)
    requires Implements(cmp, split) && 0 <= l <= r + 1 <= a.Length
    modifies a
    ensures a[..] == Sort(split, old(a[..]), l, r)
    decreases r - l
  {
    if l >= r {
      return;
    }
    ghost var c := split(a[..], l, r);
    SplittingIsSplit(cmp, split, a[..], l, r);
    var j := PartitionInPlace(cmp, a, l, r);
    assert Cut(a[..], j) == c;
    QuickSortInPlace(cmp, split, a, l, j);
    ghost var lower := a[..];
    assert lower == Sort(split, c.a, l, c.at);
    QuickSortInPlace(cmp, split, a, j + 1, r);
  }

  /** The elements behind the length of the array stay as they are. */
  method SortArray<T(!new)>(cmp: (T, T) -> real, a: array<T>, length: nat)
    requires Reflexive(cmp) && length <= a.Length
    modifies a
    ensures a[..] == Sort(Splitter(cmp), old(a[..]), 0, length - 1)
    ensures Permutes(old(a[..]), a[..], 0, length - 1)
  {
    ghost var was, split := a[..], Splitter(cmp);
    SortPermutes(cmp, split, was, 0, length - 1);
    QuickSortInPlace(cmp, split, a, 0, length - 1);
  }
}
