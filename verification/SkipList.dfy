// The randomised skip list of pkg/skiplist: an ordered list of nodes in which a node of
// height h takes part in the chains of levels 0..h-1.  The class keeps its abstract value,
// the strictly sorted sequence of stored values, in the ghost field `contents`.

module Sorting {

  import opened Wrappers

  // A marker that gives the transitivity laws below a trigger the proofs control.
  ghost predicate Chain<T>(a: T, b: T, c: T) { true }

  // The laws a three-way comparison callback obeys.  Values that compare as equal need not
  // be identical: two versions of an order with the same key differ in their remainder.
  ghost predicate ThreeWay<T(!new)>(cmp: (T, T) -> int) {
    && (forall a, b {:trigger cmp(a, b)} :: cmp(a, b) < 0 <==> 0 < cmp(b, a))
    && (forall a {:trigger cmp(a, a)} :: cmp(a, a) == 0)
    && (forall a, b, c {:trigger Chain(a, b, c)} ::
          Chain(a, b, c) && cmp(a, b) <= 0 && cmp(b, c) < 0 ==> cmp(a, c) < 0)
    && (forall a, b, c {:trigger Chain(a, b, c)} ::
          Chain(a, b, c) && cmp(a, b) < 0 && cmp(b, c) <= 0 ==> cmp(a, c) < 0)
  }

  ghost predicate Sorted<T>(cmp: (T, T) -> int, s: seq<T>) {
    forall i, j :: 0 <= i < j < |s| ==> cmp(s[i], s[j]) < 0
  }

  // How many leading elements are smaller than v.
  function Position<T>(cmp: (T, T) -> int, s: seq<T>, v: T): (p: nat)
    ensures p <= |s|
  {
    if s == [] || cmp(s[0], v) >= 0 then 0 else 1 + Position(cmp, s[1..], v)
  }

  // Insertion: an element with the same key is overwritten.
  function Put<T>(cmp: (T, T) -> int, s: seq<T>, v: T): seq<T> {
    var p := Position(cmp, s, v);
    if p < |s| && cmp(s[p], v) == 0 then s[p := v] else s[..p] + [v] + s[p..]
  }

  // Deletion by key; a missing key leaves the sequence alone.
  function Remove<T>(cmp: (T, T) -> int, s: seq<T>, v: T): seq<T> {
    var p := Position(cmp, s, v);
    if p < |s| && cmp(s[p], v) == 0 then s[..p] + s[p + 1..] else s
  }

  // Lookup by key.
  function Find<T>(cmp: (T, T) -> int, s: seq<T>, v: T): Option<T> {
    var p := Position(cmp, s, v);
    if p < |s| && cmp(s[p], v) == 0 then Some(s[p]) else None
  }

  lemma {:induction false} PositionSplits<T(!new)>(cmp: (T, T) -> int, s: seq<T>, v: T)
    requires ThreeWay(cmp) && Sorted(cmp, s)
    ensures forall j :: 0 <= j < |s| ==> (cmp(s[j], v) < 0 <==> j < Position(cmp, s, v))
    ensures forall j :: Position(cmp, s, v) < j < |s| ==> cmp(s[j], v) > 0
  {
    if s == [] {
    } else if cmp(s[0], v) >= 0 {
      forall j | 0 < j < |s| ensures cmp(s[j], v) > 0 {
        assert Chain(v, s[0], s[j]);
      }
    } else {
      PositionSplits(cmp, s[1..], v);
      forall j | 0 <= j < |s| ensures cmp(s[j], v) < 0 <==> j < Position(cmp, s, v) {
        if j > 0 { assert s[j] == s[1..][j - 1]; }
      }
      forall j | Position(cmp, s, v) < j < |s| ensures cmp(s[j], v) > 0 {
        assert s[j] == s[1..][j - 1];
      }
    }
  }

  // Replacing, inserting or deleting at the position found keeps the order.
  lemma PutSorted<T(!new)>(cmp: (T, T) -> int, s: seq<T>, v: T)
    requires ThreeWay(cmp) && Sorted(cmp, s)
    ensures Sorted(cmp, Put(cmp, s, v))
  {
    var p := Position(cmp, s, v);
    var q := if p < |s| && cmp(s[p], v) == 0 then p + 1 else p;
    assert Put(cmp, s, v) == s[..p] + [v] + s[q..];
    CutSorted(cmp, s, p, q);
    assert forall i :: 0 <= i < p ==> cmp(s[i], v) < 0 by { PositionSplits(cmp, s, v); }
    assert forall i :: q <= i < |s| ==> cmp(v, s[i]) < 0 by { PositionSplits(cmp, s, v); }
    SplicedSorted(cmp, s[..p], v, s[q..]);
  }

  lemma CutSorted<T>(cmp: (T, T) -> int, s: seq<T>, p: nat, q: nat)
    requires Sorted(cmp, s) && p <= q <= |s|
    ensures Sorted(cmp, s[..p] + s[q..])
  {
  }

  lemma SplicedSorted<T>(cmp: (T, T) -> int, a: seq<T>, v: T, b: seq<T>)
    requires Sorted(cmp, a + b)
    requires forall i :: 0 <= i < |a| ==> cmp(a[i], v) < 0
    requires forall i :: 0 <= i < |b| ==> cmp(v, b[i]) < 0
    ensures Sorted(cmp, a + [v] + b)
  {
    var r := a + [v] + b;
    forall i, j | 0 <= i < j < |r| ensures cmp(r[i], r[j]) < 0 {
      if i == |a| {
        assert r[j] == b[j - |a| - 1];
      } else if j == |a| {
        assert r[i] == a[i];
      } else {
        assert r[i] == (a + b)[if i < |a| then i else i - 1];
        assert r[j] == (a + b)[if j < |a| then j else j - 1];
      }
    }
  }

  lemma RemoveSorted<T(!new)>(cmp: (T, T) -> int, s: seq<T>, v: T)
    requires Sorted(cmp, s)
    ensures Sorted(cmp, Remove(cmp, s, v))
  {
  }

  lemma PartsMember<T>(s: seq<T>, p: nat, q: nat, m: seq<T>, x: T)
    requires p <= q <= |s| && q <= p + 1
    ensures x in s[..p] + m + s[q..] <==> x in s[..p] || x in m || x in s[q..]
    ensures x in s <==> x in s[..p] || (p < q && x == s[p]) || x in s[q..]
  {
  }

  lemma KeyDiffers<T(!new)>(cmp: (T, T) -> int, s: seq<T>, v: T, x: T)
    requires ThreeWay(cmp) && Sorted(cmp, s)
    ensures var p := Position(cmp, s, v);
            (x in s[..p] ==> cmp(x, v) != 0) && (p < |s| && x in s[p + 1..] ==> cmp(x, v) != 0)
  {
    PositionSplits(cmp, s, v);
  }

  // Put, Remove and Find are the operations of a set of keys: what they return is fixed by
  // membership, and the order is kept.
  lemma PutIsSetInsert<T(!new)>(cmp: (T, T) -> int, s: seq<T>, v: T, x: T)
    requires ThreeWay(cmp) && Sorted(cmp, s)
    ensures x in Put(cmp, s, v) <==> x == v || (x in s && cmp(x, v) != 0)
  {
    var p := Position(cmp, s, v);
    var q := if p < |s| && cmp(s[p], v) == 0 then p + 1 else p;
    assert Put(cmp, s, v) == s[..p] + [v] + s[q..];
    PartsMember(s, p, q, [v], x);
    KeyDiffers(cmp, s, v, x);
    if p < |s| && q == p { PartsMember(s, p, p + 1, [v], x); }
  }

  lemma RemoveIsSetDelete<T(!new)>(cmp: (T, T) -> int, s: seq<T>, v: T, x: T)
    requires ThreeWay(cmp) && Sorted(cmp, s)
    ensures x in Remove(cmp, s, v) <==> x in s && cmp(x, v) != 0
  {
    var p := Position(cmp, s, v);
    KeyDiffers(cmp, s, v, x);
    if p < |s| {
      PartsMember(s, p, p + 1, [], x);
      assert s[..p] + [] + s[p + 1..] == s[..p] + s[p + 1..];
    } else {
      assert s[..p] == s;
    }
  }

  lemma FindIsSetMember<T(!new)>(cmp: (T, T) -> int, s: seq<T>, v: T, x: T)
    requires ThreeWay(cmp) && Sorted(cmp, s)
    ensures Find(cmp, s, v) == Some(x) <==> x in s && cmp(x, v) == 0
  {
    PositionSplits(cmp, s, v);
    if x in s && cmp(x, v) == 0 {
      var k :| 0 <= k < |s| && s[k] == x;
      assert k == Position(cmp, s, v);
    }
  }

  datatype Op<T> = Ins(value: T) | Del(value: T)

  // The sequence, and the set of values with pairwise different keys, after a run of operations.
  function Run<T>(cmp: (T, T) -> int, ops: seq<Op<T>>): seq<T> {
    if ops == [] then []
    else
      var s := Run(cmp, ops[..|ops| - 1]);
      match ops[|ops| - 1] case Ins(v) => Put(cmp, s, v) case Del(v) => Remove(cmp, s, v)
  }

  ghost function SetRun<T>(cmp: (T, T) -> int, ops: seq<Op<T>>): set<T> {
    if ops == [] then {}
    else
      var o := ops[|ops| - 1];
      var kept := set x | x in SetRun(cmp, ops[..|ops| - 1]) && cmp(x, o.value) != 0;
      if o.Ins? then kept + {o.value} else kept
  }

  lemma {:induction false} RunIsSetRun<T(!new)>(cmp: (T, T) -> int, ops: seq<Op<T>>)
    requires ThreeWay(cmp)
    ensures Sorted(cmp, Run(cmp, ops))
    ensures forall x :: x in Run(cmp, ops) <==> x in SetRun(cmp, ops)
  {
    if ops != [] {
      var before, o := ops[..|ops| - 1], ops[|ops| - 1];
      RunIsSetRun(cmp, before);
      var s := Run(cmp, before);
      PutSorted(cmp, s, o.value);
      RemoveSorted(cmp, s, o.value);
      forall x ensures x in Run(cmp, ops) <==> x in SetRun(cmp, ops) {
        PutIsSetInsert(cmp, s, o.value, x);
        RemoveIsSetDelete(cmp, s, o.value, x);
      }
    }
  }

  // A strictly sorted sequence is determined by its elements.
  lemma {:induction false} SortedIsUnique<T(!new)>(cmp: (T, T) -> int, s: seq<T>, t: seq<T>)
    requires ThreeWay(cmp) && Sorted(cmp, s) && Sorted(cmp, t)
    requires forall x :: x in s <==> x in t
    ensures s == t
  {
    assert |s| > 0 ==> s[0] in s;
    assert |t| > 0 ==> t[0] in t;
    if s != [] && t != [] {
      var i :| 0 <= i < |t| && t[i] == s[0];
      var j :| 0 <= j < |s| && s[j] == t[0];
      assert i == 0;
      forall x ensures x in s[1..] <==> x in t[1..] {
        TailMember(cmp, s, x);
        TailMember(cmp, t, x);
      }
      SortedIsUnique(cmp, s[1..], t[1..]);
    }
  }

  lemma TailMember<T(!new)>(cmp: (T, T) -> int, s: seq<T>, x: T)
    requires ThreeWay(cmp) && Sorted(cmp, s) && s != []
    ensures x in s[1..] <==> x in s && x != s[0]
  {
  }
}

// Heights and links.  Node k of the list (node 0 is the head) has height h[k]; its link at
// level i goes to the next node that is taller than i.
module Towers {

  const MAX_LEVEL: nat := 16

  function Next(h: seq<nat>, k: nat, i: nat): (r: nat)
    requires k < |h|
    ensures k < r <= |h|
    decreases |h| - k
  {
    if k + 1 == |h| then |h| else if h[k + 1] > i then k + 1 else Next(h, k + 1, i)
  }

  // The link goes to the least taller node further on.
  lemma NextIsLeast(h: seq<nat>, k: nat, i: nat)
    requires k < |h|
    ensures forall m :: k < m < Next(h, k, i) ==> h[m] <= i
    ensures Next(h, k, i) < |h| ==> h[Next(h, k, i)] > i
    decreases |h| - k
  {
    if k + 1 < |h| && h[k + 1] <= i { NextIsLeast(h, k + 1, i); }
  }

  lemma NextIsUnique(h: seq<nat>, k: nat, i: nat, r: nat)
    requires k < r <= |h|
    requires forall m :: k < m < r ==> h[m] <= i
    requires r < |h| ==> h[r] > i
    ensures Next(h, k, i) == r
  {
    NextIsLeast(h, k, i);
    var n := Next(h, k, i);
    assert !(n < r) && !(r < n);
  }

  ghost predicate Bounded(h: seq<nat>, level: nat) {
    forall k :: 0 < k < |h| ==> 1 <= h[k] <= level
  }

  // `level` is the greatest height in use among the data nodes, at least 1.
  ghost predicate Measured(h: seq<nat>, level: nat) {
    && |h| > 0 && h[0] == MAX_LEVEL
    && 1 <= level <= MAX_LEVEL
    && Bounded(h, level)
    && (level > 1 ==> Next(h, 0, level - 1) < |h|)
  }

  lemma MeasuredGrown(h: seq<nat>, level: nat, p: nat, x: nat)
    requires Measured(h, level) && 0 < p <= |h| && 1 <= x <= MAX_LEVEL
    ensures Measured(Grown(h, p, x), if x > level then x else level)
  {
    var top := if x > level then x else level;
    GrownBounded(h, p, x, level, top);
    if top > 1 {
      NextIsLeast(h, 0, top - 1);
      NextGrown(h, p, x, 0, top - 1);
    }
  }

  lemma GrownBounded(h: seq<nat>, p: nat, x: nat, level: nat, top: nat)
    requires 0 < p <= |h| && 1 <= x <= top && level <= top && Bounded(h, level)
    ensures Bounded(Grown(h, p, x), top)
  {
  }

  lemma ShrunkBounded(h: seq<nat>, level: nat, p: nat)
    requires 0 < p < |h| && Bounded(h, level)
    ensures Bounded(h[..p] + h[p + 1..], level)
  {
  }

  function Grown(h: seq<nat>, p: nat, x: nat): seq<nat>
    requires p <= |h|
  {
    h[..p] + [x] + h[p..]
  }

  // How the links change when a node of height x is spliced in at index p > 0.
  lemma NextGrown(h: seq<nat>, p: nat, x: nat, k: nat, i: nat)
    requires 0 < p <= |h| && k < |h|
    ensures k < p && Next(h, k, i) < p ==> Next(Grown(h, p, x), k, i) == Next(h, k, i)
    ensures k < p <= Next(h, k, i) && i < x ==> Next(Grown(h, p, x), k, i) == p
    ensures k < p <= Next(h, k, i) && x <= i ==> Next(Grown(h, p, x), k, i) == Next(h, k, i) + 1
    ensures k < p <= Next(h, k, i) ==> Next(Grown(h, p, x), p, i) == Next(h, k, i) + 1
    ensures p <= k ==> Next(Grown(h, p, x), k + 1, i) == Next(h, k, i) + 1
  {
    var g, n := Grown(h, p, x), Next(h, k, i);
    NextIsLeast(h, k, i);
    assert forall m :: 0 <= m < p ==> g[m] == h[m];
    assert forall m :: p < m < |g| ==> g[m] == h[m - 1];
    if k < p && n < p {
      NextIsUnique(g, k, i, n);
    } else if k < p {
      NextIsUnique(g, k, i, if i < x then p else n + 1);
      NextIsUnique(g, p, i, n + 1);
    } else {
      NextIsUnique(g, k + 1, i, n + 1);
    }
  }

  // How the links change when the node at index p > 0 is taken out.
  lemma NextShrunk(h: seq<nat>, p: nat, k: nat, i: nat)
    requires 0 < p < |h| && k < |h| && k != p
    ensures k < p && Next(h, k, i) < p ==> Next(h[..p] + h[p + 1..], k, i) == Next(h, k, i)
    ensures k < p && Next(h, k, i) == p ==> Next(h[..p] + h[p + 1..], k, i) == Next(h, p, i) - 1
    ensures k < p < Next(h, k, i) ==> Next(h[..p] + h[p + 1..], k, i) == Next(h, k, i) - 1
    ensures p < k ==> Next(h[..p] + h[p + 1..], k - 1, i) == Next(h, k, i) - 1
  {
    var g, n := h[..p] + h[p + 1..], Next(h, k, i);
    NextIsLeast(h, k, i);
    NextIsLeast(h, p, i);
    assert forall m :: 0 <= m < p ==> g[m] == h[m];
    assert forall m :: p <= m < |g| ==> g[m] == h[m + 1];
    if k < p && n < p {
      NextIsUnique(g, k, i, n);
    } else if k < p {
      NextIsUnique(g, k, i, (if n == p then Next(h, p, i) else n) - 1);
    } else {
      NextIsUnique(g, k - 1, i, n - 1);
    }
  }

  // On each level i < n, at[i] is the last node before index p.
  ghost predicate LastBefore(h: seq<nat>, p: nat, at: seq<nat>, n: nat) {
    && p <= |h| && n <= |at|
    && (forall i :: 0 <= i < n ==> at[i] < p <= Next(h, at[i], i) && h[at[i]] > i)
  }

  // The chain of level i below index p has one last node.
  lemma LastBeforeIsUnique(h: seq<nat>, p: nat, i: nat, a: nat, b: nat)
    requires a < p <= |h| && b < p
    requires h[a] > i && h[b] > i
    requires Next(h, a, i) >= p && Next(h, b, i) >= p
    ensures a == b
  {
    NextIsLeast(h, a, i);
    NextIsLeast(h, b, i);
  }
}

module SkipLists {
  import opened Sorting
  import opened Wrappers
  import opened Towers

  class SkipNode<T(0)> {
    var value: T
    var forward: seq<SkipNode?<T>>

    constructor (value: T, levels: nat)
      ensures this.value == value && |forward| == levels
      ensures forall i :: 0 <= i < levels ==> forward[i] == null
    {
      this.value := value;
      this.forward := seq(levels, _ => null);
    }
  }

  ghost predicate Distinct<T>(s: seq<T>) {
    forall j, k :: 0 <= j < k < |s| ==> s[j] != s[k]
  }

  // On each level i < n, update[i] is the last node before index p; it is node at[i].
  ghost predicate Predecessors<T(0)>(nodes: seq<SkipNode<T>>, h: seq<nat>, p: nat,
                                     update: seq<SkipNode<T>>, at: seq<nat>, n: nat)
  {
    && |h| == |nodes| && |at| == |update|
    && LastBefore(h, p, at, n)
    && (forall i :: 0 <= i < n ==> update[i] == nodes[at[i]])
  }

  ghost predicate Inside(z: int) { true }

  // The node at an index of the list, null past the end.
  ghost function At<T(0)>(nodes: seq<SkipNode<T>>, j: nat): SkipNode?<T> {
    if j < |nodes| then nodes[j] else null
  }

  class SkipList<T(0,!new)> {
    const compare: (T, T) -> int
    var level: nat
    var length: nat
    var head: SkipNode<T>

    ghost var contents: seq<T>             // the abstract value
    ghost var nodes: seq<SkipNode<T>>      // the head followed by the data nodes in order
    ghost var heights: seq<nat>            // the height of each of these nodes
    ghost var Repr: set<object>

    ghost predicate Shape()
      reads this`head, this`contents, this`nodes, this`heights, (set n | n in nodes)`value
    {
      && |nodes| == |heights| == |contents| + 1
      && nodes[0] == head && heights[0] == MAX_LEVEL
      && Distinct(nodes)
      && (forall k :: 0 < k < |nodes| ==> nodes[k].value == contents[k - 1])
    }

    // The linked structure, whatever the order of the values.
    ghost predicate Intact()
      reads this, Repr
    {
      && this in Repr && (forall n :: n in nodes ==> n in Repr)
      && Shape()
      && Links(nodes, heights)
      && Measured(heights, level)
      && length == |contents|
    }

    ghost predicate Consistent()
      reads this, Repr
    {
      && Intact()
      && ThreeWay(compare)
      && Sorted(compare, contents)
    }

    // Clients carry the invariant around without unfolding it: only where the marker Inside
    // is asserted does it open up to Consistent().
    ghost predicate Valid()
      reads this, Repr
      ensures Valid() ==> this in Repr
    {
      && this in Repr && |nodes| == |contents| + 1 && nodes[0] == head
      && (forall z {:trigger Inside(z)} :: Inside(z) ==> Consistent())
    }

    constructor (compare: (T, T) -> int)
      requires ThreeWay(compare)
      ensures Valid() && fresh(Repr)
      ensures this.compare == compare && contents == []
    {
      this.compare := compare;
      level, length := 1, 0;
      var unused: T := *;
      var h := new SkipNode(unused, MAX_LEVEL);
      head := h;
      contents, nodes, heights := [], [h], [MAX_LEVEL];
      Repr := {this, h};
    }

    // No data node is the head.
    lemma NotHead(k: nat)
      requires Valid() && 0 < k < |nodes|
      ensures nodes[k] != head
    {
      assert Inside(0);
    }

    // A coin decides, level by level, whether a new node grows.
    method RandomLevel() returns (lvl: nat)
      ensures 1 <= lvl <= MAX_LEVEL
    {
      lvl := 1;
      var grow: bool := *;
      while grow && lvl < MAX_LEVEL
        invariant 1 <= lvl <= MAX_LEVEL
        decreases MAX_LEVEL - lvl
      {
        lvl := lvl + 1;
        grow := *;
      }
    }

    // The descent shared by Insert, Search and Delete: on every level, the last node whose
    // value is smaller than v.
    method Descend(v: T) returns (update: seq<SkipNode<T>>, ghost at: seq<nat>)
      requires Consistent()
      ensures Predecessors(nodes, heights, Position(compare, contents, v) + 1, update, at, level)
      ensures |update| == level && at[0] == Position(compare, contents, v)
    {
      ghost var p := Position(compare, contents, v);
      PositionSplits(compare, contents, v);
      var current: SkipNode<T> := head;
      update := seq(level, _ => current);
      at := seq(level, _ => 0);
      ghost var c: nat := 0;
      var i := level;
      while i > 0
        invariant 0 <= i <= level == |update| == |at|
        invariant c <= p < |nodes| && current == nodes[c] && heights[c] >= i
        invariant forall l :: i <= l < level ==>
                    at[l] <= p < Next(heights, at[l], l) && update[l] == nodes[at[l]] && heights[at[l]] > l
      {
        i := i - 1;
        while current.forward[i] != null && compare(current.forward[i].value, v) < 0
          invariant c <= p < |nodes| && current == nodes[c] && heights[c] > i
          decreases |nodes| - c
        {
          NextIsLeast(heights, c, i);
          c := Next(heights, c, i);
          current := current.forward[i];
        }
        update := update[i := current];
        at := at[i := c];
      }
      assert heights[at[0]] > 0;
    }

    method Search(v: T) returns (r: Option<T>)
      requires Valid()
      ensures r == Find(compare, contents, v)
    {
      assert Inside(0);
      var update, at := Descend(v);
      var current := update[0].forward[0];
      if current != null && compare(current.value, v) == 0 {
        r := Some(current.value);
      } else {
        r := None;
      }
    }

    method Contains(v: T) returns (b: bool)
      requires Valid()
      ensures b == Find(compare, contents, v).Some?
    {
      var r := Search(v);
      b := r.Some?;
    }

    method Size() returns (n: nat)
      requires Valid()
      ensures n == |contents|
    {
      assert Inside(0);
      n := length;
    }

    // The smallest value, if there is one.
    method Front() returns (r: Option<T>)
      requires Valid()
      ensures r == if contents == [] then None else Some(contents[0])
    {
      assert Inside(0);
      assert head.forward[0] == At(nodes, Next(heights, 0, 0));
      var node := head.forward[0];
      r := if node == null then None else Some(node.value);
    }

    method Insert(v: T)
      requires Valid()
      modifies Repr
      ensures Valid() && fresh(Repr - old(Repr))
      ensures contents == Put(compare, old(contents), v)
      ensures forall n :: n in old(nodes) ==> n in nodes
      ensures head == old(head)
    {
      assert Inside(0);
      ghost var p := Position(compare, contents, v);
      var update: seq<SkipNode<T>>, at: seq<nat> := Descend(v);
      var current := update[0].forward[0];
      if current != null && compare(current.value, v) == 0 {
        Overwrite(current, v, p);
        return;
      }
      PutSorted(compare, contents, v);
      Add(v, update, at, p);
    }

    method Add(v: T, update: seq<SkipNode<T>>, ghost at: seq<nat>, ghost p: nat)
      requires Intact() && |update| == level
      requires Predecessors(nodes, heights, p + 1, update, at, level)
      modifies Repr
      ensures Intact() && fresh(Repr - old(Repr))
      ensures contents == old(contents)[..p] + [v] + old(contents)[p..]
      ensures forall n :: n in old(nodes) ==> n in nodes
      ensures head == old(head)
    {
      var newLevel := RandomLevel();
      var update', at' := Extend(update, at, newLevel, p);
      MeasuredGrown(heights, level, p + 1, newLevel);
      var newNode := new SkipNode(v, newLevel);
      level, length := if newLevel > level then newLevel else level, length + 1;
      Splice(newNode, update', at', p);
    }

    // A node taller than every other one hangs off the head on its extra levels.
    method Extend(update: seq<SkipNode<T>>, ghost at: seq<nat>, newLevel: nat, ghost p: nat)
      returns (update': seq<SkipNode<T>>, ghost at': seq<nat>)
      requires Intact() && newLevel <= MAX_LEVEL && |update| == level
      requires Predecessors(nodes, heights, p + 1, update, at, level)
      ensures Predecessors(nodes, heights, p + 1, update', at', newLevel)
    {
      update', at' := update, at;
      while |update'| < newLevel
        invariant level <= |update'|
        invariant Predecessors(nodes, heights, p + 1, update', at', |update'|)
      {
        NextIsLeast(heights, 0, |at'|);
        update' := update' + [head];
        at' := at' + [0];
      }
    }

    method Overwrite(node: SkipNode<T>, v: T, ghost p: nat)
      requires Consistent()
      requires p == Position(compare, contents, v) < |contents| && node == nodes[p + 1]
      requires compare(contents[p], v) == 0
      modifies this`contents, node`value
      ensures Consistent() && contents == old(contents)[p := v]
    {
      PutSorted(compare, contents, v);
      node.value := v;
      contents := contents[p := v];
    }

    method Delete(v: T) returns (found: bool)
      requires Valid()
      modifies Repr
      ensures Valid() && fresh(Repr - old(Repr))
      ensures found == Find(compare, old(contents), v).Some?
      ensures contents == Remove(compare, old(contents), v)
      ensures found ==> var p := Position(compare, old(contents), v);
                nodes == old(nodes)[..p + 1] + old(nodes)[p + 2..]
      ensures !found ==> nodes == old(nodes)
    {
      assert Inside(0);
      ghost var p := Position(compare, contents, v);
      var update: seq<SkipNode<T>>, at: seq<nat> := Descend(v);
      var current := update[0].forward[0];
      if current == null || compare(current.value, v) != 0 {
        return false;
      }
      RemoveSorted(compare, contents, v);
      TakeOut(current, update, at, p);
      found := true;
    }

    method TakeOut(current: SkipNode<T>, update: seq<SkipNode<T>>, ghost at: seq<nat>, ghost p: nat)
      requires Intact() && p + 1 < |nodes| && current == nodes[p + 1] && |update| == level
      requires Predecessors(nodes, heights, p + 1, update, at, level)
      modifies Repr
      ensures Intact() && Repr == old(Repr)
      ensures contents == old(contents)[..p] + old(contents)[p + 1..]
      ensures nodes == old(nodes)[..p + 1] + old(nodes)[p + 2..]
    {
      Detach(current, update, at, p);
      length := length - 1;
      Lower();
    }

    method Detach(current: SkipNode<T>, update: seq<SkipNode<T>>, ghost at: seq<nat>, ghost p: nat)
      requires Shape() && Links(nodes, heights) && Measured(heights, level)
      requires p + 1 < |nodes| && current == nodes[p + 1] && |update| == level
      requires Predecessors(nodes, heights, p + 1, update, at, level)
      modifies this`contents, this`nodes, this`heights, nodes
      ensures Shape() && Links(nodes, heights) && Bounded(heights, level)
      ensures contents == old(contents[..p]) + old(contents[p + 1..])
      ensures nodes == old(nodes[..p + 1]) + old(nodes[p + 2..])
      ensures forall n :: n in nodes ==> n in old(nodes)
    {
      Unlink(current, update, nodes, heights, p + 1, at);
      assert Shape();
      Forget(p);
    }

    // The ghost half of a deletion.
    ghost method Forget(p: nat)
      requires Shape() && p + 1 < |nodes| && Bounded(heights, level)
      requires Links(nodes[..p + 1] + nodes[p + 2..], heights[..p + 1] + heights[p + 2..])
      modifies this`contents, this`nodes, this`heights
      ensures Shape() && Links(nodes, heights) && Bounded(heights, level)
      ensures contents == old(contents[..p]) + old(contents[p + 1..])
      ensures nodes == old(nodes[..p + 1]) + old(nodes[p + 2..])
      ensures heights == old(heights[..p + 1]) + old(heights[p + 2..])
      ensures forall n :: n in nodes ==> n in old(nodes)
    {
      DistinctShrunk(nodes, p + 1);
      ShrunkBounded(heights, level, p + 1);
      nodes := nodes[..p + 1] + nodes[p + 2..];
      heights := heights[..p + 1] + heights[p + 2..];
      contents := contents[..p] + contents[p + 1..];
    }

    // Unused top levels are given up.
    method Lower()
      requires Shape() && Links(nodes, heights)
      requires 1 <= level <= MAX_LEVEL && Bounded(heights, level)
      modifies this`level
      ensures Measured(heights, level)
    {
      while level > 1 && head.forward[level - 1] == null
        invariant 1 <= level <= MAX_LEVEL && Bounded(heights, level)
      {
        NextIsLeast(heights, 0, level - 1);
        level := level - 1;
      }
    }

    // Hooks a new node in behind update[i] on each of its levels.
    method Splice(newNode: SkipNode<T>, update: seq<SkipNode<T>>, ghost at: seq<nat>, ghost p: nat)
      requires Shape() && Links(nodes, heights)
      requires newNode !in nodes && 1 <= |newNode.forward|
      requires Predecessors(nodes, heights, p + 1, update, at, |newNode.forward|)
      modifies this, nodes, newNode
      ensures Repr == old(Repr) + {newNode} && Shape() && Links(nodes, heights)
      ensures newNode.value == old(newNode.value)
      ensures contents == old(contents[..p]) + [newNode.value] + old(contents[p..])
      ensures nodes == old(nodes[..p + 1]) + [newNode] + old(nodes[p + 1..])
      ensures heights == Grown(old(heights), p + 1, old(|newNode.forward|))
      ensures forall n :: n in nodes <==> n == newNode || n in old(nodes)
      ensures level == old(level) && length == old(length) && head == old(head)
    {
      Hook(newNode, update, nodes, at);
      HookedIsLinked(nodes, heights, newNode, p + 1, at);
      Record(newNode, p);
    }

    // The ghost half of an insertion.
    ghost method Record(newNode: SkipNode<T>, p: nat)
      requires Shape() && p < |nodes| && newNode !in nodes
      modifies this`contents, this`nodes, this`heights, this`Repr
      ensures Shape()
      ensures Repr == old(Repr) + {newNode}
      ensures contents == old(contents[..p]) + [newNode.value] + old(contents[p..])
      ensures nodes == old(nodes[..p + 1]) + [newNode] + old(nodes[p + 1..])
      ensures heights == Grown(old(heights), p + 1, |newNode.forward|)
      ensures forall n :: n in nodes <==> n == newNode || n in old(nodes)
    {
      DistinctGrown(nodes, newNode, p + 1);
      heights := Grown(heights, p + 1, |newNode.forward|);
      contents := contents[..p] + [newNode.value] + contents[p..];
      nodes := nodes[..p + 1] + [newNode] + nodes[p + 1..];
      Repr := Repr + {newNode};
    }
  }

  ghost predicate Links<T(0)>(nodes: seq<SkipNode<T>>, h: seq<nat>)
    reads (set n | n in nodes)`forward
  {
    && |nodes| == |h|
    && (forall k :: 0 <= k < |nodes| ==> |nodes[k].forward| == h[k])
    && (forall k, l {:trigger nodes[k].forward[l]} :: 0 <= k < |nodes| && 0 <= l < h[k] ==>
          nodes[k].forward[l] == At(nodes, Next(h, k, l)))
  }

  // The nodes met by following the level-i links from node k.
  ghost function Follow<T(0)>(nodes: seq<SkipNode<T>>, h: seq<nat>, k: nat, i: nat): seq<SkipNode<T>>
    requires Links(nodes, h) && k < |nodes| && i < h[k]
    reads (set n | n in nodes)`forward
    decreases |nodes| - k
  {
    var n := nodes[k].forward[i];
    NextIsLeast(h, k, i);
    if n == null then [] else [n] + Follow(nodes, h, Next(h, k, i), i)
  }

  function TallerThan<T>(nodes: seq<T>, h: seq<nat>, i: nat): (s: seq<T>)
    requires |nodes| == |h|
  {
    if h == [] then [] else (if h[0] > i then [nodes[0]] else []) + TallerThan(nodes[1..], h[1..], i)
  }

  // The chain of a level is the subsequence of the nodes that are tall enough for it.
  lemma {:induction false} LevelIsSubsequence<T(0)>(nodes: seq<SkipNode<T>>, h: seq<nat>, k: nat, i: nat)
    requires Links(nodes, h) && k < |nodes| && i < h[k]
    ensures Follow(nodes, h, k, i) == TallerThan(nodes[k + 1..], h[k + 1..], i)
    decreases |nodes| - k
  {
    var n := Next(h, k, i);
    NextIsLeast(h, k, i);
    SkipShort(nodes, h, k + 1, n, i);
    if n < |nodes| {
      LevelIsSubsequence(nodes, h, n, i);
      assert nodes[n..][1..] == nodes[n + 1..] && h[n..][1..] == h[n + 1..];
    }
  }

  lemma {:induction false} SkipShort<T>(nodes: seq<T>, h: seq<nat>, a: nat, b: nat, i: nat)
    requires a <= b <= |h| == |nodes| && forall m :: a <= m < b ==> h[m] <= i
    ensures TallerThan(nodes[a..], h[a..], i) == TallerThan(nodes[b..], h[b..], i)
    decreases b - a
  {
    if a < b {
      assert nodes[a..][1..] == nodes[a + 1..] && h[a..][1..] == h[a + 1..];
      SkipShort(nodes, h, a + 1, b, i);
    }
  }

  lemma DistinctGrown<T>(s: seq<T>, x: T, p: nat)
    requires p <= |s| && x !in s
    requires Distinct(s)
    ensures Distinct(s[..p] + [x] + s[p..])
    ensures forall y :: y in s[..p] + [x] + s[p..] <==> y == x || y in s
  {
  }

  lemma HookedIsLinked<T(0)>(nodes: seq<SkipNode<T>>, h: seq<nat>, n: SkipNode<T>, p: nat, at: seq<nat>)
    requires 0 < p <= |nodes| == |h| && LastBefore(h, p, at, |n.forward|)
    requires forall k :: 0 <= k < |nodes| ==> |nodes[k].forward| == h[k]
    requires forall l :: 0 <= l < |n.forward| ==> n.forward[l] == At(nodes, Next(h, at[l], l))
    requires forall k, l {:trigger nodes[k].forward[l]} :: 0 <= k < |nodes| && 0 <= l < h[k] ==>
               nodes[k].forward[l] ==
               if l < |n.forward| && k == at[l] then n else At(nodes, Next(h, k, l))
    ensures Links(nodes[..p] + [n] + nodes[p..], Grown(h, p, |n.forward|))
  {
    var x := |n.forward|;
    var g, gh := nodes[..p] + [n] + nodes[p..], Grown(h, p, x);
    forall k | 0 <= k < |g| ensures |g[k].forward| == gh[k] {
      assert g[k] == if k < p then nodes[k] else if k == p then n else nodes[k - 1];
    }
    forall k, l {:trigger g[k].forward[l]} | 0 <= k < |g| && 0 <= l < gh[k]
      ensures g[k].forward[l] == At(g, Next(gh, k, l))
    {
      HookedAt(nodes, h, n, p, at, k, l);
    }
  }

  // One link of the grown list, which was link l of node k or k - 1, or belongs to the new node.
  lemma HookedAt<T(0)>(nodes: seq<SkipNode<T>>, h: seq<nat>, n: SkipNode<T>, p: nat, at: seq<nat>, k: nat, l: nat)
    requires 0 < p <= |nodes| == |h| && k <= |nodes| && LastBefore(h, p, at, |n.forward|)
    requires l < Grown(h, p, |n.forward|)[k]
    requires k == p ==> n.forward[l] == At(nodes, Next(h, at[l], l))
    requires k != p ==>
               var i := if k < p then k else k - 1;
               && l < |nodes[i].forward|
               && nodes[i].forward[l] == if l < |n.forward| && i == at[l] then n else At(nodes, Next(h, i, l))
    ensures var g := nodes[..p] + [n] + nodes[p..];
            l < |g[k].forward| && g[k].forward[l] == At(g, Next(Grown(h, p, |n.forward|), k, l))
  {
    var g := nodes[..p] + [n] + nodes[p..];
    assert g[k] == if k < p then nodes[k] else if k == p then n else nodes[k - 1];
    LinksGrown(nodes, h, n, |n.forward|, p, at, k, l);
  }

  // The link updates of an insertion: at level i, update[i] now points to the new node,
  // which points to where update[i] pointed.
  method Hook<T(0)>(newNode: SkipNode<T>, update: seq<SkipNode<T>>,
                    ghost ns: seq<SkipNode<T>>, ghost at: seq<nat>)
    requires |newNode.forward| <= |update| == |at|
    requires newNode !in ns
    requires Distinct(ns)
    requires forall i :: 0 <= i < |newNode.forward| ==>
               at[i] < |ns| && update[i] == ns[at[i]] && |ns[at[i]].forward| > i
    modifies (set n | n in ns)`forward, newNode`forward
    ensures |newNode.forward| == old(|newNode.forward|)
    ensures forall k :: 0 <= k < |ns| ==> |ns[k].forward| == old(|ns[k].forward|)
    ensures forall k, l {:trigger ns[k].forward[l]} :: 0 <= k < |ns| && 0 <= l < |ns[k].forward| ==>
              ns[k].forward[l] ==
              if l < |newNode.forward| && k == at[l] then newNode else old(ns[k].forward[l])
    ensures forall l :: 0 <= l < |newNode.forward| ==> newNode.forward[l] == old(ns[at[l]].forward[l])
  {
    var x := |newNode.forward|;
    for i := 0 to x
      invariant |newNode.forward| == x
      invariant forall k :: 0 <= k < |ns| ==> |ns[k].forward| == old(|ns[k].forward|)
      invariant forall k, l {:trigger ns[k].forward[l]} :: 0 <= k < |ns| && 0 <= l < |ns[k].forward| ==>
                  ns[k].forward[l] == if l < i && k == at[l] then newNode else old(ns[k].forward[l])
      invariant forall l :: 0 <= l < i ==> newNode.forward[l] == old(ns[at[l]].forward[l])
    {
      newNode.forward := newNode.forward[i := update[i].forward[i]];
      update[i].forward := update[i].forward[i := newNode];
    }
  }

  // Where the last node before p points to p, p takes part in that level.
  lemma TallEnough<T(0)>(nodes: seq<SkipNode<T>>, h: seq<nat>, p: nat, at: seq<nat>)
    requires Distinct(nodes) && 0 < p < |nodes| == |h|
    requires LastBefore(h, p, at, |at|)
    ensures forall i :: 0 <= i < |at| && At(nodes, Next(h, at[i], i)) == nodes[p] ==> i < h[p]
  {
    forall i | 0 <= i < |at| && At(nodes, Next(h, at[i], i)) == nodes[p] ensures i < h[p] {
      assert Next(h, at[i], i) == p;
      NextIsLeast(h, at[i], i);
    }
  }

  // Where node k points at level l after Unhook.
  ghost function Unhooked<T(0)>(nodes: seq<SkipNode<T>>, h: seq<nat>, p: nat, at: seq<nat>, k: nat, l: nat)
    : SkipNode?<T>
    requires p < |nodes| == |h| && k < |h|
  {
    if l < |at| && k == at[l] && At(nodes, Next(h, k, l)) == nodes[p]
    then At(nodes, Next(h, p, l)) else At(nodes, Next(h, k, l))
  }

  // The link updates of a deletion: at level i, update[i] skips node p if it pointed to it.
  method Unhook<T(0)>(current: SkipNode<T>, update: seq<SkipNode<T>>,
                      ghost ns: seq<SkipNode<T>>, ghost h: seq<nat>, ghost p: nat, ghost at: seq<nat>)
    requires Links(ns, h) && Distinct(ns) && 0 < p < |ns| && current == ns[p] && h[p] <= |at|
    requires Predecessors(ns, h, p, update, at, |at|)
    modifies (set n | n in ns)`forward
    ensures forall k :: 0 <= k < |ns| ==> |ns[k].forward| == h[k]
    ensures forall k, l {:trigger ns[k].forward[l]} :: 0 <= k < |ns| && 0 <= l < h[k] ==>
              ns[k].forward[l] == Unhooked(ns, h, p, at, k, l)
  {
    TallEnough(ns, h, p, at);
    for i := 0 to |update|
      invariant forall k :: 0 <= k < |ns| ==> |ns[k].forward| == h[k]
      invariant forall k, l {:trigger ns[k].forward[l]} :: 0 <= k < |ns| && 0 <= l < h[k] ==>
                  ns[k].forward[l] == if l < i then Unhooked(ns, h, p, at, k, l) else At(ns, Next(h, k, l))
    {
      if update[i].forward[i] == current {
        update[i].forward := update[i].forward[i := current.forward[i]];
      }
    }
  }

  // After the link updates the links describe the list without node p.
  method Unlink<T(0)>(current: SkipNode<T>, update: seq<SkipNode<T>>,
                      ghost ns: seq<SkipNode<T>>, ghost h: seq<nat>, ghost p: nat, ghost at: seq<nat>)
    requires Links(ns, h) && Distinct(ns) && 0 < p < |ns| && current == ns[p] && h[p] <= |at|
    requires Predecessors(ns, h, p, update, at, |at|)
    modifies (set n | n in ns)`forward
    ensures Links(ns[..p] + ns[p + 1..], h[..p] + h[p + 1..])
  {
    Unhook(current, update, ns, h, p, at);
    UnhookedIsLinked(ns, h, p, at);
  }

  lemma DistinctShrunk<T>(s: seq<T>, p: nat)
    requires p < |s|
    requires Distinct(s)
    ensures Distinct(s[..p] + s[p + 1..])
    ensures forall y :: y in s[..p] + s[p + 1..] ==> y in s
  {
  }

  lemma UnhookedIsLinked<T(0)>(nodes: seq<SkipNode<T>>, h: seq<nat>, p: nat, at: seq<nat>)
    requires 0 < p < |nodes| == |h| && h[p] <= |at|
    requires forall k :: 0 <= k < |nodes| ==> |nodes[k].forward| == h[k]
    requires Distinct(nodes)
    requires LastBefore(h, p, at, |at|)
    requires forall k, l {:trigger nodes[k].forward[l]} :: 0 <= k < |nodes| && 0 <= l < h[k] ==>
               nodes[k].forward[l] == Unhooked(nodes, h, p, at, k, l)
    ensures Links(nodes[..p] + nodes[p + 1..], h[..p] + h[p + 1..])
  {
    var g, gh := nodes[..p] + nodes[p + 1..], h[..p] + h[p + 1..];
    forall k | 0 <= k < |g| ensures |g[k].forward| == gh[k] {
      assert g[k] == nodes[if k < p then k else k + 1];
    }
    forall k, l {:trigger g[k].forward[l]} | 0 <= k < |g| && 0 <= l < gh[k]
      ensures g[k].forward[l] == At(g, Next(gh, k, l))
    {
      var k' := if k < p then k else k + 1;
      assert g[k] == nodes[k'] && gh[k] == h[k'];
      LinksShrunk(nodes, h, p, at, k', l);
    }
  }

  lemma AtShrunk<T(0)>(nodes: seq<SkipNode<T>>, p: nat, j: nat)
    requires p < |nodes|
    ensures j < p ==> At(nodes[..p] + nodes[p + 1..], j) == At(nodes, j)
    ensures p < j ==> At(nodes[..p] + nodes[p + 1..], j - 1) == At(nodes, j)
  {
  }

  // After taking node p out, the links describe the shrunk list.
  lemma LinksShrunk<T(0)>(nodes: seq<SkipNode<T>>, h: seq<nat>, p: nat, at: seq<nat>, k: nat, l: nat)
    requires 0 < p < |nodes| == |h| && k < |nodes| && k != p && l < h[k] && h[p] <= |at|
    requires Distinct(nodes)
    requires LastBefore(h, p, at, |at|)
    ensures At(nodes[..p] + nodes[p + 1..],
               Next(h[..p] + h[p + 1..], if k < p then k else k - 1, l)) ==
            Unhooked(nodes, h, p, at, k, l)
  {
    var n := Next(h, k, l);
    NextShrunk(h, p, k, l);
    AtShrunk(nodes, p, n);
    if n == p {
      NextIsLeast(h, k, l);
      LastBeforeIsUnique(h, p, l, k, at[l]);
      AtShrunk(nodes, p, Next(h, p, l));
    }
  }

  lemma AtGrown<T(0)>(nodes: seq<SkipNode<T>>, n: SkipNode<T>, p: nat, j: nat)
    requires p <= |nodes|
    ensures j < p ==> At(nodes[..p] + [n] + nodes[p..], j) == At(nodes, j)
    ensures At(nodes[..p] + [n] + nodes[p..], p) == n
    ensures p <= j ==> At(nodes[..p] + [n] + nodes[p..], j + 1) == At(nodes, j)
  {
  }

  // After splicing node n of height x in at index p, the links describe the grown list.
  lemma LinksGrown<T(0)>(nodes: seq<SkipNode<T>>, h: seq<nat>, n: SkipNode<T>, x: nat, p: nat,
                         at: seq<nat>, k: nat, l: nat)
    requires 0 < p <= |nodes| == |h| && k <= |nodes|
    requires l < Grown(h, p, x)[k] && LastBefore(h, p, at, x)
    ensures At(nodes[..p] + [n] + nodes[p..], Next(Grown(h, p, x), k, l)) ==
            if k == p then At(nodes, Next(h, at[l], l))
            else if k > p then At(nodes, Next(h, k - 1, l))
            else if l < x && k == at[l] then n
            else At(nodes, Next(h, k, l))
  {
    if k == p {
      NextGrown(h, p, x, at[l], l);
      AtGrown(nodes, n, p, Next(h, at[l], l));
    } else if k > p {
      NextGrown(h, p, x, k - 1, l);
      AtGrown(nodes, n, p, Next(h, k - 1, l));
    } else {
      NextGrown(h, p, x, k, l);
      AtGrown(nodes, n, p, Next(h, k, l));
      if l < x && Next(h, k, l) >= p { LastBeforeIsUnique(h, p, l, k, at[l]); }
    }
  }

  // An iterator holds a node, not an index: it survives changes made behind it.
  class SkipIterator<T(0,!new)> {
    var current: SkipNode?<T>

    constructor (list: SkipList<T>)
      requires list.Valid()
      ensures current == At(list.nodes, 1)
    {
      assert Inside(0);
      assert list.nodes[0].forward[0] == At(list.nodes, Next(list.heights, 0, 0));
      current := list.head.forward[0];
    }

    // Returns the value of the current node and moves on; k is where the current node stands.
    method MoveNext(list: SkipList<T>, ghost k: nat) returns (r: Option<T>)
      requires list.Valid() && this !in list.Repr
      requires 0 < k <= |list.nodes| && current == At(list.nodes, k)
      modifies this
      ensures k < |list.nodes| ==> r == Some(list.contents[k - 1]) && current == At(list.nodes, k + 1)
      ensures k == |list.nodes| ==> r == None && current == null
    {
      assert Inside(0);
      if current == null {
        return None;
      }
      r := Some(current.value);
      assert list.nodes[k].forward[0] == At(list.nodes, Next(list.heights, k, 0));
      current := current.forward[0];
    }
  }
}
